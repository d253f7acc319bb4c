/** OpenSSH certificates: option tuples in lexical order, and the certificate as a whole. */
module SshCerts {
  import opened Bytes
  import opened SshMessages

  // ----- Lexical order ------------------------------------------------------

  /** The order of Go strings: byte by byte, a prefix first. */
  predicate Less(a: Str, b: Str)
  {
    if |b| == 0 then false
    else if |a| == 0 then true
    else if a[0] != b[0] then a[0] < b[0]
    else Less(a[1..], b[1..])
  }

  lemma {:induction false} LessTotal(a: Str, b: Str)
    ensures a == b || Less(a, b) || Less(b, a)
    ensures !(Less(a, b) && Less(b, a)) && !Less(a, a)
  {
    if |a| > 0 && |b| > 0 && a[0] == b[0] {
      LessTotal(a[1..], b[1..]);
      assert a == [a[0]] + a[1..] && b == [b[0]] + b[1..];
    }
    if |a| > 0 {
      LessTotal(a[1..], a[1..]);
    }
  }

  /** a comes first if and only if it is a proper beginning of b, or is smaller where they first differ. */
  lemma {:induction false} LessIff(a: Str, b: Str)
    ensures Less(a, b) <==> exists i :: FirstSmaller(a, b, i)
  {
    if |a| > 0 && |b| > 0 && a[0] == b[0] {
      LessIff(a[1..], b[1..]);
      if i :| FirstSmaller(a[1..], b[1..], i) {
        assert a[..i + 1] == [a[0]] + a[1..][..i] && b[..i + 1] == [b[0]] + b[1..][..i];
        assert FirstSmaller(a, b, i + 1);
      }
      if i :| FirstSmaller(a, b, i) {
        if i > 0 {
          assert a[1..][..i - 1] == a[..i][1..] && b[1..][..i - 1] == b[..i][1..];
          assert FirstSmaller(a[1..], b[1..], i - 1);
        }
      }
    } else {
      assert forall i :: 0 < i <= |a| && i < |b| && a[..i] == b[..i] ==> a[0] == a[..i][0] == b[..i][0] == b[0];
      assert FirstSmaller(a, b, 0) <==> Less(a, b);
    }
  }

  /** The two agree up to i, and there a ends or is smaller. */
  ghost predicate FirstSmaller(a: Str, b: Str, i: int)
  {
    0 <= i <= |a| && i < |b| && a[..i] == b[..i] && (i == |a| || a[i] < b[i])
  }

  lemma {:induction false} LessTransitive(a: Str, b: Str, c: Str)
    requires Less(a, b) && Less(b, c)
    ensures Less(a, c)
  {
    if |a| > 0 && a[0] == b[0] == c[0] {
      LessTransitive(a[1..], b[1..], c[1..]);
    }
  }

  /** Each key strictly after the one before it. */
  ghost predicate Ascending(ks: seq<Str>)
  {
    forall i, j :: 0 <= i < j < |ks| ==> Less(ks[i], ks[j])
  }

  /** Inserts a key in its place. */
  function Insert(ks: seq<Str>, k: Str): (r: seq<Str>)
  {
    if |ks| == 0 then [k]
    else if Less(k, ks[0]) then [k] + ks
    else [ks[0]] + Insert(ks[1..], k)
  }

  lemma {:induction false} InsertAscending(ks: seq<Str>, k: Str)
    requires Ascending(ks) && k !in ks
    ensures Ascending(Insert(ks, k))
    ensures forall x :: x in Insert(ks, k) <==> x == k || x in ks
  {
    if |ks| > 0 {
      var rest := ks[1..];
      assert ks == [ks[0]] + rest;
      LessTotal(k, ks[0]);
      if Less(k, ks[0]) {
        forall j | 0 <= j < |ks| ensures Less(k, ks[j]) {
          if j > 0 { LessTransitive(k, ks[0], ks[j]); }
        }
      } else {
        InsertAscending(rest, k);
        var r := Insert(rest, k);
        forall j | 0 <= j < |r| ensures Less(ks[0], r[j]) {
          assert r[j] in r;
          if r[j] != k {
            var i :| 0 <= i < |rest| && rest[i] == r[j];
            assert ks[i + 1] == rest[i];
          }
        }
      }
    }
  }

  /** A set of keys has one ascending order. */
  lemma {:induction false} AscendingUnique(xs: seq<Str>, ys: seq<Str>)
    requires Ascending(xs) && Ascending(ys) && forall x :: x in xs <==> x in ys
    ensures xs == ys
  {
    assert |xs| > 0 ==> xs[0] in ys;
    assert |ys| > 0 ==> ys[0] in xs;
    if |xs| > 0 {
      FirstIsLeast(xs, ys);
      FirstIsLeast(ys, xs);
      LessTotal(xs[0], ys[0]);
      RestHasRest(xs, ys);
      RestHasRest(ys, xs);
      AscendingUnique(xs[1..], ys[1..]);
      assert xs == [xs[0]] + xs[1..] && ys == [ys[0]] + ys[1..];
    }
  }

  lemma FirstIsLeast(xs: seq<Str>, ys: seq<Str>)
    requires Ascending(xs) && |xs| > 0 && |ys| > 0 && forall x :: x in ys ==> x in xs
    ensures xs[0] == ys[0] || Less(xs[0], ys[0])
  {
    assert ys[0] in xs;
  }

  lemma RestHasRest(xs: seq<Str>, ys: seq<Str>)
    requires Ascending(xs) && |xs| > 0 && |ys| > 0 && xs[0] == ys[0] && forall x :: x in xs ==> x in ys
    ensures forall x :: x in xs[1..] ==> x in ys[1..]
  {
    forall x | x in xs[1..]
      ensures x in ys[1..]
    {
      var i :| 1 <= i < |xs| && xs[i] == x;
      LessTotal(xs[0], x);
      assert x in xs;
      var j :| 0 <= j < |ys| && ys[j] == x;
      assert j > 0 && ys[1..][j - 1] == x;
    }
  }

  // ----- Option tuples ------------------------------------------------------

  /** The keys of a map in ascending order. */
  ghost function Keys(m: map<Str, Str>): (ks: seq<Str>)
    ensures Ascending(ks) && forall k :: k in ks <==> k in m
  {
    KeysExist(m);
    var ks :| Ascending(ks) && forall k :: k in ks <==> k in m;
    ks
  }

  lemma {:induction false} KeysExist(m: map<Str, Str>)
    ensures exists ks :: Ascending(ks) && forall k :: k in ks <==> k in m
    decreases |m|
  {
    if m == map[] {
      var ks: seq<Str> := [];
      assert Ascending(ks) && forall k :: k in ks <==> k in m;
    } else {
      var k :| k in m;
      var m1 := m - {k};
      assert |m1.Keys| < |m.Keys| by { assert m.Keys == m1.Keys + {k}; }
      KeysExist(m1);
      var ks :| Ascending(ks) && forall x :: x in ks <==> x in m1;
      InsertAscending(ks, k);
      var ks' := Insert(ks, k);
      assert forall x :: x in ks' <==> x in m;
    }
  }

  /** A key and its value; a non-empty value has a second length prefix inside the first. */
  function PairBytes(k: Str, v: Str): (bs: seq<byte>)
    ensures |bs| > 0
  {
    StringBytes(k) + StringBytes(ValueBytes(v))
  }

  /** A tuple byte by byte: a length and the key; then 0 for no value, or two lengths and the value. */
  lemma PairLayout(k: Str, v: Str)
    ensures v == [] ==> PairBytes(k, v) == ToBE(|k|, 4) + k + ToBE(0, 4)
    ensures v != [] ==> PairBytes(k, v) == ToBE(|k|, 4) + k + ToBE(4 + |v|, 4) + ToBE(|v|, 4) + v
  {
    hide ToBE;
  }

  ghost function PairsBytes(ks: seq<Str>, m: map<Str, Str>): (bs: seq<byte>)
    requires forall k :: k in ks ==> k in m
  {
    if |ks| == 0 then [] else PairBytes(ks[0], m[ks[0]]) + PairsBytes(ks[1..], m)
  }

  /** What marshalTuples gives. */
  ghost function TuplesBytes(m: map<Str, Str>): (bs: seq<byte>)
  {
    PairsBytes(Keys(m), m)
  }

  datatype CertError = BadString | NotInOrder | TrailingData | BadKey | BadGeneric | BadSignature | UnknownAlgorithm

  type ParsedTuples = Result<map<Str, Str>, CertError>

  function ParseTuplesFrom(data: seq<byte>, last: Option<Str>, tups: map<Str, Str>): (r: ParsedTuples)
    decreases |data|
  {
    if |data| == 0 then Ok(tups)
    else
      match ParseString(data)
      case None => Err(BadString)
      case Some((key, data1)) =>
        if last.Some? && !Less(last.value, key) then Err(NotInOrder)
        else
          match ParseString(data1)
          case None => Err(BadString)
          case Some((val, data2)) =>
            if |val| > 0 then
              match ParseString(val)
              case None => Err(BadString)
              case Some((inner, extra)) =>
                if |extra| > 0 then Err(TrailingData)
                else ParseTuplesFrom(data2, Some(key), tups[key := inner])
            else ParseTuplesFrom(data2, Some(key), tups[key := []])
  }

  /** The bytes of a value, with its own length prefix unless it is empty. */
  function ValueBytes(v: Str): (bs: seq<byte>)
  {
    if |v| > 0 then StringBytes(v) else []
  }

  /** A tuple of which both strings can be read back when `after` bytes follow it. */
  predicate PairFits(k: Str, v: Str, after: nat)
  {
    Fits(|k|, 4 + |ValueBytes(v)| + after) && Fits(|ValueBytes(v)|, after)
  }

  ghost predicate TuplesFit(ks: seq<Str>, m: map<Str, Str>)
    requires forall k :: k in ks ==> k in m
  {
    |ks| == 0 || (PairFits(ks[0], m[ks[0]], |PairsBytes(ks[1..], m)|) && TuplesFit(ks[1..], m))
  }

  /** One tuple that fits is read back, and its key remembered. */
  lemma ParsePair(k: Str, v: Str, rest: seq<byte>, last: Option<Str>, tups: map<Str, Str>)
    requires PairFits(k, v, |rest|) && (last.Some? ==> Less(last.value, k))
    ensures ParseTuplesFrom(PairBytes(k, v) + rest, last, tups) == ParseTuplesFrom(rest, Some(k), tups[k := v])
  {
    hide ParseString, Less;
    var val := ValueBytes(v);
    assert PairBytes(k, v) + rest == StringBytes(k) + (StringBytes(val) + rest);
    ParseStringIff(k, StringBytes(val) + rest);
    ParseStringIff(val, rest);
    if |v| > 0 {
      ParseStringIff(v, []);
      assert StringBytes(v) + [] == val;
    }
  }

  /** What parsing adds comes after the last key: nothing up to it is touched. */
  ghost predicate AddedAfter(last: Str, tups: map<Str, Str>, r: map<Str, Str>)
  {
    && (forall k :: k in r && k !in tups ==> Less(last, k))
    && (forall k :: k in tups ==> k in r && (r[k] == tups[k] || Less(last, k)))
  }

  lemma {:induction false} ParsedAfter(data: seq<byte>, last: Str, tups: map<Str, Str>)
    requires ParseTuplesFrom(data, Some(last), tups).Ok?
    ensures AddedAfter(last, tups, ParseTuplesFrom(data, Some(last), tups).value)
    decreases |data|
  {
    hide ParseString, Less;
    if |data| > 0 {
      var (key, data1) := ParseString(data).value;
      var (val, data2) := ParseString(data1).value;
      var value := if |val| > 0 then ParseString(val).value.0 else [];
      ParsedAfter(data2, key, tups[key := value]);
      AfterBoth(last, key, value, tups, ParseTuplesFrom(data, Some(last), tups).value);
    }
  }

  lemma AfterBoth(last: Str, key: Str, value: Str, tups: map<Str, Str>, r: map<Str, Str>)
    requires Less(last, key) && AddedAfter(key, tups[key := value], r)
    ensures AddedAfter(last, tups, r)
  {
    hide Less;
    forall k | Less(key, k)
      ensures Less(last, k)
    {
      LessTransitive(last, key, k);
    }
  }

  /** A tuple that does not fit is not read back, whatever its bytes are taken for. */
  lemma MisreadPair(ks: seq<Str>, m: map<Str, Str>, last: Option<Str>, tups: map<Str, Str>)
    requires |ks| > 0 && Ascending(ks) && forall k :: k in ks ==> k in m && k !in tups
    requires forall k :: k in m ==> k in ks || k in tups
    requires forall k :: k in tups ==> last.Some? && !Less(last.value, k)
    requires !PairFits(ks[0], m[ks[0]], |PairsBytes(ks[1..], m)|)
    ensures ParseTuplesFrom(PairsBytes(ks, m), last, tups) != Ok(m)
  {
    hide ParseString, Less, PairBytes, PairsBytes, ParseTuplesFrom, Ascending, PairFits;
    var k0, v0 := ks[0], m[ks[0]];
    var rest := PairsBytes(ks[1..], m);
    var data := PairsBytes(ks, m);
    PairsFirst(ks, m);
    Misparsed(k0, v0, rest);
    ParseStep(data, last, tups);
    if ParseTuplesFrom(data, last, tups) == Ok(m) {
      var (key, data1) := ParseString(data).value;
      var (val, data2) := ParseString(data1).value;
      var value := if |val| > 0 then ParseString(val).value.0 else [];
      ParsedAfter(data2, key, tups[key := value]);
      if key != k0 {
        KeyMissed(ks, m, last, tups, key, value);
      } else {
        LessTotal(key, key);
      }
    }
  }

  /** The first key read is shorter, or the first value is. */
  lemma Misparsed(k: Str, v: Str, rest: seq<byte>)
    requires !PairFits(k, v, |rest|)
    ensures var p := ParseString(PairBytes(k, v) + rest);
      p.Some? && p.value.0 == k ==>
        var q := ParseString(p.value.1);
        q.Some? ==> |q.value.0| < |ValueBytes(v)| && |v| > 0
  {
    hide ParseString;
    var val := ValueBytes(v);
    assert PairBytes(k, v) + rest == StringBytes(k) + (StringBytes(val) + rest);
    ParseStringIff(k, StringBytes(val) + rest);
    ParseStringIff(val, rest);
  }

  lemma PairsFirst(ks: seq<Str>, m: map<Str, Str>)
    requires |ks| > 0 && forall k :: k in ks ==> k in m
    ensures PairsBytes(ks, m) == PairBytes(ks[0], m[ks[0]]) + PairsBytes(ks[1..], m)
  {
  }

  /** The first tuple of data, if all of it is parsed. */
  lemma ParseStep(data: seq<byte>, last: Option<Str>, tups: map<Str, Str>)
    ensures ParseTuplesFrom(data, last, tups).Ok? && |data| > 0 ==>
      && ParseString(data).Some? && ParseString(ParseString(data).value.1).Some?
      && var key := ParseString(data).value.0;
         var (val, rest) := ParseString(ParseString(data).value.1).value;
         && (last.Some? ==> Less(last.value, key))
         && (|val| > 0 ==> ParseString(val).Some? && |ParseString(val).value.1| == 0)
         && var value := if |val| > 0 then ParseString(val).value.0 else [];
            ParseTuplesFrom(data, last, tups) == ParseTuplesFrom(rest, Some(key), tups[key := value])
  {
    hide ParseString, Less;
  }

  /** With another key read in its place, the least key that is left is never read. */
  lemma KeyMissed(ks: seq<Str>, m: map<Str, Str>, last: Option<Str>, tups: map<Str, Str>, key: Str, value: Str)
    requires |ks| > 0 && Ascending(ks) && forall k :: k in ks ==> k in m && k !in tups
    requires forall k :: k in m ==> k in ks || k in tups
    requires forall k :: k in tups ==> last.Some? && !Less(last.value, k)
    requires key != ks[0] && (last.Some? ==> Less(last.value, key))
    ensures !AddedAfter(key, tups[key := value], m)
  {
    if AddedAfter(key, tups[key := value], m) {
      assert key in m && key in ks;
      assert ks[0] in ks && Less(key, ks[0]);
      var i :| 0 < i < |ks| && ks[i] == key;
      LessTotal(ks[0], ks[i]);
    }
  }

  /** What is left of the tuples, after those of tups, is read back if and only if it fits. */
  lemma {:induction false} ParsePairsIff(ks: seq<Str>, m: map<Str, Str>, last: Option<Str>, tups: map<Str, Str>)
    requires Ascending(ks) && forall k :: k in ks ==> k in m && k !in tups
    requires forall k :: k in m ==> k in ks || (k in tups && tups[k] == m[k])
    requires forall k :: k in tups ==> k in m && last.Some? && !Less(last.value, k)
    requires last.Some? && |ks| > 0 ==> Less(last.value, ks[0])
    ensures ParseTuplesFrom(PairsBytes(ks, m), last, tups) == Ok(m) <==> TuplesFit(ks, m)
    decreases |ks|
  {
    hide PairBytes, Less, Ascending, ParseString, PairFits;
    if |ks| == 0 {
      assert tups == m;
    } else {
      var k0, rest := ks[0], ks[1..];
      if PairFits(k0, m[k0], |PairsBytes(rest, m)|) {
        AscendingRest(ks);
        ParsePair(k0, m[k0], PairsBytes(rest, m), last, tups);
        FirstOnce(ks);
        forall k | k in tups[k0 := m[k0]]
          ensures !Less(k0, k)
        {
          NotBelow(last, k0, k, tups);
        }
        ParsePairsIff(rest, m, Some(k0), tups[k0 := m[k0]]);
      } else {
        MisreadPair(ks, m, last, tups);
      }
    }
  }

  lemma NotBelow(last: Option<Str>, k0: Str, k: Str, tups: map<Str, Str>)
    requires last.Some? ==> Less(last.value, k0)
    requires k == k0 || (k in tups && last.Some? && !Less(last.value, k))
    ensures !Less(k0, k)
  {
    hide Less;
    LessTotal(k0, k);
    if k != k0 && Less(k0, k) {
      LessTransitive(last.value, k0, k);
    }
  }

  lemma AscendingRest(ks: seq<Str>)
    requires Ascending(ks) && |ks| > 0
    ensures Ascending(ks[1..]) && (|ks| > 1 ==> Less(ks[0], ks[1..][0]))
  {
  }

  lemma FirstOnce(ks: seq<Str>)
    requires Ascending(ks) && |ks| > 0
    ensures ks[0] !in ks[1..]
  {
    if ks[0] in ks[1..] {
      var i :| 1 <= i < |ks| && ks[i] == ks[0];
      LessTotal(ks[0], ks[i]);
    }
  }

  /** A map of options comes back, empty and non-empty values alike, if and only if its tuples fit. */
  lemma TuplesRoundTripIff(m: map<Str, Str>)
    ensures ParseTuplesFrom(TuplesBytes(m), None, map[]) == Ok(m) <==> TuplesFit(Keys(m), m)
  {
    hide ParseTuplesFrom, PairsBytes;
    ParsePairsIff(Keys(m), m, None, map[]);
  }

  lemma {:induction false} ShortPairsFit(ks: seq<Str>, m: map<Str, Str>)
    requires forall k :: k in ks ==> k in m
    requires |PairsBytes(ks, m)| < U32_LIMIT
    ensures TuplesFit(ks, m)
  {
    if |ks| > 0 {
      hide PairBytes, PairsBytes, PairFits;
      PairsFirst(ks, m);
      assert ks[0] in ks;
      ShortPairFits(ks[0], m[ks[0]], |PairsBytes(ks[1..], m)|);
      ShortPairsFit(ks[1..], m);
    }
  }

  lemma ShortPairFits(k: Str, v: Str, after: nat)
    requires |PairBytes(k, v)| + after < U32_LIMIT
    ensures PairFits(k, v, after)
  {
    hide StringBytes, ValueBytes;
  }

  /** As they do in fewer than 2^32 bytes. */
  lemma ShortTuples(m: map<Str, Str>)
    requires |TuplesBytes(m)| < U32_LIMIT
    ensures ParseTuplesFrom(TuplesBytes(m), None, map[]) == Ok(m)
  {
    hide ParseTuplesFrom, PairsBytes, TuplesFit;
    TuplesRoundTripIff(m);
    ShortPairsFit(Keys(m), m);
  }

  /** marshalTuples: collects the keys in any order, sorts them, and writes each tuple. */
  method MarshalTuples(tups: map<Str, Str>) returns (ret: seq<byte>)
    ensures ret == TuplesBytes(tups)
  {
    hide PairBytes, Less;
    var keys: seq<Str> := [];
    var left := tups.Keys;
    while left != {}
      invariant left <= tups.Keys && Ascending(keys)
      invariant forall k :: k in keys <==> k in tups && k !in left
      decreases left
    {
      var k :| k in left;
      InsertAscending(keys, k);
      keys, left := Insert(keys, k), left - {k};
    }
    AscendingUnique(keys, Keys(tups));
    ret := [];
    var i := 0;
    while i < |keys|
      invariant 0 <= i <= |keys| && ret + PairsBytes(keys[i..], tups) == TuplesBytes(tups)
    {
      assert keys[i] in keys && keys[i..][1..] == keys[i + 1..];
      ret := ret + PairBytes(keys[i], tups[keys[i]]);
      i := i + 1;
    }
    assert ret + [] == ret;
  }

  /** parseTuples. */
  method ParseTuples(data: seq<byte>) returns (r: Result<map<Str, Str>, CertError>)
    ensures r == ParseTuplesFrom(data, None, map[])
  {
    hide ParseString, Less;
    var rest, tups: map<Str, Str> := data, map[];
    var last: Option<Str> := None;
    while |rest| > 0
      invariant ParseTuplesFrom(rest, last, tups) == ParseTuplesFrom(data, None, map[])
      decreases |rest|
    {
      var one := ParseString(rest);
      if one.None? {
        return Err(BadString);
      }
      var key := one.value.0;
      if last.Some? && !Less(last.value, key) {
        return Err(NotInOrder);
      }
      last := Some(key);
      var two := ParseString(one.value.1);
      if two.None? {
        return Err(BadString);
      }
      var val := two.value.0;
      if |val| > 0 {
        var inner := ParseString(val);
        if inner.None? {
          return Err(BadString);
        }
        if |inner.value.1| > 0 {
          return Err(TrailingData);
        }
        val := inner.value.0;
      }
      tups := tups[key := val];
      rest := two.value.1;
    }
    r := Ok(tups);
  }
}
