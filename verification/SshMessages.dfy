/**
 * SSH messages: strings, name-lists and whole structs, marshalled and parsed
 * by a schema that lists the kinds of their fields.
 */
module SshMessages {
  import opened Bytes
  import opened SshInt

  const COMMA: byte := 44

  // ----- Strings ------------------------------------------------------------

  function StringBytes(bs: seq<byte>): (r: seq<byte>)
    ensures |r| == 4 + |bs|
  {
    ToBE(|bs|, 4) + bs
  }

  /** parseString: what is left is measured in 32 bits, like the length it is compared with. */
  function ParseString(data: seq<byte>): (r: Option<(seq<byte>, seq<byte>)>)
    ensures r.Some? ==> |r.value.0| + |r.value.1| + 4 == |data|
  {
    if |data| < 4 then None
    else
      var length := FromBE(data[..4]);
      var rest := data[4..];
      if |rest| % U32_LIMIT < length then None else Some((rest[..length], rest[length..]))
  }

  /** A string of n bytes followed by `after` more can be read back. */
  predicate Fits(n: nat, after: nat)
  {
    n < U32_LIMIT && (n + after) % U32_LIMIT >= n
  }

  /** A string comes back if it fits, and only then. */
  lemma ParseStringIff(bs: seq<byte>, rest: seq<byte>)
    ensures Fits(|bs|, |rest|) ==> ParseString(StringBytes(bs) + rest) == Some((bs, rest))
    ensures !Fits(|bs|, |rest|) ==>
      var r := ParseString(StringBytes(bs) + rest);
      r.None? || |r.value.0| < |bs|
  {
    hide ToBE, FromBE;
    var data := StringBytes(bs) + rest;
    FromToBE32(|bs|);
    assert data[..4] == ToBE(|bs|, 4);
    assert data[4..] == bs + rest;
    if Fits(|bs|, |rest|) {
      assert (bs + rest)[..|bs|] == bs && (bs + rest)[|bs|..] == rest;
    }
  }

  // ----- Name lists ---------------------------------------------------------

  function Join(names: seq<seq<byte>>): (r: seq<byte>)
  {
    if |names| == 0 then []
    else if |names| == 1 then names[0]
    else names[0] + [COMMA] + Join(names[1..])
  }

  /** bytes.Split at each comma. */
  function Split(c: seq<byte>): (r: seq<seq<byte>>)
    ensures |r| >= 1
  {
    if |c| == 0 then [[]]
    else
      var r := Split(c[1..]);
      if c[0] == COMMA then [[]] + r else [[c[0]] + r[0]] + r[1..]
  }

  function ParseNames(c: seq<byte>): (names: seq<seq<byte>>)
  {
    if |c| == 0 then [] else Split(c)
  }

  function Commas(c: seq<byte>): (n: nat)
  {
    if |c| == 0 then 0 else (if c[0] == COMMA then 1 else 0) + Commas(c[1..])
  }

  /** The name-lists that come back: no name holds a comma, and not the one empty name alone. */
  predicate NamesOK(names: seq<seq<byte>>)
  {
    names != [[]] && forall i :: 0 <= i < |names| ==> COMMA !in names[i]
  }

  lemma {:induction false} SplitOne(name: seq<byte>, rest: seq<byte>)
    requires COMMA !in name
    ensures Split(name) == [name]
    ensures Split(name + [COMMA] + rest) == [name] + Split(rest)
  {
    var c := name + [COMMA] + rest;
    if |name| == 0 {
      assert c[1..] == rest;
    } else {
      SplitOne(name[1..], rest);
      assert c[1..] == name[1..] + [COMMA] + rest;
      assert name == [name[0]] + name[1..];
    }
  }

  lemma {:induction false} SplitJoin(names: seq<seq<byte>>)
    requires |names| > 0 && forall i :: 0 <= i < |names| ==> COMMA !in names[i]
    ensures Split(Join(names)) == names
  {
    SplitOne(names[0], Join(names[1..]));
    if |names| > 1 {
      SplitJoin(names[1..]);
      assert names == [names[0]] + names[1..];
    } else {
      assert names == [names[0]];
    }
  }

  lemma {:induction false} SplitCounts(c: seq<byte>)
    ensures |Split(c)| == 1 + Commas(c)
  {
    if |c| > 0 {
      SplitCounts(c[1..]);
    }
  }

  lemma {:induction false} CommasConcat(a: seq<byte>, b: seq<byte>)
    ensures Commas(a + b) == Commas(a) + Commas(b)
  {
    if |a| == 0 {
      assert a + b == b;
    } else {
      CommasConcat(a[1..], b);
      assert (a + b)[1..] == a[1..] + b;
    }
  }

  lemma {:induction false} CommasPresent(c: seq<byte>)
    ensures Commas(c) > 0 <==> COMMA in c
  {
    if |c| > 0 {
      CommasPresent(c[1..]);
    }
  }

  /** A comma in a name makes the parsed list longer. */
  lemma {:induction false} JoinCommas(names: seq<seq<byte>>)
    requires |names| > 0
    ensures Commas(Join(names)) >= |names| - 1
    ensures (exists i :: 0 <= i < |names| && COMMA in names[i]) ==> Commas(Join(names)) >= |names|
  {
    CommasPresent(names[0]);
    if |names| > 1 {
      JoinCommas(names[1..]);
      CommasConcat(names[0] + [COMMA], Join(names[1..]));
      CommasConcat(names[0], [COMMA]);
      assert Commas([COMMA]) == 1 + Commas([]) by { assert [COMMA][1..] == []; }
      if i :| 1 <= i < |names| && COMMA in names[i] {
        assert COMMA in names[1..][i - 1];
      }
    }
  }

  lemma NamesRoundTripIff(names: seq<seq<byte>>)
    ensures ParseNames(Join(names)) == names <==> NamesOK(names)
  {
    hide Split, Commas, Join;
    JoinShape(names);
    if |names| > 0 {
      SplitCounts(Join(names));
      JoinCommas(names);
      if NamesOK(names) {
        SplitJoin(names);
      }
    }
  }

  lemma JoinShape(names: seq<seq<byte>>)
    ensures |names| == 0 ==> Join(names) == []
    ensures |names| == 1 ==> Join(names) == names[0]
    ensures |names| > 1 ==> |Join(names)| > 0
  {
  }

  // ----- Fields -------------------------------------------------------------

  /** The kind of a struct field; Rest takes all that is left. */
  datatype Field =
    | FBool | FArray(n: nat) | FU8 | FU32 | FU64 | FString | FBytes | FNames | FInt | FRest

  datatype Value =
    | VBool(b: bool)
    | VArray(a: seq<byte>)
    | VU8(u8: byte)
    | VU32(u32: nat)
    | VU64(u64: nat)
    | VString(s: seq<byte>)
    | VBytes(bs: seq<byte>)
    | VNames(names: seq<seq<byte>>)
    | VInt(n: int)
    | VRest(rest: seq<byte>)

  datatype Error = ShortRead | BadField | ParseError(tag: byte) | UnexpectedType(got: byte)

  ghost predicate HasType(v: Value, f: Field)
  {
    match f
    case FBool => v.VBool?
    case FArray(n) => v.VArray? && |v.a| == n
    case FU8 => v.VU8?
    case FU32 => v.VU32? && v.u32 < U32_LIMIT
    case FU64 => v.VU64? && v.u64 < U64_LIMIT
    case FString => v.VString?
    case FBytes => v.VBytes?
    case FNames => v.VNames?
    case FInt => v.VInt?
    case FRest => v.VRest?
  }

  function MarshalField(v: Value): (bs: seq<byte>)
  {
    match v
    case VBool(b) => [if b then 1 else 0]
    case VArray(a) => a
    case VU8(x) => [x]
    case VU32(x) => ToBE(x, 4)
    case VU64(x) => ToBE(x, 8)
    case VString(s) => StringBytes(s)
    case VBytes(bs) => StringBytes(bs)
    case VNames(names) => StringBytes(Join(names))
    case VInt(n) => StringBytes(IntContent(n))
    case VRest(rest) => rest
  }

  /** How each kind of value stands on the wire: sections 5 of RFC 4251 and its data types. */
  lemma FieldLayout(v: Value)
    ensures v.VBool? ==> MarshalField(v) == if v.b then [1] else [0]
    ensures v.VU32? && v.u32 < U32_LIMIT ==>
      var x := v.u32;
      MarshalField(v) == [x / 0x100_0000, x / 0x1_0000 % 0x100, x / 0x100 % 0x100, x % 0x100]
    ensures v.VString? || v.VBytes? ==>
      var s := if v.VString? then v.s else v.bs;
      |s| < U32_LIMIT ==>
        MarshalField(v) == [|s| / 0x100_0000, |s| / 0x1_0000 % 0x100, |s| / 0x100 % 0x100, |s| % 0x100] + s
    ensures v.VNames? && |v.names| == 2 ==>
      MarshalField(v) == StringBytes(v.names[0] + [44] + v.names[1])
  {
    hide IntContent;
    match v
    case VU32(x) => FourBigEndian(x);
    case VString(s) => FourBigEndian(|s|);
    case VBytes(s) => FourBigEndian(|s|);
    case VNames(names) => TwoNames(names);
    case _ =>
  }

  lemma TwoNames(names: seq<seq<byte>>)
    ensures |names| == 2 ==> Join(names) == names[0] + [44] + names[1]
  {
    if |names| == 2 {
      assert names[1..] == [names[1]] && Join([names[1]]) == names[1];
    }
  }

  lemma FourBigEndian(x: nat)
    ensures x < U32_LIMIT ==>
      ToBE(x, 4) == [x / 0x100_0000, x / 0x1_0000 % 0x100, x / 0x100 % 0x100, x % 0x100]
  {
    if x < U32_LIMIT {
      var x1, x2, x3 := x / 0x100, x / 0x1_0000, x / 0x100_0000;
      assert x1 / 0x100 == x2 && x2 / 0x100 == x3 && x3 < 0x100;
      assert ToBE(x3, 1) == ToBE(x3 / 0x100, 0) + [x3 % 0x100] == [x3];
      assert ToBE(x2, 2) == ToBE(x3, 1) + [x2 % 0x100];
      assert ToBE(x1, 3) == ToBE(x2, 2) + [x1 % 0x100];
      assert ToBE(x, 4) == ToBE(x1, 3) + [x % 0x100];
    }
  }

  type Parsed = Result<(Value, seq<byte>), Error>

  function ParseField(f: Field, data: seq<byte>): (r: Parsed)
  {
    match f
    case FBool => if |data| < 1 then Err(ShortRead) else Ok((VBool(data[0] != 0), data[1..]))
    case FArray(n) => if |data| < n then Err(ShortRead) else Ok((VArray(data[..n]), data[n..]))
    case FU8 => if |data| < 1 then Err(ShortRead) else Ok((VU8(data[0]), data[1..]))
    case FU32 => if |data| < 4 then Err(ShortRead) else Ok((VU32(FromBE(data[..4])), data[4..]))
    case FU64 => if |data| < 8 then Err(ShortRead) else Ok((VU64(FromBE(data[..8])), data[8..]))
    case FString => Wrap(ParseString(data), BadField, s => VString(s))
    case FBytes => Wrap(ParseString(data), ShortRead, s => VBytes(s))
    case FNames => Wrap(ParseString(data), ShortRead, s => VNames(ParseNames(s)))
    case FInt => Wrap(ParseString(data), ShortRead, s => VInt(ContentValue(s)))
    case FRest => Ok((VRest(data), []))
  }

  function Wrap(p: Option<(seq<byte>, seq<byte>)>, e: Error, f: seq<byte> -> Value): (r: Parsed)
  {
    match p
    case None => Err(e)
    case Some((s, rest)) => Ok((f(s), rest))
  }

  /** The string that a value of a length-prefixed kind is written as. */
  function Content(v: Value): (c: Option<seq<byte>>)
  {
    match v
    case VString(s) => Some(s)
    case VBytes(bs) => Some(bs)
    case VNames(names) => Some(Join(names))
    case VInt(n) => Some(IntContent(n))
    case _ => None
  }

  /** A value that can be read back when `after` bytes follow it. */
  predicate ValueOK(v: Value, after: nat)
  {
    (Content(v).Some? ==> Fits(|Content(v).value|, after)) && (v.VNames? ==> NamesOK(v.names))
  }

  lemma PlainFieldRoundTrip(v: Value, f: Field, rest: seq<byte>)
    requires HasType(v, f) && Content(v).None? && (f.FRest? ==> rest == [])
    ensures ParseField(f, MarshalField(v) + rest) == Ok((v, rest))
  {
    hide ToBE, FromBE, Pow256;
    var bs := MarshalField(v);
    var data := bs + rest;
    assert data[..|bs|] == bs && data[|bs|..] == rest;
    assert |bs| > 0 ==> data[0] == bs[0];
    assert rest == [] ==> data == bs;
    Pow256Small();
    match v
    case VU32(x) => FromToBE(x, 4);
    case VU64(x) => FromToBE(x, 8);
    case _ =>
  }

  lemma StringFieldIff(v: Value, f: Field, rest: seq<byte>)
    requires HasType(v, f) && Content(v).Some?
    ensures var r := ParseField(f, MarshalField(v) + rest);
      && (ValueOK(v, |rest|) ==> r == Ok((v, rest)))
      && (!ValueOK(v, |rest|) ==> r.Err? || r.value.0 != v)
  {
    hide StringBytes, ParseString, Join, IntContent, ContentValue, ParseNames, Fits;
    var c := Content(v).value;
    ParseStringIff(c, rest);
    match v
    case VNames(names) =>
      NamesRoundTripIff(names);
      NamesLength(names, ParseString(MarshalField(v) + rest));
    case VInt(n) =>
      IntRoundTrip(n);
      IntLengthMatters(n, ParseString(MarshalField(v) + rest));
    case _ =>
  }

  /** A name-list read from fewer bytes than were written is another list. */
  lemma NamesLength(names: seq<seq<byte>>, p: Option<(seq<byte>, seq<byte>)>)
    ensures p.Some? && |p.value.0| < |Join(names)| ==> ParseNames(p.value.0) != names
  {
    if p.Some? {
      JoinParse(p.value.0);
    }
  }

  lemma JoinParse(c: seq<byte>)
    ensures Join(ParseNames(c)) == c
  {
    if |c| > 0 {
      JoinSplit(c);
    }
  }

  lemma {:induction false} JoinSplit(c: seq<byte>)
    ensures Join(Split(c)) == c
  {
    hide Join;
    if |c| == 0 {
      JoinShape([[]]);
    } else {
      JoinSplit(c[1..]);
      var r := Split(c[1..]);
      assert c == [c[0]] + c[1..];
      if c[0] == COMMA {
        JoinCons([], r);
      } else {
        JoinLonger(c[0], r);
      }
    }
  }

  lemma JoinCons(name: seq<byte>, names: seq<seq<byte>>)
    requires |names| > 0
    ensures Join([name] + names) == name + [COMMA] + Join(names)
  {
    assert ([name] + names)[1..] == names;
  }

  lemma RegroupTail<T>(a: seq<T>, b: seq<T>, c: seq<T>, d: seq<T>)
    ensures a + b + c + d == a + (b + c + d)
  {
  }

  lemma JoinLonger(b: byte, names: seq<seq<byte>>)
    requires |names| > 0
    ensures Join([[b] + names[0]] + names[1..]) == [b] + Join(names)
  {
    hide Join;
    var longer := [[b] + names[0]] + names[1..];
    if |names| == 1 {
      assert |longer| == 1 && longer[0] == [b] + names[0];
      JoinShape(longer);
      JoinShape(names);
    } else {
      var rest := names[1..];
      JoinCons([b] + names[0], rest);
      JoinCons(names[0], rest);
      assert [names[0]] + rest == names;
      RegroupTail([b], names[0], [COMMA], Join(rest));
    }
  }

  lemma IntLengthMatters(n: int, p: Option<(seq<byte>, seq<byte>)>)
    ensures p.Some? && |p.value.0| < |IntContent(n)| ==> ContentValue(p.value.0) != n
  {
    if p.Some? {
      NoneIsShorter(p.value.0);
    }
  }

  // ----- Structs ------------------------------------------------------------

  /** A struct type: the numbers its messages may have, if any, and its fields. */
  datatype Schema = Schema(tags: seq<byte>, fields: seq<Field>)

  ghost predicate WellFormed(s: Schema)
  {
    |s.fields| > 0 && forall i :: 0 <= i < |s.fields| - 1 ==> !s.fields[i].FRest?
  }

  ghost predicate HasSchema(vs: seq<Value>, fields: seq<Field>)
  {
    |vs| == |fields| && forall i :: 0 <= i < |vs| ==> HasType(vs[i], fields[i])
  }

  function MarshalFields(vs: seq<Value>): (bs: seq<byte>)
  {
    if |vs| == 0 then [] else MarshalField(vs[0]) + MarshalFields(vs[1..])
  }

  /** What Marshal gives for a struct. */
  function StructBytes(s: Schema, vs: seq<Value>): (bs: seq<byte>)
  {
    (if |s.tags| > 0 then [s.tags[0]] else []) + MarshalFields(vs)
  }

  function ParseFields(fields: seq<Field>, data: seq<byte>): (r: Result<(seq<Value>, seq<byte>), Error>)
  {
    if |fields| == 0 then Ok(([], data))
    else
      match ParseField(fields[0], data)
      case Err(e) => Err(e)
      case Ok((v, rest)) =>
        match ParseFields(fields[1..], rest)
        case Err(e) => Err(e)
        case Ok((vs, end)) => Ok(([v] + vs, end))
  }

  /** What Unmarshal makes of a packet. */
  function ParseStruct(s: Schema, data: seq<byte>): (r: Result<seq<Value>, Error>)
  {
    var expected: byte := if |s.tags| > 0 then s.tags[0] else 0;
    if |data| == 0 then Err(ParseError(expected))
    else if |s.tags| > 0 && !(data[0] > 0 && data[0] in s.tags) then Err(UnexpectedType(data[0]))
    else
      match ParseFields(s.fields, if |s.tags| > 0 then data[1..] else data)
      case Err(e) => Err(e)
      case Ok((vs, rest)) => if |rest| != 0 then Err(ParseError(expected)) else Ok(vs)
  }

  /** What is parsed has the types of the schema. */
  lemma {:induction false} ParseFieldsShape(fields: seq<Field>, data: seq<byte>)
    ensures var r := ParseFields(fields, data); r.Ok? ==> HasSchema(r.value.0, fields)
  {
    hide ParseField, HasType;
    if |fields| > 0 {
      ParseFieldShape(fields[0], data);
      var one := ParseField(fields[0], data);
      if one.Ok? {
        ParseFieldsShape(fields[1..], one.value.1);
      }
    }
  }

  lemma ParseFieldShape(f: Field, data: seq<byte>)
    ensures var r := ParseField(f, data); r.Ok? ==> HasType(r.value.0, f)
  {
    hide FromBE, ParseString, ParseNames, ContentValue;
    Pow256Small();
    if f.FU32? && |data| >= 4 {
      ToFromBE(data[..4]);
    } else if f.FU64? && |data| >= 8 {
      ToFromBE(data[..8]);
    }
  }

  lemma ParseStructShape(s: Schema, data: seq<byte>)
    ensures var r := ParseStruct(s, data); r.Ok? ==> HasSchema(r.value, s.fields)
  {
    hide ParseFields, HasSchema;
    ParseFieldsShape(s.fields, if |s.tags| > 0 && |data| > 0 then data[1..] else data);
  }

  /** What is parsed is no longer than what it is parsed from. */
  lemma ParseFieldSize(f: Field, data: seq<byte>)
    ensures var r := ParseField(f, data);
      r.Ok? ==>
        && |r.value.1| <= |data|
        && (r.value.0.VBytes? ==> |r.value.0.bs| + 4 <= |data|)
        && (r.value.0.VRest? ==> |r.value.0.rest| <= |data|)
  {
    hide FromBE, Split, ContentValue;
  }

  lemma {:induction false} ParseFieldsSize(fields: seq<Field>, data: seq<byte>, i: nat)
    requires var r := ParseFields(fields, data); r.Ok? && i < |r.value.0|
    ensures var v := ParseFields(fields, data).value.0[i];
      && (v.VBytes? ==> |v.bs| + 4 <= |data|)
      && (v.VRest? ==> |v.rest| <= |data|)
    decreases i
  {
    hide ParseField;
    ParseFieldSize(fields[0], data);
    if i > 0 {
      ParseFieldsSize(fields[1..], ParseField(fields[0], data).value.1, i - 1);
    }
  }

  lemma ParseStructSize(s: Schema, data: seq<byte>, i: nat)
    requires ParseStruct(s, data).Ok? && i < |ParseStruct(s, data).value|
    ensures var v := ParseStruct(s, data).value[i];
      && (v.VBytes? ==> |v.bs| + 4 <= |data|)
      && (v.VRest? ==> |v.rest| <= |data|)
  {
    hide ParseFields;
    ParseFieldsSize(s.fields, if |s.tags| > 0 then data[1..] else data, i);
  }

  lemma {:induction false} MarshalFieldsAppend(vs: seq<Value>, v: Value)
    ensures MarshalFields(vs + [v]) == MarshalFields(vs) + MarshalField(v)
  {
    hide MarshalField;
    if |vs| == 0 {
      assert vs + [v] == [v] && [v][1..] == [];
    } else {
      MarshalFieldsAppend(vs[1..], v);
      assert (vs + [v])[1..] == vs[1..] + [v];
      assert MarshalField(vs[0]) + (MarshalFields(vs[1..]) + MarshalField(v)) ==
             MarshalField(vs[0]) + MarshalFields(vs[1..]) + MarshalField(v);
    }
  }

  /** Every field can be read back, with what follows it. */
  predicate AllOK(vs: seq<Value>)
  {
    |vs| == 0 || (ValueOK(vs[0], |MarshalFields(vs[1..])|) && AllOK(vs[1..]))
  }

  /** The message number, or any byte at all for a struct without one. */
  predicate TagOK(s: Schema, vs: seq<Value>)
  {
    if |s.tags| > 0 then s.tags[0] > 0 else MarshalFields(vs) != []
  }

  lemma FieldIff(v: Value, f: Field, rest: seq<byte>)
    requires HasType(v, f) && (f.FRest? ==> rest == [])
    ensures var r := ParseField(f, MarshalField(v) + rest);
      && (ValueOK(v, |rest|) ==> r == Ok((v, rest)))
      && (!ValueOK(v, |rest|) ==> r.Err? || r.value.0 != v)
  {
    hide ParseField, MarshalField, Fits;
    if Content(v).Some? {
      StringFieldIff(v, f, rest);
    } else {
      PlainFieldRoundTrip(v, f, rest);
    }
  }

  lemma {:induction false} FieldsIff(vs: seq<Value>, fields: seq<Field>)
    requires HasSchema(vs, fields) && forall i :: 0 <= i < |fields| - 1 ==> !fields[i].FRest?
    ensures AllOK(vs) ==> ParseFields(fields, MarshalFields(vs)) == Ok((vs, []))
    ensures !AllOK(vs) ==>
      var r := ParseFields(fields, MarshalFields(vs));
      r.Err? || r.value.0 != vs
  {
    hide ParseField, MarshalField, HasType, ValueOK;
    if |vs| > 0 {
      var rest := MarshalFields(vs[1..]);
      if |vs| == 1 {
        assert vs[1..] == [] && rest == [];
      }
      FieldIff(vs[0], fields[0], rest);
      FieldsIff(vs[1..], fields[1..]);
      assert vs == [vs[0]] + vs[1..];
      var r := ParseField(fields[0], MarshalFields(vs));
      if r.Ok? && r.value.0 != vs[0] && ParseFields(fields, MarshalFields(vs)).Ok? {
        assert ParseFields(fields, MarshalFields(vs)).value.0[0] == r.value.0;
      }
    }
  }

  /**
   * A struct comes back from its packet, with all input consumed, if and only if:
   * its message number is not 0, or it has none and is not empty on the wire; every
   * length-prefixed field fits 32 bits together with what follows it; no name holds a
   * comma; and no name-list is the one empty name.
   */
  lemma StructRoundTripIff(s: Schema, vs: seq<Value>)
    requires WellFormed(s) && HasSchema(vs, s.fields)
    ensures ParseStruct(s, StructBytes(s, vs)) == Ok(vs) <==> TagOK(s, vs) && AllOK(vs)
  {
    hide AllOK, ParseFields, MarshalFields, HasSchema;
    FieldsIff(vs, s.fields);
    var data := StructBytes(s, vs);
    if |s.tags| > 0 {
      assert data[1..] == MarshalFields(vs);
    } else {
      assert data == MarshalFields(vs);
    }
  }

  /** An untagged struct whose one field is an empty rest is refused, though it was written correctly. */
  lemma EmptyStructIsRefused()
    ensures ParseStruct(Schema([], [FRest]), StructBytes(Schema([], [FRest]), [VRest([])])) == Err(ParseError(0))
  {
    assert [VRest([])][1..] == [];
    assert MarshalFields([VRest([])]) == MarshalField(VRest([])) + MarshalFields([]);
  }

  /** All of a packet shorter than 2^32 bytes fits. */
  lemma {:induction false} ShortStructFits(vs: seq<Value>)
    requires |MarshalFields(vs)| < U32_LIMIT
    requires forall i :: 0 <= i < |vs| && vs[i].VNames? ==> NamesOK(vs[i].names)
    ensures AllOK(vs)
  {
    if |vs| > 0 {
      ShortStructFits(vs[1..]);
    }
  }

  /** marshalStruct: appends field after field. */
  method Marshal(s: Schema, vs: seq<Value>) returns (out: seq<byte>)
    ensures out == StructBytes(s, vs)
  {
    hide MarshalField;
    out := if |s.tags| > 0 then [s.tags[0]] else [];
    for i := 0 to |vs|
      invariant out + MarshalFields(vs[i..]) == StructBytes(s, vs)
    {
      assert vs[i..][1..] == vs[i + 1..];
      assert out + (MarshalField(vs[i]) + MarshalFields(vs[i + 1..])) ==
             out + MarshalField(vs[i]) + MarshalFields(vs[i + 1..]);
      out := out + MarshalField(vs[i]);
    }
  }

  /** Unmarshal: reads field after field. */
  method Unmarshal(s: Schema, packet: seq<byte>) returns (r: Result<seq<Value>, Error>)
    ensures r == ParseStruct(s, packet)
  {
    hide ParseField;
    var expected: byte := if |s.tags| > 0 then s.tags[0] else 0;
    if |packet| == 0 {
      return Err(ParseError(expected));
    }
    var data := packet;
    if |s.tags| > 0 {
      if !(data[0] > 0 && data[0] in s.tags) {
        return Err(UnexpectedType(data[0]));
      }
      data := data[1..];
    }
    ghost var want := ParseFields(s.fields, data);
    var vs := [];
    assert s.fields[0..] == s.fields;
    assert want.Ok? ==> [] + want.value.0 == want.value.0;
    for i := 0 to |s.fields|
      invariant want == match ParseFields(s.fields[i..], data)
                        case Err(e) => Err(e)
                        case Ok((more, end)) => Ok((vs + more, end))
    {
      var one := ParseField(s.fields[i], data);
      assert s.fields[i..][1..] == s.fields[i + 1..];
      if one.Err? {
        return Err(one.error);
      }
      var (v, rest) := one.value;
      ghost var more := ParseFields(s.fields[i + 1..], rest);
      assert more.Ok? ==> vs + ([v] + more.value.0) == vs + [v] + more.value.0;
      vs, data := vs + [v], rest;
    }
    assert vs + [] == vs;
    r := if |data| != 0 then Err(ParseError(expected)) else Ok(vs);
  }

  lemma MarshalFirst(vs: seq<Value>)
    requires |vs| > 0
    ensures MarshalFields(vs[..1]) == MarshalField(vs[0])
  {
    hide MarshalField;
    assert vs[..1][1..] == [];
  }

  lemma MarshalUpTo(vs: seq<Value>, i: nat)
    requires i < |vs|
    ensures MarshalFields(vs[..i + 1]) == MarshalFields(vs[..i]) + MarshalField(vs[i])
  {
    hide MarshalField, MarshalFields;
    assert vs[..i + 1] == vs[..i] + [vs[i]];
    MarshalFieldsAppend(vs[..i], vs[i]);
  }

  // ----- Lists of strings ---------------------------------------------------

  function StringList(names: seq<Str>): (bs: seq<byte>)
  {
    if |names| == 0 then [] else StringBytes(names[0]) + StringList(names[1..])
  }

  function ParseStringList(data: seq<byte>): (r: Option<seq<Str>>)
    decreases |data|
  {
    if |data| == 0 then Some([])
    else
      match ParseString(data)
      case None => None
      case Some((name, rest)) =>
        match ParseStringList(rest)
        case None => None
        case Some(names) => Some([name] + names)
  }

  /** Each string can be read back with what follows it. */
  predicate ListFits(names: seq<Str>)
  {
    |names| == 0 || (Fits(|names[0]|, |StringList(names[1..])|) && ListFits(names[1..]))
  }

  /** A list of strings comes back if and only if its strings fit. */
  lemma {:induction false} StringListRoundTripIff(names: seq<Str>)
    ensures ParseStringList(StringList(names)) == Some(names) <==> ListFits(names)
  {
    if |names| > 0 {
      hide ParseString, Fits;
      var rest := StringList(names[1..]);
      ParseStringIff(names[0], rest);
      StringListRoundTripIff(names[1..]);
      assert names == [names[0]] + names[1..];
    }
  }

  lemma {:induction false} ShortListFits(names: seq<Str>)
    requires |StringList(names)| < U32_LIMIT
    ensures ListFits(names)
  {
    if |names| > 0 {
      ShortListFits(names[1..]);
    }
  }

  /** Exactly n strings, and nothing after them. */
  function ParseStrings(data: seq<byte>, n: nat): (r: Option<seq<Str>>)
    ensures r.Some? ==> |r.value| == n
    decreases n
  {
    if n == 0 then (if |data| == 0 then Some([]) else None)
    else
      match ParseString(data)
      case None => None
      case Some((one, rest)) =>
        match ParseStrings(rest, n - 1)
        case None => None
        case Some(more) => Some([one] + more)
  }

  /** Which is a list of strings that has n of them. */
  lemma {:induction false} StringsIffList(data: seq<byte>, n: nat, l: seq<Str>)
    ensures ParseStrings(data, n) == Some(l) <==> ParseStringList(data) == Some(l) && |l| == n
    decreases n
  {
    hide ParseString;
    if n == 0 {
      assert |data| == 0 || ParseString(data).None? || ParseStringList(data).None? || ParseStringList(data) != Some([]);
    } else if |data| == 0 {
      assert ParseString(data) == None by { ShortString(data); }
    } else if ParseString(data).Some? && |l| > 0 {
      StringsIffList(ParseString(data).value.1, n - 1, l[1..]);
      assert l == [l[0]] + l[1..];
      assert forall more: seq<Str> :: ([l[0]] + more)[1..] == more;
    }
  }

  lemma ShortString(data: seq<byte>)
    requires |data| < 4
    ensures ParseString(data) == None
  {
  }
}
