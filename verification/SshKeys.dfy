/** Public keys on the wire: the six key algorithms, their names and the fields of each. */
module SshKeys {
  import opened Bytes
  import opened SshInt
  import opened SshMessages

  datatype Curve = P256 | P384 | P521

  datatype Algo = RSA | DSA | ECDSA(curve: Curve) | ED25519

  /** A key; the point of an ECDSA key is held in the form it has on the wire. */
  datatype PlainKey =
    | Rsa(e: int, n: int)
    | Dsa(p: int, q: int, g: int, y: int)
    | Ecdsa(curve: Curve, point: seq<byte>)
    | Ed25519(key: seq<byte>)

  /** Which byte strings stand for points of a curve. */
  type Points = (Curve, seq<byte>) -> bool

  // ----- Names --------------------------------------------------------------

  function Ascii(s: string): (bs: Str)
    requires forall i :: 0 <= i < |s| ==> s[i] as int < 256
    ensures |bs| == |s| && forall i :: 0 <= i < |s| ==> bs[i] == s[i] as int
  {
    seq(|s|, i requires 0 <= i < |s| => s[i] as int)
  }

  const CERT_SUFFIX: Str := Ascii("-cert-v01@openssh.com")

  function CurveName(c: Curve): (name: Str)
  {
    match c
    case P256 => Ascii("nistp256")
    case P384 => Ascii("nistp384")
    case P521 => Ascii("nistp521")
  }

  function Name(a: Algo): (name: Str)
  {
    match a
    case RSA => Ascii("ssh-rsa")
    case DSA => Ascii("ssh-dss")
    case ECDSA(c) => Ascii("ecdsa-sha2-") + CurveName(c)
    case ED25519 => Ascii("ssh-ed25519")
  }

  function CertName(a: Algo): (name: Str)
  {
    Name(a) + CERT_SUFFIX
  }

  const ALGOS: seq<Algo> := [RSA, DSA, ECDSA(P256), ECDSA(P384), ECDSA(P521), ED25519]

  function CurveNamed(name: Str): (c: Option<Curve>)
  {
    if name == CurveName(P256) then Some(P256)
    else if name == CurveName(P384) then Some(P384)
    else if name == CurveName(P521) then Some(P521)
    else None
  }

  function AlgoNamed(name: Str): (a: Option<Algo>)
  {
    if name == Name(RSA) then Some(RSA)
    else if name == Name(DSA) then Some(DSA)
    else if name == Name(ECDSA(P256)) then Some(ECDSA(P256))
    else if name == Name(ECDSA(P384)) then Some(ECDSA(P384))
    else if name == Name(ECDSA(P521)) then Some(ECDSA(P521))
    else if name == Name(ED25519) then Some(ED25519)
    else None
  }

  /** certToPrivAlgo, for the names it knows. */
  function CertAlgoNamed(name: Str): (a: Option<Algo>)
  {
    if |name| < |CERT_SUFFIX| || name[|name| - |CERT_SUFFIX|..] != CERT_SUFFIX then None
    else AlgoNamed(name[..|name| - |CERT_SUFFIX|])
  }

  lemma CurveNames(c: Curve)
    ensures |CurveName(c)| == 8 && CurveNamed(CurveName(c)) == Some(c)
  {
    var a, b, d := CurveName(P256), CurveName(P384), CurveName(P521);
    assert a[5] == 50 && b[5] == 51 && d[5] == 53;
  }

  lemma NameSizes(a: Algo)
    ensures |Name(a)| == match a case RSA => 7 case DSA => 7 case ECDSA(_) => 19 case ED25519 => 11
    ensures |CERT_SUFFIX| == 21
  {
  }

  /** Every algorithm is known by its name. */
  lemma Names(a: Algo)
    ensures AlgoNamed(Name(a)) == Some(a)
  {
    NameSizes(RSA);
    NameSizes(DSA);
    NameSizes(ED25519);
    NameSizes(ECDSA(P256));
    NameSizes(ECDSA(P384));
    NameSizes(ECDSA(P521));
    assert Name(RSA)[4] == 114 && Name(DSA)[4] == 100;
    assert Name(ECDSA(P256))[16] == 50 && Name(ECDSA(P384))[16] == 51 && Name(ECDSA(P521))[16] == 53;
  }

  lemma NamedSize(name: Str)
    requires AlgoNamed(name).Some?
    ensures |name| <= 19 && name == Name(AlgoNamed(name).value)
  {
    NameSizes(AlgoNamed(name).value);
  }

  /** So is every certificate algorithm, and no name stands for both a key and a certificate. */
  lemma CertNames(a: Algo)
    ensures CertAlgoNamed(CertName(a)) == Some(a) && AlgoNamed(CertName(a)) == None
    ensures |CertName(a)| <= 40
  {
    hide Name, AlgoNamed, CERT_SUFFIX;
    NameSizes(a);
    Names(a);
    var name := CertName(a);
    assert name[..|Name(a)|] == Name(a) && name[|Name(a)|..] == CERT_SUFFIX;
    if AlgoNamed(name).Some? {
      NamedSize(name);
    }
  }

  // ----- Fields -------------------------------------------------------------

  function AlgoOf(k: PlainKey): (a: Algo)
  {
    match k
    case Rsa(_, _) => RSA
    case Dsa(_, _, _, _) => DSA
    case Ecdsa(c, _) => ECDSA(c)
    case Ed25519(_) => ED25519
  }

  /** The fields of a key of each algorithm, after its name. */
  function KeySchema(a: Algo): (fields: seq<Field>)
  {
    match a
    case RSA => [FInt, FInt]
    case DSA => [FInt, FInt, FInt, FInt]
    case ECDSA(_) => [FString, FBytes]
    case ED25519 => [FBytes]
  }

  function KeyFields(k: PlainKey): (vs: seq<Value>)
  {
    match k
    case Rsa(e, n) => [VInt(e), VInt(n)]
    case Dsa(p, q, g, y) => [VInt(p), VInt(q), VInt(g), VInt(y)]
    case Ecdsa(c, point) => [VString(CurveName(c)), VBytes(point)]
    case Ed25519(key) => [VBytes(key)]
  }

  /** Marshal, after the name; and the whole. */
  function KeyBody(k: PlainKey): (bs: seq<byte>)
  {
    MarshalFields(KeyFields(k))
  }

  function KeyBytes(k: PlainKey): (bs: seq<byte>)
  {
    StringBytes(Name(AlgoOf(k))) + KeyBody(k)
  }

  /** The wire form of a key of each algorithm, field by field. */
  lemma KeyLayout(k: PlainKey)
    ensures k.Rsa? ==>
      KeyBytes(k) == StringBytes(Ascii("ssh-rsa")) + (StringBytes(IntContent(k.e)) + StringBytes(IntContent(k.n)))
    ensures k.Dsa? ==>
      KeyBytes(k) == StringBytes(Ascii("ssh-dss")) + (StringBytes(IntContent(k.p)) + StringBytes(IntContent(k.q))
                                                      + StringBytes(IntContent(k.g)) + StringBytes(IntContent(k.y)))
    ensures k.Ecdsa? ==>
      KeyBytes(k) == StringBytes(Ascii("ecdsa-sha2-") + CurveName(k.curve))
                     + (StringBytes(CurveName(k.curve)) + StringBytes(k.point))
    ensures k.Ed25519? ==> KeyBytes(k) == StringBytes(Ascii("ssh-ed25519")) + StringBytes(k.key)
  {
    hide MarshalFields, StringBytes, IntContent, CurveName, Ascii;
    var vs := KeyFields(k);
    MarshalFirst(vs);
    if k.Dsa? {
      MarshalUpTo(vs, 1);
      MarshalUpTo(vs, 2);
      MarshalUpTo(vs, 3);
    } else if !k.Ed25519? {
      MarshalUpTo(vs, 1);
    }
    assert vs[..|vs|] == vs;
  }

  /** The keys the parsers accept: an odd RSA exponent of at least 3 and at most 24 bits; a point of the curve. */
  predicate KeyOK(points: Points, k: PlainKey)
  {
    && (k.Rsa? ==> k.e >= 3 && k.e % 2 == 1 && BitLen(k.e) <= 24)
    && (k.Ecdsa? ==> points(k.curve, k.point))
  }

  /** The key that parsed fields stand for. Whether the curve is that of the algorithm is not looked at. */
  function KeyOf(points: Points, a: Algo, vs: seq<Value>): (k: Option<PlainKey>)
    requires HasSchema(vs, KeySchema(a))
  {
    match a
    case RSA =>
      var e := vs[0].n;
      if e < 3 || BitLen(e) > 24 || e % 2 == 0 then None else Some(Rsa(e, vs[1].n))
    case DSA => Some(Dsa(vs[0].n, vs[1].n, vs[2].n, vs[3].n))
    case ECDSA(_) =>
      (match CurveNamed(vs[0].s)
       case None => None
       case Some(c) => if points(c, vs[1].bs) then Some(Ecdsa(c, vs[1].bs)) else None)
    case ED25519 => Some(Ed25519(vs[0].bs))
  }

  /** parseRSA, parseDSA, parseECDSA and parseED25519: the key and what follows it. */
  function ParseKeyBody(points: Points, data: seq<byte>, a: Algo): (r: Option<(PlainKey, seq<byte>)>)
    ensures r.Some? ==> |r.value.1| <= |data|
  {
    var s := Schema([], KeySchema(a) + [FRest]);
    match ParseStruct(s, data)
    case Err(_) => None
    case Ok(vs) =>
      ParseStructShape(s, data);
      var m := |KeySchema(a)|;
      ParseStructSize(s, data, m);
      match KeyOf(points, a, vs[..m])
      case None => None
      case Some(k) => Some((k, vs[m].rest))
  }

  // ----- Round trips --------------------------------------------------------

  lemma KeyOfFields(points: Points, k: PlainKey)
    ensures HasSchema(KeyFields(k), KeySchema(AlgoOf(k)))
    ensures KeyOf(points, AlgoOf(k), KeyFields(k)) == if KeyOK(points, k) then Some(k) else None
  {
    hide BitLen, CurveName, CurveNamed;
    if k.Ecdsa? {
      CurveNames(k.curve);
    }
  }

  /** A key that was parsed is one the parser accepts, and its fields are those it was parsed from. */
  lemma FieldsOfKeyOf(points: Points, a: Algo, vs: seq<Value>)
    requires HasSchema(vs, KeySchema(a)) && KeyOf(points, a, vs).Some?
    ensures var k := KeyOf(points, a, vs).value;
      KeyOK(points, k) && (AlgoOf(k) == a ==> KeyFields(k) == vs)
  {
    hide BitLen, CurveName;
  }

  lemma ParsedKeyOK(points: Points, data: seq<byte>, a: Algo)
    requires ParseKeyBody(points, data, a).Some?
    ensures KeyOK(points, ParseKeyBody(points, data, a).value.0)
  {
    hide ParseStruct, KeyOf, KeyOK, KeySchema;
    var s := Schema([], KeySchema(a) + [FRest]);
    ParseStructShape(s, data);
    FieldsOfKeyOf(points, a, ParseStruct(s, data).value[..|KeySchema(a)|]);
  }

  /** The fields of a key and what follows it fit together. */
  ghost predicate KeyFits(k: PlainKey, rest: seq<byte>)
  {
    AllOK(KeyFields(k) + [VRest(rest)])
  }

  lemma KeyNotEmpty(k: PlainKey)
    ensures |KeyBody(k)| >= 4
  {
    hide IntContent, CurveName;
    var vs := KeyFields(k);
    assert MarshalFields(vs) == MarshalField(vs[0]) + MarshalFields(vs[1..]);
  }

  lemma KeyStruct(k: PlainKey, rest: seq<byte>)
    ensures var s, vs := Schema([], KeySchema(AlgoOf(k)) + [FRest]), KeyFields(k) + [VRest(rest)];
      && WellFormed(s) && StructBytes(s, vs) == KeyBody(k) + rest == MarshalFields(vs) && TagOK(s, vs)
  {
    hide MarshalFields, CurveName;
    MarshalFieldsAppend(KeyFields(k), VRest(rest));
    KeyNotEmpty(k);
  }

  /**
   * A key comes back from its bytes, with what follows it left over, if and only if the
   * parser accepts it and the lengths fit 32 bits.
   */
  lemma KeyBodyRoundTripIff(points: Points, k: PlainKey, rest: seq<byte>)
    ensures ParseKeyBody(points, KeyBody(k) + rest, AlgoOf(k)) == Some((k, rest)) <==>
      KeyOK(points, k) && KeyFits(k, rest)
  {
    hide ParseStruct, KeyOf, KeyOK, KeySchema, KeyFields, StructBytes, MarshalFields, AllOK, TagOK, WellFormed;
    var a := AlgoOf(k);
    var s, vs := Schema([], KeySchema(a) + [FRest]), KeyFields(k) + [VRest(rest)];
    KeyOfFields(points, k);
    KeyStruct(k, rest);
    assert HasSchema(vs, s.fields);
    StructRoundTripIff(s, vs);
    var data := KeyBody(k) + rest;
    if ParseStruct(s, data).Ok? {
      ParseStructShape(s, data);
      var got := ParseStruct(s, data).value;
      var m := |KeySchema(a)|;
      assert vs[..m] == KeyFields(k) && got == got[..m] + [got[m]];
      if KeyOf(points, a, got[..m]) == Some(k) {
        FieldsOfKeyOf(points, a, got[..m]);
      }
    }
  }

  lemma ShortKeyFits(k: PlainKey, rest: seq<byte>)
    requires |KeyBody(k) + rest| < U32_LIMIT
    ensures KeyFits(k, rest)
  {
    hide MarshalFields, AllOK, CurveName;
    KeyStruct(k, rest);
    ShortStructFits(KeyFields(k) + [VRest(rest)]);
  }
}
