/**
 * Certificates as a whole: their wire form, their parser, and the bytes that are
 * signed. The key that signed a certificate may itself be a certificate, so that
 * certificates form chains.
 */
module SshCertificate {
  import opened Bytes
  import opened SshMessages
  import opened SshCerts
  import opened SshKeys

  // ----- Lists of principals ------------------------------------------------

  /** marshalStringList. */
  method MarshalStringList(names: seq<Str>) returns (to: seq<byte>)
    ensures to == StringList(names)
  {
    to := [];
    for i := 0 to |names|
      invariant StringList(names) == to + StringList(names[i..])
    {
      assert names[i..][1..] == names[i + 1..];
      assert to + (StringBytes(names[i]) + StringList(names[i + 1..])) ==
             to + StringBytes(names[i]) + StringList(names[i + 1..]);
      to := to + StringBytes(names[i]);
    }
  }

  /** The loop of parseCert over the principals. */
  method ParsePrincipals(data: seq<byte>) returns (r: Option<seq<Str>>)
    ensures r == ParseStringList(data)
  {
    hide ParseString;
    var principals: seq<Str>, rest := [], data;
    assert forall more: seq<Str> :: principals + more == more;
    while |rest| > 0
      invariant ParseStringList(data) ==
        match ParseStringList(rest) case None => None case Some(more) => Some(principals + more)
      decreases |rest|
    {
      var one := ParseString(rest);
      if one.None? {
        return None;
      }
      assert forall more: seq<Str> :: principals + ([one.value.0] + more) == principals + [one.value.0] + more;
      principals, rest := principals + [one.value.0], one.value.1;
    }
    assert principals + [] == principals;
    return Some(principals);
  }

  // ----- Certificates -------------------------------------------------------

  datatype Signature = Signature(format: Str, blob: seq<byte>)

  /** A key or a certificate: whatever can sign, and be presented. */
  datatype PublicKey = Plain(k: PlainKey) | Cert(c: Certificate)

  datatype Certificate = Certificate(
    nonce: seq<byte>,
    key: PlainKey,
    serial: nat,
    certType: nat,
    keyId: Str,
    principals: seq<Str>,
    validAfter: nat,
    validBefore: nat,
    criticalOptions: map<Str, Str>,
    extensions: map<Str, Str>,
    reserved: seq<byte>,
    signatureKey: PublicKey,
    signature: Option<Signature>)

  /** The schema of the part of a certificate that does not depend on its key. */
  const GENERIC: Schema :=
    Schema([], [FU64, FU32, FString, FBytes, FU64, FU64, FBytes, FBytes, FBytes, FBytes, FBytes])

  function SignatureBytes(sig: Option<Signature>): (bs: seq<byte>)
  {
    match sig
    case None => []
    case Some(Signature(format, blob)) => StringBytes(format) + StringBytes(blob)
  }

  /** All fields of the generic part but the last, which is the signature. */
  ghost function SignedFields(c: Certificate): (vs: seq<Value>)
    decreases c, 0
  {
    [VU64(c.serial), VU32(c.certType), VString(c.keyId), VBytes(StringList(c.principals)),
     VU64(c.validAfter), VU64(c.validBefore), VBytes(TuplesBytes(c.criticalOptions)),
     VBytes(TuplesBytes(c.extensions)), VBytes(c.reserved), VBytes(PublicKeyBytes(c.signatureKey))]
  }

  ghost function GenericFields(c: Certificate): (vs: seq<Value>)
    ensures |vs| == 11
    decreases c, 1
  {
    SignedFields(c) + [VBytes(SignatureBytes(c.signature))]
  }

  /** What comes before the generic part: the certificate's algorithm, its nonce and its key. */
  function Prefix(c: Certificate): (bs: seq<byte>)
  {
    StringBytes(CertName(AlgoOf(c.key))) + StringBytes(c.nonce) + StrippedKey(c.key)
  }

  /** The key's bytes after its own algorithm name, which parseString cuts off. */
  function StrippedKey(k: PlainKey): (bs: seq<byte>)
  {
    match ParseString(KeyBytes(k))
    case None => []
    case Some((_, body)) => body
  }

  /** Certificate.Marshal. */
  ghost function CertBytes(c: Certificate): (bs: seq<byte>)
    decreases c, 2
  {
    Prefix(c) + StructBytes(GENERIC, GenericFields(c))
  }

  ghost function PublicKeyBytes(k: PublicKey): (bs: seq<byte>)
    decreases k, 3
  {
    match k
    case Plain(k) => KeyBytes(k)
    case Cert(c) => CertBytes(c)
  }

  /** bytesForSigning: the unsigned certificate without its last four bytes. */
  ghost function BytesForSigning(c: Certificate): (bs: seq<byte>)
  {
    var out := CertBytes(c.(signature := None));
    if |out| >= 4 then out[..|out| - 4] else []
  }

  // ----- Parsing ------------------------------------------------------------

  function ParseSignature(data: seq<byte>): (r: Option<Signature>)
  {
    match ParseString(data)
    case None => None
    case Some((format, data1)) =>
      match ParseString(data1)
      case None => None
      case Some((blob, rest)) => if |rest| > 0 then None else Some(Signature(format, blob))
  }

  type ParsedKey = Result<PublicKey, CertError>

  type ParsedCert = Result<Certificate, CertError>

  /** ParsePublicKey: a key, or a certificate for one. */
  function ParsePublicKey(points: Points, data: seq<byte>): (r: ParsedKey)
    decreases |data|, 0
  {
    match ParseString(data)
    case None => Err(BadString)
    case Some((name, body)) =>
      match AlgoNamed(name)
      case Some(a) =>
        (match ParseKeyBody(points, body, a)
         case None => Err(BadKey)
         case Some((k, rest)) => if |rest| > 0 then Err(TrailingData) else Ok(Plain(k)))
      case None =>
        match CertAlgoNamed(name)
        case None => Err(UnknownAlgorithm)
        case Some(a) =>
          match ParseCert(points, body, a)
          case Err(e) => Err(e)
          case Ok(c) => Ok(Cert(c))
  }

  /** parseCert. */
  function ParseCert(points: Points, data: seq<byte>, a: Algo): (r: ParsedCert)
    decreases |data|, 2
  {
    match ParseString(data)
    case None => Err(BadString)
    case Some((nonce, data1)) =>
      match ParseKeyBody(points, data1, a)
      case None => Err(BadKey)
      case Some((key, data2)) =>
        match ParseStruct(GENERIC, data2)
        case Err(_) => Err(BadGeneric)
        case Ok(vs) =>
          GenericIsParsed(data2);
          FromGeneric(points, nonce, key, vs)
  }

  ghost predicate GenericShape(vs: seq<Value>)
  {
    && |vs| == 11 && vs[0].VU64? && vs[1].VU32? && vs[2].VString? && vs[3].VBytes?
    && vs[4].VU64? && vs[5].VU64? && vs[6].VBytes? && vs[7].VBytes? && vs[8].VBytes?
    && vs[9].VBytes? && vs[10].VBytes?
  }

  lemma GenericIsParsed(data: seq<byte>)
    ensures ParseStruct(GENERIC, data).Ok? ==>
      GenericShape(ParseStruct(GENERIC, data).value) && |ParseStruct(GENERIC, data).value[9].bs| < |data|
  {
    hide ParseStruct;
    if ParseStruct(GENERIC, data).Ok? {
      ParseStructShape(GENERIC, data);
      ParseStructSize(GENERIC, data, 9);
      var vs := ParseStruct(GENERIC, data).value;
      assert forall i :: 0 <= i < 11 ==> HasType(vs[i], GENERIC.fields[i]);
    }
  }

  /** The certificate from its generic fields. */
  function FromGeneric(points: Points, nonce: seq<byte>, key: PlainKey, vs: seq<Value>): (r: ParsedCert)
    requires GenericShape(vs)
    decreases |vs[9].bs|, 1
  {
    match ParseStringList(vs[3].bs)
    case None => Err(BadString)
    case Some(principals) =>
      match ParseTuplesFrom(vs[6].bs, None, map[])
      case Err(e) => Err(e)
      case Ok(critical) =>
        match ParseTuplesFrom(vs[7].bs, None, map[])
        case Err(e) => Err(e)
        case Ok(extensions) =>
          match ParsePublicKey(points, vs[9].bs)
          case Err(e) => Err(e)
          case Ok(signatureKey) =>
            match ParseSignature(vs[10].bs)
            case None => Err(BadSignature)
            case Some(sig) =>
              Ok(Certificate(nonce, key, vs[0].u64, vs[1].u32, vs[2].s, principals, vs[4].u64, vs[5].u64,
                             critical, extensions, vs[8].bs, signatureKey, Some(sig)))
  }

  // ----- The signed bytes ---------------------------------------------------

  lemma GenericBytes(c: Certificate)
    ensures StructBytes(GENERIC, GenericFields(c)) ==
            MarshalFields(SignedFields(c)) + StringBytes(SignatureBytes(c.signature))
    ensures StructBytes(GENERIC, GenericFields(c)) == MarshalFields(GenericFields(c))
  {
    hide StringBytes, MarshalFields, SignedFields;
    MarshalFieldsAppend(SignedFields(c), VBytes(SignatureBytes(c.signature)));
  }

  /**
   * The signed bytes are the certificate up to its signature: a prefix of the
   * marshalled form that is the same whatever the signature is.
   */
  lemma SignedBytesArePrefix(c: Certificate)
    ensures CertBytes(c) == BytesForSigning(c) + StringBytes(SignatureBytes(c.signature))
    ensures forall sig :: BytesForSigning(c.(signature := sig)) == BytesForSigning(c)
  {
    hide StringBytes, MarshalFields, SignedFields, CertBytes, BytesForSigning, Prefix;
    UpToSignature(c);
    SignedIs(c);
    forall sig
      ensures BytesForSigning(c.(signature := sig)) == BytesForSigning(c)
    {
      SignedIs(c.(signature := sig));
      assert c.(signature := sig).(signature := None) == c.(signature := None);
      SignatureNotSigned(c);
      SignatureNotSigned(c.(signature := sig));
    }
  }

  /** A certificate is what is signed, and the signature. */
  lemma UpToSignature(c: Certificate)
    ensures CertBytes(c) == Prefix(c) + MarshalFields(SignedFields(c)) + StringBytes(SignatureBytes(c.signature))
  {
    hide StringBytes, MarshalFields, SignedFields, GenericFields, StructBytes, Prefix;
    GenericBytes(c);
    var a, b, d := Prefix(c), MarshalFields(SignedFields(c)), StringBytes(SignatureBytes(c.signature));
    assert a + (b + d) == a + b + d;
  }

  lemma SignedIs(c: Certificate)
    ensures BytesForSigning(c) == Prefix(c) + MarshalFields(SignedFields(c))
  {
    hide MarshalFields, SignedFields, CertBytes, Prefix, SignatureBytes;
    var c0 := c.(signature := None);
    UpToSignature(c0);
    SignatureNotSigned(c);
    assert SignatureBytes(None) == [] by { NoSignatureBytes(); }
    var body := Prefix(c) + MarshalFields(SignedFields(c));
    StringIsLonger([]);
    assert (body + StringBytes([]))[..|body|] == body;
  }

  lemma NoSignatureBytes()
    ensures SignatureBytes(None) == []
  {
  }

  lemma SignatureNotSigned(c: Certificate)
    ensures SignedFields(c.(signature := None)) == SignedFields(c)
    ensures Prefix(c.(signature := None)) == Prefix(c)
  {
  }

  lemma FieldsOf(c: Certificate)
    ensures MarshalFields(GenericFields(c)) ==
      ToBE(c.serial, 8) + ToBE(c.certType, 4) + StringBytes(c.keyId) + StringBytes(StringList(c.principals))
      + ToBE(c.validAfter, 8) + ToBE(c.validBefore, 8) + StringBytes(TuplesBytes(c.criticalOptions))
      + StringBytes(TuplesBytes(c.extensions)) + StringBytes(c.reserved)
      + StringBytes(PublicKeyBytes(c.signatureKey)) + StringBytes(SignatureBytes(c.signature))
  {
    hide MarshalFields, StringBytes, ToBE, StringList, TuplesBytes, PublicKeyBytes, SignatureBytes;
    var vs := GenericFields(c);
    MarshalFirst(vs);
    MarshalUpTo(vs, 1);
    MarshalUpTo(vs, 2);
    MarshalUpTo(vs, 3);
    MarshalUpTo(vs, 4);
    MarshalUpTo(vs, 5);
    MarshalUpTo(vs, 6);
    MarshalUpTo(vs, 7);
    MarshalUpTo(vs, 8);
    MarshalUpTo(vs, 9);
    MarshalUpTo(vs, 10);
    assert vs[..11] == vs;
  }

  /**
   * The wire form of a certificate, field by field: its type, its nonce, the key, serial
   * number, kind, key id, principals, first and last time, critical options, extensions,
   * a reserved field, the key that signed it, and the signature.
   */
  lemma CertLayout(c: Certificate)
    requires |KeyBytes(c.key)| < U32_LIMIT
    ensures CertBytes(c) == StringBytes(CertName(AlgoOf(c.key))) + (StringBytes(c.nonce) + (KeyBody(c.key) +
      (ToBE(c.serial, 8) + ToBE(c.certType, 4) + StringBytes(c.keyId) + StringBytes(StringList(c.principals))
       + ToBE(c.validAfter, 8) + ToBE(c.validBefore, 8) + StringBytes(TuplesBytes(c.criticalOptions))
       + StringBytes(TuplesBytes(c.extensions)) + StringBytes(c.reserved)
       + StringBytes(PublicKeyBytes(c.signatureKey)) + StringBytes(SignatureBytes(c.signature)))))
  {
    hide MarshalFields, StringBytes, ToBE, StringList, TuplesBytes, PublicKeyBytes, SignatureBytes, CertBytes,
         KeyBody, CertName, GenericFields;
    FieldsOf(c);
    CertBytesParts(c);
  }

  // ----- Parts that come back -----------------------------------------------

  /** A signature comes back if and only if its two strings fit; without one there is nothing to parse. */
  lemma SignatureRoundTripIff(sig: Option<Signature>)
    ensures sig.None? ==> ParseSignature(SignatureBytes(sig)) == None
    ensures sig.Some? ==>
      (ParseSignature(SignatureBytes(sig)) == sig <==>
       Fits(|sig.value.format|, 4 + |sig.value.blob|) && Fits(|sig.value.blob|, 0))
  {
    hide ParseString, Fits;
    match sig
    case None => assert ParseString([]) == None by { NoString(); }
    case Some(Signature(format, blob)) =>
      ParseStringIff(format, StringBytes(blob));
      ParseStringIff(blob, []);
      assert StringBytes(blob) + [] == StringBytes(blob);
  }

  lemma NoString()
    ensures ParseString([]) == None
  {
  }

  lemma StringIsLonger(s: Str)
    ensures |StringBytes(s)| == 4 + |s|
  {
  }

  lemma StrippedIsBody(k: PlainKey)
    requires |KeyBytes(k)| < U32_LIMIT
    ensures StrippedKey(k) == KeyBody(k)
  {
    hide StringBytes, ParseString, KeyBody, Name;
    StringIsLonger(Name(AlgoOf(k)));
    ParseStringIff(Name(AlgoOf(k)), KeyBody(k));
  }

  /** A plain key comes back if and only if the parser accepts it. */
  lemma PlainKeyRoundTripIff(points: Points, k: PlainKey)
    requires |KeyBytes(k)| < U32_LIMIT
    ensures ParsePublicKey(points, KeyBytes(k)) == Ok(Plain(k)) <==> KeyOK(points, k)
  {
    hide StringBytes, ParseString, ParseKeyBody, KeyBody, Name, AlgoNamed, KeyOK, KeyFits;
    var a := AlgoOf(k);
    StringIsLonger(Name(a));
    Names(a);
    ParseStringIff(Name(a), KeyBody(k));
    assert KeyBody(k) + [] == KeyBody(k);
    ShortKeyFits(k, []);
    KeyBodyRoundTripIff(points, k, []);
    if ParseKeyBody(points, KeyBody(k), a).Some? {
      ParsedKeyOK(points, KeyBody(k), a);
    }
  }

  // ----- Certificates come back ---------------------------------------------

  /** The numbers of a certificate and of those it is signed by are within the types of its fields. */
  ghost predicate Typed(c: Certificate)
  {
    && c.serial < U64_LIMIT && c.certType < U32_LIMIT && c.validAfter < U64_LIMIT && c.validBefore < U64_LIMIT
    && (c.signatureKey.Cert? ==> Typed(c.signatureKey.c))
  }

  /** A certificate is signed, and so is every certificate in the chain of keys that signed it. */
  ghost predicate Signed(c: Certificate)
  {
    c.signature.Some? && (c.signatureKey.Cert? ==> Signed(c.signatureKey.c))
  }

  /** The parsers accept every key of the chain. */
  ghost predicate KeysOK(points: Points, c: Certificate)
  {
    && KeyOK(points, c.key)
    && (match c.signatureKey
        case Plain(k) => KeyOK(points, k)
        case Cert(c') => KeysOK(points, c'))
  }

  /** How the key that signed a certificate comes back, which decides how the certificate does. */
  ghost predicate SignerComesBack(points: Points, c: Certificate)
  {
    ParsePublicKey(points, PublicKeyBytes(c.signatureKey)) == Ok(c.signatureKey)
  }

  lemma {:induction false} FieldsAreShort(vs: seq<Value>, i: nat)
    requires i < |vs| && vs[i].VBytes?
    ensures |vs[i].bs| < |MarshalFields(vs)|
  {
    if i > 0 {
      FieldsAreShort(vs[1..], i - 1);
    }
  }

  /** The generic fields, all small enough, give the certificate back if the signer comes back and it is signed. */
  lemma FromGenericIff(points: Points, c: Certificate)
    requires |MarshalFields(GenericFields(c))| < U32_LIMIT && GenericShape(GenericFields(c))
    ensures var r := FromGeneric(points, c.nonce, c.key, GenericFields(c));
      && (r == Ok(c) <==> SignerComesBack(points, c) && c.signature.Some?)
      && (SignerComesBack(points, c) && c.signature.None? ==> r == Err(BadSignature))
      && (ParsePublicKey(points, PublicKeyBytes(c.signatureKey)) == Err(BadSignature) ==> r == Err(BadSignature))
  {
    hide MarshalFields, ParseStringList, ParseTuplesFrom, ParsePublicKey, ParseSignature,
         StringList, TuplesBytes, PublicKeyBytes, SignatureBytes, ListFits;
    var vs := GenericFields(c);
    FieldsAreShort(vs, 3);
    FieldsAreShort(vs, 6);
    FieldsAreShort(vs, 7);
    FieldsAreShort(vs, 10);
    ShortListFits(c.principals);
    StringListRoundTripIff(c.principals);
    ShortTuples(c.criticalOptions);
    ShortTuples(c.extensions);
    ShortSignature(c.signature);
  }

  lemma ShortSignature(sig: Option<Signature>)
    requires |SignatureBytes(sig)| < U32_LIMIT
    ensures ParseSignature(SignatureBytes(sig)) == sig
  {
    hide ParseSignature;
    SignatureRoundTripIff(sig);
  }

  lemma GenericParses(c: Certificate)
    requires Typed(c) && |MarshalFields(GenericFields(c))| < U32_LIMIT
    ensures GenericShape(GenericFields(c))
    ensures ParseStruct(GENERIC, MarshalFields(GenericFields(c))) == Ok(GenericFields(c))
  {
    hide ParseStruct, MarshalFields, StringList, TuplesBytes, PublicKeyBytes, SignatureBytes, AllOK;
    var vs := GenericFields(c);
    ShortStructFits(vs);
    GenericBytes(c);
    FieldsAreShort(vs, 10);
    StructRoundTripIff(GENERIC, vs);
  }

  /** After its name, a certificate comes back if its keys and its signer do and it is signed. */
  lemma CertBodyIff(points: Points, c: Certificate)
    requires Typed(c) && GenericShape(GenericFields(c))
    requires |StringBytes(c.nonce)| + |KeyBody(c.key)| + |MarshalFields(GenericFields(c))| < U32_LIMIT
    ensures var body := StringBytes(c.nonce) + (KeyBody(c.key) + MarshalFields(GenericFields(c)));
      var r := ParseCert(points, body, AlgoOf(c.key));
      && (r == Ok(c) <==> KeyOK(points, c.key) && SignerComesBack(points, c) && c.signature.Some?)
      && (KeyOK(points, c.key) ==> r == FromGeneric(points, c.nonce, c.key, GenericFields(c)))
  {
    hide StringBytes, ParseString, ParseKeyBody, KeyBody, ParseStruct, FromGeneric,
         MarshalFields, GenericFields, KeyOK, KeyFits, SignerComesBack, Typed;
    StringIsLonger(c.nonce);
    var generic := MarshalFields(GenericFields(c));
    var data1 := KeyBody(c.key) + generic;
    ParseStringIff(c.nonce, data1);
    ShortKeyFits(c.key, generic);
    KeyBodyRoundTripIff(points, c.key, generic);
    GenericParses(c);
    FromGenericIff(points, c);
    var one := ParseKeyBody(points, data1, AlgoOf(c.key));
    if one.Some? {
      ParsedKeyOK(points, data1, AlgoOf(c.key));
      KeyStays(points, c.nonce, one.value.0, one.value.1);
    }
  }

  /** Whatever the generic part gives, the key is the one that was parsed. */
  lemma KeyStays(points: Points, nonce: seq<byte>, key: PlainKey, data: seq<byte>)
    ensures ParseStruct(GENERIC, data).Ok? ==>
      && GenericShape(ParseStruct(GENERIC, data).value)
      && var r := FromGeneric(points, nonce, key, ParseStruct(GENERIC, data).value);
         r.Ok? ==> r.value.key == key
  {
    hide ParseStruct, ParseStringList, ParseTuplesFrom, ParsePublicKey, ParseSignature;
    GenericIsParsed(data);
  }

  lemma CertBytesParts(c: Certificate)
    requires |KeyBytes(c.key)| < U32_LIMIT
    ensures var body := StringBytes(c.nonce) + (KeyBody(c.key) + MarshalFields(GenericFields(c)));
      CertBytes(c) == StringBytes(CertName(AlgoOf(c.key))) + body
  {
    hide KeyBody, KeyBytes, StrippedKey, MarshalFields, GenericFields, CertName, StructBytes;
    StrippedIsBody(c.key);
    GenericBytes(c);
  }

  /** A certificate is parsed as one, after its name. */
  lemma CertParses(points: Points, a: Algo, body: seq<byte>)
    requires |StringBytes(CertName(a)) + body| < U32_LIMIT
    ensures ParsePublicKey(points, StringBytes(CertName(a)) + body) ==
      match ParseCert(points, body, a) case Err(e) => Err(e) case Ok(c) => Ok(Cert(c))
  {
    hide StringBytes, ParseString, ParseCert, CertName, AlgoNamed, CertAlgoNamed;
    CertNames(a);
    StringIsLonger(CertName(a));
    ParseStringIff(CertName(a), body);
  }

  /** The key that signed a certificate is part of it. */
  lemma SignerIsShorter(c: Certificate)
    ensures |PublicKeyBytes(c.signatureKey)| < |CertBytes(c)|
  {
    hide MarshalFields, StringList, TuplesBytes, PublicKeyBytes, SignatureBytes, Prefix;
    GenericBytes(c);
    FieldsAreShort(GenericFields(c), 9);
  }

  /** Every key of the chain is shorter than 2^32 bytes; a longer one would be left out of its certificate. */
  ghost predicate KeysFit(c: Certificate)
  {
    |KeyBytes(c.key)| < U32_LIMIT && (c.signatureKey.Cert? ==> KeysFit(c.signatureKey.c))
  }

  /**
   * A certificate comes back from its wire form if and only if the parsers accept the
   * keys, and it and every certificate in the chain of keys that signed it is signed.
   * What is missing is then a signature.
   */
  lemma {:induction false} CertificateRoundTripIff(points: Points, c: Certificate)
    requires Typed(c) && KeysFit(c) && |CertBytes(c)| < U32_LIMIT
    ensures ParsePublicKey(points, CertBytes(c)) == Ok(Cert(c)) <==> Signed(c) && KeysOK(points, c)
    ensures KeysOK(points, c) && !Signed(c) ==> ParsePublicKey(points, CertBytes(c)) == Err(BadSignature)
    decreases c
  {
    hide StringBytes, ParsePublicKey, ParseCert, CertBytes, KeyBody, KeyBytes, MarshalFields, GenericFields,
         CertName, FromGeneric, KeyOK;
    CertBytesParts(c);
    var body := StringBytes(c.nonce) + (KeyBody(c.key) + MarshalFields(GenericFields(c)));
    StringIsLonger(CertName(AlgoOf(c.key)));
    GenericParses(c);
    CertBodyIff(points, c);
    CertParses(points, AlgoOf(c.key), body);
    FromGenericIff(points, c);
    SignerIsShorter(c);
    match c.signatureKey
    case Plain(k) => PlainKeyRoundTripIff(points, k);
    case Cert(c') => CertificateRoundTripIff(points, c');
  }
}
