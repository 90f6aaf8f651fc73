/** `ecc.generate`: pick the algorithm and the two field names from the type
    sentinel, generate a pair on the requested curve (or the default one) and
    return both halves in the key string format. */
module Generate {
  import opened Js
  import opened Sjcl
  import opened KeyCodec

  /** The curve size used when the caller passes none. */
  const DEFAULT_CURVE: nat := 192

  /** The `type` argument, compared by identity with the two exported sentinels. */
  datatype KeyType = EncDecSentinel | SigVerSentinel | OtherValue

  /** `if(!curve) curve = DEFAULT_CURVE`: an absent curve and the curve 0 are falsy. */
  function EffectiveCurve(curve: Option<nat>): (c: nat)
    ensures c != 0
    ensures curve.Some? && curve.value != 0 ==> c == curve.value
  {
    if curve.None? || curve.value == 0 then DEFAULT_CURVE else curve.value
  }

  /** The key record: the public half under `pubName`, the secret half under `secName`. */
  function KeyRecord(hexFromBits: BitArray -> string, pair: GeneratedPair,
                     pubName: string, secName: string): map<string, string>
  {
    map[pubName := ExportPublic(hexFromBits, pair.pub), secName := ExportSecret(hexFromBits, pair.sec)]
  }

  function Generate(keyType: KeyType, curve: Option<nat>, hexFromBits: BitArray -> string,
                    generateKeys: (Algorithm, nat) -> Result<RawKeyPair>): (r: Result<map<string, string>>)
    ensures keyType == OtherValue ==> r == Err(Thrown(UNKNOWN_TYPE_MESSAGE))
    ensures keyType == EncDecSentinel ==>
      (r.Ok? <==> generateKeys(ElGamal, EffectiveCurve(curve)).Ok?) &&
      (r.Ok? ==> r.value.Keys == {"enc", "dec"})
    ensures keyType == SigVerSentinel ==>
      (r.Ok? <==> generateKeys(Ecdsa, EffectiveCurve(curve)).Ok?) &&
      (r.Ok? ==> r.value.Keys == {"ver", "sig"})
  {
    var c := EffectiveCurve(curve);
    match keyType
    case EncDecSentinel =>
      (match GenerateKeyPair(generateKeys, ElGamal, c)
       case Err(e) => Err(e)
       case Ok(pair) => Ok(KeyRecord(hexFromBits, pair, "enc", "dec")))
    case SigVerSentinel =>
      (match GenerateKeyPair(generateKeys, Ecdsa, c)
       case Err(e) => Err(e)
       case Ok(pair) => Ok(KeyRecord(hexFromBits, pair, "ver", "sig")))
    case OtherValue => Err(Thrown(UNKNOWN_TYPE_MESSAGE))
  }

  /** An absent or zero curve behaves exactly like the default curve 192. */
  lemma GenerateDefaultCurve(keyType: KeyType, curve: Option<nat>, hexFromBits: BitArray -> string,
                             generateKeys: (Algorithm, nat) -> Result<RawKeyPair>)
    requires curve.None? || curve == Some(0)
    ensures Generate(keyType, curve, hexFromBits, generateKeys)
         == Generate(keyType, Some(DEFAULT_CURVE), hexFromBits, generateKeys)
    ensures EffectiveCurve(curve) == 192
  {
  }

  /** Both strings of a key record on a three-digit curve name that curve's id and
      carry exactly the pair's coordinates and exponent. */
  lemma KeyRecordReadsBack(curves: map<string, Curve>, hexFromBits: BitArray -> string,
                           pair: GeneratedPair, pubName: string, secName: string)
    requires pubName != secName
    requires pair.pub.curve == pair.sec.curve && 100 <= pair.pub.curve <= 999
    ensures var rec := KeyRecord(hexFromBits, pair, pubName, secName);
      && rec.Keys == {pubName, secName}
      && Extract(curves, rec[pubName]).curveId == NumberToString(pair.pub.curve)
      && Extract(curves, rec[secName]).curveId == NumberToString(pair.pub.curve)
      && Extract(curves, rec[pubName]).hex == hexFromBits(pair.pub.x) + hexFromBits(pair.pub.y)
      && Extract(curves, rec[secName]).hex == hexFromBits(pair.sec.exponent)
  {
    var rec := KeyRecord(hexFromBits, pair, pubName, secName);
    assert rec[pubName] == ExportPublic(hexFromBits, pair.pub);
    assert rec[secName] == ExportSecret(hexFromBits, pair.sec);
    ExtractExportPublic(curves, hexFromBits, pair.pub);
    ExtractExportSecret(curves, hexFromBits, pair.sec);
  }

  /** An encryption pair on a three-digit curve reads back, through `extract`, as two
      key strings naming the same curve id (the curve size in decimal) and carrying
      exactly the generated public coordinates and secret exponent. */
  lemma GenerateEncDecReadsBack(curves: map<string, Curve>, curve: Option<nat>,
                                hexFromBits: BitArray -> string,
                                generateKeys: (Algorithm, nat) -> Result<RawKeyPair>)
    requires 100 <= EffectiveCurve(curve) <= 999
    requires generateKeys(ElGamal, EffectiveCurve(curve)).Ok?
    ensures var r := Generate(EncDecSentinel, curve, hexFromBits, generateKeys);
      var raw := generateKeys(ElGamal, EffectiveCurve(curve)).value;
      && r.Ok?
      && Extract(curves, r.value["enc"]).curveId == NumberToString(EffectiveCurve(curve))
      && Extract(curves, r.value["dec"]).curveId == NumberToString(EffectiveCurve(curve))
      && Extract(curves, r.value["enc"]).hex == hexFromBits(raw.x) + hexFromBits(raw.y)
      && Extract(curves, r.value["dec"]).hex == hexFromBits(raw.exponent)
  {
    var c := EffectiveCurve(curve);
    var pair := GenerateKeyPair(generateKeys, ElGamal, c).value;
    assert Generate(EncDecSentinel, curve, hexFromBits, generateKeys)
        == Ok(KeyRecord(hexFromBits, pair, "enc", "dec"));
    KeyRecordReadsBack(curves, hexFromBits, pair, "enc", "dec");
  }

  /** The signature-pair counterpart of GenerateEncDecReadsBack. */
  lemma GenerateSigVerReadsBack(curves: map<string, Curve>, curve: Option<nat>,
                                hexFromBits: BitArray -> string,
                                generateKeys: (Algorithm, nat) -> Result<RawKeyPair>)
    requires 100 <= EffectiveCurve(curve) <= 999
    requires generateKeys(Ecdsa, EffectiveCurve(curve)).Ok?
    ensures var r := Generate(SigVerSentinel, curve, hexFromBits, generateKeys);
      var raw := generateKeys(Ecdsa, EffectiveCurve(curve)).value;
      && r.Ok?
      && Extract(curves, r.value["ver"]).curveId == NumberToString(EffectiveCurve(curve))
      && Extract(curves, r.value["sig"]).curveId == NumberToString(EffectiveCurve(curve))
      && Extract(curves, r.value["ver"]).hex == hexFromBits(raw.x) + hexFromBits(raw.y)
      && Extract(curves, r.value["sig"]).hex == hexFromBits(raw.exponent)
  {
    var c := EffectiveCurve(curve);
    var pair := GenerateKeyPair(generateKeys, Ecdsa, c).value;
    assert Generate(SigVerSentinel, curve, hexFromBits, generateKeys)
        == Ok(KeyRecord(hexFromBits, pair, "ver", "sig"));
    KeyRecordReadsBack(curves, hexFromBits, pair, "ver", "sig");
  }

  /** With the default curve both halves carry the curve id "192". */
  lemma {:induction false} DefaultCurveId()
    ensures NumberToString(DEFAULT_CURVE) == "192"
  {
    assert NumberToString(1) == "1";
    assert NumberToString(19) == NumberToString(1) + [Digit(9)];
  }
}
