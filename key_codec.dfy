/** The key string format of client/ecc.js: a key is written as its curve size in
    decimal followed by the hex of the key material, and read back by taking the
    first three characters as the curve id and the rest as the hex body. Lookup of
    the curve id in SJCL's registry is the only interpretation the reader applies:
    it checks neither the id nor the hex. */
module KeyCodec {
  import opened Js
  import opened Sjcl

  /** Width of the curve-id prefix `extract` cuts off a key string. */
  const CURVE_ID_LENGTH: nat := 3

  /** A key string split by `extract`: the curve id, the registry entry it names
      (None when SJCL has no such curve) and the hex body. */
  datatype ExtractedKey = ExtractedKey(curveId: string, curve: Option<Curve>, hex: string)

  /** A key pair as `eccAPI(...).generate` returns it: each half stamped with the
      curve size (`$curve`) and carrying what its `get()` yields. */
  datatype GeneratedPublic = GeneratedPublic(curve: nat, x: BitArray, y: BitArray)
  datatype GeneratedSecret = GeneratedSecret(curve: nat, exponent: BitArray)
  datatype GeneratedPair = GeneratedPair(pub: GeneratedPublic, sec: GeneratedSecret)

  /** The property name a curve id is registered under in `SJCL.ecc.curves`. */
  function RegistryName(curveId: string): string
  {
    "c" + curveId
  }

  /** `curves[name]` on a JavaScript object: undefined when absent. */
  function Lookup(curves: map<string, Curve>, name: string): Option<Curve>
  {
    if name in curves then Some(curves[name]) else None
  }

  /** `extract`: `str.substr(0, 3)` is the curve id, `str.substr(3)` the hex body. On a
      string shorter than three characters the whole string is the id and the body is
      empty. */
  function Extract(curves: map<string, Curve>, s: string): ExtractedKey
  {
    var n := if |s| < CURVE_ID_LENGTH then |s| else CURVE_ID_LENGTH;
    ExtractedKey(s[..n], Lookup(curves, RegistryName(s[..n])), s[n..])
  }

  /** The curve id and the hex body partition the key string, the id has three
      characters (all of a shorter string), and the curve is the registry entry the id
      names, absent exactly when SJCL has no such curve. */
  lemma ExtractSplits(curves: map<string, Curve>, s: string)
    ensures var r := Extract(curves, s);
      && r.curveId + r.hex == s
      && |r.curveId| == (if |s| < CURVE_ID_LENGTH then |s| else CURVE_ID_LENGTH)
      && (r.curve.Some? <==> RegistryName(r.curveId) in curves)
      && (r.curve.Some? ==> r.curve.value == curves[RegistryName(r.curveId)])
  {
    var n := if |s| < CURVE_ID_LENGTH then |s| else CURVE_ID_LENGTH;
    assert s[..n] + s[n..] == s;
  }

  /** Extract undoes the concatenation of a three-character curve id and any body. */
  lemma ExtractJoin(curves: map<string, Curve>, curveId: string, hex: string)
    requires |curveId| == CURVE_ID_LENGTH
    ensures Extract(curves, curveId + hex)
         == ExtractedKey(curveId, Lookup(curves, RegistryName(curveId)), hex)
  {
    var r := Extract(curves, curveId + hex);
    assert r.curveId == (curveId + hex)[..CURVE_ID_LENGTH];
    assert (curveId + hex)[..CURVE_ID_LENGTH] == curveId;
  }

  /** `exportPublic`: the curve size, then hex(x), then hex(y). */
  function ExportPublic(hexFromBits: BitArray -> string, key: GeneratedPublic): string
  {
    NumberToString(key.curve) + hexFromBits(key.x) + hexFromBits(key.y)
  }

  /** `exportSecret`: the curve size, then hex of the secret exponent. */
  function ExportSecret(hexFromBits: BitArray -> string, key: GeneratedSecret): string
  {
    NumberToString(key.curve) + hexFromBits(key.exponent)
  }

  /** A public key of a three-digit curve reads back as that curve's id, the registry
      entry under "c" + id, and exactly the exported coordinates' hex; the id parses
      back to the curve size. */
  lemma ExtractExportPublic(curves: map<string, Curve>, hexFromBits: BitArray -> string,
                            key: GeneratedPublic)
    requires 100 <= key.curve <= 999
    ensures var r := Extract(curves, ExportPublic(hexFromBits, key));
      && r.curveId == NumberToString(key.curve)
      && r.curve == Lookup(curves, RegistryName(NumberToString(key.curve)))
      && r.hex == hexFromBits(key.x) + hexFromBits(key.y)
      && AllDigits(r.curveId) && ParseDecimal(r.curveId) == key.curve
  {
    NumberToStringLength3(key.curve);
    ParseNumberToString(key.curve);
    var body := hexFromBits(key.x) + hexFromBits(key.y);
    assert ExportPublic(hexFromBits, key) == NumberToString(key.curve) + body;
    ExtractJoin(curves, NumberToString(key.curve), body);
  }

  /** The secret-key counterpart of ExtractExportPublic. */
  lemma ExtractExportSecret(curves: map<string, Curve>, hexFromBits: BitArray -> string,
                            key: GeneratedSecret)
    requires 100 <= key.curve <= 999
    ensures var r := Extract(curves, ExportSecret(hexFromBits, key));
      && r.curveId == NumberToString(key.curve)
      && r.curve == Lookup(curves, RegistryName(NumberToString(key.curve)))
      && r.hex == hexFromBits(key.exponent)
      && AllDigits(r.curveId) && ParseDecimal(r.curveId) == key.curve
  {
    NumberToStringLength3(key.curve);
    ParseNumberToString(key.curve);
    ExtractJoin(curves, NumberToString(key.curve), hexFromBits(key.exponent));
  }

  /** The format has no room for a curve size of four or more digits: its exported
      key no longer reads back with that size as its id. */
  lemma ExtractExportWideCurve(curves: map<string, Curve>, hexFromBits: BitArray -> string,
                               pub: GeneratedPublic, sec: GeneratedSecret)
    requires pub.curve >= 1000 && sec.curve >= 1000
    ensures Extract(curves, ExportPublic(hexFromBits, pub)).curveId != NumberToString(pub.curve)
    ensures Extract(curves, ExportSecret(hexFromBits, sec)).curveId != NumberToString(sec.curve)
  {
    NumberToStringLength(pub.curve);
    NumberToStringLength(sec.curve);
  }

  /** `eccAPI(...).generate`: generate a raw pair on the curve and stamp both halves
      with the curve size. `generateKeys` is the library's randomised generator. */
  function GenerateKeyPair(generateKeys: (Algorithm, nat) -> Result<RawKeyPair>,
                           algo: Algorithm, curve: nat): (r: Result<GeneratedPair>)
    ensures r.Ok? <==> generateKeys(algo, curve).Ok?
    ensures r.Err? ==> r.error == generateKeys(algo, curve).error
    ensures r.Ok? ==> var raw := generateKeys(algo, curve).value;
      && r.value.pub == GeneratedPublic(curve, raw.x, raw.y)
      && r.value.sec == GeneratedSecret(curve, raw.exponent)
  {
    match generateKeys(algo, curve)
    case Err(e) => Err(e)
    case Ok(raw) => Ok(GeneratedPair(GeneratedPublic(curve, raw.x, raw.y),
                                     GeneratedSecret(curve, raw.exponent)))
  }

  /** `eccAPI(...).importPublic`: split the string and hand the curve and the hex body,
      as bits, to the key constructor, which alone may throw. */
  function ImportPublic(lib: Library, algo: Algorithm, keyStr: string): Result<PublicKey>
  {
    var key := Extract(lib.curves, keyStr);
    lib.newPublicKey(algo, key.curve, lib.hexToBits(key.hex))
  }

  /** `eccAPI(...).importSecret`: as ImportPublic, with the hex body as a big number. */
  function ImportSecret(lib: Library, algo: Algorithm, keyStr: string): Result<SecretKey>
  {
    var key := Extract(lib.curves, keyStr);
    lib.newSecretKey(algo, key.curve, lib.bigNum(key.hex))
  }

  /** Importing an exported public key of a three-digit curve builds the key from that
      curve's registry entry and from exactly the exported coordinate hex. */
  lemma ImportExportPublic(lib: Library, algo: Algorithm, key: GeneratedPublic)
    requires 100 <= key.curve <= 999
    ensures ImportPublic(lib, algo, ExportPublic(lib.hexFromBits, key))
         == lib.newPublicKey(algo, Lookup(lib.curves, RegistryName(NumberToString(key.curve))),
                             lib.hexToBits(lib.hexFromBits(key.x) + lib.hexFromBits(key.y)))
  {
    ExtractExportPublic(lib.curves, lib.hexFromBits, key);
  }

  /** Importing an exported secret key of a three-digit curve builds the key from that
      curve's registry entry and from exactly the exported exponent hex. */
  lemma ImportExportSecret(lib: Library, algo: Algorithm, key: GeneratedSecret)
    requires 100 <= key.curve <= 999
    ensures ImportSecret(lib, algo, ExportSecret(lib.hexFromBits, key))
         == lib.newSecretKey(algo, Lookup(lib.curves, RegistryName(NumberToString(key.curve))),
                             lib.bigNum(lib.hexFromBits(key.exponent)))
  {
    ExtractExportSecret(lib.curves, lib.hexFromBits, key);
  }
}
