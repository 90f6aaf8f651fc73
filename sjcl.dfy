/** The SJCL library as client/ecc.js consumes it: opaque curve and key objects and
    the deterministic library functions the facade calls. Nothing here is computed:
    every function is a field of a Library value supplied by the caller, so the
    model holds for every behaviour the library may have. The operations that draw
    randomness (key generation, KEM encapsulation, AEAD encryption, ECDSA signing)
    are not here; they are passed per call to the operation that uses them. */
module Sjcl {
  import opened Js

  /** A curve of SJCL's registry (`SJCL.ecc.curves`). */
  type Curve

  /** An imported public-key object (`new algo.publicKey(...)`). */
  type PublicKey

  /** An imported secret-key object (`new algo.secretKey(...)`). */
  type SecretKey

  /** An SJCL big number (`new SJCL.bn(hex)`). */
  type BigNum

  /** An SJCL bit array: a sequence of 32-bit words. */
  type BitArray = seq<int>

  /** A message to sign or verify: a text, or an already computed bit array. */
  datatype Message = Text(text: string) | Bits(bits: BitArray)

  /** The two SJCL algorithms the facade wraps: `SJCL.ecc.elGamal` and `SJCL.ecc.ecdsa`. */
  datatype Algorithm = ElGamal | Ecdsa

  /** What `algo.generateKeys(curve, 1)` yields: the public point's coordinates
      (`pub.get()`) and the secret exponent (`sec.get()`). */
  datatype RawKeyPair = RawKeyPair(x: BitArray, y: BitArray, exponent: BitArray)

  /** One KEM encapsulation (`pub.kem()`): a symmetric key and its tag. */
  datatype KemDraw = KemDraw(key: BitArray, tag: BitArray)

  /** The deterministic part of SJCL that client/ecc.js calls. */
  datatype Library = Library(
    curves: map<string, Curve>,                                       // SJCL.ecc.curves
    hexFromBits: BitArray -> string,                                  // SJCL.codec.hex.fromBits
    hexToBits: string -> BitArray,                                    // SJCL.codec.hex.toBits
    bigNum: string -> BigNum,                                         // new SJCL.bn(hex)
    newPublicKey: (Algorithm, Option<Curve>, BitArray) -> Result<PublicKey>, // new algo.publicKey
    newSecretKey: (Algorithm, Option<Curve>, BigNum) -> Result<SecretKey>,   // new algo.secretKey
    unkem: (SecretKey, BitArray) -> Result<BitArray>,                // sec.unkem(tag)
    verify: (PublicKey, Message, BitArray) -> Result<bool>,          // pub.verify(text, signature)
    sha256: Message -> BitArray,                                      // SJCL.hash.sha256.hash
    aeadDecrypt: (BitArray, Value) -> Result<string>,                 // SJCL.json._decrypt
    stringify: Value -> string,                                       // JSON.stringify
    parse: string -> Result<Value>)                                   // JSON.parse
}
