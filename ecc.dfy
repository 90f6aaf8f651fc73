/** The `ecc` facade object of client/ecc.js with its module-level `cache`: four
    dictionaries, filled lazily and never overwritten or evicted, that the four
    cached operations update in place. Each method is proved to compute exactly what
    the corresponding function of module Protocol describes, and to keep the cache
    coherent with the collaborators. */
module Ecc {
  import opened Js
  import opened Sjcl
  import opened KeyCodec
  import Protocol

  class Ecc {
    /** The SJCL library and JSON codec the facade was loaded with. */
    const lib: Library

    /** `cache.enc`: encoded public key to the KEM result reused for it. */
    var enc: map<string, Protocol.Kem>
    /** `cache.dec`: encoded secret key to the imported key and its `$keys`. */
    var dec: map<string, Protocol.DecEntry>
    /** `cache.sig`: encoded signing key to the imported secret key. */
    var sig: map<string, SecretKey>
    /** `cache.ver`: encoded verification key to the imported public key. */
    var ver: map<string, PublicKey>

    function Cache(): Protocol.CacheState
      reads this
    {
      Protocol.CacheState(enc, dec, sig, ver)
    }

    ghost predicate Valid()
      reads this
    {
      Protocol.Coherent(lib, Cache())
    }

    /** Module load: every dictionary starts empty. */
    constructor (lib: Library)
      ensures this.lib == lib && Cache() == Protocol.EmptyCache && Valid()
    {
      this.lib := lib;
      enc, dec, sig, ver := map[], map[], map[], map[];
    }

    /** `ecc.encrypt`: reuse or create the KEM result of `enckey`, then seal. */
    method Encrypt(enckey: string, plaintext: string, kem: PublicKey -> Result<KemDraw>,
                   seal: (BitArray, string) -> Result<map<string, Value>>) returns (r: Result<string>)
      requires Valid()
      modifies this
      ensures Valid()
      ensures Protocol.Outcome(Cache(), r)
           == Protocol.Encrypt(lib, old(Cache()), enckey, plaintext, kem, seal)
    {
      ghost var s0 := Cache();
      var entry: Result<Protocol.Kem>;
      if enckey in enc {
        entry := Ok(enc[enckey]);
      } else {
        var pub := ImportPublic(lib, ElGamal, enckey);
        if pub.Err? {
          entry := Err(pub.error);
        } else {
          var draw := kem(pub.value);
          if draw.Err? {
            entry := Err(draw.error);
          } else {
            entry := Ok(Protocol.Kem(draw.value.key, draw.value.tag, lib.hexFromBits(draw.value.tag)));
            enc := enc[enckey := entry.value];
          }
        }
      }
      if entry.Err? {
        r := Err(entry.error);
      } else {
        var sealed := seal(entry.value.key, plaintext);
        if sealed.Err? {
          r := Err(sealed.error);
        } else {
          var obj := sealed.value["tag" := Str(entry.value.tagHex)];
          r := Ok(lib.stringify(Obj(obj)));
        }
      }
      assert Protocol.Outcome(Cache(), r) == Protocol.Encrypt(lib, s0, enckey, plaintext, kem, seal);
      Protocol.EncryptKeepsCoherent(lib, s0, enckey, plaintext, kem, seal);
      assert Protocol.Coherent(lib, Cache());
    }

    /** `ecc.decrypt`: parse, reuse or import the secret key, reuse or derive the
        symmetric key of the envelope's tag, then open. */
    method Decrypt(deckey: string, ciphertext: string) returns (r: Result<string>)
      requires Valid()
      modifies this
      ensures Valid()
      ensures Protocol.Outcome(Cache(), r) == Protocol.Decrypt(lib, old(Cache()), deckey, ciphertext)
    {
      ghost var s0 := Cache();
      var parsed := lib.parse(ciphertext);
      if parsed.Err? {
        r := Err(parsed.error);
      } else {
        var found := SecretEntry(deckey);
        if found.Err? {
          r := Err(found.error);
        } else {
          var opening := Protocol.OpenWith(lib, found.value, parsed.value);
          dec := dec[deckey := opening.entry];
          r := opening.result;
          assert dec == s0.dec[deckey := opening.entry];
        }
      }
      assert Protocol.Outcome(Cache(), r) == Protocol.Decrypt(lib, s0, deckey, ciphertext);
      Protocol.DecryptKeepsCoherent(lib, s0, deckey, ciphertext);
      assert Protocol.Coherent(lib, Cache());
    }

    /** Lines 59-63: the cached entry of `deckey`, or a freshly imported secret key
        with an empty `$keys`, stored at once. */
    method SecretEntry(deckey: string) returns (found: Result<Protocol.DecEntry>)
      modifies this
      ensures found == Protocol.DecEntryFor(lib, old(Cache()), deckey)
      ensures enc == old(enc) && sig == old(sig) && ver == old(ver)
      ensures dec == if found.Ok? then old(dec)[deckey := found.value] else old(dec)
    {
      if deckey in dec {
        found := Ok(dec[deckey]);
      } else {
        var secret := ImportSecret(lib, ElGamal, deckey);
        if secret.Err? {
          return Err(secret.error);
        }
        found := Ok(Protocol.DecEntry(secret.value, map[]));
        dec := dec[deckey := found.value];
      }
    }

    /** `ecc.sign`: reuse or import the signing key, hash unless told not to, sign. */
    method Sign(sigkey: string, text: Message, hash: Value,
                sign: (SecretKey, Message) -> Result<BitArray>) returns (r: Result<BitArray>)
      requires Valid()
      modifies this
      ensures Valid()
      ensures Protocol.Outcome(Cache(), r) == Protocol.Sign(lib, old(Cache()), sigkey, text, hash, sign)
    {
      ghost var s0 := Cache();
      var key: Result<SecretKey>;
      if sigkey in sig {
        key := Ok(sig[sigkey]);
      } else {
        key := ImportSecret(lib, Ecdsa, sigkey);
        if key.Ok? {
          sig := sig[sigkey := key.value];
        }
      }
      if key.Err? {
        r := Err(key.error);
      } else {
        var input := text;
        if hash != Bool(false) {
          input := Bits(lib.sha256(text));
        }
        r := sign(key.value, input);
      }
      assert Protocol.Outcome(Cache(), r) == Protocol.Sign(lib, s0, sigkey, text, hash, sign);
      Protocol.SignKeepsCoherent(lib, s0, sigkey, text, hash, sign);
      assert Protocol.Coherent(lib, Cache());
    }

    /** `ecc.verify`: reuse or import the verification key, hash unless told not to,
        verify, and turn an exception of the check into `false`. */
    method Verify(verkey: string, signature: BitArray, text: Message, hash: Value)
      returns (r: Result<bool>)
      requires Valid()
      modifies this
      ensures Valid()
      ensures Protocol.Outcome(Cache(), r)
           == Protocol.Verify(lib, old(Cache()), verkey, signature, text, hash)
    {
      ghost var s0 := Cache();
      var key: Result<PublicKey>;
      if verkey in ver {
        key := Ok(ver[verkey]);
      } else {
        key := ImportPublic(lib, Ecdsa, verkey);
        if key.Ok? {
          ver := ver[verkey := key.value];
        }
      }
      if key.Err? {
        r := Err(key.error);
      } else {
        var input := text;
        if hash != Bool(false) {
          input := Bits(lib.sha256(text));
        }
        var checked := lib.verify(key.value, input, signature);
        if checked.Ok? {
          r := Ok(checked.value);
        } else {
          r := Ok(false);
        }
      }
      assert Protocol.Outcome(Cache(), r) == Protocol.Verify(lib, s0, verkey, signature, text, hash);
      Protocol.VerifyKeepsCoherent(lib, s0, verkey, signature, text, hash);
      assert Protocol.Coherent(lib, Cache());
    }
  }

  /** A caller's view of the caches: once a `decrypt` has filed the envelope's tag
      under `deckey` (in particular once it succeeded), a second one of the same envelope
      with the same key string leaves the dictionaries as the first left them and gives
      the same result. */
  method DecryptTwice(ecc: Ecc, deckey: string, ciphertext: string)
    returns (first: Result<string>, second: Result<string>)
    requires ecc.Valid()
    modifies ecc
    ensures ecc.Valid()
    ensures var o1 := Protocol.Decrypt(ecc.lib, old(ecc.Cache()), deckey, ciphertext);
      Protocol.TagName(ecc.lib, ciphertext).Some? && deckey in o1.cache.dec &&
      Protocol.TagName(ecc.lib, ciphertext).value in o1.cache.dec[deckey].keys ==>
        second == first && ecc.Cache() == o1.cache
    ensures first.Ok? ==>
      second == first && ecc.Cache() == Protocol.Decrypt(ecc.lib, old(ecc.Cache()), deckey, ciphertext).cache
  {
    ghost var s0 := ecc.Cache();
    Protocol.DecryptOpens(ecc.lib, s0, deckey, ciphertext);
    first := ecc.Decrypt(deckey, ciphertext);
    second := ecc.Decrypt(deckey, ciphertext);
    ghost var o1 := Protocol.Decrypt(ecc.lib, s0, deckey, ciphertext);
    if Protocol.TagName(ecc.lib, ciphertext).Some? && deckey in o1.cache.dec &&
       Protocol.TagName(ecc.lib, ciphertext).value in o1.cache.dec[deckey].keys {
      Protocol.DecryptRepeatIsCached(ecc.lib, ecc.lib, s0, deckey, ciphertext);
    }
  }
}
