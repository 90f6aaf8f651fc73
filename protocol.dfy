/** The four cached operations of client/ecc.js as functions from the cache before a
    call to the cache after it and the call's result: `encrypt`, `decrypt`, `sign`
    and `verify`. The module-level `cache` record is a CacheState value here; the
    class in module Ecc holds it in fields and its methods are proved equal to these
    functions. */
module Protocol {
  import opened Js
  import opened Sjcl
  import opened KeyCodec

  /** A `cache.enc` entry: the object `kem()` returned, with the `tagHex` added to it. */
  datatype Kem = Kem(key: BitArray, tag: BitArray, tagHex: string)

  /** A `cache.dec` entry: the imported secret key with its `$keys` map from tag to
      derived symmetric key. */
  datatype DecEntry = DecEntry(secret: SecretKey, keys: map<string, BitArray>)

  /** The module-level `cache`: four independent dictionaries. */
  datatype CacheState = CacheState(
    enc: map<string, Kem>,
    dec: map<string, DecEntry>,
    sig: map<string, SecretKey>,
    ver: map<string, PublicKey>)

  const EmptyCache := CacheState(map[], map[], map[], map[])

  datatype Outcome<+T> = Outcome(cache: CacheState, result: Result<T>)

  /** Every entry in the cache is what its key string imports to, every `tagHex` is
      the hex of its tag, and every derived key is what `unkem` yields for its tag. */
  ghost predicate Coherent(lib: Library, s: CacheState)
  {
    EncCoherent(lib, s.enc) && DecCoherent(lib, s.dec) && SigCoherent(lib, s.sig) && VerCoherent(lib, s.ver)
  }

  ghost predicate EncCoherent(lib: Library, enc: map<string, Kem>)
  {
    forall k :: k in enc ==> ImportPublic(lib, ElGamal, k).Ok? && enc[k].tagHex == lib.hexFromBits(enc[k].tag)
  }

  ghost predicate DecCoherent(lib: Library, dec: map<string, DecEntry>)
  {
    forall k {:trigger DecEntryCoherent(lib, k, dec[k])} :: k in dec ==> DecEntryCoherent(lib, k, dec[k])
  }

  ghost predicate SigCoherent(lib: Library, sig: map<string, SecretKey>)
  {
    forall k :: k in sig ==> ImportSecret(lib, Ecdsa, k) == Ok(sig[k])
  }

  ghost predicate VerCoherent(lib: Library, ver: map<string, PublicKey>)
  {
    forall k :: k in ver ==> ImportPublic(lib, Ecdsa, k) == Ok(ver[k])
  }

  ghost predicate DecEntryCoherent(lib: Library, deckey: string, e: DecEntry)
  {
    ImportSecret(lib, ElGamal, deckey) == Ok(e.secret) && KeysCoherent(lib, e)
  }

  ghost predicate KeysCoherent(lib: Library, e: DecEntry)
  {
    forall t :: t in e.keys ==> lib.unkem(e.secret, lib.hexToBits(t)) == Ok(e.keys[t])
  }

  /** `m2` keeps every entry of `m1` unchanged and adds entries only under `added`. */
  ghost predicate Extends<V>(m1: map<string, V>, m2: map<string, V>, added: set<string>)
  {
    && m2.Keys <= m1.Keys + added
    && forall j :: j in m1 ==> j in m2 && m2[j] == m1[j]
  }

  /** `dec2` adds at most the entry `k` to `dec1` and changes no entry but `k`, whose
      secret key stays and whose `$keys` only gains tags from `tags`, never replacing one. */
  ghost predicate DecExtends(dec1: map<string, DecEntry>, dec2: map<string, DecEntry>,
                             k: string, tags: set<string>)
  {
    && dec2.Keys <= dec1.Keys + {k}
    && (forall j :: j in dec1 && j != k ==> j in dec2 && dec2[j] == dec1[j])
    && (k in dec1 ==> k in dec2 && dec2[k].secret == dec1[k].secret
                      && Extends(dec1[k].keys, dec2[k].keys, tags))
    && (k !in dec1 && k in dec2 ==> dec2[k].keys.Keys <= tags)
  }

  // ---------------------------------------------------------------- encrypt

  /** The envelope `encrypt` serialises: the AEAD fields with `tag` set to the tag hex. */
  function Envelope(fields: map<string, Value>, tagHex: string): Value
  {
    Obj(fields["tag" := Str(tagHex)])
  }

  /** Lines 49-52: encrypt under the KEM key and attach the KEM tag. */
  function Seal(lib: Library, kem: Kem, plaintext: string,
                seal: (BitArray, string) -> Result<map<string, Value>>): Result<string>
  {
    match seal(kem.key, plaintext)
    case Err(e) => Err(e)
    case Ok(fields) => Ok(lib.stringify(Envelope(fields, kem.tagHex)))
  }

  /** `ecc.encrypt`. `kem` is the encapsulation the public key would draw on this call
      and `seal` the AEAD encryption of this call (both randomised, and both may throw,
      for instance when the random generator is not yet seeded). */
  function Encrypt(lib: Library, s: CacheState, enckey: string, plaintext: string,
                   kem: PublicKey -> Result<KemDraw>,
                   seal: (BitArray, string) -> Result<map<string, Value>>): (o: Outcome<string>)
    ensures o.cache.dec == s.dec && o.cache.sig == s.sig && o.cache.ver == s.ver
    ensures Extends(s.enc, o.cache.enc, {enckey})
    ensures enckey in s.enc ==> o.cache == s
    ensures enckey !in s.enc ==>
      (enckey in o.cache.enc <==>
         ImportPublic(lib, ElGamal, enckey).Ok? && kem(ImportPublic(lib, ElGamal, enckey).value).Ok?)
    ensures enckey !in s.enc && ImportPublic(lib, ElGamal, enckey).Err? ==>
      o == Outcome(s, Err(ImportPublic(lib, ElGamal, enckey).error))
    ensures enckey !in s.enc && ImportPublic(lib, ElGamal, enckey).Ok? &&
            kem(ImportPublic(lib, ElGamal, enckey).value).Err? ==>
      o == Outcome(s, Err(kem(ImportPublic(lib, ElGamal, enckey).value).error))
    ensures enckey !in s.enc && enckey in o.cache.enc ==>
      var draw := kem(ImportPublic(lib, ElGamal, enckey).value).value;
      o.cache.enc[enckey] == Kem(draw.key, draw.tag, lib.hexFromBits(draw.tag))
    ensures enckey in o.cache.enc ==> o.result == Seal(lib, o.cache.enc[enckey], plaintext, seal)
    ensures o.result.Ok? ==> enckey in o.cache.enc
  {
    if enckey in s.enc then
      Outcome(s, Seal(lib, s.enc[enckey], plaintext, seal))
    else
      match ImportPublic(lib, ElGamal, enckey)
      case Err(e) => Outcome(s, Err(e))
      case Ok(pub) =>
        match kem(pub)
        case Err(e) => Outcome(s, Err(e))
        case Ok(draw) =>
          var entry := Kem(draw.key, draw.tag, lib.hexFromBits(draw.tag));
          Outcome(s.(enc := s.enc[enckey := entry]), Seal(lib, entry, plaintext, seal))
  }

  /** `encrypt` keeps a coherent cache coherent: a new `cache.enc` entry belongs to a
      key string that imports, and its `tagHex` is the hex of its tag. */
  lemma EncryptKeepsCoherent(lib: Library, s: CacheState, enckey: string, plaintext: string,
                             kem: PublicKey -> Result<KemDraw>,
                             seal: (BitArray, string) -> Result<map<string, Value>>)
    requires Coherent(lib, s)
    ensures Coherent(lib, Encrypt(lib, s, enckey, plaintext, kem, seal).cache)
  {
    var o := Encrypt(lib, s, enckey, plaintext, kem, seal);
    if enckey !in s.enc && enckey in o.cache.enc {
      forall k | k in o.cache.enc
        ensures ImportPublic(lib, ElGamal, k).Ok? && o.cache.enc[k].tagHex == lib.hexFromBits(o.cache.enc[k].tag)
      {
        if k != enckey {
          assert o.cache.enc[k] == s.enc[k];
        }
      }
    }
  }

  /** Once `cache.enc` holds an entry for a key string, every later `encrypt` to it
      neither imports nor encapsulates: whatever the import and the KEM would do, it
      leaves the cache as it is and seals under the cached key with the cached tag. */
  lemma EncryptReusesKem(lib: Library, lib': Library, s: CacheState, enckey: string,
                         plaintext: string, kem: PublicKey -> Result<KemDraw>, kem': PublicKey -> Result<KemDraw>,
                         seal: (BitArray, string) -> Result<map<string, Value>>)
    requires enckey in s.enc
    requires lib' == lib.(newPublicKey := lib'.newPublicKey)
    ensures Encrypt(lib', s, enckey, plaintext, kem', seal) == Encrypt(lib, s, enckey, plaintext, kem, seal)
    ensures Encrypt(lib, s, enckey, plaintext, kem, seal)
         == Outcome(s, Seal(lib, s.enc[enckey], plaintext, seal))
  {
  }

  /** Two successive `encrypt` calls to one key string: once the first has imported the
      key, both envelopes carry the same tag and both are sealed under the same KEM key,
      however the KEM and the AEAD draw on the second call. */
  lemma EncryptTwiceSameTag(lib: Library, s: CacheState, enckey: string, p1: string, p2: string,
                            kem1: PublicKey -> Result<KemDraw>, kem2: PublicKey -> Result<KemDraw>,
                            seal1: (BitArray, string) -> Result<map<string, Value>>,
                            seal2: (BitArray, string) -> Result<map<string, Value>>)
    requires Encrypt(lib, s, enckey, p1, kem1, seal1).result.Ok?
    ensures var o1 := Encrypt(lib, s, enckey, p1, kem1, seal1);
      var o2 := Encrypt(lib, o1.cache, enckey, p2, kem2, seal2);
      && enckey in o1.cache.enc
      && o2.cache == o1.cache
      && var e := o1.cache.enc[enckey];
         && seal1(e.key, p1).Ok?
         && o1.result == Ok(lib.stringify(Envelope(seal1(e.key, p1).value, e.tagHex)))
         && o2.result == Seal(lib, e, p2, seal2)
         && (seal2(e.key, p2).Ok? ==>
               o2.result == Ok(lib.stringify(Envelope(seal2(e.key, p2).value, e.tagHex))))
  {
    var o1 := Encrypt(lib, s, enckey, p1, kem1, seal1);
    assert enckey in o1.cache.enc;
  }

  // ---------------------------------------------------------------- decrypt

  /** Line 67: `unkem(SJCL.codec.hex.toBits(obj.tag))`; the hex decoder calls a string
      method on its argument, so a tag that is not a string throws a TypeError. */
  function Unkem(lib: Library, secret: SecretKey, tag: Value): Result<BitArray>
  {
    if tag.Str? then lib.unkem(secret, lib.hexToBits(tag.s)) else Err(TypeError)
  }

  /** The `$keys` name the tag of a parsed envelope is filed under, when `obj.tag` can
      be read and converted to a property key. */
  function TagNameOf(obj: Value): Option<string>
  {
    match ReadField(obj, "tag")
    case Err(_) => None
    case Ok(tag) =>
      match PropertyKey(tag)
      case Err(_) => None
      case Ok(name) => Some(name)
  }

  /** TagNameOf for the envelope text, when it parses. */
  function TagName(lib: Library, ciphertext: string): Option<string>
  {
    match lib.parse(ciphertext)
    case Err(_) => None
    case Ok(obj) => TagNameOf(obj)
  }

  /** The tags a `decrypt` may file: the envelope's own, or none. */
  function TagSet(name: Option<string>): set<string>
  {
    match name
    case None => {}
    case Some(t) => {t}
  }

  /** Lines 59-63: the cached entry, or a freshly imported key with an empty `$keys`. */
  function DecEntryFor(lib: Library, s: CacheState, deckey: string): Result<DecEntry>
  {
    if deckey in s.dec then Ok(s.dec[deckey])
    else match ImportSecret(lib, ElGamal, deckey)
      case Err(e) => Err(e)
      case Ok(secret) => Ok(DecEntry(secret, map[]))
  }

  /** The entry of `deckey` after lines 65-69, and the call's result. */
  datatype Opened = Opened(entry: DecEntry, result: Result<string>)

  /** Lines 65-69: read the tag, look up or derive its symmetric key (filing a derived
      key at once), open the AEAD payload. */
  function OpenWith(lib: Library, entry: DecEntry, obj: Value): Opened
  {
    match ReadField(obj, "tag")
    case Err(e) => Opened(entry, Err(e))
    case Ok(tag) =>
      match PropertyKey(tag)
      case Err(e) => Opened(entry, Err(e))
      case Ok(name) =>
        if name in entry.keys then
          Opened(entry, lib.aeadDecrypt(entry.keys[name], obj))
        else
          match Unkem(lib, entry.secret, tag)
          case Err(e) => Opened(entry, Err(e))
          case Ok(key) => Opened(entry.(keys := entry.keys[name := key]), lib.aeadDecrypt(key, obj))
  }

  /** OpenWith keeps the secret key and only files the envelope's tag, never replacing
      a filed key; it opens only once the tag is filed, and then under the filed key; a
      readable tag left unfiled means it threw; and a filed key stays what `unkem`
      derives. */
  lemma OpenWithEffects(lib: Library, entry: DecEntry, obj: Value)
    ensures var o := OpenWith(lib, entry, obj);
      && o.entry.secret == entry.secret
      && Extends(entry.keys, o.entry.keys, TagSet(TagNameOf(obj)))
      && (o.result.Ok? ==>
          && TagNameOf(obj).Some? && TagNameOf(obj).value in o.entry.keys
          && o.result == lib.aeadDecrypt(o.entry.keys[TagNameOf(obj).value], obj))
      && (TagNameOf(obj).Some? && TagNameOf(obj).value !in o.entry.keys ==> o.result.Err?)
      && (KeysCoherent(lib, entry) ==> KeysCoherent(lib, o.entry))
  {
    match ReadField(obj, "tag")
    case Err(e) =>
    case Ok(tag) =>
      match PropertyKey(tag)
      case Err(_) =>
      case Ok(name) =>
        assert TagNameOf(obj) == Some(name);
        if name !in entry.keys && Unkem(lib, entry.secret, tag).Ok? {
          assert tag.Str? && tag.s == name;
        }
  }

  /** `ecc.decrypt`, in the order of the source: parse, look up or import the key
      (stored at once), then OpenWith on that entry. */
  function Decrypt(lib: Library, s: CacheState, deckey: string, ciphertext: string): Outcome<string>
  {
    match lib.parse(ciphertext)
    case Err(e) => Outcome(s, Err(e))
    case Ok(obj) =>
      match DecEntryFor(lib, s, deckey)
      case Err(e) => Outcome(s, Err(e))
      case Ok(entry) =>
        var opening := OpenWith(lib, entry, obj);
        Outcome(s.(dec := s.dec[deckey := opening.entry]), opening.result)
  }

  /** What `decrypt` does to the cache: only `cache.dec` changes, by at most one new
      entry and by filing at most the envelope's tag, never replacing a filed key. */
  lemma DecryptFrame(lib: Library, s: CacheState, deckey: string, ciphertext: string)
    ensures var o := Decrypt(lib, s, deckey, ciphertext);
      && o.cache.enc == s.enc && o.cache.sig == s.sig && o.cache.ver == s.ver
      && DecExtends(s.dec, o.cache.dec, deckey, TagSet(TagName(lib, ciphertext)))
  {
    match lib.parse(ciphertext)
    case Err(e) =>
    case Ok(obj) =>
      match DecEntryFor(lib, s, deckey)
      case Err(e) =>
      case Ok(entry) =>
        var opening := OpenWith(lib, entry, obj);
        OpenWithEffects(lib, entry, obj);
        assert TagName(lib, ciphertext) == TagNameOf(obj);
        assert Decrypt(lib, s, deckey, ciphertext).cache.dec == s.dec[deckey := opening.entry];
  }

  /** When `decrypt` fails before touching the cache: a parse failure changes nothing
      and throws the parser's error; a failed import of an uncached key changes nothing
      and throws; and a new entry holds the import of `deckey`. */
  lemma DecryptErrors(lib: Library, s: CacheState, deckey: string, ciphertext: string)
    ensures var o := Decrypt(lib, s, deckey, ciphertext);
      && (lib.parse(ciphertext).Err? ==> o == Outcome(s, Err(lib.parse(ciphertext).error)))
      && (deckey !in s.dec && ImportSecret(lib, ElGamal, deckey).Err? ==>
            o.cache == s && o.result.Err?)
      && (deckey !in s.dec && deckey in o.cache.dec ==>
            ImportSecret(lib, ElGamal, deckey) == Ok(o.cache.dec[deckey].secret))
  {
    match lib.parse(ciphertext)
    case Err(e) =>
    case Ok(obj) =>
      match DecEntryFor(lib, s, deckey)
      case Err(e) =>
      case Ok(entry) =>
        OpenWithEffects(lib, entry, obj);
  }

  /** What `decrypt` returns: a plaintext only once the envelope's tag is filed under
      `deckey`, and then the AEAD opening under the filed key; a readable tag left
      unfiled means the call threw. */
  lemma DecryptOpens(lib: Library, s: CacheState, deckey: string, ciphertext: string)
    ensures var o := Decrypt(lib, s, deckey, ciphertext);
      && (o.result.Ok? ==>
            && deckey in o.cache.dec && TagName(lib, ciphertext).Some?
            && TagName(lib, ciphertext).value in o.cache.dec[deckey].keys
            && o.result == lib.aeadDecrypt(o.cache.dec[deckey].keys[TagName(lib, ciphertext).value],
                                           lib.parse(ciphertext).value))
      && ((deckey in o.cache.dec && TagName(lib, ciphertext).Some? &&
           TagName(lib, ciphertext).value !in o.cache.dec[deckey].keys) ==> o.result.Err?)
  {
    match lib.parse(ciphertext)
    case Err(e) =>
    case Ok(obj) =>
      match DecEntryFor(lib, s, deckey)
      case Err(e) =>
      case Ok(entry) =>
        OpenWithEffects(lib, entry, obj);
        assert TagName(lib, ciphertext) == TagNameOf(obj);
  }

  /** `decrypt` keeps a coherent cache coherent: a new entry is the import of its key
      string and every filed key is what `unkem` derives for its tag. */
  lemma DecryptKeepsCoherent(lib: Library, s: CacheState, deckey: string, ciphertext: string)
    requires Coherent(lib, s)
    ensures Coherent(lib, Decrypt(lib, s, deckey, ciphertext).cache)
  {
    match lib.parse(ciphertext)
    case Err(e) =>
    case Ok(obj) =>
      match DecEntryFor(lib, s, deckey)
      case Err(e) =>
      case Ok(entry) =>
        OpenWithEffects(lib, entry, obj);
        assert DecEntryCoherent(lib, deckey, entry);
  }

  /** When the key string is cached and its `$keys` already holds the envelope's tag,
      `decrypt` neither imports nor calls `unkem`: whatever those would do, it leaves
      the cache as it is and opens the payload with the cached symmetric key. */
  lemma DecryptHitSkipsUnkem(lib: Library, lib': Library, s: CacheState, deckey: string,
                             ciphertext: string)
    requires lib' == lib.(newSecretKey := lib'.newSecretKey, unkem := lib'.unkem)
    requires deckey in s.dec
    requires TagName(lib, ciphertext).Some? && TagName(lib, ciphertext).value in s.dec[deckey].keys
    ensures Decrypt(lib', s, deckey, ciphertext) == Decrypt(lib, s, deckey, ciphertext)
    ensures Decrypt(lib, s, deckey, ciphertext)
         == Outcome(s, lib.aeadDecrypt(s.dec[deckey].keys[TagName(lib, ciphertext).value],
                                       lib.parse(ciphertext).value))
  {
    assert s.(dec := s.dec[deckey := s.dec[deckey]]) == s;
  }

  /** Lines 65-69 in the order they run: once the envelope parses, the entry exists and
      the tag reads, a tag that cannot be a property key throws a TypeError and files
      nothing; otherwise a cached key is used as it is, and a key `unkem` derives is
      filed under the tag before the AEAD opens the payload, so it stays filed even when
      the opening fails; only a failing `unkem` leaves the tag unfiled. */
  lemma DecryptFilesBeforeOpening(lib: Library, s: CacheState, deckey: string, ciphertext: string)
    requires lib.parse(ciphertext).Ok?
    requires DecEntryFor(lib, s, deckey).Ok?
    requires ReadField(lib.parse(ciphertext).value, "tag").Ok?
    ensures var obj := lib.parse(ciphertext).value;
      var entry := DecEntryFor(lib, s, deckey).value;
      var tag := ReadField(obj, "tag").value;
      var key := PropertyKey(tag);
      var name := if key.Ok? then key.value else "";
      var o := Decrypt(lib, s, deckey, ciphertext);
      && deckey in o.cache.dec
      && o.cache.dec[deckey].secret == entry.secret
      && (key.Err? ==> o.cache.dec[deckey] == entry && o.result == Err(TypeError))
      && (key.Ok? && name in entry.keys ==>
            o.cache.dec[deckey] == entry && o.result == lib.aeadDecrypt(entry.keys[name], obj))
      && (key.Ok? && name !in entry.keys && Unkem(lib, entry.secret, tag).Ok? ==>
            && o.cache.dec[deckey].keys == entry.keys[name := Unkem(lib, entry.secret, tag).value]
            && o.result == lib.aeadDecrypt(Unkem(lib, entry.secret, tag).value, obj))
      && (key.Ok? && name !in entry.keys && Unkem(lib, entry.secret, tag).Err? ==>
            o.cache.dec[deckey] == entry && o.result == Err(Unkem(lib, entry.secret, tag).error))
  {
  }

  /** Line 65: with the secret key cached and a tag that has no property key (a parsed
      object with its own `toString` field, or an array holding one), `decrypt` throws a
      TypeError and changes nothing, even when "[object Object]" is filed. */
  lemma DecryptUnconvertibleTagThrows(lib: Library, s: CacheState, deckey: string, ciphertext: string)
    requires deckey in s.dec
    requires lib.parse(ciphertext).Ok?
    requires ReadField(lib.parse(ciphertext).value, "tag").Ok?
    requires PropertyKey(ReadField(lib.parse(ciphertext).value, "tag").value).Err?
    ensures Decrypt(lib, s, deckey, ciphertext) == Outcome(s, Err(TypeError))
  {
    var entry := s.dec[deckey];
    assert s.dec[deckey := entry] == s.dec;
  }

  /** Once a `decrypt` leaves the envelope's tag filed under `deckey` (it derived the key,
      whether or not the opening then succeeded), the same call again finds it cached: it
      changes nothing, calls neither the importer nor `unkem`, and opens with the same
      key, giving the same result. */
  lemma DecryptRepeatIsCached(lib: Library, lib': Library, s: CacheState, deckey: string,
                              ciphertext: string)
    requires lib' == lib.(newSecretKey := lib'.newSecretKey, unkem := lib'.unkem)
    requires var o1 := Decrypt(lib, s, deckey, ciphertext);
      TagName(lib, ciphertext).Some? && deckey in o1.cache.dec &&
      TagName(lib, ciphertext).value in o1.cache.dec[deckey].keys
    ensures var o1 := Decrypt(lib, s, deckey, ciphertext);
      Decrypt(lib', o1.cache, deckey, ciphertext) == o1
  {
    var o1 := Decrypt(lib, s, deckey, ciphertext);
    assert DecEntryFor(lib, s, deckey).Ok?;
    DecryptFilesBeforeOpening(lib, s, deckey, ciphertext);
    DecryptHitSkipsUnkem(lib, lib', o1.cache, deckey, ciphertext);
  }

  // ---------------------------------------------------------------- sign, verify

  /** Lines 78-79 and 90-91: the text is hashed unless `hash` is exactly `false`. */
  function SigningInput(lib: Library, text: Message, hash: Value): Message
  {
    if hash == Bool(false) then text else Bits(lib.sha256(text))
  }

  /** Only `false` turns hashing off: an omitted flag, `true` and every other value all
      hash, and `false` passes the text through unchanged. */
  lemma HashUnlessFalse(lib: Library, text: Message, hash: Value)
    ensures SigningInput(lib, text, Bool(false)) == text
    ensures hash != Bool(false) ==>
      && SigningInput(lib, text, hash) == SigningInput(lib, text, Undefined)
      && SigningInput(lib, text, Bool(true)) == SigningInput(lib, text, Undefined)
      && SigningInput(lib, text, Undefined) == Bits(lib.sha256(text))
  {
  }

  /** `ecc.sign`; `sign` is the randomised ECDSA signing of this call. */
  function Sign(lib: Library, s: CacheState, sigkey: string, text: Message, hash: Value,
                sign: (SecretKey, Message) -> Result<BitArray>): (o: Outcome<BitArray>)
    ensures o.cache.enc == s.enc && o.cache.dec == s.dec && o.cache.ver == s.ver
    ensures Extends(s.sig, o.cache.sig, {sigkey})
    ensures sigkey in s.sig ==> o.cache == s
    ensures sigkey !in s.sig && ImportSecret(lib, Ecdsa, sigkey).Err? ==>
      o == Outcome(s, Err(ImportSecret(lib, Ecdsa, sigkey).error))
    ensures sigkey !in s.sig && ImportSecret(lib, Ecdsa, sigkey).Ok? ==>
      o.cache.sig == s.sig[sigkey := ImportSecret(lib, Ecdsa, sigkey).value]
    ensures sigkey in o.cache.sig ==> o.result == sign(o.cache.sig[sigkey], SigningInput(lib, text, hash))
  {
    var key := if sigkey in s.sig then Ok(s.sig[sigkey]) else ImportSecret(lib, Ecdsa, sigkey);
    match key
    case Err(e) => Outcome(s, Err(e))
    case Ok(k) =>
      Outcome(if sigkey in s.sig then s else s.(sig := s.sig[sigkey := k]),
              sign(k, SigningInput(lib, text, hash)))
  }

  /** `sign` keeps a coherent cache coherent: a new `cache.sig` entry is the import of
      its key string. */
  lemma SignKeepsCoherent(lib: Library, s: CacheState, sigkey: string, text: Message, hash: Value,
                          sign: (SecretKey, Message) -> Result<BitArray>)
    requires Coherent(lib, s)
    ensures Coherent(lib, Sign(lib, s, sigkey, text, hash, sign).cache)
  {
    var o := Sign(lib, s, sigkey, text, hash, sign);
    if sigkey !in s.sig && ImportSecret(lib, Ecdsa, sigkey).Ok? {
      assert o.cache.sig == s.sig[sigkey := ImportSecret(lib, Ecdsa, sigkey).value];
    }
  }

  /** `ecc.verify`. Exceptions of the key's `verify` become `false`; the import on a
      cache miss is outside the `try` and its exception propagates. */
  function Verify(lib: Library, s: CacheState, verkey: string, signature: BitArray,
                  text: Message, hash: Value): (o: Outcome<bool>)
    ensures o.cache.enc == s.enc && o.cache.dec == s.dec && o.cache.sig == s.sig
    ensures Extends(s.ver, o.cache.ver, {verkey})
    ensures verkey in s.ver ==> o.cache == s
    ensures verkey !in s.ver && ImportPublic(lib, Ecdsa, verkey).Ok? ==>
      o.cache.ver == s.ver[verkey := ImportPublic(lib, Ecdsa, verkey).value]
    ensures o.result.Err? <==> verkey !in s.ver && ImportPublic(lib, Ecdsa, verkey).Err?
    ensures o.result.Err? ==> o.cache == s && o.result.error == ImportPublic(lib, Ecdsa, verkey).error
    ensures verkey in o.cache.ver ==>
      var checked := lib.verify(o.cache.ver[verkey], SigningInput(lib, text, hash), signature);
      o.result == Ok(checked.Ok? && checked.value)
  {
    var key := if verkey in s.ver then Ok(s.ver[verkey]) else ImportPublic(lib, Ecdsa, verkey);
    match key
    case Err(e) => Outcome(s, Err(e))
    case Ok(k) =>
      var s1 := if verkey in s.ver then s else s.(ver := s.ver[verkey := k]);
      match lib.verify(k, SigningInput(lib, text, hash), signature)
      case Ok(b) => Outcome(s1, Ok(b))
      case Err(_) => Outcome(s1, Ok(false))
  }

  /** `verify` keeps a coherent cache coherent: a new `cache.ver` entry is the import of
      its key string. */
  lemma VerifyKeepsCoherent(lib: Library, s: CacheState, verkey: string, signature: BitArray,
                            text: Message, hash: Value)
    requires Coherent(lib, s)
    ensures Coherent(lib, Verify(lib, s, verkey, signature, text, hash).cache)
  {
    var o := Verify(lib, s, verkey, signature, text, hash);
    if verkey !in s.ver && ImportPublic(lib, Ecdsa, verkey).Ok? {
      assert o.cache.ver == s.ver[verkey := ImportPublic(lib, Ecdsa, verkey).value];
    }
  }

  /** Once the verification key is cached, `verify` is total: it never throws,
      whatever the signature, the text or the hash flag. */
  lemma VerifyCachedNeverThrows(lib: Library, s: CacheState, verkey: string, signature: BitArray,
                                text: Message, hash: Value)
    requires verkey in s.ver
    ensures Verify(lib, s, verkey, signature, text, hash).result.Ok?
  {
  }

  /** Verifying what `sign` returned, with the same text and hash flag, gives `true` in
      the cache `sign` left, provided the cache is coherent and ECDSA keeps its promise
      that the public key string accepts what the secret key string signs. Coherence is
      what rules out a stale cached key on either side. */
  lemma SignVerifyRoundTrip(lib: Library, s: CacheState, sigkey: string, verkey: string,
                            text: Message, hash: Value,
                            sign: (SecretKey, Message) -> Result<BitArray>)
    requires Coherent(lib, s)
    requires Sign(lib, s, sigkey, text, hash, sign).result.Ok?
    requires ImportPublic(lib, Ecdsa, verkey).Ok?
    requires var m := SigningInput(lib, text, hash);
      ImportSecret(lib, Ecdsa, sigkey).Ok? ==>
        sign(ImportSecret(lib, Ecdsa, sigkey).value, m).Ok? &&
        lib.verify(ImportPublic(lib, Ecdsa, verkey).value, m,
                   sign(ImportSecret(lib, Ecdsa, sigkey).value, m).value) == Ok(true)
    ensures var o1 := Sign(lib, s, sigkey, text, hash, sign);
      Verify(lib, o1.cache, verkey, o1.result.value, text, hash).result == Ok(true)
  {
    SignKeepsCoherent(lib, s, sigkey, text, hash, sign);
  }

  // ---------------------------------------------------------------- round trip

  /** Decrypting the envelope `encrypt` produced gives back the plaintext, in the same
      cache, provided the collaborators keep their own promises: JSON round-trips the
      envelope, the secret key string decapsulates the cached tag to the cached KEM key,
      the AEAD opens what it sealed, and the cache is coherent. */
  lemma EncryptDecryptRoundTrip(lib: Library, s: CacheState, enckey: string, deckey: string,
                                plaintext: string, kem: PublicKey -> Result<KemDraw>,
                                seal: (BitArray, string) -> Result<map<string, Value>>)
    requires Coherent(lib, s)
    requires Encrypt(lib, s, enckey, plaintext, kem, seal).result.Ok?
    requires var e := Encrypt(lib, s, enckey, plaintext, kem, seal).cache.enc[enckey];
      var envelope := Envelope(seal(e.key, plaintext).value, e.tagHex);
      && lib.parse(lib.stringify(envelope)) == Ok(envelope)
      && ImportSecret(lib, ElGamal, deckey).Ok?
      && lib.unkem(ImportSecret(lib, ElGamal, deckey).value, lib.hexToBits(e.tagHex)) == Ok(e.key)
      && lib.aeadDecrypt(e.key, envelope) == Ok(plaintext)
    ensures var o1 := Encrypt(lib, s, enckey, plaintext, kem, seal);
      Decrypt(lib, o1.cache, deckey, o1.result.value).result == Ok(plaintext)
  {
    var o1 := Encrypt(lib, s, enckey, plaintext, kem, seal);
    var e := o1.cache.enc[enckey];
    var envelope := Envelope(seal(e.key, plaintext).value, e.tagHex);
    assert o1.result.value == lib.stringify(envelope);
    assert ReadField(envelope, "tag") == Ok(Str(e.tagHex));
    if deckey in o1.cache.dec {
      assert DecEntryCoherent(lib, deckey, o1.cache.dec[deckey]);
    }
  }
}
