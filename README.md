# eccjs facade: key strings, memoisation caches and protocol composition

This project models `client/ecc.js`, a thin facade over the SJCL library that offers
hybrid encryption (ElGamal-style KEM plus SJCL's JSON AEAD) and ECDSA signatures
through plain key strings. Every SJCL primitive, the hash, the hex codec and JSON
are treated as uninterpreted collaborators, so each statement holds whatever those
collaborators do. What the model pins down is the facade's own logic:

- **Key strings** (module `KeyCodec`): `exportPublic` writes the curve size in decimal,
  then hex(x), then hex(y); `exportSecret` writes the curve size, then hex of the
  exponent; `extract` reads the first three characters as the curve id (looked up as
  `"c" + id` in SJCL's curve registry) and the rest as the hex body, checking nothing.
  The import wrappers hand the looked-up curve and the decoded body to SJCL's key
  constructors, which alone may throw.
- **`generate`** (module `Generate`): the type sentinel selects ElGamal with fields
  `enc`/`dec` or ECDSA with fields `ver`/`sig`; any other value throws
  `"eccjs: generate: Unknown type"`; a falsy curve becomes 192.
- **The memoisation cache** (modules `Protocol` and `Ecc`): the module-level record of
  four dictionaries `enc`, `dec`, `sig`, `ver`. `encrypt` reuses one KEM result per
  public key string; `decrypt` keeps, per secret key string, a `$keys` map from tag
  to derived symmetric key, so `unkem` runs only on a missed tag; `sign` and `verify`
  memoise imported keys. Entries are never overwritten or evicted, and each operation
  writes only its own dictionary. `Protocol` gives each operation as a pure function
  from the cache before to the cache after and the result; class `Ecc.Ecc` holds the
  four dictionaries as `map` fields, and its methods update them in place and are
  proved equal to those functions and to keep the cache coherent.
- **Protocol composition**: `encrypt` sets `tag` on the AEAD envelope and `decrypt`
  reads it back; `sign` and `verify` hash unless `hash` is exactly `false`; `verify`
  turns an exception of the key's check into `false`.

Randomness (key generation, `kem()`, the AEAD's IV, ECDSA signing) enters as a
function parameter of the one call that draws it, so two calls may draw differently,
and a draw may throw (an unseeded generator, say), which the call then propagates.
The deterministic collaborators form the `Sjcl.Library` record that the facade is
constructed with. The load-time environment (the SJCL module and its curve registry)
is that record too.

Points of the code's behaviour that the model keeps exactly:

- `verify` throws when an uncached verification key fails to import: the import at
  line 87 and the hash at lines 90-91 are both outside the `try` of lines 93-97,
  which only covers the key's own check. `Protocol.Verify` states exactly when it
  throws; `Protocol.VerifyCachedNeverThrows` states that it does not throw once the
  key is cached, for the texts the model has, on which sha256 is total.
- `extract` checks neither the curve id nor the hex body: it accepts any string, and
  an unknown curve id only surfaces as whatever the SJCL constructor does with an
  undefined curve.
- The curve size is written as a decimal number and read back as exactly three
  characters, so the format round-trips precisely for three-digit sizes
  (`KeyCodec.ExtractExportWideCurve` shows a four-digit size does not).
- `decrypt` stores a freshly imported secret key in `cache.dec` before it reads
  `obj.tag`, so an envelope that parses to `null` leaves a new entry behind and then
  throws a TypeError.
- `decrypt` files a derived symmetric key under the tag before the AEAD opens the
  payload, so an envelope with a valid tag and a payload that fails to open still
  leaves the key filed (`Protocol.DecryptFilesBeforeOpening`).

## Model

| member | source | states |
|---|---|---|
| `Js.ReadField` | client/ecc.js:65 | `obj.tag` throws a TypeError exactly when obj is null or undefined; otherwise it is the field, or undefined when absent or on a primitive |
| `Js.PropertyKey` | client/ecc.js:65 | undefined, null and booleans are filed under "undefined", "null", "true" and "false", so a tagless envelope shares the key filed for the string tag "undefined"; a string tag is filed under itself and a number under its text; an object throws a TypeError exactly when it has its own `toString` field, and is "[object Object]" otherwise; every failure is a TypeError |
| `Js.JoinFromThrows` | client/ecc.js:65 | joining an array's elements from an index on throws exactly when one of the remaining elements throws |
| `Js.ArrayPropertyKey` | client/ecc.js:65 | an array used as a property key throws exactly when one of its elements does; an empty array is the empty key and a one-element array is its element's string |
| `Js.NumberToString` | client/ecc.js:133 | the curve size as written into a key string is a non-empty run of decimal digits with no leading zero |
| `Js.ParseNumberToString` | client/ecc.js:133 | the digits written for a curve size parse back to that size |
| `Js.NumberToStringInjective` | client/ecc.js:138 | two curve sizes give the same written id if and only if they are equal |
| `Js.NumberToStringLength3` | client/ecc.js:126 | a curve size is written as exactly three characters, the width `extract` reads, if and only if it lies in 100..999 |
| `Js.NumberToStringLength` | client/ecc.js:126 | the written width of a size by range: one, two, three, or at least four digits |
| `KeyCodec.Extract` | client/ecc.js:124-129 | `extract`: the first three characters looked up as `"c" + id` in the curve registry, the rest as the hex body; its properties are stated by `KeyCodec.ExtractSplits` and `KeyCodec.ExtractJoin` |
| `KeyCodec.ExtractSplits` | client/ecc.js:124-129 | the curve id and the hex body partition the string, the id has three characters (all of a shorter string), and the curve is the registry entry under "c" + id, absent when not registered |
| `KeyCodec.ExtractJoin` | client/ecc.js:124-129 | for any three-character id and any body, `extract(id + body)` gives back that id, its registry entry and that body |
| `KeyCodec.ExportPublic` | client/ecc.js:131-136 | `exportPublic`: the curve size in decimal, then hex(x), then hex(y); read back by `KeyCodec.ExtractExportPublic` and `KeyCodec.ImportExportPublic` |
| `KeyCodec.ExportSecret` | client/ecc.js:137-139 | `exportSecret`: the curve size in decimal, then hex of the exponent; read back by `KeyCodec.ExtractExportSecret` and `KeyCodec.ImportExportSecret` |
| `KeyCodec.ExtractExportPublic` | client/ecc.js:131-136 | for a three-digit curve, `extract(exportPublic(k))` yields the curve size's digits as id, the entry under "c" + id, and exactly hex(x) + hex(y); the id parses back to the size |
| `KeyCodec.ExtractExportSecret` | client/ecc.js:137-139 | for a three-digit curve, `extract(exportSecret(k))` yields the size's digits as id, its registry entry, and exactly hex(exponent) |
| `KeyCodec.ExtractExportWideCurve` | client/ecc.js:124-139 | a curve size of four or more digits does not read back as its own id |
| `KeyCodec.GenerateKeyPair` | client/ecc.js:107-112 | `eccAPI.generate` fails exactly when SJCL's generator does, with its error; otherwise both halves carry the generated material and are stamped with the requested curve |
| `KeyCodec.ImportPublic` | client/ecc.js:113-116 | `importPublic`: the SJCL public-key constructor applied to the extracted curve and the decoded hex body; stated by `KeyCodec.ImportExportPublic` |
| `KeyCodec.ImportSecret` | client/ecc.js:117-120 | `importSecret`: the SJCL secret-key constructor applied to the extracted curve and the big number of the hex body; stated by `KeyCodec.ImportExportSecret` |
| `KeyCodec.ImportExportPublic` | client/ecc.js:113-116 | importing an exported public key builds it from the registry entry of its curve and from the decoded exported coordinate hex |
| `KeyCodec.ImportExportSecret` | client/ecc.js:117-120 | importing an exported secret key builds it from the registry entry of its curve and from the big number of the exported exponent hex |
| `Generate.EffectiveCurve` | client/ecc.js:17-18 | the curve used is never 0 and is the caller's curve whenever that is truthy |
| `Generate.Generate` | client/ecc.js:16-35 | an unknown type throws the string `"eccjs: generate: Unknown type"`; `ENC_DEC` succeeds exactly when ElGamal generation does and returns exactly the fields `enc` and `dec`; `SIG_VER` likewise with ECDSA and exactly `ver` and `sig` |
| `Generate.KeyRecord` | client/ecc.js:31-34 | the record of two exported key strings under the given field names; its contents are stated by `Generate.KeyRecordReadsBack` |
| `Generate.GenerateDefaultCurve` | client/ecc.js:7-18 | an absent or zero curve behaves exactly like curve 192 |
| `Generate.KeyRecordReadsBack` | client/ecc.js:31-34 | a key record holds exactly its two field names, and both strings on a three-digit curve name that curve's id and carry exactly the pair's coordinates and exponent |
| `Generate.GenerateEncDecReadsBack` | client/ecc.js:20-34 | both strings of an `ENC_DEC` pair on a three-digit curve name that curve's id and carry exactly the generated coordinates and exponent |
| `Generate.GenerateSigVerReadsBack` | client/ecc.js:24-34 | the same for a `SIG_VER` pair |
| `Generate.DefaultCurveId` | client/ecc.js:7 | keys on the default curve carry the id "192" |
| `Protocol.Encrypt` | client/ecc.js:41-53 | only `cache.enc` changes, and only by adding `enckey`; an existing entry is reused unchanged; an entry is added exactly when the import and the KEM draw both succeed; a failed import or a failed draw adds nothing and propagates its error; a new entry holds the KEM draw with the hex of its tag; the envelope is sealed under the entry's key with `tag` set to its tag hex, and a success implies the entry is cached |
| `Protocol.EncryptKeepsCoherent` | client/ecc.js:42-47 | `encrypt` keeps a coherent cache coherent: a new entry belongs to a key string that imports and its `tagHex` is the hex of its tag |
| `Protocol.EncryptReusesKem` | client/ecc.js:42-47 | once `enckey` is cached, `encrypt` depends neither on the importer nor on the KEM draw and leaves the cache unchanged |
| `Protocol.EncryptTwiceSameTag` | client/ecc.js:42-52 | after a successful `encrypt`, a second one to the same key string changes nothing and seals under the same KEM key with the same tag, whatever it draws |
| `Protocol.Seal` | client/ecc.js:49-52 | the AEAD encryption under the KEM key, with `tag` set to the KEM tag hex and the envelope serialised; `Protocol.Encrypt` states that an encryption's result is this sealing under the cached entry, and `Protocol.EncryptTwiceSameTag` that two encryptions seal under the same key and tag |
| `Protocol.Decrypt` | client/ecc.js:56-70 | `ecc.decrypt` as a function from the cache before to the cache after and the result, in the order of the source; its effects are stated by `Protocol.DecryptFrame`, `Protocol.DecryptErrors`, `Protocol.DecryptOpens`, `Protocol.DecryptFilesBeforeOpening` and `Protocol.DecryptKeepsCoherent` |
| `Protocol.DecEntryFor` | client/ecc.js:59-63 | the cached entry of `deckey`, or the freshly imported secret key with empty `$keys`, or the import's error; stated by `Protocol.DecryptErrors`, `Protocol.DecryptFilesBeforeOpening` and `Ecc.Ecc.SecretEntry` |
| `Protocol.TagNameOf` | client/ecc.js:65 | the `$keys` name of the envelope's tag, absent when `obj.tag` throws or the tag has no property key; used by `Protocol.OpenWithEffects`, `Protocol.DecryptOpens` and `Protocol.DecryptUnconvertibleTagThrows` |
| `Protocol.Unkem` | client/ecc.js:67 | the secret key's `unkem` of the hex-decoded tag, a TypeError for a tag that is not a string; `Protocol.DecryptKeepsCoherent` states that every filed key is this derivation for its tag, and `Protocol.DecryptFilesBeforeOpening` what happens when it throws |
| `Protocol.OpenWith` | client/ecc.js:65-69 | reading `obj.tag`, reusing or deriving and filing its key, then opening; its effects are stated by `Protocol.OpenWithEffects` |
| `Protocol.OpenWithEffects` | client/ecc.js:65-69 | reading the tag and opening keeps the secret key, files at most the envelope's tag without replacing a filed key, returns a plaintext only once the tag is filed and then the AEAD opening under the filed key, throws whenever a readable tag stays unfiled, and files only keys `unkem` derives |
| `Protocol.DecryptFrame` | client/ecc.js:56-69 | only `cache.dec` changes: at most one new entry; other entries stay; the entry of `deckey` keeps its secret and its `$keys` only gain the envelope's tag, never replacing one; a new entry's `$keys` hold at most that tag |
| `Protocol.DecryptErrors` | client/ecc.js:57-63 | a parse failure changes nothing and throws the parser's error; a failed import of an uncached key changes nothing and throws; a new entry holds the import of `deckey` |
| `Protocol.DecryptOpens` | client/ecc.js:65-69 | a plaintext is returned only after the tag has been filed under `deckey`, and it is the AEAD opening under the filed key; a readable tag left unfiled means the call threw |
| `Protocol.DecryptFilesBeforeOpening` | client/ecc.js:65-69 | once the envelope parses, the entry exists and the tag reads: a tag with no property key throws a TypeError and files nothing; a cached key is used unchanged; a key `unkem` derives is filed under the tag whatever the AEAD opening then gives, and the result is that opening; a failing `unkem` leaves the entry as it was and throws its error |
| `Protocol.DecryptUnconvertibleTagThrows` | client/ecc.js:65 | with the secret key cached, a tag that has no property key makes `decrypt` throw a TypeError and change nothing, whatever is filed |
| `Protocol.DecryptKeepsCoherent` | client/ecc.js:59-67 | `decrypt` keeps a coherent cache coherent: a new entry is the import of its key string and every filed key is what `unkem` derives for its tag |
| `Protocol.DecryptHitSkipsUnkem` | client/ecc.js:65-67 | when the key string and its tag are cached, `decrypt` depends neither on the importer nor on `unkem`, changes nothing, and opens with the cached key |
| `Protocol.DecryptRepeatIsCached` | client/ecc.js:59-69 | once a `decrypt` leaves the envelope's tag filed under the key string (it derived the key, whether or not the opening succeeded), repeating it changes nothing, calls neither the importer nor `unkem`, and gives the same result |
| `Protocol.HashUnlessFalse` | client/ecc.js:78-79 | only `false` disables hashing; omitted, `true` and any other value hash with sha256 |
| `Protocol.SigningInput` | client/ecc.js:78-79 | the text as given when `hash` is exactly `false`, its sha256 otherwise; stated by `Protocol.HashUnlessFalse`, and used by `Protocol.Sign` and `Protocol.Verify` for what the signer and the check receive |
| `Protocol.Sign` | client/ecc.js:72-82 | only `cache.sig` changes, and only by adding `sigkey` with its imported key; a failed import adds nothing and propagates; the signer receives the cached key and the possibly hashed text |
| `Protocol.SignKeepsCoherent` | client/ecc.js:73-75 | `sign` keeps a coherent cache coherent: a new entry is the import of its key string |
| `Protocol.Verify` | client/ecc.js:84-98 | only `cache.ver` changes, and only by adding `verkey`; `verify` throws exactly when an uncached key fails to import, with that error and no change; otherwise it returns the key's verdict, with an exception of the check turned into `false` |
| `Protocol.VerifyKeepsCoherent` | client/ecc.js:85-87 | `verify` keeps a coherent cache coherent: a new entry is the import of its key string |
| `Protocol.VerifyCachedNeverThrows` | client/ecc.js:93-97 | with the key cached, `verify` returns a boolean for every signature, text and flag |
| `Protocol.SignVerifyRoundTrip` | client/ecc.js:72-98 | in a coherent cache, verifying the signature `sign` returned, with the same text and hash flag, gives `true` in the cache `sign` left, given that ECDSA's public key accepts what its secret key signs; both sides hash alike and neither cached key can be stale |
| `Protocol.EncryptDecryptRoundTrip` | client/ecc.js:41-70 | in a coherent cache, decrypting the envelope `encrypt` returned gives back the plaintext, given JSON round-trips it, the secret key decapsulates the cached tag to the cached key, and the AEAD opens what it sealed |
| `Ecc.Ecc.constructor` | client/ecc.js:37-39 | the four dictionaries start empty and coherent |
| `Ecc.Ecc.Encrypt` | client/ecc.js:41-53 | the new dictionaries and the result are exactly those of `Protocol.Encrypt` on the old ones, so only `enc` changes and no entry is replaced; the cache stays coherent |
| `Ecc.Ecc.Decrypt` | client/ecc.js:56-70 | the new dictionaries and the result are exactly those of `Protocol.Decrypt` on the old ones, whose effects `Protocol.DecryptFrame`, `Protocol.DecryptErrors` and `Protocol.DecryptOpens` state; the cache stays coherent |
| `Ecc.Ecc.SecretEntry` | client/ecc.js:59-63 | the entry is the cached one or the freshly imported key with empty `$keys`, stored under `deckey` at once; a failed import stores nothing; no other dictionary changes |
| `Ecc.Ecc.Sign` | client/ecc.js:72-82 | the new dictionaries and the result are exactly those of `Protocol.Sign` on the old ones, so only `sig` changes; the cache stays coherent |
| `Ecc.Ecc.Verify` | client/ecc.js:84-98 | the new dictionaries and the result are exactly those of `Protocol.Verify` on the old ones, so only `ver` changes; the cache stays coherent |
| `Ecc.DecryptTwice` | client/ecc.js:59-69 | once the first `decrypt` has filed the envelope's tag (in particular once it succeeded), the second gives the same result and leaves the dictionaries exactly as the first left them |

## Left out

- SJCL's elliptic-curve arithmetic, ElGamal KEM, ECDSA, key generation, the JSON AEAD
  (`_encrypt`/`_decrypt`), sha256, the hex and big-number codecs and
  `JSON.stringify`/`JSON.parse` are foreign calls: they are uninterpreted parameters.
  `Protocol.EncryptDecryptRoundTrip` assumes three of their promises as hypotheses:
  JSON round-trips the envelope, `unkem` of the tag gives the KEM key, and the AEAD
  opens what it sealed. `Protocol.SignVerifyRoundTrip` likewise assumes ECDSA's
  promise that the public key accepts what the secret key signed. AEAD tamper
  detection and signature soundness (no forged signature verifies) are not stated
  anywhere in the model.
- The four dictionaries and every `$keys` map are plain JavaScript objects, so a key
  string or an envelope tag named after an inherited property (`"constructor"`,
  `"toString"`, `"__proto__"`) finds that property instead of missing. For a tag this
  means line 66 skips `unkem` and line 69 hands the inherited function to the AEAD,
  while `Protocol.OpenWith` derives a key and files it. Envelope tags come from the
  sender, so this case is reachable from outside. The model treats every dictionary
  and every `$keys` map as starting empty and does not model the prototype chain.
- Key strings are assumed to be strings; the coercion of other values used as keys
  is not modelled. The curve argument of `generate` is modelled as absent or a
  non-negative integer; other JavaScript values are not modelled.
- Lines 45-46 and 61-62 insert the entry first and add `tagHex` or `$keys` to it
  afterwards; since neither addition can throw, the model inserts the finished entry.
- The "Missing algorithm" checks of `eccAPI`/`hashAPI` run at module load (lines
  102-105, 142-145) and the `ecc.sjcl` and sentinel exports (lines 8-9, 14) are
  environment setup; they are not modelled. The paranoia argument `1` of
  `generateKeys` is not modelled.
- Extract: `str.substr(0, 3)` counts UTF-16 code units, while a Dafny `string` counts
  Unicode scalar values, so the two split a key string differently when one of its
  first three code units is half of a surrogate pair; the model splits by scalar values.
- Decrypt: `kem.$keys[obj.tag] = key` updates the cached entry object in place; the
  model stores the updated entry value under `deckey` again, which is the same for
  the cache since nothing else holds a reference to that object.
- Protocol.VerifyCachedNeverThrows: `text` is modelled as a string or a bit array,
  `signature` as a bit array, and sha256 as total on them, so the lemma holds on that
  domain only; in the source a text the hash rejects (an omitted `text`, for one)
  throws at lines 78-79 or 90-91, outside the `try`, even with the key cached.
  `Protocol.Sign` and `Protocol.Verify` share that restriction.
- Concurrency: the code is single-threaded and has no locking.
- The symmetric-key reuse across `encrypt` calls and its nonce-uniqueness caveat are
  stated (`Protocol.EncryptTwiceSameTag`) but not judged: that is the AEAD's concern.
