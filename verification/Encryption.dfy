/**
 * The key ring of crates/encryption-shim over an abstract AEAD: envelopes, rotation, and what stays
 * readable. The AEAD is any pair of functions with the interface of sections 2.1 and 2.2 of RFC 5116.
 */
module Encryption {
  import opened Base
  import opened Text

  /** An identifier as the bytes of its UTF-8 form, which is what enters the associated data. */
  datatype KeyId = KeyId(utf8: Bytes)

  datatype Method = AesGcm | ChaCha20

  /** Arguments in order: key, nonce, associated data, plaintext or ciphertext. */
  datatype Aead = Aead(
    seal: (Bytes, Bytes, Bytes, Bytes) -> Option<Bytes>,
    open: (Bytes, Bytes, Bytes, Bytes) -> Option<Bytes>)

  datatype Suite = Suite(aes: Aead, chacha: Aead)

  const TAG_SIZE: nat := 16
  const NONCE_SIZE: nat := 12
  const KEY_SIZE: nat := 32

  /** What is sealed is at least a tag long and opens under the same key, nonce and associated data. */
  ghost predicate Lawful(a: Aead) {
    forall k, n, ad, m :: a.seal(k, n, ad, m).Some? ==>
      |a.seal(k, n, ad, m).value| >= TAG_SIZE && a.open(k, n, ad, a.seal(k, n, ad, m).value) == Some(m)
  }

  ghost predicate LawfulSuite(s: Suite) { Lawful(s.aes) && Lawful(s.chacha) }

  function Cipher(s: Suite, m: Method): Aead { if m.AesGcm? then s.aes else s.chacha }

  datatype Key = Key(id: KeyId, material: Bytes, active: bool)

  datatype Payload = Payload(
    keyId: KeyId,
    nonce: Bytes,
    ciphertext: Bytes,
    tag: Bytes,
    methodName: string,
    aad: Option<Bytes>)

  datatype Ring = Ring(
    scheme: Method,
    keys: map<KeyId, Key>,
    active: Option<KeyId>,
    prefix: Option<Bytes>,
    encryptions: nat,
    decryptions: nat,
    rotationHits: nat)

  datatype Error = NoActiveKey | KeyNotFound | BadKeyLength | SealFailed | UnknownMethod | OpenFailed

  datatype Result<T> = Ok(value: T) | Err(error: Error)

  function MethodName(m: Method): string { if m.AesGcm? then "aes-gcm" else "chacha20" }

  function ParseMethod(s: string): Option<Method> {
    var t := Lower(s);
    if t == "aes-gcm" || t == "aes256gcm" || t == "aes" then Some(AesGcm)
    else if t == "chacha20" || t == "chacha20poly1305" || t == "chacha" then Some(ChaCha20)
    else None
  }

  lemma ParseOfMethodName(m: Method)
    ensures ParseMethod(MethodName(m)) == Some(m)
  {
    LowerFixed(MethodName(m));
  }

  function OrEmpty(b: Option<Bytes>): Bytes { if b.Some? then b.value else [] }

  /** The associated data under which `encrypt` seals. */
  function SealAad(r: Ring, id: KeyId): Bytes { OrEmpty(r.prefix) + id.utf8 }

  /** The associated data under which `decrypt` opens: the stored part, then the key id again. */
  function OpenAad(p: Payload): Bytes { OrEmpty(p.aad) + p.keyId.utf8 }

  /** `encrypt` gets as far as the cipher. */
  predicate ReachesSeal(r: Ring) {
    r.active.Some? && r.active.value in r.keys && |r.keys[r.active.value].material| == KEY_SIZE
  }

  /** `decrypt` gets as far as the cipher. */
  predicate ReachesOpen(r: Ring, p: Payload) {
    p.keyId in r.keys && |r.keys[p.keyId].material| == KEY_SIZE && ParseMethod(p.methodName).Some?
  }

  function Encrypt(s: Suite, r: Ring, plaintext: Bytes, nonce: Bytes): Result<Payload>
    requires LawfulSuite(s)
  {
    if r.active.None? then Err(NoActiveKey)
    else if r.active.value !in r.keys then Err(KeyNotFound)
    else
      var id := r.active.value;
      var key := r.keys[id];
      if |key.material| != KEY_SIZE then Err(BadKeyLength)
      else
        var sealed := Cipher(s, r.scheme).seal(key.material, nonce, SealAad(r, id), plaintext);
        if sealed.None? then Err(SealFailed)
        else
          var cut := |sealed.value| - TAG_SIZE;
          Ok(Payload(id, nonce, sealed.value[..cut], sealed.value[cut..], MethodName(r.scheme),
                     if r.prefix.Some? then Some(SealAad(r, id)) else None))
  }

  function Decrypt(s: Suite, r: Ring, p: Payload): Result<Bytes> {
    if p.keyId !in r.keys then Err(KeyNotFound)
    else if |r.keys[p.keyId].material| != KEY_SIZE then Err(BadKeyLength)
    else if ParseMethod(p.methodName).None? then Err(UnknownMethod)
    else
      var plain := Cipher(s, ParseMethod(p.methodName).value)
        .open(r.keys[p.keyId].material, p.nonce, OpenAad(p), p.ciphertext + p.tag);
      if plain.None? then Err(OpenFailed) else Ok(plain.value)
  }

  /** The sealing function a scheme stands for. */
  ghost predicate SealsAs(s: Suite, m: Method, key: Bytes, nonce: Bytes, ad: Bytes, plaintext: Bytes, sealed: Bytes) {
    match m
    case AesGcm => s.aes.seal(key, nonce, ad, plaintext) == Some(sealed)
    case ChaCha20 => s.chacha.seal(key, nonce, ad, plaintext) == Some(sealed)
  }

  /**
   * A payload is what the ring's own cipher seals under the active key, cut before the last sixteen
   * bytes; it names key, nonce and scheme, and carries the associated data exactly when there is a prefix.
   */
  lemma PayloadShape(s: Suite, r: Ring, plaintext: Bytes, nonce: Bytes)
    requires LawfulSuite(s) && Encrypt(s, r, plaintext, nonce).Ok?
    ensures r.active.Some? && r.active.value in r.keys && |r.keys[r.active.value].material| == 32
    ensures var p, id := Encrypt(s, r, plaintext, nonce).value, r.active.value;
      var ad := (if r.prefix.Some? then r.prefix.value else []) + id.utf8;
      && p.keyId == id && p.nonce == nonce && |p.tag| == 16
      && SealsAs(s, r.scheme, r.keys[id].material, nonce, ad, plaintext, p.ciphertext + p.tag)
      && p.aad == (if r.prefix.Some? then Some(ad) else None)
      && p.methodName == if r.scheme == AesGcm then "aes-gcm" else "chacha20"
  {
    var p, id := Encrypt(s, r, plaintext, nonce).value, r.active.value;
    var sealed := Cipher(s, r.scheme).seal(r.keys[id].material, nonce, SealAad(r, id), plaintext).value;
    assert p.ciphertext + p.tag == sealed;
  }

  ghost predicate Named(text: string, words: set<string>) { exists w :: w in words && SameButCase(text, w) }

  lemma ParseMethodIff(s: string)
    ensures ParseMethod(s) == Some(AesGcm) <==> Named(s, {"aes-gcm", "aes256gcm", "aes"})
    ensures ParseMethod(s) == Some(ChaCha20) <==> Named(s, {"chacha20", "chacha20poly1305", "chacha"})
  {
    LowerIsIff(s, "aes-gcm");
    LowerIsIff(s, "aes256gcm");
    LowerIsIff(s, "aes");
    LowerIsIff(s, "chacha20");
    LowerIsIff(s, "chacha20poly1305");
    LowerIsIff(s, "chacha");
  }

  /** Exactly which payloads open, and to what: the named cipher must open them under the key they name. */
  lemma OpensIff(s: Suite, r: Ring, p: Payload, plaintext: Bytes)
    ensures Decrypt(s, r, p) == Ok(plaintext) <==>
      && p.keyId in r.keys && |r.keys[p.keyId].material| == 32
      && var ad := (if p.aad.Some? then p.aad.value else []) + p.keyId.utf8;
         var key, sealed := r.keys[p.keyId].material, p.ciphertext + p.tag;
         || (Named(p.methodName, {"aes-gcm", "aes256gcm", "aes"})
             && s.aes.open(key, p.nonce, ad, sealed) == Some(plaintext))
         || (Named(p.methodName, {"chacha20", "chacha20poly1305", "chacha"})
             && s.chacha.open(key, p.nonce, ad, sealed) == Some(plaintext))
  {
    ParseMethodIff(p.methodName);
  }

  /** Which error `decrypt` reports, in the order of its checks. */
  lemma OpenErrors(s: Suite, r: Ring, p: Payload)
    ensures Decrypt(s, r, p) == Err(KeyNotFound) <==> p.keyId !in r.keys
    ensures Decrypt(s, r, p) == Err(BadKeyLength) <==> p.keyId in r.keys && |r.keys[p.keyId].material| != 32
    ensures Decrypt(s, r, p) == Err(UnknownMethod) <==>
      && p.keyId in r.keys && |r.keys[p.keyId].material| == 32
      && !Named(p.methodName, {"aes-gcm", "aes256gcm", "aes", "chacha20", "chacha20poly1305", "chacha"})
  {
    ParseMethodIff(p.methodName);
    NamedEither(p.methodName);
  }

  lemma NamedEither(text: string)
    ensures Named(text, {"aes-gcm", "aes256gcm", "aes", "chacha20", "chacha20poly1305", "chacha"}) <==>
      Named(text, {"aes-gcm", "aes256gcm", "aes"}) || Named(text, {"chacha20", "chacha20poly1305", "chacha"})
  {
  }

  /** Which error `encrypt` reports, in the order of its checks. */
  lemma SealErrors(s: Suite, r: Ring, plaintext: Bytes, nonce: Bytes)
    requires LawfulSuite(s)
    ensures Encrypt(s, r, plaintext, nonce) == Err(NoActiveKey) <==> r.active.None?
    ensures Encrypt(s, r, plaintext, nonce) == Err(KeyNotFound) <==> r.active.Some? && r.active.value !in r.keys
    ensures Encrypt(s, r, plaintext, nonce) == Err(BadKeyLength) <==>
      r.active.Some? && r.active.value in r.keys && |r.keys[r.active.value].material| != 32
  {
  }

  /** A rotation needs 32 bytes; then the new key is active and named, and the old one is kept at rest. */
  lemma RotationFiles(r: Ring, id: KeyId, material: Bytes)
    ensures Rotate(r, id, material).Ok? <==> |material| == 32
    ensures Rotate(r, id, material).Ok? ==>
      var t := Rotate(r, id, material).value;
      && t.active == Some(id) && t.keys.Keys == r.keys.Keys + {id} && t.keys[id] == Key(id, material, true)
      && forall k :: k in r.keys && k != id ==>
           t.keys[k] == r.keys[k].(active := r.keys[k].active && r.active != Some(k))
  {
  }

  function Rotate(r: Ring, id: KeyId, material: Bytes): Result<Ring> {
    if |material| != KEY_SIZE then Err(BadKeyLength)
    else
      var rested :=
        if r.active.Some? && r.active.value in r.keys
        then r.keys[r.active.value := r.keys[r.active.value].(active := false)]
        else r.keys;
      Ok(r.(keys := rested[id := Key(id, material, true)], active := Some(id)))
  }

  // ---------------------------------------------------------------- runs

  datatype Op =
    | Seal(plaintext: Bytes, nonce: Bytes)
    | Open(payload: Payload)
    | Turn(id: KeyId, material: Bytes)

  /** A decryption counts as a rotation hit when the payload's key is not the active one. */
  predicate IsHit(s: Suite, r: Ring, op: Op) {
    op.Open? && Decrypt(s, r, op.payload).Ok? && r.active != Some(op.payload.keyId)
  }

  function Step(s: Suite, r: Ring, op: Op): Ring
    requires LawfulSuite(s)
  {
    match op
    case Seal(m, n) => if Encrypt(s, r, m, n).Ok? then r.(encryptions := r.encryptions + 1) else r
    case Open(p) =>
      if Decrypt(s, r, p).Err? then r
      else r.(decryptions := r.decryptions + 1, rotationHits := r.rotationHits + if IsHit(s, r, op) then 1 else 0)
    case Turn(id, material) => if Rotate(r, id, material).Ok? then Rotate(r, id, material).value else r
  }

  function After(s: Suite, r: Ring, ops: seq<Op>): Ring
    requires LawfulSuite(s)
  {
    if ops == [] then r else Step(s, After(s, r, ops[..|ops| - 1]), ops[|ops| - 1])
  }

  /** A ring as loaded at start-up: one key, active. */
  function Single(scheme: Method, id: KeyId, material: Bytes, prefix: Option<Bytes>): Ring {
    Ring(scheme, map[id := Key(id, material, true)], Some(id), prefix, 0, 0, 0)
  }

  /** Exactly one key is active, the one the ring names, and every key is filed under its id at full length. */
  ghost predicate OneActive(r: Ring) {
    && r.active.Some? && r.active.value in r.keys
    && forall id :: id in r.keys ==>
         && r.keys[id].id == id && |r.keys[id].material| == KEY_SIZE
         && (r.keys[id].active <==> id == r.active.value)
  }

  lemma {:induction false} RunOneActive(s: Suite, r: Ring, ops: seq<Op>)
    requires LawfulSuite(s) && OneActive(r)
    ensures OneActive(After(s, r, ops)) && After(s, r, ops).prefix == r.prefix
    ensures r.keys.Keys <= After(s, r, ops).keys.Keys
  {
    if ops != [] { RunOneActive(s, r, ops[..|ops| - 1]); }
  }

  /** Successful openings of payloads whose key is on the ring but flagged inactive at the time. */
  function RestedReads(s: Suite, r: Ring, ops: seq<Op>): nat
    requires LawfulSuite(s)
  {
    if ops == [] then 0
    else
      var q, op := After(s, r, ops[..|ops| - 1]), ops[|ops| - 1];
      RestedReads(s, r, ops[..|ops| - 1])
      + if op.Open? && op.payload.keyId in q.keys && !q.keys[op.payload.keyId].active && Decrypt(s, q, op.payload).Ok?
        then 1 else 0
  }

  /** Successful sealings (`unsealing` false) or openings (true) among the operations. */
  function Done(s: Suite, r: Ring, ops: seq<Op>, unsealing: bool): nat
    requires LawfulSuite(s)
  {
    if ops == [] then 0
    else
      var q, op := After(s, r, ops[..|ops| - 1]), ops[|ops| - 1];
      Done(s, r, ops[..|ops| - 1], unsealing)
      + match op
        case Seal(m, n) => if !unsealing && Encrypt(s, q, m, n).Ok? then 1 else 0
        case Open(p) => if unsealing && Decrypt(s, q, p).Ok? then 1 else 0
        case Turn(_, _) => 0
  }

  /** The counters count successes only, and the hit counter the openings under keys whose own flag is down. */
  lemma {:induction false} HitsCounted(s: Suite, r: Ring, ops: seq<Op>)
    requires LawfulSuite(s) && OneActive(r)
    ensures After(s, r, ops).rotationHits == r.rotationHits + RestedReads(s, r, ops)
    ensures After(s, r, ops).decryptions == r.decryptions + Done(s, r, ops, true)
    ensures After(s, r, ops).encryptions == r.encryptions + Done(s, r, ops, false)
  {
    if ops != [] {
      HitsCounted(s, r, ops[..|ops| - 1]);
      RunOneActive(s, r, ops[..|ops| - 1]);
    }
  }

  /** The key material a payload under `id` would be opened with. */
  function Material(r: Ring, id: KeyId): Option<Bytes> { if id in r.keys then Some(r.keys[id].material) else None }

  /** The material of the last accepted rotation to `id`, or `m` if there was none. */
  function LastTurn(ops: seq<Op>, id: KeyId, m: Bytes): (last: Bytes)
    ensures |m| == KEY_SIZE ==> |last| == KEY_SIZE
  {
    if ops == [] then m
    else
      var op := ops[|ops| - 1];
      if op.Turn? && op.id == id && |op.material| == KEY_SIZE then op.material
      else LastTurn(ops[..|ops| - 1], id, m)
  }

  lemma {:induction false} RunMaterial(s: Suite, r: Ring, ops: seq<Op>, id: KeyId)
    requires LawfulSuite(s) && id in r.keys
    ensures Material(After(s, r, ops), id) == Some(LastTurn(ops, id, r.keys[id].material))
  {
    if ops != [] { RunMaterial(s, r, ops[..|ops| - 1], id); }
  }

  /** Decryption needs only the key material: with the same material under its id a payload reads the same. */
  lemma ReadsByMaterial(s: Suite, r: Ring, t: Ring, p: Payload)
    requires Material(r, p.keyId) == Material(t, p.keyId)
    ensures Decrypt(s, r, p) == Decrypt(s, t, p)
  {
  }

  lemma RoundTrip(s: Suite, r: Ring, plaintext: Bytes, nonce: Bytes)
    requires LawfulSuite(s) && Encrypt(s, r, plaintext, nonce).Ok?
    requires r.prefix.None? || r.active.value.utf8 == []
    ensures Decrypt(s, r, Encrypt(s, r, plaintext, nonce).value) == Ok(plaintext)
  {
    var p := Encrypt(s, r, plaintext, nonce).value;
    ParseOfMethodName(r.scheme);
    assert OpenAad(p) == SealAad(r, p.keyId);
    var sealed := Cipher(s, r.scheme).seal(r.keys[p.keyId].material, nonce, SealAad(r, p.keyId), plaintext).value;
    assert p.ciphertext + p.tag == sealed;
  }

  /** A payload sealed on `r` reads back on any ring that files the same material under its key id. */
  lemma ReadsElsewhere(s: Suite, r: Ring, t: Ring, plaintext: Bytes, nonce: Bytes)
    requires LawfulSuite(s) && Encrypt(s, r, plaintext, nonce).Ok?
    requires r.prefix.None? || r.active.value.utf8 == []
    requires Material(t, r.active.value) == Material(r, r.active.value)
    ensures Decrypt(s, t, Encrypt(s, r, plaintext, nonce).value) == Ok(plaintext)
  {
    RoundTrip(s, r, plaintext, nonce);
    ReadsByMaterial(s, r, t, Encrypt(s, r, plaintext, nonce).value);
  }

  /**
   * On any ring without an associated-data prefix, a payload produced now still decrypts to its
   * plaintext after any operations, if the last rotation to its key's id, if any, restored its material.
   */
  lemma RotationPreservesReadability(s: Suite, r: Ring, plaintext: Bytes, nonce: Bytes, future: seq<Op>)
    requires LawfulSuite(s) && Encrypt(s, r, plaintext, nonce).Ok?
    requires r.prefix.None? || r.active.value.utf8 == []
    requires LastTurn(future, r.active.value, r.keys[r.active.value].material) == r.keys[r.active.value].material
    ensures Decrypt(s, After(s, r, future), Encrypt(s, r, plaintext, nonce).value) == Ok(plaintext)
  {
    RunMaterial(s, r, future, r.active.value);
    ReadsElsewhere(s, r, After(s, r, future), plaintext, nonce);
  }

  // ---------------------------------------------------------------- where it fails

  function Ones(n: nat): (b: Bytes)
    ensures |b| == n && forall i :: 0 <= i < n ==> b[i] == 1
  {
    seq(n, i => 1)
  }

  /** Key, then the length of the associated data in unary. */
  function Header(k: Bytes, ad: Bytes): Bytes { k + Ones(|ad|) + [0] }

  /** A transparent AEAD that refuses a wrong key or associated data of another length. */
  const BINDING: Aead := Aead(
    (k: Bytes, n: Bytes, ad: Bytes, m: Bytes) => Some(Header(k, ad) + m + Ones(TAG_SIZE)),
    (k: Bytes, n: Bytes, ad: Bytes, c: Bytes) =>
      var h := |Header(k, ad)|;
      if |c| >= h + TAG_SIZE && c[..h] == Header(k, ad) then Some(c[h..|c| - TAG_SIZE]) else None)

  const BINDING_SUITE: Suite := Suite(BINDING, BINDING)

  lemma BindingLawful()
    ensures LawfulSuite(BINDING_SUITE)
  {
    forall k: Bytes, n: Bytes, ad: Bytes, m: Bytes
      ensures var c := BINDING.seal(k, n, ad, m);
        c.Some? && |c.value| >= TAG_SIZE && BINDING.open(k, n, ad, c.value) == Some(m)
    {
      BindingOpens(k, n, ad, m);
    }
  }

  lemma BindingOpens(k: Bytes, n: Bytes, ad: Bytes, m: Bytes)
    ensures var c := BINDING.seal(k, n, ad, m);
      c.Some? && |c.value| >= TAG_SIZE && BINDING.open(k, n, ad, c.value) == Some(m)
  {
    var c, h := Header(k, ad) + m + Ones(TAG_SIZE), |Header(k, ad)|;
    assert c[..h] == Header(k, ad) && c[h..|c| - TAG_SIZE] == m;
  }

  lemma BindingRefuses(k: Bytes, ad: Bytes, m: Bytes, j: Bytes, bd: Bytes, n: Bytes)
    requires |j| == |k| && (j != k || |bd| > |ad|)
    ensures BINDING.open(j, n, bd, Header(k, ad) + m + Ones(TAG_SIZE)) == None
  {
    var c, h := Header(k, ad) + m + Ones(TAG_SIZE), |Header(j, bd)|;
    if |c| >= h + TAG_SIZE {
      if j != k {
        assert c[..h][..|k|] == k && Header(j, bd)[..|j|] == j;
      } else {
        var i := |k| + |ad|;
        assert c[..h][i] == 0 && Header(j, bd)[i] == 1;
      }
    }
  }

  /** The transparent AEAD refuses a payload whose prefix was doubled or whose material is gone from its id. */
  lemma BindingLoses(r: Ring, t: Ring, plaintext: Bytes, nonce: Bytes)
    requires LawfulSuite(BINDING_SUITE) && ReachesSeal(r)
    requires r.active.value in t.keys && |t.keys[r.active.value].material| == KEY_SIZE
    requires
      || (r.prefix.Some? && r.active.value.utf8 != [])
      || Material(t, r.active.value) != Material(r, r.active.value)
    ensures Encrypt(BINDING_SUITE, r, plaintext, nonce).Ok?
    ensures Decrypt(BINDING_SUITE, t, Encrypt(BINDING_SUITE, r, plaintext, nonce).value) == Err(OpenFailed)
  {
    var s, id := BINDING_SUITE, r.active.value;
    var p := Encrypt(s, r, plaintext, nonce).value;
    var k, ad := r.keys[id].material, SealAad(r, id);
    ParseOfMethodName(r.scheme);
    assert p.ciphertext + p.tag == Header(k, ad) + plaintext + Ones(TAG_SIZE);
    BindingRefuses(k, ad, plaintext, t.keys[id].material, OpenAad(p), nonce);
  }

  /**
   * A payload sealed on `r` reads back on `t` under every lawful AEAD if and only if its associated
   * data was not doubled and `t` files the sealing material under the very id the payload names.
   * A ring that cannot seal has no payloads.
   */
  lemma ReadsBackIff(r: Ring, t: Ring, plaintext: Bytes, nonce: Bytes)
    ensures (forall s: Suite :: LawfulSuite(s) && Encrypt(s, r, plaintext, nonce).Ok? ==>
               Decrypt(s, t, Encrypt(s, r, plaintext, nonce).value) == Ok(plaintext))
      <==> (ReachesSeal(r) ==>
              && (r.prefix.None? || r.active.value.utf8 == [])
              && Material(t, r.active.value) == Material(r, r.active.value))
  {
    if ReachesSeal(r) {
      var id := r.active.value;
      if (r.prefix.None? || id.utf8 == []) && Material(t, id) == Material(r, id) {
        forall s: Suite | LawfulSuite(s) && Encrypt(s, r, plaintext, nonce).Ok?
          ensures Decrypt(s, t, Encrypt(s, r, plaintext, nonce).value) == Ok(plaintext)
        {
          ReadsElsewhere(s, r, t, plaintext, nonce);
        }
      } else {
        BindingLawful();
        assert Encrypt(BINDING_SUITE, r, plaintext, nonce).Ok?;
        if id in t.keys && |t.keys[id].material| == KEY_SIZE {
          BindingLoses(r, t, plaintext, nonce);
        }
      }
    }
  }

  /** On the ring itself: `decrypt` reads what `encrypt` wrote exactly when no prefix is set or the key id is empty. */
  lemma RoundTripIff(r: Ring, plaintext: Bytes, nonce: Bytes)
    ensures (forall s: Suite :: LawfulSuite(s) && Encrypt(s, r, plaintext, nonce).Ok? ==>
               Decrypt(s, r, Encrypt(s, r, plaintext, nonce).value) == Ok(plaintext))
      <==> (ReachesSeal(r) ==> r.prefix.None? || r.active.value.utf8 == [])
  {
    ReadsBackIff(r, r, plaintext, nonce);
  }

  /**
   * Over whole runs: a payload produced at any moment still reads back after `ops`, under every
   * lawful AEAD, if and only if its associated data was not doubled and the last rotation to its
   * key's id, active or retired, left the material it was sealed with.
   */
  lemma RotationReadsIff(r: Ring, plaintext: Bytes, nonce: Bytes, ops: seq<Op>)
    ensures (forall s: Suite :: LawfulSuite(s) && Encrypt(s, r, plaintext, nonce).Ok? ==>
               Decrypt(s, After(s, r, ops), Encrypt(s, r, plaintext, nonce).value) == Ok(plaintext))
      <==> (ReachesSeal(r) ==>
              && (r.prefix.None? || r.active.value.utf8 == [])
              && LastTurn(ops, r.active.value, r.keys[r.active.value].material) == r.keys[r.active.value].material)
  {
    if ReachesSeal(r) {
      var id := r.active.value;
      var sealedWith := r.keys[id].material;
      if (r.prefix.None? || id.utf8 == []) && LastTurn(ops, id, sealedWith) == sealedWith {
        forall s: Suite | LawfulSuite(s) && Encrypt(s, r, plaintext, nonce).Ok?
          ensures Decrypt(s, After(s, r, ops), Encrypt(s, r, plaintext, nonce).value) == Ok(plaintext)
        {
          RotationPreservesReadability(s, r, plaintext, nonce, ops);
        }
      } else {
        BindingLawful();
        RunMaterial(BINDING_SUITE, r, ops, id);
        BindingLoses(r, After(BINDING_SUITE, r, ops), plaintext, nonce);
      }
    }
  }

  /** The failing family of rotations: overwriting any id, active or retired, loses its earlier payloads. */
  lemma OverwritingLosesPayloads(r: Ring, plaintext: Bytes, nonce: Bytes, ops: seq<Op>)
    requires LawfulSuite(BINDING_SUITE) && ReachesSeal(r)
    requires LastTurn(ops, r.active.value, r.keys[r.active.value].material) != r.keys[r.active.value].material
    ensures Encrypt(BINDING_SUITE, r, plaintext, nonce).Ok?
    ensures Decrypt(BINDING_SUITE, After(BINDING_SUITE, r, ops),
                    Encrypt(BINDING_SUITE, r, plaintext, nonce).value) == Err(OpenFailed)
  {
    RunMaterial(BINDING_SUITE, r, ops, r.active.value);
    BindingLoses(r, After(BINDING_SUITE, r, ops), plaintext, nonce);
  }

  /** The failing family of prefixes. */
  lemma PrefixBreaksRoundTrip(r: Ring, plaintext: Bytes, nonce: Bytes)
    requires LawfulSuite(BINDING_SUITE) && ReachesSeal(r) && r.prefix.Some? && r.active.value.utf8 != []
    ensures Encrypt(BINDING_SUITE, r, plaintext, nonce).Ok?
    ensures Decrypt(BINDING_SUITE, r, Encrypt(BINDING_SUITE, r, plaintext, nonce).value) == Err(OpenFailed)
  {
    BindingLoses(r, r, plaintext, nonce);
  }

  /**
   * No other key is tried: a ring that holds the sealing material under another id only refuses the
   * payload under every AEAD, although that key opens it.
   */
  lemma OtherIdNotTried(s: Suite, r: Ring, other: KeyId, plaintext: Bytes, nonce: Bytes)
    requires LawfulSuite(s) && r.active.Some? && r.prefix.None? && other != r.active.value
    requires Encrypt(s, r, plaintext, nonce).Ok?
    ensures var p := Encrypt(s, r, plaintext, nonce).value;
      var t := Single(r.scheme, other, r.keys[r.active.value].material, None);
      && OneActive(t) && Decrypt(s, t, p) == Err(KeyNotFound)
      && Cipher(s, t.scheme).open(t.keys[other].material, p.nonce, OpenAad(p), p.ciphertext + p.tag) == Some(plaintext)
  {
    RoundTrip(s, r, plaintext, nonce);
    ParseOfMethodName(r.scheme);
  }
}
