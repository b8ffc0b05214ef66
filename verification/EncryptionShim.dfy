/** The encryption object: the key map and the active id rotated in place, counters bumped on success. */
module EncryptionShim {
  import opened Base
  import opened Encryption

  class Shim {
    const suite: Suite
    const scheme: Method
    const aadPrefix: Option<Bytes>
    var keys: map<KeyId, Key>
    var activeKeyId: Option<KeyId>
    var encryptionsTotal: nat
    var decryptionsTotal: nat
    var rotationHits: nat

    ghost function Abs(): Ring
      reads this
    {
      Ring(scheme, keys, activeKeyId, aadPrefix, encryptionsTotal, decryptionsTotal, rotationHits)
    }

    constructor (suite: Suite, scheme: Method, id: KeyId, material: Bytes, aadPrefix: Option<Bytes>)
      requires |material| == KEY_SIZE
      ensures this.suite == suite && Abs() == Single(scheme, id, material, aadPrefix) && OneActive(Abs())
    {
      this.suite, this.scheme, this.aadPrefix := suite, scheme, aadPrefix;
      keys, activeKeyId := map[id := Key(id, material, true)], Some(id);
      encryptionsTotal, decryptionsTotal, rotationHits := 0, 0, 0;
    }

    /** Seal under the active key; a nonce that reaches the cipher has the size the cipher insists on. */
    method EncryptBytes(plaintext: Bytes, nonce: Bytes) returns (result: Result<Payload>)
      requires LawfulSuite(suite) && (ReachesSeal(Abs()) ==> |nonce| == NONCE_SIZE)
      modifies this`encryptionsTotal
      ensures result == Encrypt(suite, old(Abs()), plaintext, nonce)
      ensures Abs() == Step(suite, old(Abs()), Seal(plaintext, nonce))
    {
      if activeKeyId.None? {
        return Err(NoActiveKey);
      }
      var id := activeKeyId.value;
      if id !in keys {
        return Err(KeyNotFound);
      }
      if |keys[id].material| != KEY_SIZE {
        return Err(BadKeyLength);
      }
      var aad := if aadPrefix.Some? then aadPrefix.value else [];
      aad := aad + id.utf8;
      var sealed := Cipher(suite, scheme).seal(keys[id].material, nonce, aad, plaintext);
      if sealed.None? {
        return Err(SealFailed);
      }
      var cut := |sealed.value| - TAG_SIZE;
      encryptionsTotal := encryptionsTotal + 1;
      return Ok(Payload(id, nonce, sealed.value[..cut], sealed.value[cut..], MethodName(scheme),
                        if aadPrefix.Some? then Some(aad) else None));
    }

    method DecryptPayload(p: Payload) returns (result: Result<Bytes>)
      requires LawfulSuite(suite) && (ReachesOpen(Abs(), p) ==> |p.nonce| == NONCE_SIZE)
      modifies this`decryptionsTotal, this`rotationHits
      ensures result == Decrypt(suite, old(Abs()), p)
      ensures Abs() == Step(suite, old(Abs()), Open(p))
    {
      if p.keyId !in keys {
        return Err(KeyNotFound);
      }
      var key := keys[p.keyId];
      if |key.material| != KEY_SIZE {
        return Err(BadKeyLength);
      }
      var named := ParseMethod(p.methodName);
      if named.None? {
        return Err(UnknownMethod);
      }
      var aad := if p.aad.Some? then p.aad.value else [];
      var joined := p.ciphertext + p.tag;
      aad := aad + p.keyId.utf8;
      var plain := Cipher(suite, named.value).open(key.material, p.nonce, aad, joined);
      if plain.None? {
        return Err(OpenFailed);
      }
      if activeKeyId != Some(p.keyId) {
        rotationHits := rotationHits + 1;
      }
      decryptionsTotal := decryptionsTotal + 1;
      return Ok(plain.value);
    }

    method RotateKey(newId: KeyId, material: Bytes) returns (done: bool)
      requires LawfulSuite(suite)
      modifies this`keys, this`activeKeyId
      ensures Abs() == Step(suite, old(Abs()), Turn(newId, material))
      ensures done <==> |material| == KEY_SIZE
      ensures old(OneActive(Abs())) ==> OneActive(Abs())
    {
      if |material| != KEY_SIZE {
        return false;
      }
      if activeKeyId.Some? && activeKeyId.value in keys {
        keys := keys[activeKeyId.value := keys[activeKeyId.value].(active := false)];
      }
      activeKeyId := Some(newId);
      keys := keys[newId := Key(newId, material, true)];
      return true;
    }
  }
}
