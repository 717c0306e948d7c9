// How stored bytes are encrypted. The cryptographic primitives and the key environment are
// parameters; of the primitives only the laws below are used.

module StorageCrypto {
  import opened Prelude

  type Bytes = string

  type Secret = string

  // 'v0', 'v1', ...; version 0 is the unsuffixed key.
  type Version = nat

  datatype Mode = Symmetric | Asymmetric

  datatype Settings = Settings(mode: Mode, version: Option<Version>)

  // Which versioned keys are set.
  datatype Environment = Environment(aes: map<Version, Secret>, rsaPublic: map<Version, Secret>, rsaPrivate: map<Version, Secret>)

  // Decryption throws, here None, when the key does not fit. Every encryption draws randomness.
  datatype Primitives = Primitives(
    encryptAes: (Bytes, Secret, nat) -> Bytes,
    decryptAes: (Bytes, Secret) -> Option<Bytes>,
    encryptRsa: (Secret, Secret, nat) -> Bytes,
    decryptRsa: (Bytes, Secret) -> Option<Secret>,
    generateKey: nat -> Secret,
    checksum: Bytes -> string)

  ghost predicate AesInverts(p: Primitives) {
    forall x, key, random :: p.decryptAes(p.encryptAes(x, key, random), key) == Some(x)
  }

  ghost predicate RsaInverts(p: Primitives, env: Environment) {
    forall v, key, random | v in env.rsaPublic && v in env.rsaPrivate ::
      p.decryptRsa(p.encryptRsa(key, env.rsaPublic[v], random), env.rsaPrivate[v]) == Some(key)
  }

  ghost predicate ChecksumInjective(p: Primitives) {
    forall x, y :: p.checksum(x) == p.checksum(y) ==> x == y
  }

  ghost predicate Lawful(p: Primitives, env: Environment) {
    AesInverts(p) && RsaInverts(p, env) && ChecksumInjective(p)
  }

  datatype CryptoError = MissingKey | MissingWrappedKey | WrongKey

  datatype Encrypted = Encrypted(ciphertext: Bytes, version: Version, wrappedKey: Option<Bytes>)

  function ActiveVersion(settings: Settings): Version {
    if settings.version.Some? then settings.version.value else 0
  }

  function EncryptBytes(p: Primitives, env: Environment, settings: Settings, random: nat, plaintext: Bytes)
    : Result<Encrypted, CryptoError>
  {
    var v := ActiveVersion(settings);
    match settings.mode
    case Asymmetric =>
      if v !in env.rsaPublic then Failure(MissingKey)
      else
        var key := p.generateKey(random);
        Success(Encrypted(p.encryptAes(plaintext, key, random), v, Some(p.encryptRsa(key, env.rsaPublic[v], random))))
    case Symmetric =>
      if v !in env.aes then Failure(MissingKey)
      else Success(Encrypted(p.encryptAes(plaintext, env.aes[v], random), v, None))
  }

  // The version is the object's own, never the one the settings name.
  function DecryptBytes(p: Primitives, env: Environment, settings: Settings, ciphertext: Bytes, version: Option<Version>,
                        wrappedKey: Option<Bytes>)
    : Result<Bytes, CryptoError>
  {
    var v := if version.Some? then version.value else 0;
    match settings.mode
    case Asymmetric =>
      if wrappedKey.None? then Failure(MissingWrappedKey)
      else if v !in env.rsaPrivate then Failure(MissingKey)
      else
        (match p.decryptRsa(wrappedKey.value, env.rsaPrivate[v])
         case None => Failure(WrongKey)
         case Some(key) => Opened(p.decryptAes(ciphertext, key)))
    case Symmetric =>
      if v !in env.aes then Failure(MissingKey) else Opened(p.decryptAes(ciphertext, env.aes[v]))
  }

  function Opened(plain: Option<Bytes>): Result<Bytes, CryptoError> {
    if plain.Some? then Success(plain.value) else Failure(WrongKey)
  }

  // The key that reads what this mode wrote under this version is still set.
  predicate Readable(env: Environment, mode: Mode, v: Version) {
    match mode
    case Symmetric => v in env.aes
    case Asymmetric => v in env.rsaPrivate
  }

  // What carries no version is of version 0.
  lemma UnmarkedIsZero(p: Primitives, env: Environment, settings: Settings, ciphertext: Bytes, wrappedKey: Option<Bytes>)
    ensures DecryptBytes(p, env, settings, ciphertext, None, wrappedKey) == DecryptBytes(p, env, settings, ciphertext, Some(0), wrappedKey)
  {
  }

  // Whatever version is active by the time of reading.
  lemma DecryptUndoesEncrypt(p: Primitives, env: Environment, settings: Settings, later: Settings, random: nat, plaintext: Bytes)
    requires Lawful(p, env) && later.mode == settings.mode
    requires EncryptBytes(p, env, settings, random, plaintext).Success?
    ensures var e := EncryptBytes(p, env, settings, random, plaintext).value;
            && e.version == ActiveVersion(settings)
            && (DecryptBytes(p, env, later, e.ciphertext, Some(e.version), e.wrappedKey) ==
                if Readable(env, settings.mode, e.version) then Success(plaintext) else Failure(MissingKey))
  {
  }
}
