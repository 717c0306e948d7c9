// Versioned field protection: the `v1:` prefix on stored values, the setter that applies the active
// version, and the getter that reverses whatever version a value was stored under. The mask and
// encryption primitives are parameters with the laws of `Lawful`; their keys are taken to be there.

module Protection {
  import opened Prelude

  datatype Strategy = Mask | Encrypt | Hash

  datatype Config = Config(strategy: Strategy, settings: string)

  datatype DataProtection = DataProtection(activeVersion: string, versionConfigs: map<string, Config>)

  // A field's stored or plain value.
  datatype Text = One(text: string) | Many(texts: seq<string>)

  // Every primitive takes the settings and the version, which selects the key. Encryption also takes
  // the random bits it draws.
  datatype Crypto = Crypto(
    mask: (string, string, string) -> string,
    unmask: (string, string, string) -> string,
    encrypt: (string, string, nat, string) -> string,
    decrypt: (string, string, string) -> string,
    hash: (string, nat, string) -> string)

  ghost predicate Lawful(c: Crypto) {
    && (forall s, v, t :: c.unmask(s, v, c.mask(s, v, t)) == t)
    && (forall s, v, n, t :: c.decrypt(s, v, c.encrypt(s, v, n, t)) == t)
    && (forall s, v, t :: t != "" ==> c.mask(s, v, t) != "")
    && (forall s, v, n, t :: t != "" ==> c.encrypt(s, v, n, t) != "")
  }

  // Version tags are `v` and a number: neither empty nor with a colon in them.
  predicate VersionTag(version: string) {
    version != "" && ':' !in version
  }

  // ----- the version prefix -----------------------------------------------------------------

  function IndexOf(s: string, c: char): (i: int)
    ensures -1 <= i < |s|
    ensures i >= 0 ==> s[i] == c && forall k | 0 <= k < i :: s[k] != c
    ensures i == -1 ==> c !in s
  {
    if s == "" then -1
    else if s[0] == c then 0
    else
      var i := IndexOf(s[1..], c);
      if i == -1 then -1 else i + 1
  }

  function Prefixed(message: string, version: string): string {
    if version == "" then message else version + ":" + message
  }

  // On an array only the first element carries the version.
  function AppendVersion(message: Text, version: string): Text
    requires message.Many? ==> message.texts != []
  {
    match message
    case One(t) => One(Prefixed(t, version))
    case Many(ts) => Many(ts[0 := Prefixed(ts[0], version)])
  }

  function SplitVersion(stored: string): (string, string) {
    var i := IndexOf(stored, ':');
    if i == -1 then ("v0", stored) else (stored[..i], stored[i + 1..])
  }

  function ExtractVersion(stored: Text): (string, Text)
    requires stored.Many? ==> stored.texts != []
  {
    match stored
    case One(t) => (SplitVersion(t).0, One(SplitVersion(t).1))
    case Many(ts) => (SplitVersion(ts[0]).0, Many(ts[0 := SplitVersion(ts[0]).1]))
  }

  // appendVersion overwrites the first element of the array it is given.
  method AppendVersionInPlace(message: array<string>, version: string)
    requires message.Length > 0
    modifies message
    ensures Many(message[..]) == AppendVersion(Many(old(message[..])), version)
  {
    message[0] := Prefixed(message[0], version);
  }

  lemma {:induction false} IndexOfFirst(version: string, rest: string)
    requires ':' !in version
    ensures IndexOf(version + ":" + rest, ':') == |version|
  {
    var s := version + ":" + rest;
    var i := IndexOf(s, ':');
    assert s[|version|] == ':';
    forall k | 0 <= k < |version| ensures s[k] != ':' {
      assert s[k] == version[k];
    }
  }

  lemma SplitPrefixed(message: string, version: string)
    requires VersionTag(version)
    ensures SplitVersion(Prefixed(message, version)) == (version, message)
  {
    IndexOfFirst(version, message);
    var s := Prefixed(message, version);
    assert s[..|version|] == version && s[|version| + 1..] == message;
  }

  // extractVersion undoes appendVersion, on a string and on an array.
  lemma ExtractUndoesAppend(message: Text, version: string)
    requires VersionTag(version) && (message.Many? ==> message.texts != [])
    ensures ExtractVersion(AppendVersion(message, version)) == (version, message)
  {
    match message
    case One(t) => SplitPrefixed(t, version);
    case Many(ts) =>
      SplitPrefixed(ts[0], version);
      assert ts[0 := Prefixed(ts[0], version)][0 := ts[0]] == ts;
  }

  // ----- configuration ----------------------------------------------------------------------

  function ConfigFor(p: DataProtection, version: string): Option<Config> {
    if version in p.versionConfigs then Some(p.versionConfigs[version])
    else if "default" in p.versionConfigs then Some(p.versionConfigs["default"])
    else None
  }

  // ----- mask and encrypt wrappers ----------------------------------------------------------

  // `!input[0]`: nothing, or a first character or element that is empty.
  predicate StartsEmpty(t: Text) {
    match t
    case One(s) => s == ""
    case Many(ss) => ss == [] || ss[0] == ""
  }

  function MapText(t: Text, f: string -> string): Text {
    match t
    case One(s) => One(f(s))
    case Many(ss) => Many(seq(|ss|, i requires 0 <= i < |ss| => f(ss[i])))
  }

  function MaskWith(c: Crypto, settings: string, version: string, t: Text): Text {
    if StartsEmpty(t) then t
    else AppendVersion(MapText(t, s => c.mask(settings, version, s)), version)
  }

  function EncryptWith(c: Crypto, settings: string, version: string, bits: nat, t: Text): Text {
    if StartsEmpty(t) then t
    else AppendVersion(MapText(t, s => c.encrypt(settings, version, bits, s)), version)
  }

  function UnmaskWith(c: Crypto, settings: string, version: string, t: Text): Text {
    if StartsEmpty(t) then t else MapText(t, s => c.unmask(settings, version, s))
  }

  function DecryptWith(c: Crypto, settings: string, version: string, t: Text): Text {
    if StartsEmpty(t) then t else MapText(t, s => c.decrypt(settings, version, s))
  }

  // ----- setter and getter ------------------------------------------------------------------

  datatype SetterError = NoConfigForVersion

  // Success(None) is `undefined`: a falsy value is not stored at all.
  function Setter(c: Crypto, p: DataProtection, bits: nat, value: Text): Result<Option<Text>, SetterError> {
    if value == One("") then Success(None)
    else
      match ConfigFor(p, p.activeVersion)
      case None => Failure(NoConfigForVersion)
      case Some(Config(Mask, settings)) => Success(Some(MaskWith(c, settings, p.activeVersion, value)))
      case Some(Config(Encrypt, settings)) => Success(Some(EncryptWith(c, settings, p.activeVersion, bits, value)))
      case Some(Config(Hash, settings)) => Success(Some(MapText(value, s => c.hash(settings, bits, s))))
  }

  datatype Reading =
    | Nothing                     // no value to reverse
    | AsStored(value: Text)       // no configuration for its version
    | Revealed(value: Text)       // unmasked or decrypted
    | Verifiable(value: Text)     // a hash, which only verifies

  function Getter(c: Crypto, p: DataProtection, stored: Text): Reading {
    if stored == One("") || stored == Many([]) then Nothing
    else
      var (version, message) := ExtractVersion(stored);
      match ConfigFor(p, version)
      case None => AsStored(stored)
      case Some(Config(Mask, settings)) => Revealed(UnmaskWith(c, settings, version, message))
      case Some(Config(Encrypt, settings)) => Revealed(DecryptWith(c, settings, version, message))
      case Some(Config(Hash, _)) => Verifiable(message)
  }

  // ----- what is stored and what is read, string by string ----------------------------------

  function Parts(t: Text): seq<string> {
    match t
    case One(s) => [s]
    case Many(ss) => ss
  }

  // The configuration that applies to a version: its own, or the default one, or none.
  predicate Resolved(p: DataProtection, version: string, config: Option<Config>) {
    match config
    case Some(x) =>
      || (version in p.versionConfigs && p.versionConfigs[version] == x)
      || (version !in p.versionConfigs && "default" in p.versionConfigs && p.versionConfigs["default"] == x)
    case None => version !in p.versionConfigs && "default" !in p.versionConfigs
  }

  // A stored string is a version, a colon and a rest, or all rest of version v0.
  predicate Versioned(stored: string, version: string, rest: string) {
    || (stored == version + ":" + rest && ':' !in version)
    || (stored == rest && ':' !in stored && version == "v0")
  }

  lemma VersionedIs(stored: string, version: string, rest: string)
    ensures Versioned(stored, version, rest) <==> SplitVersion(stored) == (version, rest)
  {
    if Versioned(stored, version, rest) && ':' in stored {
      IndexOfFirst(version, rest);
      assert stored[..|version|] == version && stored[|version| + 1..] == rest;
    }
    if SplitVersion(stored) == (version, rest) && ':' in stored {
      var i := IndexOf(stored, ':');
      assert stored == stored[..i] + ":" + stored[i + 1..];
    }
  }

  lemma ResolvedIs(p: DataProtection, version: string, config: Option<Config>)
    ensures Resolved(p, version, config) <==> ConfigFor(p, version) == config
  {
  }

  // What the setter stores of each string: its hash alone; or, masked or encrypted, the first with the
  // version before it. A text that starts with "" is not masked or encrypted at all.
  lemma StoredIs(c: Crypto, p: DataProtection, bits: nat, t: Text, config: Config)
    requires t != One("") && VersionTag(p.activeVersion) && Resolved(p, p.activeVersion, Some(config))
    ensures Setter(c, p, bits, t).Success? && Setter(c, p, bits, t).value.Some?
    ensures var stored, v, settings := Setter(c, p, bits, t).value.value, p.activeVersion, config.settings;
            && stored.One? == t.One? && |Parts(stored)| == |Parts(t)|
            && forall k | 0 <= k < |Parts(t)| ::
                 Parts(stored)[k] ==
                   match config.strategy
                   case Hash => c.hash(settings, bits, Parts(t)[k])
                   case Mask =>
                     if Parts(t)[0] == "" then Parts(t)[k] else (if k == 0 then v + ":" else "") + c.mask(settings, v, Parts(t)[k])
                   case Encrypt =>
                     if Parts(t)[0] == "" then Parts(t)[k] else (if k == 0 then v + ":" else "") + c.encrypt(settings, v, bits, Parts(t)[k])
  {
    ResolvedIs(p, p.activeVersion, Some(config));
  }

  // What the getter makes of a stored text, whose first string says the version.
  lemma ReadIs(c: Crypto, p: DataProtection, stored: Text, version: string, rest: string, config: Option<Config>)
    requires stored != One("") && stored != Many([])
    requires Versioned(Parts(stored)[0], version, rest) && Resolved(p, version, config)
    ensures var read, parts := Getter(c, p, stored), Parts(stored)[0 := rest];
            match config
            case None => read == AsStored(stored)
            case Some(Config(Hash, _)) => read.Verifiable? && read.value.One? == stored.One? && Parts(read.value) == parts
            case Some(Config(Mask, settings)) =>
              && read.Revealed? && read.value.One? == stored.One? && |Parts(read.value)| == |parts|
              && forall k | 0 <= k < |parts| :: Parts(read.value)[k] == if rest == "" then parts[k] else c.unmask(settings, version, parts[k])
            case Some(Config(Encrypt, settings)) =>
              && read.Revealed? && read.value.One? == stored.One? && |Parts(read.value)| == |parts|
              && forall k | 0 <= k < |parts| :: Parts(read.value)[k] == if rest == "" then parts[k] else c.decrypt(settings, version, parts[k])
  {
    hide SplitVersion, Versioned, Resolved, ConfigFor, VersionTag;
    VersionedIs(Parts(stored)[0], version, rest);
    ResolvedIs(p, version, config);
  }

  lemma MappedBack(t: Text, f: string -> string, g: string -> string)
    requires forall s :: g(f(s)) == s
    ensures MapText(MapText(t, f), g) == t
  {
  }

  // A value stored under one configuration is recovered under any later one that still resolves the
  // stored version the same way.
  lemma RoundTrip(c: Crypto, saved: DataProtection, now: DataProtection, bits: nat, value: Text)
    requires Lawful(c) && VersionTag(saved.activeVersion) && !StartsEmpty(value)
    requires ConfigFor(saved, saved.activeVersion).Some?
    requires ConfigFor(saved, saved.activeVersion).value.strategy in {Mask, Encrypt}
    requires ConfigFor(now, saved.activeVersion) == ConfigFor(saved, saved.activeVersion)
    ensures Setter(c, saved, bits, value).Success? && Setter(c, saved, bits, value).value.Some?
    ensures var stored := Setter(c, saved, bits, value).value.value;
            && (stored.Many? ==> stored.texts != [])
            && ExtractVersion(stored).0 == saved.activeVersion
            && Getter(c, now, stored) == Revealed(value)
  {
    var v, settings := saved.activeVersion, ConfigFor(saved, saved.activeVersion).value.settings;
    if ConfigFor(saved, v).value.strategy == Mask {
      var masked := MapText(value, s => c.mask(settings, v, s));
      MappedBack(value, s => c.mask(settings, v, s), s => c.unmask(settings, v, s));
      ExtractUndoesAppend(masked, v);
      assert !StartsEmpty(masked);
    } else {
      var sealed := MapText(value, s => c.encrypt(settings, v, bits, s));
      MappedBack(value, s => c.encrypt(settings, v, bits, s), s => c.decrypt(settings, v, s));
      ExtractUndoesAppend(sealed, v);
      assert !StartsEmpty(sealed);
    }
  }

  // Masking is injective for fixed settings and version, because unmasking undoes it.
  lemma MaskedEqualIff(c: Crypto, settings: string, version: string, a: string, b: string)
    requires Lawful(c) && VersionTag(version) && a != "" && b != ""
    ensures MaskWith(c, settings, version, One(a)) == MaskWith(c, settings, version, One(b)) <==> a == b
  {
    SplitPrefixed(c.mask(settings, version, a), version);
    SplitPrefixed(c.mask(settings, version, b), version);
    assert c.unmask(settings, version, c.mask(settings, version, a)) == a;
    assert c.unmask(settings, version, c.mask(settings, version, b)) == b;
  }
}
