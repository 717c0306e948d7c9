// Protecting a whole document on its way into the database, and revealing it again when it is
// serialized: the setter and the getter of every protected path, run by the shallow path transform.

module DataPolicies {
  import opened Prelude
  import opened JsTree
  import opened PathTransform
  import opened PathOrder
  import opened PathInverse
  import opened ShallowTransform
  import P = Protection

  // What the primitives make of values that are neither strings nor arrays of strings. They hand masking
  // and encryption errors back as the input, but a hash of such a value can be refused.
  datatype Oddities = Oddities(
    store: (Node, Path) -> Node,
    read: (Node, Path) -> Node,
    hash: (Node, Path) -> Option<Node>,
    version: Node -> string)

  // The settings of every protected path, and the random bits that protecting a value there draws.
  datatype Policy = Policy(
    crypto: P.Crypto,
    protection: Path -> P.DataProtection,
    bits: (Path, P.Text) -> nat,
    odd: Oddities,
    excludeHashedFields: bool)

  // ----- texts in documents -----------------------------------------------------------------

  function Indices(n: nat): set<Key> {
    set i | 0 <= i < n :: Index(i)
  }

  function FromText(t: P.Text): Node {
    match t
    case One(s) => Prim(StringOf(s))
    case Many(ss) => Container(Array, |ss|, map k | k in Indices(|ss|) :: Prim(StringOf(ss[k.n])))
  }

  predicate IsString(v: Node) {
    v.Prim? && v.value.StringOf?
  }

  predicate IsStringArray(v: Node) {
    && v.Container? && v.kind == Array
    && (forall i | 0 <= i < v.length :: Index(i) in v.fields && IsString(v.fields[Index(i)]))
    && forall k | k in v.fields :: k.Index? && k.n < v.length
  }

  function ReadText(v: Node): Option<P.Text> {
    if IsString(v) then Some(P.One(v.value.s))
    else if IsStringArray(v) then Some(P.Many(seq(v.length, i requires 0 <= i < v.length => v.fields[Index(i)].value.s)))
    else None
  }

  lemma ReadFromText(t: P.Text)
    ensures ReadText(FromText(t)) == Some(t)
  {
    if t.Many? {
      var v := FromText(t);
      forall i | 0 <= i < v.length ensures Index(i) in v.fields && v.fields[Index(i)] == Prim(StringOf(t.texts[i])) {
      }
      assert IsStringArray(v);
      assert ReadText(v).value.texts == t.texts;
    }
  }

  lemma FromReadText(v: Node)
    ensures ReadText(v).Some? ==> FromText(ReadText(v).value) == v
  {
    if IsStringArray(v) {
      var ss := ReadText(v).value.texts;
      var fields := FromText(P.Many(ss)).fields;
      forall k ensures k in fields <==> k in v.fields {
        if k in v.fields {
          assert k == Index(k.n) && 0 <= k.n < |ss|;
        }
      }
      forall i | 0 <= i < v.length ensures fields[Index(i)] == v.fields[Index(i)] {
        assert fields[Index(i)] == Prim(StringOf(ss[i]));
      }
      assert fields == v.fields;
    }
  }

  // ----- the two transforms -----------------------------------------------------------------

  predicate Deferred(p: P.DataProtection, version: string) {
    P.ConfigFor(p, version).Some? && P.ConfigFor(p, version).value.strategy != P.Mask
  }

  function Answer(later: bool, result: Node): Reply {
    if later then Later(result) else Now(result)
  }

  predicate IsArray(v: Node) {
    v.Container? && v.kind == Array
  }

  // `!input[0]` on anything that is not a text.
  predicate NothingFirst(v: Node) {
    !v.Container? || v.kind == MapObject || Index(0) !in v.fields || Falsy(v.fields[Index(0)])
  }

  // dataProtectionSetterDefinition as a transform: masking answers at once, hashing and encrypting
  // with a promise. A falsy value is not stored; without a configuration nothing is.
  function ProtectAt(s: Policy, v: Node, path: Path): Reply {
    var p := s.protection(path);
    if Falsy(v) then Now(Undefined)
    else
      match ReadText(v)
      case None => ProtectOdd(s, v, path)
      case Some(t) =>
        match P.Setter(s.crypto, p, s.bits(path, t), t)
        case Success(Some(stored)) => Answer(Deferred(p, p.activeVersion), FromText(stored))
        case Success(None) => Now(Undefined)
        case Failure(_) => Fails
  }

  function ProtectOdd(s: Policy, v: Node, path: Path): Reply {
    match P.ConfigFor(s.protection(path), s.protection(path).activeVersion)
    case None => Fails
    case Some(Config(Mask, _)) => Now(if NothingFirst(v) then v else s.odd.store(v, path))
    case Some(Config(Encrypt, _)) => Later(if NothingFirst(v) then v else s.odd.store(v, path))
    case Some(Config(Hash, _)) => if s.odd.hash(v, path).Some? then Later(s.odd.hash(v, path).value) else Fails
  }

  // A value that `extractVersion` finds no `indexOf` on, neither its own nor its first element's.
  predicate Unreadable(v: Node) {
    !Falsy(v) && !IsString(v) && !(IsArray(v) && (v.length == 0 || ReadableFirst(v)))
  }

  predicate ReadableFirst(v: Node) {
    v.Container? && Index(0) in v.fields && (IsString(v.fields[Index(0)]) || IsArray(v.fields[Index(0)]))
  }

  // The transform of transformByDataProtection. What is neither unmasked nor decrypted falls through to
  // `undefined`, the hash of a string to null when hashed fields are excluded. An array of hashes
  // carries `verify` on its elements and not on itself, so it falls through as well.
  function RevealAt(s: Policy, v: Node, path: Path): Reply {
    var p := s.protection(path);
    if Falsy(v) || (IsArray(v) && v.length == 0) then Now(v)
    else if Unreadable(v) then Fails
    else
      match ReadText(v)
      case None => RevealOdd(s, v, path)
      case Some(t) =>
        match P.Getter(s.crypto, p, t)
        case Nothing => Now(v)
        case Revealed(plain) => Answer(Deferred(p, P.ExtractVersion(t).0), FromText(plain))
        case Verifiable(hash) => Now(if hash.One? && s.excludeHashedFields then Null else Undefined)
        case AsStored(_) => Now(Undefined)
  }

  function RevealOdd(s: Policy, v: Node, path: Path): Reply {
    match P.ConfigFor(s.protection(path), s.odd.version(v))
    case None => Now(Undefined)
    case Some(Config(Mask, _)) => Now(s.odd.read(v, path))
    case Some(Config(Encrypt, _)) => Later(s.odd.read(v, path))
    case Some(Config(Hash, _)) => Now(Undefined)
  }

  function Protecting(s: Policy): Transform {
    (v, path) => ProtectAt(s, v, path)
  }

  function Revealing(s: Policy): Transform {
    (v, path) => RevealAt(s, v, path)
  }

  function Protected(s: Policy, v: Node, paths: seq<Path>): Node {
    ApplyAll(v, SettledTasks(Protecting(s), paths))
  }

  function Revealed(s: Policy, v: Node, paths: seq<Path>): Node {
    ApplyAll(v, SettledTasks(Revealing(s), paths))
  }

  // ----- one value --------------------------------------------------------------------------

  // Protected values can be reversed, and what is served reads the version they were stored under as
  // they were stored, whatever version is active by then.
  ghost predicate Serves(saved: Policy, now: Policy, paths: seq<Path>) {
    P.Lawful(saved.crypto) && now.crypto == saved.crypto &&
    forall path | path in paths ::
      var p, q := saved.protection(path), now.protection(path);
      && P.VersionTag(p.activeVersion) && P.ConfigFor(p, p.activeVersion).Some?
      && P.ConfigFor(p, p.activeVersion).value.strategy in {P.Mask, P.Encrypt}
      && P.ConfigFor(q, p.activeVersion) == P.ConfigFor(p, p.activeVersion)
  }

  // A string, or an array of strings, that starts with something.
  ghost predicate Filled(v: Node) {
    ReadText(v).Some? && !P.StartsEmpty(ReadText(v).value)
  }

  // An array that is empty is neither protected nor reversed. One that starts with "" is stored as it is,
  // without a version, and is read as one of version v0.
  ghost predicate Survives(now: Policy, v: Node, path: Path) {
    || Filled(v)
    || (ReadText(v).Some? && ReadText(v).value.Many? && (ReadText(v).value.texts == [] || UnversionedReads(now.protection(path))))
  }

  predicate UnversionedReads(p: P.DataProtection) {
    P.ConfigFor(p, "v0").Some? && P.ConfigFor(p, "v0").value.strategy != P.Hash
  }

  lemma NeverFalsy(t: P.Text)
    ensures !FromText(t).Undefined? && (t != P.One("") ==> !Falsy(FromText(t)))
  {
  }

  lemma RevealedIsFull(c: P.Crypto, p: P.DataProtection, stored: P.Text)
    ensures P.Getter(c, p, stored).Revealed? ==> stored != P.One("")
  {
  }

  lemma FilledServedBack(saved: Policy, now: Policy, paths: seq<Path>, v: Node, path: Path)
    requires Serves(saved, now, paths) && path in paths && Filled(v)
    ensures var stored := FinalEffect(ProtectAt(saved, v, path));
            stored.Put? && FinalEffect(RevealAt(now, stored.value, path)) == Put(v)
  {
    hide P.Setter, P.Getter, P.Lawful, P.ConfigFor, P.ExtractVersion, Deferred, ReadText, FromText, IsString;
    var t := ReadText(v).value;
    var p, q := saved.protection(path), now.protection(path);
    P.RoundTrip(saved.crypto, p, q, saved.bits(path, t), t);
    var stored := P.Setter(saved.crypto, p, saved.bits(path, t), t).value.value;
    ReadFromText(stored);
    FromReadText(v);
    NeverFalsy(t);
    RevealedIsFull(saved.crypto, q, stored);
    NeverFalsy(stored);
    TextIsReadable(FromText(stored));
  }

  lemma TextIsReadable(v: Node)
    ensures ReadText(v).Some? ==> !Unreadable(v) && (IsArray(v) && v.length == 0 ==> ReadText(v) == Some(P.Many([])))
  {
    if ReadText(v).Some? && IsArray(v) && v.length == 0 {
      assert ReadText(v).value.texts == [];
    }
  }

  lemma EmptyServedBack(saved: Policy, now: Policy, paths: seq<Path>, v: Node, path: Path)
    requires Serves(saved, now, paths) && path in paths && ReadText(v) == Some(P.Many([]))
    ensures var stored := FinalEffect(ProtectAt(saved, v, path));
            stored == Put(v) && FinalEffect(RevealAt(now, v, path)) == Put(v)
  {
    FromReadText(v);
    TextIsReadable(v);
    NeverFalsy(P.Many([]));
    hide FromText, P.Lawful;
    ArrayLength(v);
  }

  lemma ArrayLength(v: Node)
    requires ReadText(v).Some? && ReadText(v).value.Many?
    ensures IsArray(v) && v.length == |ReadText(v).value.texts|
  {
  }

  // An array that starts with "": stored as it is, and read back when version v0 can be reversed.
  lemma UnversionedIs(saved: Policy, now: Policy, paths: seq<Path>, v: Node, path: Path)
    requires Serves(saved, now, paths) && path in paths
    requires ReadText(v).Some? && ReadText(v).value.Many? && ReadText(v).value.texts != [] && ReadText(v).value.texts[0] == ""
    ensures FinalEffect(ProtectAt(saved, v, path)) == Put(v)
    ensures FinalEffect(RevealAt(now, v, path)) == if UnversionedReads(now.protection(path)) then Put(v) else Drop
  {
    var t := ReadText(v).value;
    FromReadText(v);
    TextIsReadable(v);
    NeverFalsy(t);
    ArrayLength(v);
    assert P.SplitVersion("") == ("v0", "");
    assert P.ExtractVersion(t) == ("v0", t) by {
      assert t.texts[0 := ""] == t.texts;
    }
    hide FromText, ReadText, P.Lawful, P.ExtractVersion, P.ConfigFor;
  }

  // A text, saved and served, comes back exactly when it survives; otherwise it is deleted when it is
  // saved, or when it is served.
  lemma TextServedBackIff(saved: Policy, now: Policy, paths: seq<Path>, v: Node, path: Path)
    requires Serves(saved, now, paths) && path in paths && ReadText(v).Some?
    ensures var stored := FinalEffect(ProtectAt(saved, v, path));
            if Survives(now, v, path) then stored.Put? && FinalEffect(RevealAt(now, stored.value, path)) == Put(v)
            else Falsy(v) || (stored == Put(v) && FinalEffect(RevealAt(now, v, path)) == Drop)
  {
    hide Serves, ProtectAt, RevealAt, UnversionedReads;
    var t := ReadText(v).value;
    if Filled(v) {
      FilledServedBack(saved, now, paths, v, path);
    } else if t == P.Many([]) {
      EmptyServedBack(saved, now, paths, v, path);
    } else if t.Many? {
      UnversionedIs(saved, now, paths, v, path);
    }
  }

  // The two transforms on a text.
  lemma ProtectText(s: Policy, v: Node, path: Path, t: P.Text)
    requires ReadText(v) == Some(t) && t != P.One("")
    ensures !Falsy(v)
    ensures var p := s.protection(path);
            ProtectAt(s, v, path) ==
              match P.Setter(s.crypto, p, s.bits(path, t), t)
              case Success(Some(stored)) => Answer(Deferred(p, p.activeVersion), FromText(stored))
              case Success(None) => Now(Undefined)
              case Failure(_) => Fails
  {
    FromReadText(v);
    NeverFalsy(t);
    hide ReadText, FromText, P.Setter, Deferred;
  }

  lemma RevealText(s: Policy, v: Node, path: Path, t: P.Text)
    requires ReadText(v) == Some(t) && t != P.One("") && t != P.Many([])
    ensures !Falsy(v)
    ensures var p := s.protection(path);
            RevealAt(s, v, path) ==
              match P.Getter(s.crypto, p, t)
              case Nothing => Now(v)
              case Revealed(plain) => Answer(Deferred(p, P.ExtractVersion(t).0), FromText(plain))
              case Verifiable(hash) => Now(if hash.One? && s.excludeHashedFields then Null else Undefined)
              case AsStored(_) => Now(Undefined)
  {
    FromReadText(v);
    NeverFalsy(t);
    TextIsReadable(v);
    hide ReadText, FromText, P.Getter, P.ExtractVersion, Deferred, IsArray, Unreadable;
  }

  // Masking and unmasking answer at once; hashing, encrypting and decrypting with a promise.
  lemma StoredLaterIff(s: Policy, v: Node, path: Path, t: P.Text, config: P.Config)
    requires ReadText(v) == Some(t) && t != P.One("")
    requires P.Resolved(s.protection(path), s.protection(path).activeVersion, Some(config))
    ensures ProtectAt(s, v, path).Later? <==> config.strategy == P.Hash || config.strategy == P.Encrypt
  {
    hide ReadText, FromText, ProtectAt, P.Resolved;
    ProtectText(s, v, path, t);
    P.ResolvedIs(s.protection(path), s.protection(path).activeVersion, Some(config));
  }

  lemma ServedLaterIff(s: Policy, v: Node, path: Path, t: P.Text, version: string, rest: string, config: P.Config)
    requires ReadText(v) == Some(t) && t != P.One("") && t != P.Many([])
    requires P.Versioned(P.Parts(t)[0], version, rest) && P.Resolved(s.protection(path), version, Some(config))
    ensures RevealAt(s, v, path).Later? <==> config.strategy == P.Encrypt
  {
    hide ReadText, FromText, RevealAt, P.Resolved, P.Versioned, P.SplitVersion;
    RevealText(s, v, path, t);
    P.VersionedIs(P.Parts(t)[0], version, rest);
    P.ResolvedIs(s.protection(path), version, Some(config));
  }

  // ----- the whole document -----------------------------------------------------------------

  // The places of a document that a protected path reaches.
  ghost predicate Reached(v: Node, paths: seq<Path>, m: Loc) {
    exists i | 0 <= i < |paths| :: HitAt(v, paths[i], m)
  }

  // No null stands on the way of a protected path.
  ghost predicate NullFree(v: Node, paths: seq<Path>) {
    forall i, loc | 0 <= i < |paths| :: !BentAt(v, paths[i], loc)
  }

  lemma TasksNullFree(v: Node, paths: seq<Path>, t: Transform)
    requires NullFree(v, paths)
    ensures NoneBent(v, SettledTasks(t, paths))
  {
    hide BentAt;
  }

  // Every value that a protected path reaches survives.
  ghost predicate AllSurvive(now: Policy, v: Node, paths: seq<Path>) {
    forall i, m | 0 <= i < |paths| && HitAt(v, paths[i], m) :: Survives(now, Get(v, m), paths[i])
  }

  lemma BackAgain(saved: Policy, now: Policy, v: Node, paths: seq<Path>)
    requires Serves(saved, now, paths) && AllSurvive(now, v, paths)
    ensures TakesBack(v, SettledTasks(Protecting(saved), paths), SettledTasks(Revealing(now), paths))
  {
    var tasks, undo := SettledTasks(Protecting(saved), paths), SettledTasks(Revealing(now), paths);
    hide Serves, ProtectAt, RevealAt, Fits;
    forall i, m | 0 <= i < |tasks| && HitAt(v, tasks[i].path, m)
      ensures var put := tasks[i].effect(Get(v, m)); put.Put? && undo[i].effect(put.value) == Put(Get(v, m))
    {
      var value, path := Get(v, m), paths[i];
      assert Survives(now, value, path);
      TextServedBackIff(saved, now, paths, value, path);
      assert tasks[i].effect(value) == FinalEffect(ProtectAt(saved, value, path));
      var stored := FinalEffect(ProtectAt(saved, value, path)).value;
      assert undo[i].effect(stored) == FinalEffect(RevealAt(now, stored, path));
    }
  }

  // A document whose protected fields survive, with no null on the way to them, is served exactly as it
  // was before it was saved, all its other places included.
  lemma SavedThenServed(saved: Policy, now: Policy, v: Node, paths: seq<Path>)
    requires Serves(saved, now, paths) && Separate(paths) && NullFree(v, paths) && AllSurvive(now, v, paths)
    ensures Revealed(now, Protected(saved, v, paths), paths) == v
  {
    hide Serves, AllSurvive, Separate, NullFree;
    TasksApart(paths, Protecting(saved));
    TasksNullFree(v, paths, Protecting(saved));
    BackAgain(saved, now, v, paths);
    Restores(v, SettledTasks(Protecting(saved), paths), SettledTasks(Revealing(now), paths));
  }

  // ----- what is lost -----------------------------------------------------------------------

  // What is left at a hit.
  lemma {:induction false} ResultSeen(v: Node, paths: seq<Path>, t: Transform, i: nat, m: Loc)
    requires Separate(paths) && i < |paths| && HitAt(v, paths[i], m)
    ensures View(ApplyAll(v, SettledTasks(t, paths)), m) == After(FinalEffect(t(Get(v, m), paths[i])), [], View(v, m))
    ensures FinalEffect(t(Get(v, m), paths[i])) == Put(Null) ==> View(ApplyAll(v, SettledTasks(t, paths)), m) == SeenNull
  {
    var tasks := SettledTasks(t, paths);
    TasksApart(paths, t);
    assert m[..|m|] == m && m[|m|..] == [];
    assert tasks[i] in tasks && HitOn(v, tasks[i].path, m);
    ApplyAllSeen(v, tasks, m);
    assert tasks[i].effect(Get(v, m)) == FinalEffect(t(Get(v, m), paths[i]));
  }

  // Where string k of a text at m stands.
  function PartAt(t: P.Text, m: Loc, k: nat): Loc {
    if t.One? then m else m + [Index(k)]
  }

  lemma TextShows(t: P.Text, k: nat)
    requires k < |P.Parts(t)|
    ensures View(FromText(t), PartAt(t, [], k)) == SeenPrimitive(StringOf(P.Parts(t)[k]))
    ensures t.Many? ==> View(FromText(t), []) == SeenContainer(Array, |t.texts|)
  {
    var v := FromText(t);
    if t.Many? {
      assert Index(k) in v.fields && v.fields[Index(k)] == Prim(StringOf(t.texts[k]));
      assert [] + [Index(k)] == [Index(k)];
      ViewHead(v, [Index(k)]);
    }
  }

  // A text put at a hit is to be seen there, string by string.
  lemma {:induction false} PutShows(v: Node, paths: seq<Path>, t: Transform, i: nat, m: Loc, x: P.Text, k: nat)
    requires Separate(paths) && i < |paths| && HitAt(v, paths[i], m) && k < |P.Parts(x)|
    requires FinalEffect(t(Get(v, m), paths[i])) == Put(FromText(x))
    ensures View(ApplyAll(v, SettledTasks(t, paths)), PartAt(x, m, k)) == SeenPrimitive(StringOf(P.Parts(x)[k]))
    ensures x.Many? ==> View(ApplyAll(v, SettledTasks(t, paths)), m) == SeenContainer(Array, |x.texts|)
  {
    hide ApplyAll, FromText, View, Fits;
    var tasks := SettledTasks(t, paths);
    TasksApart(paths, t);
    assert tasks[i].effect(Get(v, m)) == Put(FromText(x));
    HitShows(v, tasks, i, m, PartAt(x, [], k));
    HitShows(v, tasks, i, m, []);
    assert m + [] == m && [] + [Index(k)] == [Index(k)];
    TextShows(x, k);
  }

  // What the database holds of a protected string, or of string k of an array of them: its hash; or,
  // masked or encrypted, with the version before the first one. What starts with "" is stored as it is,
  // unless it is hashed.
  lemma {:induction false} ProtectedIsStored(s: Policy, v: Node, paths: seq<Path>, i: nat, m: Loc, t: P.Text, config: P.Config, k: nat)
    requires Separate(paths) && i < |paths| && HitAt(v, paths[i], m) && ReadText(Get(v, m)) == Some(t) && t != P.One("")
    requires var p := s.protection(paths[i]); P.VersionTag(p.activeVersion) && P.Resolved(p, p.activeVersion, Some(config))
    requires k < |P.Parts(t)|
    ensures var c, part, bits := s.crypto, P.Parts(t)[k], s.bits(paths[i], t);
            var version := s.protection(paths[i]).activeVersion;
            var prefix := if k == 0 then version + ":" else "";
            View(Protected(s, v, paths), PartAt(t, m, k)) ==
              SeenPrimitive(StringOf(
                match config.strategy
                case Hash => c.hash(config.settings, bits, part)
                case Mask => if P.Parts(t)[0] == "" then part else prefix + c.mask(config.settings, version, part)
                case Encrypt => if P.Parts(t)[0] == "" then part else prefix + c.encrypt(config.settings, version, bits, part)))
    ensures t.Many? ==> View(Protected(s, v, paths), m) == SeenContainer(Array, |t.texts|)
  {
    hide P.Setter, P.Resolved, ReadText, FromText, Separate, Fits, P.VersionTag, ProtectAt, ApplyAll, View;
    var p, bits := s.protection(paths[i]), s.bits(paths[i], t);
    P.StoredIs(s.crypto, p, bits, t, config);
    ProtectText(s, Get(v, m), paths[i], t);
    var stored := P.Setter(s.crypto, p, bits, t).value.value;
    NeverFalsy(stored);
    PutShows(v, paths, Protecting(s), i, m, stored, k);
    assert PartAt(stored, m, k) == PartAt(t, m, k);
  }

  // What is served of a stored text whose first string says that version: each string unmasked or
  // decrypted; of a hash null or nothing; nothing where the version has no configuration.
  lemma {:induction false} StoredIsServed(s: Policy, v: Node, paths: seq<Path>, i: nat, m: Loc, t: P.Text, version: string, rest: string,
                       config: Option<P.Config>, k: nat)
    requires Separate(paths) && i < |paths| && HitAt(v, paths[i], m) && ReadText(Get(v, m)) == Some(t)
    requires t != P.One("") && k < |P.Parts(t)|
    requires P.Versioned(P.Parts(t)[0], version, rest) && P.Resolved(s.protection(paths[i]), version, config)
    ensures var part := if k == 0 then rest else P.Parts(t)[k];
            var served := Revealed(s, v, paths);
            match config
            case None => View(served, m) == Absent
            case Some(Config(Hash, _)) => View(served, m) == if s.excludeHashedFields && t.One? then SeenNull else Absent
            case Some(Config(Mask, settings)) =>
              View(served, PartAt(t, m, k)) == SeenPrimitive(StringOf(if rest == "" then part else s.crypto.unmask(settings, version, part)))
            case Some(Config(Encrypt, settings)) =>
              View(served, PartAt(t, m, k)) == SeenPrimitive(StringOf(if rest == "" then part else s.crypto.decrypt(settings, version, part)))
  {
    hide P.Getter, P.Resolved, P.Versioned, ReadText, FromText, Separate, Fits, RevealAt, ApplyAll, View;
    var p, value := s.protection(paths[i]), Get(v, m);
    P.ReadIs(s.crypto, p, t, version, rest, config);
    RevealText(s, value, paths[i], t);
    ResultSeen(v, paths, Revealing(s), i, m);
    var read := P.Getter(s.crypto, p, t);
    if read.Revealed? {
      NeverFalsy(read.value);
      PutShows(v, paths, Revealing(s), i, m, read.value, k);
      assert PartAt(read.value, m, k) == PartAt(t, m, k);
    }
  }

  // So a field that only a hash is stored of is never served: the property is deleted, but for a string
  // with `excludeHashedFields`, where it is null.
  lemma {:induction false} HashedNeverServed(s: Policy, v: Node, paths: seq<Path>, i: nat, m: Loc, t: P.Text, version: string, rest: string, config: P.Config)
    requires Separate(paths) && i < |paths| && HitAt(v, paths[i], m) && ReadText(Get(v, m)) == Some(t)
    requires t != P.One("") && t != P.Many([])
    requires P.Versioned(P.Parts(t)[0], version, rest) && P.Resolved(s.protection(paths[i]), version, Some(config))
    requires config.strategy == P.Hash
    ensures View(Revealed(s, v, paths), m) == if s.excludeHashedFields && IsString(Get(v, m)) then SeenNull else Absent
  {
    hide Separate, Fits, P.Versioned, P.Resolved;
    StoredIsServed(s, v, paths, i, m, t, version, rest, Some(config), 0);
  }

  // And a value stored under a version that has no configuration is deleted from what is served.
  lemma {:induction false} UnconfiguredDeleted(s: Policy, v: Node, paths: seq<Path>, i: nat, m: Loc, t: P.Text, version: string, rest: string)
    requires Separate(paths) && i < |paths| && HitAt(v, paths[i], m) && ReadText(Get(v, m)) == Some(t)
    requires t != P.One("") && t != P.Many([])
    requires P.Versioned(P.Parts(t)[0], version, rest) && P.Resolved(s.protection(paths[i]), version, None)
    ensures View(Revealed(s, v, paths), m) == Absent
  {
    hide Separate, Fits, P.Versioned, P.Resolved;
    StoredIsServed(s, v, paths, i, m, t, version, rest, None, 0);
  }

  // What there is to be seen of a value put at a hit, and below it.
  lemma {:induction false} PutSeen(v: Node, paths: seq<Path>, t: Transform, i: nat, m: Loc, rest: Loc)
    requires Separate(paths) && i < |paths| && HitAt(v, paths[i], m)
    requires FinalEffect(t(Get(v, m), paths[i])).Put?
    ensures View(ApplyAll(v, SettledTasks(t, paths)), m + rest) == View(FinalEffect(t(Get(v, m), paths[i])).value, rest)
  {
    hide ApplyAll, View, Fits;
    var tasks := SettledTasks(t, paths);
    TasksApart(paths, t);
    assert tasks[i].effect(Get(v, m)) == FinalEffect(t(Get(v, m), paths[i]));
    HitShows(v, tasks, i, m, rest);
  }

  // What is to be seen at a place has nothing for its first element.
  ghost predicate Headless(v: Node, m: Loc) {
    match View(v, m)
    case SeenContainer(kind, _) => kind == MapObject || View(v, m + [Index(0)]) == Absent || NothingAt(v, m + [Index(0)])
    case _ => true
  }

  lemma {:induction false} HeadlessIs(v: Node, m: Loc)
    requires Has(v, m)
    ensures NothingFirst(Get(v, m)) <==> Headless(v, m)
  {
    HasAppend(v, m, [Index(0)]);
    ViewHead(Get(v, m), [Index(0)]);
    assert [Index(0)][1..] == [];
  }

  // What the database holds where a value is neither a string nor an array of strings: the hash of it; or
  // what masking and encrypting make of it, which is the value itself when it has no first element.
  lemma {:induction false} OddIsStored(s: Policy, v: Node, paths: seq<Path>, i: nat, m: Loc, config: P.Config, rest: Loc)
    requires Separate(paths) && i < |paths| && HitAt(v, paths[i], m) && ReadText(Get(v, m)).None? && !NothingAt(v, m)
    requires var p := s.protection(paths[i]); P.Resolved(p, p.activeVersion, Some(config))
    ensures ProtectAt(s, Get(v, m), paths[i]).Now? <==> config.strategy == P.Mask
    ensures var x := Get(v, m);
            var stored := if config.strategy == P.Hash then s.odd.hash(x, paths[i])
                          else if Headless(v, m) then Some(x) else Some(s.odd.store(x, paths[i]));
            stored.Some? && stored.value != Undefined ==> View(Protected(s, v, paths), m + rest) == View(stored.value, rest)
  {
    hide Separate, Fits, View, ApplyAll, ReadText, P.Resolved, P.ConfigFor, NothingFirst, Headless, NothingAt;
    P.ResolvedIs(s.protection(paths[i]), s.protection(paths[i]).activeVersion, Some(config));
    HeadlessIs(v, m);
    FalsyIs(v, m);
    assert config == P.Config.Config(config.strategy, config.settings);
    if FinalEffect(ProtectAt(s, Get(v, m), paths[i])).Put? {
      PutSeen(v, paths, Protecting(s), i, m, rest);
    }
  }

  lemma {:induction false} FalsyIs(v: Node, m: Loc)
    requires Has(v, m)
    ensures Falsy(Get(v, m)) <==> NothingAt(v, m)
  {
  }

  // What is served of such a value, by the version that is read off it: what unmasking and decrypting
  // make of it, nothing of a hash or without a configuration.
  lemma {:induction false} OddIsServed(s: Policy, v: Node, paths: seq<Path>, i: nat, m: Loc, config: Option<P.Config>, rest: Loc)
    requires Separate(paths) && i < |paths| && HitAt(v, paths[i], m) && ReadText(Get(v, m)).None?
    requires !NothingAt(v, m) && View(v, m) != SeenContainer(Array, 0) && !VersionlessAt(v, m)
    requires P.Resolved(s.protection(paths[i]), s.odd.version(Get(v, m)), config)
    ensures RevealAt(s, Get(v, m), paths[i]).Later? <==> config.Some? && config.value.strategy == P.Encrypt
    ensures var read := s.odd.read(Get(v, m), paths[i]);
            if config.None? || config.value.strategy == P.Hash || read == Undefined then View(Revealed(s, v, paths), m) == Absent
            else View(Revealed(s, v, paths), m + rest) == View(read, rest)
  {
    hide Separate, Fits, ApplyAll, ReadText, P.Resolved, P.ConfigFor, Unreadable, VersionlessAt, NothingAt;
    P.ResolvedIs(s.protection(paths[i]), s.odd.version(Get(v, m)), config);
    UnreadableIs(v, m);
    FalsyIs(v, m);
    assert config.Some? ==> config.value == P.Config.Config(config.value.strategy, config.value.settings);
    if FinalEffect(RevealAt(s, Get(v, m), paths[i])).Put? {
      PutSeen(v, paths, Revealing(s), i, m, rest);
    } else {
      ResultSeen(v, paths, Revealing(s), i, m);
    }
  }

  // Where nothing is stored, or an empty array, that is what is served; `undefined` is deleted.
  lemma EmptyIsServed(s: Policy, v: Node, paths: seq<Path>, i: nat, m: Loc, rest: Loc)
    requires Separate(paths) && i < |paths| && HitAt(v, paths[i], m)
    requires NothingAt(v, m) || View(v, m) == SeenContainer(Array, 0)
    ensures if View(v, m) == SeenUndefined then View(Revealed(s, v, paths), m) == Absent
            else View(Revealed(s, v, paths), m + rest) == View(v, m + rest)
  {
    hide Separate, Fits, ApplyAll, Unreadable, ReadText, RevealOdd;
    if Get(v, m) == Undefined {
      ResultSeen(v, paths, Revealing(s), i, m);
    } else {
      PutSeen(v, paths, Revealing(s), i, m, rest);
      HasAppend(v, m, rest);
    }
  }

  lemma {:induction false} FalsyIsLost(saved: Policy, now: Policy, v: Node, paths: seq<Path>, i: nat, m: Loc)
    requires Separate(paths) && i < |paths| && HitAt(v, paths[i], m) && Falsy(Get(v, m))
    ensures View(Revealed(now, Protected(saved, v, paths), paths), m) == Absent
  {
    hide Separate, ApplyAll, AllApart;
    ResultSeen(v, paths, Protecting(saved), i, m);
    TasksApart(paths, Revealing(now));
    AbsentMissed(Protected(saved, v, paths), SettledTasks(Revealing(now), paths), i, m);
  }

  lemma NullNotServed(saved: Policy, now: Policy, v: Node, paths: seq<Path>, i: nat, loc: Loc)
    requires Separate(paths) && i < |paths| && BentAt(v, paths[i], loc)
    ensures Revealed(now, Protected(saved, v, paths), paths) != v
  {
    hide Separate, BentAt;
    TasksApart(paths, Protecting(saved));
    NullIsLost(v, SettledTasks(Protecting(saved), paths), SettledTasks(Revealing(now), paths), i, loc);
  }

  // What is stored as it was and deleted when it is served.
  lemma {:induction false} DroppedIsLost(saved: Policy, now: Policy, v: Node, paths: seq<Path>, i: nat, m: Loc)
    requires Separate(paths) && i < |paths| && HitAt(v, paths[i], m)
    requires FinalEffect(ProtectAt(saved, Get(v, m), paths[i])) == Put(Get(v, m))
    requires FinalEffect(RevealAt(now, Get(v, m), paths[i])) == Drop
    ensures View(Revealed(now, Protected(saved, v, paths), paths), m) == Absent
  {
    hide Separate, ApplyAll, AllApart, ProtectAt, RevealAt, Fits;
    var tasks := SettledTasks(Protecting(saved), paths);
    TasksApart(paths, Protecting(saved));
    assert tasks[i].effect(Get(v, m)) == FinalEffect(ProtectAt(saved, Get(v, m), paths[i]));
    HitHolds(v, tasks, i, m);
    ResultSeen(Protected(saved, v, paths), paths, Revealing(now), i, m);
  }

  // Of a document whose protected fields hold strings, arrays of strings or falsy values, saving and
  // serving gives the same document back if and only if every one of them survives and no null stands
  // on the way to one.
  lemma {:induction false} ServedBackIff(saved: Policy, now: Policy, v: Node, paths: seq<Path>)
    requires Serves(saved, now, paths) && Separate(paths)
    requires forall m | Reached(v, paths, m) :: ReadText(Get(v, m)).Some? || Falsy(Get(v, m))
    ensures Revealed(now, Protected(saved, v, paths), paths) == v <==> AllSurvive(now, v, paths) && NullFree(v, paths)
  {
    hide Serves, Separate, Protected, Revealed, BentAt, Fits, Survives, ProtectAt, RevealAt;
    if !NullFree(v, paths) {
      var i, loc :| 0 <= i < |paths| && BentAt(v, paths[i], loc);
      NullNotServed(saved, now, v, paths, i, loc);
    } else if AllSurvive(now, v, paths) {
      SavedThenServed(saved, now, v, paths);
    } else {
      var i, m :| 0 <= i < |paths| && HitAt(v, paths[i], m) && !Survives(now, Get(v, m), paths[i]);
      NotSurviving(saved, now, v, paths, i, m);
    }
  }

  lemma {:induction false} NotSurviving(saved: Policy, now: Policy, v: Node, paths: seq<Path>, i: nat, m: Loc)
    requires Serves(saved, now, paths) && Separate(paths) && i < |paths| && HitAt(v, paths[i], m)
    requires ReadText(Get(v, m)).Some? || Falsy(Get(v, m))
    requires !Survives(now, Get(v, m), paths[i])
    ensures Revealed(now, Protected(saved, v, paths), paths) != v
  {
    hide Serves, Separate, Protected, Revealed, Survives, ProtectAt, RevealAt, ReadText;
    if Falsy(Get(v, m)) {
      FalsyIsLost(saved, now, v, paths, i, m);
    } else {
      TextServedBackIff(saved, now, paths, Get(v, m), paths[i]);
      DroppedIsLost(saved, now, v, paths, i, m);
    }
  }

  // ----- transformByDataProtection ----------------------------------------------------------

  // Some path meets a truthy primitive where it looks up a property.
  ghost predicate Blocked(v: Node, paths: seq<Path>) {
    exists n :: 0 <= n < |paths| && Throws(v, paths[n])
  }

  // No configuration to store the value under, or a hash of it is refused.
  predicate Unprotectable(s: Policy, v: Node, path: Path) {
    var config := P.ConfigFor(s.protection(path), s.protection(path).activeVersion);
    !Falsy(v) &&
    (config.None? || (config.value.strategy == P.Hash && ReadText(v).None? && s.odd.hash(v, path).None?))
  }

  lemma RevealFails(s: Policy, v: Node, path: Path)
    ensures RevealAt(s, v, path).Fails? <==> Unreadable(v)
  {
    TextIsReadable(v);
  }

  lemma ProtectFails(s: Policy, v: Node, path: Path)
    ensures ProtectAt(s, v, path).Fails? <==> Unprotectable(s, v, path)
  {
    hide P.ConfigFor, IsStringArray;
  }

  lemma RevealRefused(s: Policy, v: Node, path: Path)
    ensures Refused(v, path, path, Revealing(s)) <==> exists m :: HitAt(v, path, m) && VersionlessAt(v, m)
  {
    hide Fits, Unreadable, RevealAt, VersionlessAt;
    forall m | HitAt(v, path, m)
      ensures RefusedAt(v, path, path, Revealing(s), m) <==> VersionlessAt(v, m)
    {
      UnreadableIs(v, m);
      RevealFails(s, Get(v, m), path);
    }
  }

  lemma ProtectRefused(s: Policy, v: Node, path: Path)
    ensures Refused(v, path, path, Protecting(s)) <==> exists m :: HitAt(v, path, m) && UnstorableAt(s, v, path, m)
  {
    hide Fits, Unprotectable, ProtectAt, UnstorableAt;
    forall m | HitAt(v, path, m)
      ensures RefusedAt(v, path, path, Protecting(s), m) <==> UnstorableAt(s, v, path, m)
    {
      UnprotectableIs(s, v, path, m);
      ProtectFails(s, Get(v, m), path);
    }
  }

  // What is to be seen at a place has no version to read: a number that is not 0, true, an object, a map,
  // or an array that is not empty and starts with neither a string nor an array.
  ghost predicate VersionlessAt(v: Node, m: Loc) {
    match View(v, m)
    case SeenPrimitive(p) => p == BoolOf(true) || (p.NumberOf? && p != NumberOf(0))
    case SeenContainer(kind, length) =>
      || kind != Array
      || (length > 0 && !match View(v, m + [Index(0)])
                         case SeenPrimitive(p) => p.StringOf?
                         case SeenContainer(inner, _) => inner == Array
                         case _ => false)
    case _ => false
  }

  lemma {:induction false} UnreadableIs(v: Node, m: Loc)
    requires Has(v, m)
    ensures Unreadable(Get(v, m)) <==> VersionlessAt(v, m)
  {
    HasAppend(v, m, [Index(0)]);
    ViewHead(Get(v, m), [Index(0)]);
    assert [Index(0)][1..] == [];
  }

  // A protected path reaches a value that the getter cannot read.
  ghost predicate SomeUnreadable(v: Node, paths: seq<Path>) {
    exists n, m :: 0 <= n < |paths| && HitAt(v, paths[n], m) && VersionlessAt(v, m)
  }

  // What is to be seen at a place is not stored at all.
  ghost predicate NothingAt(v: Node, m: Loc) {
    View(v, m) in {SeenUndefined, SeenNull, SeenPrimitive(BoolOf(false)), SeenPrimitive(NumberOf(0)), SeenPrimitive(StringOf(""))}
  }

  // A protected path reaches a value that the setter cannot store: there is no configuration for the
  // active version, or a hash is refused of what is neither a string nor an array of strings.
  ghost predicate UnstorableAt(s: Policy, v: Node, path: Path, m: Loc)
    requires Has(v, m)
  {
    var p := s.protection(path);
    !NothingAt(v, m) &&
    (|| P.Resolved(p, p.activeVersion, None)
     || ((exists settings :: P.Resolved(p, p.activeVersion, Some(P.Config.Config(P.Hash, settings))))
         && ReadText(Get(v, m)).None? && s.odd.hash(Get(v, m), path).None?))
  }

  ghost predicate SomeUnprotectable(s: Policy, v: Node, paths: seq<Path>) {
    exists n, m :: 0 <= n < |paths| && HitAt(v, paths[n], m) && UnstorableAt(s, v, paths[n], m)
  }

  lemma {:induction false} UnprotectableIs(s: Policy, v: Node, path: Path, m: Loc)
    requires Has(v, m)
    ensures Unprotectable(s, Get(v, m), path) <==> UnstorableAt(s, v, path, m)
  {
    var p := s.protection(path);
    var config := P.ConfigFor(p, p.activeVersion);
    assert P.Resolved(p, p.activeVersion, config);
    if settings :| P.Resolved(p, p.activeVersion, Some(P.Config.Config(P.Hash, settings))) {
      P.ResolvedIs(p, p.activeVersion, Some(P.Config.Config(P.Hash, settings)));
    }
    if config.Some? && config.value.strategy == P.Hash {
      assert config == Some(P.Config.Config(P.Hash, config.value.settings));
    }
  }

  // Rewrites the document in place and waits for every promise, in whatever order they settle. It
  // throws exactly when a path is blocked or reaches a value that the getter cannot read.
  method TransformByDataProtection(s: Policy, doc: Document, paths: seq<Path>, order: seq<Write>) returns (ok: bool)
    requires doc.pending == {} && Separate(paths) && Lists(order, LateAfter(doc.root, paths, Revealing(s)))
    modifies doc
    ensures ok <==> !Blocked(old(doc.root), paths) && !SomeUnreadable(old(doc.root), paths)
    ensures ok ==> doc.pending == {} && doc.root == Revealed(s, old(doc.root), paths)
  {
    hide Separate, LateAfter, Lists, ApplyAll, Throws, Refused, Fits, VersionlessAt;
    forall n | 0 <= n < |paths| {
      RevealRefused(s, doc.root, paths[n]);
    }
    ok := doc.TransformShallowByPaths(paths, Revealing(s), order);
  }

  // One write payload on its way into the database: the same walk with the setter. It throws exactly
  // when a path is blocked or reaches a value that the setter cannot store.
  method ProtectOp(s: Policy, doc: Document, paths: seq<Path>, order: seq<Write>) returns (ok: bool)
    requires doc.pending == {} && Separate(paths) && Lists(order, LateAfter(doc.root, paths, Protecting(s)))
    modifies doc
    ensures ok <==> !Blocked(old(doc.root), paths) && !SomeUnprotectable(s, old(doc.root), paths)
    ensures ok ==> doc.pending == {} && doc.root == Protected(s, old(doc.root), paths)
  {
    hide Separate, LateAfter, Lists, ApplyAll, Throws, Refused, Fits, UnstorableAt;
    forall n | 0 <= n < |paths| {
      ProtectRefused(s, doc.root, paths[n]);
    }
    ok := doc.TransformShallowByPaths(paths, Protecting(s), order);
  }
}
