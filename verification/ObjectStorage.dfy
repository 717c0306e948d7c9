// SeaweedFSObjectStorage over a bucket: what is stored under a key, what the metadata says of it,
// and the listing in pages.

module ObjectStorageModel {
  import opened Prelude
  import opened StorageCrypto

  type Key = string

  // The object and the metadata an S3 gateway keeps with it.
  datatype Stored = Stored(body: Bytes, contentType: Option<string>, checksum: Option<string>, version: Option<Version>,
                           wrappedKey: Option<Bytes>)

  datatype StoredObject = StoredObject(key: Key, contentType: string, size: nat, checksum: string)

  datatype Found = Found(bytes: Bytes, contentType: string, checksum: string)

  datatype Metadata = Metadata(checksum: string, version: Option<Version>)

  // One connector: the primitives, the keys that are set and the resolved encryption settings.
  datatype Config = Config(prims: Primitives, env: Environment, encrypt: Option<Settings>)

  ghost predicate LawfulConfig(c: Config) {
    Lawful(c.prims, c.env)
  }

  // ----- one object -------------------------------------------------------------------------

  function Written(c: Config, plaintext: Bytes, contentType: string, random: nat): Result<Stored, CryptoError> {
    var checksum := Some(c.prims.checksum(plaintext));
    match c.encrypt
    case None => Success(Stored(plaintext, Some(contentType), checksum, None, None))
    case Some(settings) =>
      match EncryptBytes(c.prims, c.env, settings, random, plaintext)
      case Failure(e) => Failure(e)
      case Success(e) => Success(Stored(e.ciphertext, Some(contentType), checksum, Some(e.version), e.wrappedKey))
  }

  // Only an object that carries a version of its own is decrypted.
  function Plaintext(c: Config, o: Stored): Result<Bytes, CryptoError> {
    if c.encrypt.Some? && o.version.Some?
    then DecryptBytes(c.prims, c.env, c.encrypt.value, o.body, o.version, o.wrappedKey)
    else Success(o.body)
  }

  function Reading(c: Config, o: Stored): Result<Found, CryptoError> {
    match Plaintext(c, o)
    case Failure(e) => Failure(e)
    case Success(bytes) =>
      Success(Found(bytes,
                    if o.contentType.Some? then o.contentType.value else "application/octet-stream",
                    if o.checksum.Some? then o.checksum.value else c.prims.checksum(bytes)))
  }

  function MetadataOf(o: Stored): Metadata {
    Metadata(if o.checksum.Some? then o.checksum.value else "", o.version)
  }

  // The key a connector reads its own writes with is set.
  predicate ReadsItself(c: Config) {
    c.encrypt.Some? ==> Readable(c.env, c.encrypt.value.mode, ActiveVersion(c.encrypt.value))
  }

  // What is put is what is got.
  lemma PutThenGet(c: Config, plaintext: Bytes, contentType: string, random: nat)
    requires LawfulConfig(c) && ReadsItself(c) && Written(c, plaintext, contentType, random).Success?
    ensures var o := Written(c, plaintext, contentType, random).value;
            && Reading(c, o) == Success(Found(plaintext, contentType, c.prims.checksum(plaintext)))
            && MetadataOf(o).checksum == c.prims.checksum(plaintext)
            && MetadataOf(o).version == if c.encrypt.Some? then Some(ActiveVersion(c.encrypt.value)) else None
  {
    if c.encrypt.Some? {
      DecryptUndoesEncrypt(c.prims, c.env, c.encrypt.value, c.encrypt.value, random, plaintext);
    }
  }

  // What is stored under which key: the bytes themselves when encryption is off; else the bytes under the
  // key of the active version, or, with public keys, under a key of their own that is wrapped by it.
  // Nothing is stored when that key is not set.
  lemma StoredIsEncrypted(c: Config, plaintext: Bytes, contentType: string, random: nat)
    ensures var r, checksum := Written(c, plaintext, contentType, random), Some(c.prims.checksum(plaintext));
            match c.encrypt
            case None => r == Success(Stored(plaintext, Some(contentType), checksum, None, None))
            case Some(Settings(mode, version)) =>
              var v := if version.None? then 0 else version.value;
              if mode == Symmetric then
                if v !in c.env.aes then r == Failure(MissingKey)
                else
                  r == Success(Stored(c.prims.encryptAes(plaintext, c.env.aes[v], random), Some(contentType), checksum, Some(v), None))
              else if v !in c.env.rsaPublic then r == Failure(MissingKey)
              else
                var own := c.prims.generateKey(random);
                r == Success(Stored(c.prims.encryptAes(plaintext, own, random), Some(contentType), checksum, Some(v),
                                    Some(c.prims.encryptRsa(own, c.env.rsaPublic[v], random))))
  {
  }

  // An object that some other client put, without any metadata of ours, is read as it is.
  lemma ForeignIsRead(c: Config, body: Bytes)
    ensures Reading(c, Stored(body, None, None, None, None)) ==
            Success(Found(body, "application/octet-stream", c.prims.checksum(body)))
    ensures MetadataOf(Stored(body, None, None, None, None)) == Metadata("", None)
  {
  }

  // An encrypted object whose key is not set, or does not fit, is not read.
  lemma UnreadableFails(c: Config, o: Stored)
    requires c.encrypt.Some? && o.version.Some?
    ensures var v, r := o.version.value, Reading(c, o);
            match c.encrypt.value.mode
            case Symmetric =>
              && (v !in c.env.aes ==> r == Failure(MissingKey))
              && (v in c.env.aes && c.prims.decryptAes(o.body, c.env.aes[v]).None? ==> r == Failure(WrongKey))
            case Asymmetric =>
              && (o.wrappedKey.None? ==> r == Failure(MissingWrappedKey))
              && (o.wrappedKey.Some? && v !in c.env.rsaPrivate ==> r == Failure(MissingKey))
              && (o.wrappedKey.Some? && v in c.env.rsaPrivate && c.prims.decryptRsa(o.wrappedKey.value, c.env.rsaPrivate[v]).None?
                  ==> r == Failure(WrongKey))
  {
  }

  // ----- the order of the listing -----------------------------------------------------------

  // Keys are listed in lexicographic order.
  predicate Before(a: Key, b: Key) {
    b != [] && (a == [] || a[0] < b[0] || (a[0] == b[0] && Before(a[1..], b[1..])))
  }

  lemma {:induction false} BeforeOrders(a: Key, b: Key)
    ensures !(Before(a, b) && Before(b, a)) && !Before(a, a)
    ensures a != b ==> Before(a, b) || Before(b, a)
  {
    if a != [] && b != [] {
      BeforeOrders(a[1..], b[1..]);
      assert a == [a[0]] + a[1..] && b == [b[0]] + b[1..];
    }
    if a != [] {
      BeforeOrders(a[1..], a[1..]);
    }
  }

  lemma {:induction false} BeforeChains(a: Key, b: Key, c: Key)
    requires Before(a, b) && Before(b, c)
    ensures Before(a, c)
  {
    if a != [] && a[0] == b[0] == c[0] {
      BeforeChains(a[1..], b[1..], c[1..]);
    }
  }

  // One key comes before another when it is a proper prefix of it, or smaller at the first place where
  // they differ.
  ghost predicate DiffersAt(a: Key, b: Key, i: nat) {
    i <= |a| && i < |b| && a[..i] == b[..i] && (i == |a| || a[i] < b[i])
  }

  lemma FirstDiffers(a: Key, b: Key, i: nat)
    requires DiffersAt(a, b, i)
    ensures a != [] ==> if i == 0 then a[0] < b[0] else a[0] == b[0]
  {
    if i > 0 {
      assert a[..i][0] == b[..i][0];
    }
  }

  lemma {:induction false} BeforeIff(a: Key, b: Key)
    ensures Before(a, b) <==> exists i: nat :: DiffersAt(a, b, i)
  {
    if a == [] {
      assert b != [] ==> DiffersAt(a, b, 0);
    } else if b != [] {
      BeforeIff(a[1..], b[1..]);
      if i: nat :| DiffersAt(a, b, i) {
        FirstDiffers(a, b, i);
      }
      if a[0] < b[0] {
        assert DiffersAt(a, b, 0);
      } else if a[0] == b[0] {
        if i: nat :| DiffersAt(a[1..], b[1..], i) {
          assert a[..i + 1] == [a[0]] + a[1..][..i] && b[..i + 1] == [b[0]] + b[1..][..i];
          assert DiffersAt(a, b, i + 1);
        }
        if i: nat :| DiffersAt(a, b, i) {
          assert i > 0;
          assert a[1..][..i - 1] == a[..i][1..] && b[1..][..i - 1] == b[..i][1..];
          assert DiffersAt(a[1..], b[1..], i - 1);
        }
      }
    }
  }

  ghost predicate InOrder(s: seq<Key>) {
    forall i, j | 0 <= i < j < |s| :: Before(s[i], s[j])
  }

  function InsertKey(s: seq<Key>, key: Key): seq<Key> {
    if s == [] || Before(key, s[0]) then [key] + s
    else if key == s[0] then s
    else [s[0]] + InsertKey(s[1..], key)
  }

  lemma {:induction false} InsertedKey(s: seq<Key>, key: Key)
    requires InOrder(s)
    ensures InOrder(InsertKey(s, key))
    ensures forall k :: k in InsertKey(s, key) <==> k in s || k == key
  {
    hide Before;
    if s != [] {
      BeforeOrders(key, s[0]);
      var r := InsertKey(s, key);
      assert s == [s[0]] + s[1..];
      if Before(key, s[0]) {
        forall j | 0 < j < |r| ensures Before(r[0], r[j]) {
          if j > 1 {
            BeforeChains(key, s[0], s[j - 1]);
          }
        }
      } else if key != s[0] {
        InsertedKey(s[1..], key);
        var rest := InsertKey(s[1..], key);
        forall j | 0 <= j < |rest| ensures Before(s[0], rest[j]) {
          assert rest[j] in rest;
        }
      }
    }
  }

  function RemoveKey(s: seq<Key>, key: Key): seq<Key> {
    if s == [] then [] else if s[0] == key then s[1..] else [s[0]] + RemoveKey(s[1..], key)
  }

  lemma {:induction false} RemovedKey(s: seq<Key>, key: Key)
    requires InOrder(s)
    ensures InOrder(RemoveKey(s, key))
    ensures forall k :: k in RemoveKey(s, key) <==> k in s && k != key
  {
    hide Before;
    if s != [] {
      assert s == [s[0]] + s[1..];
      BeforeOrders(key, key);
      if s[0] == key {
        forall j | 0 <= j < |s[1..]| ensures s[1..][j] != key {
          assert Before(s[0], s[j + 1]);
        }
      } else {
        RemovedKey(s[1..], key);
        var rest := RemoveKey(s[1..], key);
        forall j | 0 <= j < |rest| ensures Before(s[0], rest[j]) {
          assert rest[j] in rest;
        }
      }
    }
  }

  // ----- a page of the listing --------------------------------------------------------------

  predicate InScope(prefix: Option<Key>, key: Key) {
    prefix.Some? ==> prefix.value <= key
  }

  lemma InScopeIff(prefix: Option<Key>, key: Key)
    ensures InScope(prefix, key) <==> prefix.None? || exists rest: Key :: key == prefix.value + rest
  {
    if prefix.Some? && prefix.value <= key {
      assert key == prefix.value + key[|prefix.value|..];
    }
  }

  predicate Listable(prefix: Option<Key>, token: Option<Key>, key: Key) {
    InScope(prefix, key) && (token.Some? ==> Before(token.value, key))
  }

  // The keys in scope beyond the key that a continuation token stands for.
  function Listed(s: seq<Key>, prefix: Option<Key>, token: Option<Key>): seq<Key> {
    if s == [] then []
    else (if Listable(prefix, token, s[0]) then [s[0]] else []) + Listed(s[1..], prefix, token)
  }

  lemma {:induction false} ListedKeys(s: seq<Key>, prefix: Option<Key>, token: Option<Key>)
    ensures forall k :: k in Listed(s, prefix, token) <==> k in s && Listable(prefix, token, k)
  {
    if s != [] {
      ListedKeys(s[1..], prefix, token);
      assert s == [s[0]] + s[1..];
    }
  }

  lemma {:induction false} ListedInOrder(s: seq<Key>, prefix: Option<Key>, token: Option<Key>)
    requires InOrder(s)
    ensures InOrder(Listed(s, prefix, token))
  {
    if s != [] {
      ListedInOrder(s[1..], prefix, token);
      ListedKeys(s[1..], prefix, token);
      var rest := Listed(s[1..], prefix, token);
      forall j | 0 <= j < |rest| ensures Before(s[0], rest[j]) {
        assert rest[j] in s[1..];
      }
    }
  }

  datatype KeyPage = KeyPage(keys: seq<Key>, next: Option<Key>)

  // S3 never returns more than a thousand keys at once, and asked for none it returns none and no token.
  function PageSize(maxKeys: Option<nat>): nat {
    if maxKeys.Some? && maxKeys.value < 1000 then maxKeys.value else 1000
  }

  function PageOf(s: seq<Key>, prefix: Option<Key>, token: Option<Key>, size: nat): KeyPage {
    var all := Listed(s, prefix, token);
    if size == 0 then KeyPage([], None)
    else if |all| > size then KeyPage(all[..size], Some(all[size - 1]))
    else KeyPage(all, None)
  }

  // The first k keys are the ones up to the token.
  ghost predicate TokenAt(all: seq<Key>, token: Key, k: nat) {
    k <= |all| && forall i | 0 <= i < |all| :: Before(token, all[i]) <==> i >= k
  }

  // With a first key in front, the token stands one place further.
  lemma {:induction false} TokenBehind(first: Key, rest: seq<Key>, next: Key, k: nat)
    requires TokenAt([first] + rest, next, k)
    ensures Before(next, first) <==> k == 0
    ensures TokenAt(rest, next, if k > 0 then k - 1 else 0)
    ensures k <= |rest| + 1
    ensures ([first] + rest)[k..] == if k == 0 then [first] + rest[0..] else rest[k - 1..]
  {
    hide Before;
    var all := [first] + rest;
    assert all[0] == first && forall i | 0 <= i < |rest| :: rest[i] == all[i + 1];
  }

  lemma {:induction false} ListedStep(s: seq<Key>, prefix: Option<Key>, token: Option<Key>)
    requires s != []
    ensures Listed(s, prefix, token) ==
            if Listable(prefix, token, s[0]) then [s[0]] + Listed(s[1..], prefix, token) else Listed(s[1..], prefix, token)
  {
  }

  // A key beyond the new token is beyond the old one.
  lemma {:induction false} FurtherOn(prefix: Option<Key>, token: Option<Key>, next: Key, key: Key)
    requires token.Some? ==> Before(token.value, next)
    ensures Listable(prefix, Some(next), key) <==> Listable(prefix, token, key) && Before(next, key)
  {
    hide Before, InScope;
    if token.Some? && Before(next, key) {
      BeforeChains(token.value, next, key);
    }
  }

  lemma {:induction false} ListedFrom(s: seq<Key>, prefix: Option<Key>, token: Option<Key>, next: Key, k: nat)
    requires TokenAt(Listed(s, prefix, token), next, k)
    requires token.Some? ==> Before(token.value, next)
    ensures k <= |Listed(s, prefix, token)|
    ensures Listed(s, prefix, Some(next)) == Listed(s, prefix, token)[k..]
  {
    hide *;
    if s == [] {
      NothingListed(prefix, token, next, k);
    } else {
      ListedStep(s, prefix, token);
      ListedStep(s, prefix, Some(next));
      FurtherOn(prefix, token, next, s[0]);
      if Listable(prefix, token, s[0]) {
        TokenBehind(s[0], Listed(s[1..], prefix, token), next, k);
        ListedFrom(s[1..], prefix, token, next, if k > 0 then k - 1 else 0);
      } else {
        ListedFrom(s[1..], prefix, token, next, k);
      }
    }
  }

  lemma {:induction false} NothingListed(prefix: Option<Key>, token: Option<Key>, next: Key, k: nat)
    requires TokenAt(Listed([], prefix, token), next, k)
    ensures k == 0 && Listed([], prefix, token) == [] == Listed([], prefix, Some(next))
  {
  }

  // A page holds as many keys as were asked for, a thousand when no number was given or a greater one,
  // unless there are no more; the token is its last key.
  lemma {:induction false} PageIsFull(s: seq<Key>, prefix: Option<Key>, token: Option<Key>, maxKeys: Option<nat>)
    ensures var page, most := PageOf(s, prefix, token, PageSize(maxKeys)), if maxKeys.Some? && maxKeys.value <= 1000 then maxKeys.value else 1000;
            && |page.keys| <= most
            && (page.next.Some? ==> |page.keys| == most > 0 && page.next.value == page.keys[most - 1])
            && (most > 0 && |Listed(s, prefix, token)| > most <==> page.next.Some?)
  {
    hide Listed;
  }

  // Following the token of a page continues exactly where the page stopped.
  lemma {:induction false} PagesJoin(s: seq<Key>, prefix: Option<Key>, token: Option<Key>, size: nat)
    requires InOrder(s) && size > 0
    ensures var page := PageOf(s, prefix, token, size);
            && Listed(s, prefix, token) == page.keys + (if page.next.Some? then Listed(s, prefix, page.next) else [])
            && (page.next.Some? ==> page.keys != [])
  {
    var all := Listed(s, prefix, token);
    if |all| > size {
      ListedInOrder(s, prefix, token);
      ListedKeys(s, prefix, token);
      var next := all[size - 1];
      assert next in all;
      forall i | 0 <= i < |all| ensures Before(next, all[i]) <==> i >= size {
        BeforeOrders(next, all[i]);
      }
      hide Listed;
      assert TokenAt(all, next, size);
      ListedFrom(s, prefix, token, next, size);
    }
  }

  // ----- the connector ----------------------------------------------------------------------

  class SeaweedFSObjectStorage {
    const config: Config
    var objects: map<Key, Stored>
    var listing: seq<Key>

    ghost predicate Valid()
      reads this
    {
      InOrder(listing) && forall k :: k in listing <==> k in objects
    }

    constructor (config: Config)
      ensures Valid() && this.config == config && objects == map[]
    {
      this.config := config;
      objects := map[];
      listing := [];
    }

    // When the key to encrypt with is missing nothing is stored.
    method Put(key: Key, data: Bytes, contentType: string, random: nat) returns (r: Result<StoredObject, CryptoError>)
      requires Valid()
      modifies this
      ensures Valid()
      ensures match Written(config, data, contentType, random)
              case Failure(e) => r == Failure(e) && objects == old(objects)
              case Success(o) =>
                && r == Success(StoredObject(key, contentType, |data|, config.prims.checksum(data)))
                && objects == old(objects)[key := o]
      ensures key in old(objects) ==> listing == old(listing)
    {
      var written := Written(config, data, contentType, random);
      match written {
        case Failure(e) => r := Failure(e);
        case Success(o) =>
          InsertedKey(listing, key);
          KnownKey(listing, key);
          listing := InsertKey(listing, key);
          objects := objects[key := o];
          r := Success(StoredObject(key, contentType, |data|, config.prims.checksum(data)));
      }
    }

    method Get(key: Key) returns (r: Result<Option<Found>, CryptoError>)
      ensures r == if key !in objects then Success(None)
                   else match Reading(config, objects[key]) case Success(f) => Success(Some(f)) case Failure(e) => Failure(e)
    {
      if key !in objects {
        return Success(None);
      }
      var reading := Reading(config, objects[key]);
      match reading {
        case Success(f) => r := Success(Some(f));
        case Failure(e) => r := Failure(e);
      }
    }

    method Delete(key: Key)
      requires Valid()
      modifies this
      ensures Valid() && objects == old(objects) - {key}
    {
      RemovedKey(listing, key);
      listing := RemoveKey(listing, key);
      objects := objects - {key};
    }

    method Exists(key: Key) returns (r: bool)
      ensures r <==> key in objects
    {
      r := key in objects;
    }

    method GetMetadata(key: Key) returns (r: Option<Metadata>)
      ensures r == if key in objects then Some(MetadataOf(objects[key])) else None
    {
      r := if key in objects then Some(MetadataOf(objects[key])) else None;
    }

    method ListPage(prefix: Option<Key>, token: Option<Key>, maxKeys: Option<nat>) returns (page: KeyPage)
      requires Valid()
      ensures page == PageOf(listing, prefix, token, PageSize(maxKeys))
    {
      page := PageOf(listing, prefix, token, PageSize(maxKeys));
    }
  }

  lemma {:induction false} KnownKey(s: seq<Key>, key: Key)
    requires InOrder(s)
    ensures key in s ==> InsertKey(s, key) == s
  {
    hide Before;
    if key in s {
      BeforeOrders(key, s[0]);
      if key != s[0] {
        var i :| 0 < i < |s| && s[i] == key;
        assert Before(s[0], s[i]);
        assert s[1..][i - 1] == key;
        KnownKey(s[1..], key);
        assert s == [s[0]] + s[1..];
      }
    }
  }
}
