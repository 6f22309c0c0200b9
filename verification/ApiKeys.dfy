/** Machine credentials: a table of hashed keys, and a cache in front of the look-up by hash. */
module ApiKeys {
  import opened Outcomes
  import opened Calendar
  import opened Cache

  type KeyId = string

  datatype APIKey = APIKey(id: KeyId, name: string, keyHash: string, keyPrefix: string, createdBy: string, createdAt: Instant)

  datatype Error = NotFound | Duplicated | NameRequired | NoRandomness | Database | ContextEnded

  type Rows = map<KeyId, APIKey>

  const PLAINTEXT_PREFIX := "zsk_"
  const RANDOM_LENGTH := 64
  const PREFIX_LENGTH := 12
  const CACHE_KEY_PREFIX := "apikey:"

  // ---- Building a key ----

  predicate IsSpace(c: char): (space: bool)
    ensures space <==>
            var n := c as int;
            9 <= n <= 13 || n in {32, 0x85, 0xA0, 0x1680, 0x2028, 0x2029, 0x202F, 0x205F, 0x3000} || 0x2000 <= n <= 0x200A
  {
    '\t' <= c <= '\r' || c == ' ' || c == '\U{85}' || c == '\U{A0}' || c == '\U{1680}' || '\U{2000}' <= c <= '\U{200A}'
    || c == '\U{2028}' || c == '\U{2029}' || c == '\U{202F}' || c == '\U{205F}' || c == '\U{3000}'
  }

  function TrimSpace(s: string): (r: string)
    ensures r != "" ==> !IsSpace(r[0]) && !IsSpace(r[|r| - 1])
    ensures r == "" <==> forall i :: 0 <= i < |s| ==> IsSpace(s[i])
  {
    hide IsSpace;
    if s == "" then s
    else if IsSpace(s[0]) then TrimSpace(s[1..])
    else if IsSpace(s[|s| - 1]) then TrimSpace(s[..|s| - 1])
    else s
  }

  predicate OnlySpaces(s: string) {
    forall i :: 0 <= i < |s| ==> IsSpace(s[i])
  }

  lemma MoreSpaces(c: char, s: string)
    requires OnlySpaces(s) && IsSpace(c)
    ensures OnlySpaces([c] + s) && OnlySpaces(s + [c])
  {
    hide IsSpace;
  }

  lemma TrimStep(s: string)
    ensures s == "" || (!IsSpace(s[0]) && !IsSpace(s[|s| - 1])) ==> TrimSpace(s) == s
    ensures s != "" && IsSpace(s[0]) ==> TrimSpace(s) == TrimSpace(s[1..])
    ensures s != "" && !IsSpace(s[0]) && IsSpace(s[|s| - 1]) ==> TrimSpace(s) == TrimSpace(s[..|s| - 1])
    ensures OnlySpaces("")
  {
    hide IsSpace;
  }

  /** Trimming cuts off spaces at both ends and nothing else. */
  lemma {:induction false} TrimSpaceCuts(s: string) returns (front: string, back: string)
    ensures s == front + TrimSpace(s) + back && OnlySpaces(front) && OnlySpaces(back)
  {
    hide IsSpace, TrimSpace, OnlySpaces;
    TrimStep(s);
    if s == "" || (!IsSpace(s[0]) && !IsSpace(s[|s| - 1])) {
      front, back := "", "";
    } else if IsSpace(s[0]) {
      var rest := s[1..];
      front, back := TrimSpaceCuts(rest);
      MoreSpaces(s[0], front);
      front := [s[0]] + front;
    } else {
      var rest := s[..|s| - 1];
      front, back := TrimSpaceCuts(rest);
      MoreSpaces(s[|s| - 1], back);
      assert front + TrimSpace(rest) + back + [s[|s| - 1]] == front + TrimSpace(rest) + (back + [s[|s| - 1]]);
      back := back + [s[|s| - 1]];
    }
  }

  predicate IsName(s: string) {
    s != "" && !IsSpace(s[0]) && !IsSpace(s[|s| - 1])
  }

  /** A new key and the only copy of its plaintext. `random` is the hex text of fresh random bytes, if any
      could be read; `digest` is the hash function. */
  method BuildKey(name: string, createdBy: string, id: KeyId, now: Instant, random: Option<string>,
          digest: string -> string)
    returns (r: Result<(APIKey, string), Error>)
    requires random.Some? ==> |random.value| == RANDOM_LENGTH
    ensures r.Ok? <==> TrimSpace(name) != "" && random.Some?
    ensures r == Err(NameRequired) <==> TrimSpace(name) == ""
    ensures r.Err? ==> r.error in {NameRequired, NoRandomness}
    ensures r.Ok? ==>
              && r.value.0.name == TrimSpace(name) && IsName(r.value.0.name)
              && r.value.0.keyHash == digest(r.value.1)
              && r.value.0.keyPrefix <= r.value.1 && |r.value.0.keyPrefix| == 12
              && r.value.1 == "zsk_" + random.value
              && r.value.0.id == id && r.value.0.createdBy == createdBy && r.value.0.createdAt == now
  {
    var trimmed := TrimSpace(name);
    if trimmed == "" {
      return Err(NameRequired);
    }
    if random.None? {
      return Err(NoRandomness);
    }
    var plaintext := PLAINTEXT_PREFIX + random.value;
    return Ok((APIKey(id, trimmed, digest(plaintext), plaintext[..PREFIX_LENGTH], createdBy, now), plaintext));
  }

  // ---- The table ----

  // The unique indexes of the table.
  ghost predicate Unique(rows: Rows) {
    && (forall id :: id in rows ==> rows[id].id == id)
    && (forall a, b :: a in rows && b in rows && a != b ==> rows[a].name != rows[b].name && rows[a].keyHash != rows[b].keyHash)
  }

  ghost function FindBy(rows: Rows, field: APIKey -> string, wanted: string): Option<APIKey> {
    if exists id :: id in rows && field(rows[id]) == wanted then
      var id :| id in rows && field(rows[id]) == wanted;
      Some(rows[id])
    else None
  }

  function HashOf(k: APIKey): string { k.keyHash }
  function NameOf(k: APIKey): string { k.name }

  lemma FindByHash(rows: Rows, id: KeyId)
    requires Unique(rows) && id in rows
    ensures FindBy(rows, HashOf, rows[id].keyHash) == Some(rows[id])
  {
    assert HashOf(rows[id]) == rows[id].keyHash;
  }

  lemma FindByName(rows: Rows, id: KeyId)
    requires Unique(rows) && id in rows
    ensures FindBy(rows, NameOf, rows[id].name) == Some(rows[id])
  {
    assert NameOf(rows[id]) == rows[id].name;
  }

  // The table's answer for a hash. Every query may fail.
  ghost function ReadByHash(rows: Rows, hash: string, fails: bool): Result<APIKey, Error> {
    if fails then Err(Database)
    else match FindBy(rows, HashOf, hash)
      case Some(k) => Ok(k)
      case None => Err(NotFound)
  }

  class SimpleAPIKeyRepository {
    var rows: Rows

    constructor ()
      ensures rows == map[]
    {
      rows := map[];
    }

    method Create(key: APIKey, fails: bool) returns (ok: bool)
      modifies this
      ensures ok <==> && !fails && key.id !in old(rows)
                      && FindBy(old(rows), NameOf, key.name).None? && FindBy(old(rows), HashOf, key.keyHash).None?
      ensures rows == if ok then old(rows)[key.id := key] else old(rows)
    {
      var sameName := Search(NameOf, key.name);
      var sameHash := Search(HashOf, key.keyHash);
      ok := !fails && key.id !in rows && sameName.None? && sameHash.None?;
      if ok {
        rows := rows[key.id := key];
      }
    }

    method Search(field: APIKey -> string, wanted: string) returns (found: Option<APIKey>)
      ensures found.Some? ==> found.value in rows.Values && field(found.value) == wanted
      ensures found.None? <==> FindBy(rows, field, wanted).None?
    {
      var rest := rows.Keys;
      while rest != {}
        invariant rest <= rows.Keys
        invariant forall id :: id in rows && id !in rest ==> field(rows[id]) != wanted
        decreases |rest|
      {
        var id :| id in rest;
        if field(rows[id]) == wanted {
          return Some(rows[id]);
        }
        rest := rest - {id};
      }
      return None;
    }

    method GetByHash(hash: string, fails: bool) returns (r: Result<APIKey, Error>)
      requires Unique(rows)
      ensures r == ReadByHash(rows, hash, fails)
    {
      if fails {
        return Err(Database);
      }
      var found := Search(HashOf, hash);
      if found.None? {
        return Err(NotFound);
      }
      ghost var id :| id in rows && rows[id] == found.value;
      FindByHash(rows, id);
      return Ok(found.value);
    }

    method GetByName(name: string, fails: bool) returns (r: Result<APIKey, Error>)
      requires Unique(rows)
      ensures r == if fails then Err(Database) else
                     match FindBy(rows, NameOf, name) case Some(k) => Ok(k) case None => Err(NotFound)
    {
      if fails {
        return Err(Database);
      }
      var found := Search(NameOf, name);
      if found.None? {
        return Err(NotFound);
      }
      ghost var id :| id in rows && rows[id] == found.value;
      FindByName(rows, id);
      return Ok(found.value);
    }

    method GetByID(id: KeyId, fails: bool) returns (r: Result<APIKey, Error>)
      ensures r == if fails then Err(Database) else if id in rows then Ok(rows[id]) else Err(NotFound)
    {
      if fails {
        return Err(Database);
      }
      r := if id in rows then Ok(rows[id]) else Err(NotFound);
    }

    method Delete(id: KeyId, fails: bool) returns (ok: bool)
      modifies this
      ensures ok == !fails
      ensures rows == if fails then old(rows) else old(rows) - {id}
    {
      if !fails {
        rows := rows - {id};
      }
      ok := !fails;
    }
  }

  // ---- The service's operations on both stores ----

  datatype World = World(rows: Rows, store: map<string, APIKey>)

  function CacheKey(hash: string): string {
    CACHE_KEY_PREFIX + hash
  }

  // Creating a key that could be built: refused when its name is taken.
  ghost function CreateAnswer(w: World, key: APIKey, readFails: bool, writeFails: bool): Result<APIKey, Error> {
    if readFails then Err(Database)
    else if FindBy(w.rows, NameOf, key.name).Some? then Err(Duplicated)
    else if writeFails || key.id in w.rows || FindBy(w.rows, HashOf, key.keyHash).Some? then Err(Database)
    else Ok(key)
  }

  ghost function CreateAfter(w: World, key: APIKey, readFails: bool, writeFails: bool): World {
    if CreateAnswer(w, key, readFails, writeFails).Ok? then w.(rows := w.rows[key.id := key]) else w
  }

  ghost function ValidateAnswer(w: World, hash: string, ctx: Context, fails: bool): Result<APIKey, Error> {
    ReadThrough(w.store, CacheKey(hash), ctx, ReadByHash(w.rows, hash, fails), ContextEnded)
  }

  ghost function ValidateAfter(w: World, hash: string, ctx: Context, fails: bool, accepted: bool): World {
    w.(store := StoreAfterRead(w.store, CacheKey(hash), ctx, ReadByHash(w.rows, hash, fails), accepted))
  }

  function RevokeAnswer(w: World, id: KeyId, readFails: bool, deleteFails: bool): Option<Error> {
    if readFails then Some(Database)
    else if id !in w.rows then Some(NotFound)
    else if deleteFails then Some(Database)
    else None
  }

  function RevokeAfter(w: World, id: KeyId, ctx: Context, readFails: bool, deleteFails: bool): World {
    if RevokeAnswer(w, id, readFails, deleteFails).Some? then w
    else World(w.rows - {id}, if Done(ctx, 0) then w.store else w.store - {CacheKey(w.rows[id].keyHash)})
  }

  class SimpleAPIKeyService {
    const repository: SimpleAPIKeyRepository
    const cache: RistrettoCache<APIKey>
    const digest: string -> string

    constructor (repository: SimpleAPIKeyRepository, cache: RistrettoCache<APIKey>, digest: string -> string)
      ensures this.repository == repository && this.cache == cache && this.digest == digest
    {
      this.repository, this.cache, this.digest := repository, cache, digest;
    }

    function Current(): World
      reads repository, cache
    {
      World(repository.rows, cache.store)
    }

    method Create(name: string, createdBy: string, id: KeyId, now: Instant, random: Option<string>, readFails: bool,
            writeFails: bool)
      returns (r: Result<(APIKey, string), Error>)
      requires random.Some? ==> |random.value| == RANDOM_LENGTH
      requires Unique(repository.rows)
      modifies repository
      ensures r.Ok? ==>
                && IsName(r.value.0.name) && r.value.0.keyHash == digest(r.value.1)
                && CreateAnswer(old(Current()), r.value.0, readFails, writeFails) == Ok(r.value.0)
                && Current() == CreateAfter(old(Current()), r.value.0, readFails, writeFails)
                && repository.rows == old(repository.rows)[id := r.value.0] && r.value.0.id == id && id !in old(repository.rows)
                && r.value.0.name == TrimSpace(name) && r.value.0.createdBy == createdBy && r.value.0.createdAt == now
      ensures r.Err? ==> Current() == old(Current())
      ensures r == Err(NameRequired) <==> TrimSpace(name) == ""
      ensures TrimSpace(name) != "" && random.Some? && !readFails
              ==> (r == Err(Duplicated) <==>
                   exists k :: k in old(repository.rows) && old(repository.rows)[k].name == TrimSpace(name))
    {
      hide TrimSpace;
      var built := BuildKey(name, createdBy, id, now, random, digest);
      if built.Err? {
        return Err(built.error);
      }
      var key := built.value.0;
      var existing := repository.GetByName(key.name, readFails);
      if existing.Ok? {
        assert FindBy(repository.rows, NameOf, key.name).Some?;
        return Err(Duplicated);
      }
      if existing.error != NotFound {
        return Err(existing.error);
      }
      assert forall k :: k in repository.rows ==> NameOf(repository.rows[k]) != key.name;
      var ok := repository.Create(key, writeFails);
      if !ok {
        return Err(Database);
      }
      return built;
    }

    method Validate(rawKey: string, ctx: Context, fails: bool, accepted: bool) returns (r: Result<APIKey, Error>)
      requires Unique(repository.rows)
      modifies cache
      ensures r == ValidateAnswer(old(Current()), digest(rawKey), ctx, fails)
      ensures Current() == ValidateAfter(old(Current()), digest(rawKey), ctx, fails, accepted)
    {
      var hash := digest(rawKey);
      var loaded := repository.GetByHash(hash, fails);
      r := cache.GetOrSet(CacheKey(hash), ctx, loaded, ContextEnded, accepted);
    }

    method Revoke(id: KeyId, ctx: Context, readFails: bool, deleteFails: bool) returns (error: Option<Error>)
      modifies repository, cache
      ensures error == RevokeAnswer(old(Current()), id, readFails, deleteFails)
      ensures !readFails ==> (error == Some(NotFound) <==> id !in old(repository.rows))
      ensures error.None? <==> !readFails && !deleteFails && id in old(repository.rows)
      ensures repository.rows == if error.None? then old(repository.rows) - {id} else old(repository.rows)
      ensures error.None? && ctx != Some(0) ==>
                cache.store == old(cache.store) - {"apikey:" + old(repository.rows)[id].keyHash}
      ensures Current() == RevokeAfter(old(Current()), id, ctx, readFails, deleteFails)
    {
      var key := repository.GetByID(id, readFails);
      if key.Err? {
        return Some(key.error);
      }
      var ok := repository.Delete(id, deleteFails);
      if !ok {
        return Some(Database);
      }
      cache.Delete(CacheKey(key.value.keyHash), ctx);
      return None;
    }
  }

  // ---- The cache agrees with the table ----

  /** Every cached key is still stored, under the hash it is cached for. */
  ghost predicate Sound(w: World) {
    forall hash :: CacheKey(hash) in w.store ==>
      var k := w.store[CacheKey(hash)];
      k.keyHash == hash && k.id in w.rows && w.rows[k.id] == k
  }

  lemma CacheKeyInjective(a: string, b: string)
    ensures CacheKey(a) == CacheKey(b) ==> a == b
  {
    assert CacheKey(a)[|CACHE_KEY_PREFIX|..] == a;
    assert CacheKey(b)[|CACHE_KEY_PREFIX|..] == b;
  }

  /** With a sound cache Validate never disagrees with the table: a key it answers is the one stored under
      the hash, it reports a miss only when there is none, and while the context lives and the query works it
      answers just what the table does. */
  lemma ValidateAgrees(w: World, hash: string, ctx: Context, fails: bool)
    requires Unique(w.rows) && Sound(w)
    ensures var r := ValidateAnswer(w, hash, ctx, fails);
            && (r.Ok? ==> ReadByHash(w.rows, hash, false) == r)
            && (r == Err(NotFound) ==> ReadByHash(w.rows, hash, false) == r)
            && (!Done(ctx, 1) && !fails ==> r == ReadByHash(w.rows, hash, false))
  {
    if CacheKey(hash) in w.store {
      FindByHash(w.rows, w.store[CacheKey(hash)].id);
    }
  }

  /** Validating keeps the cache sound, and caches nothing on a miss or an error. */
  lemma ValidateKeepsSound(w: World, hash: string, ctx: Context, fails: bool, accepted: bool)
    requires Unique(w.rows) && Sound(w)
    ensures Sound(ValidateAfter(w, hash, ctx, fails, accepted))
    ensures ValidateAnswer(w, hash, ctx, fails).Err? ==> ValidateAfter(w, hash, ctx, fails, accepted) == w
  {
    var w' := ValidateAfter(w, hash, ctx, fails, accepted);
    forall h | CacheKey(h) in w'.store
      ensures var k := w'.store[CacheKey(h)]; k.keyHash == h && k.id in w'.rows && w'.rows[k.id] == k
    {
      CacheKeyInjective(h, hash);
    }
  }

  /** Revoking keeps the cache sound unless the context has ended when the cached key is to be dropped. */
  lemma RevokeKeepsSoundIff(w: World, id: KeyId, ctx: Context, readFails: bool, deleteFails: bool)
    requires Unique(w.rows) && Sound(w)
    ensures Sound(RevokeAfter(w, id, ctx, readFails, deleteFails))
       <==> !(RevokeAnswer(w, id, readFails, deleteFails).None? && Done(ctx, 0) && CacheKey(w.rows[id].keyHash) in w.store)
  {
    var w' := RevokeAfter(w, id, ctx, readFails, deleteFails);
    if RevokeAnswer(w, id, readFails, deleteFails).None? {
      var hash := w.rows[id].keyHash;
      forall h | CacheKey(h) in w.store && h != hash ensures CacheKey(h) != CacheKey(hash) && w.store[CacheKey(h)].id != id {
        CacheKeyInjective(h, hash);
      }
      if CacheKey(hash) in w.store {
        assert w.store[CacheKey(hash)].id == id;
      }
    }
  }

  /** After such a revocation the key is gone from the table and Validate still answers it. */
  lemma RevokedKeyStillAccepted(w: World, id: KeyId, ctx: Context, later: Context, fails: bool)
    requires Unique(w.rows) && Sound(w) && id in w.rows
    requires Done(ctx, 0) && !Done(later, 0) && CacheKey(w.rows[id].keyHash) in w.store
    ensures var hash := w.rows[id].keyHash; var w' := RevokeAfter(w, id, ctx, false, false);
            && ReadByHash(w'.rows, hash, false) == Err(NotFound)
            && ValidateAnswer(w', hash, later, fails) == Ok(w.rows[id])
  {
    var k := w.store[CacheKey(w.rows[id].keyHash)];
    assert k.id in w.rows && w.rows[k.id] == k;
  }

  lemma CreateKeepsUnique(w: World, key: APIKey, readFails: bool, writeFails: bool)
    requires Unique(w.rows)
    ensures Unique(CreateAfter(w, key, readFails, writeFails).rows)
  {
    if CreateAnswer(w, key, readFails, writeFails).Ok? {
      forall id | id in w.rows ensures w.rows[id].name != key.name && w.rows[id].keyHash != key.keyHash {
        assert NameOf(w.rows[id]) != key.name && HashOf(w.rows[id]) != key.keyHash;
      }
    }
  }

  lemma CreateKeepsSound(w: World, key: APIKey, readFails: bool, writeFails: bool)
    requires Unique(w.rows) && Sound(w)
    ensures Sound(CreateAfter(w, key, readFails, writeFails))
  {
    var w' := CreateAfter(w, key, readFails, writeFails);
    forall hash | CacheKey(hash) in w'.store
      ensures var k := w'.store[CacheKey(hash)]; k.keyHash == hash && k.id in w'.rows && w'.rows[k.id] == k
    {
      assert w.store[CacheKey(hash)].id in w.rows;
    }
  }

  // ---- Serial histories ----

  datatype Action =
    | Create(key: APIKey, createReadFails: bool, writeFails: bool)
    | Validate(hash: string, reader: Context, fails: bool, accepted: bool)
    | Revoke(id: KeyId, ctx: Context, revokeReadFails: bool, deleteFails: bool)
    | Drop(gone: set<string>)

  ghost function Effect(w: World, a: Action): World {
    match a
    case Create(key, rf, wf) => CreateAfter(w, key, rf, wf)
    case Validate(hash, ctx, fails, accepted) => ValidateAfter(w, hash, ctx, fails, accepted)
    case Revoke(id, ctx, rf, df) => RevokeAfter(w, id, ctx, rf, df)
    case Drop(gone) => w.(store := w.store - gone)
  }

  ghost function After(actions: seq<Action>): World {
    if actions == [] then World(map[], map[]) else Effect(After(actions[..|actions| - 1]), actions[|actions| - 1])
  }

  /** The action revokes a key that stays cached, because its context has ended when the key is to be dropped. */
  ghost predicate LeavesStale(w: World, a: Action) {
    && a.Revoke? && RevokeAnswer(w, a.id, a.revokeReadFails, a.deleteFails).None?
    && Done(a.ctx, 0) && CacheKey(w.rows[a.id].keyHash) in w.store
  }

  ghost predicate NeverStale(actions: seq<Action>) {
    forall i :: 0 <= i < |actions| ==> !LeavesStale(After(actions[..i]), actions[i])
  }

  /** Throughout every serial history names and hashes stay unique. */
  lemma {:induction false} HistoryKeepsUnique(actions: seq<Action>)
    ensures Unique(After(actions).rows)
  {
    if actions != [] {
      var n := |actions| - 1;
      HistoryKeepsUnique(actions[..n]);
      assert After(actions) == Effect(After(actions[..n]), actions[n]);
      hide After;
      EffectKeepsUnique(After(actions[..n]), actions[n]);
    }
  }

  lemma EffectKeepsUnique(w: World, a: Action)
    requires Unique(w.rows)
    ensures Unique(Effect(w, a).rows)
  {
    if a.Create? {
      CreateKeepsUnique(w, a.key, a.createReadFails, a.writeFails);
    }
  }

  lemma EffectKeepsSoundIff(w: World, a: Action)
    requires Unique(w.rows) && Sound(w)
    ensures Sound(Effect(w, a)) <==> !LeavesStale(w, a)
  {
    match a {
      case Create(key, rf, wf) => CreateKeepsSound(w, key, rf, wf);
      case Validate(hash, ctx, fails, accepted) => ValidateKeepsSound(w, hash, ctx, fails, accepted);
      case Revoke(id, ctx, rf, df) => RevokeKeepsSoundIff(w, id, ctx, rf, df);
      case Drop(gone) =>
    }
  }

  lemma PrefixEffect(actions: seq<Action>, i: nat)
    requires i < |actions|
    ensures After(actions[..i + 1]) == Effect(After(actions[..i]), actions[i])
  {
    assert actions[..i + 1][..i] == actions[..i];
  }

  lemma {:induction false} StaysSound(actions: seq<Action>, i: nat)
    requires NeverStale(actions) && i <= |actions|
    ensures Sound(After(actions[..i]))
  {
    if i > 0 {
      StaysSound(actions, i - 1);
      hide After, Sound, LeavesStale, Effect;
      PrefixEffect(actions, i - 1);
      HistoryKeepsUnique(actions[..i - 1]);
      EffectKeepsSoundIff(After(actions[..i - 1]), actions[i - 1]);
    }
  }

  /** In a serial history every cached key is still stored at all times if and only if no revocation of a
      cached key lost its context before dropping it. */
  lemma HistoryKeepsSoundIff(actions: seq<Action>)
    ensures (forall i :: 0 <= i <= |actions| ==> Sound(After(actions[..i]))) <==> NeverStale(actions)
  {
    hide After, Sound, LeavesStale, Effect;
    if NeverStale(actions) {
      forall i | 0 <= i <= |actions| ensures Sound(After(actions[..i])) {
        StaysSound(actions, i);
      }
    }
    if forall i :: 0 <= i <= |actions| ==> Sound(After(actions[..i])) {
      forall i | 0 <= i < |actions| ensures !LeavesStale(After(actions[..i]), actions[i]) {
        assert Sound(After(actions[..i + 1]));
        PrefixEffect(actions, i);
        HistoryKeepsUnique(actions[..i]);
        EffectKeepsSoundIff(After(actions[..i]), actions[i]);
      }
    }
  }

  // The key a hash stands for after one more action in state `w`.
  ghost function StandingAfter(w: World, before: Option<APIKey>, a: Action, hash: string): Option<APIKey> {
    match a
    case Create(key, rf, wf) => if key.keyHash == hash && CreateAnswer(w, key, rf, wf).Ok? then Some(key) else before
    case Revoke(id, _, rf, df) =>
      if before.Some? && before.value.id == id && RevokeAnswer(w, id, rf, df).None? then None else before
    case Validate(_, _, _, _) => before
    case Drop(_) => before
  }

  /** The key a hash stands for after a history, going by the creations and revocations that succeeded. */
  ghost function Standing(actions: seq<Action>, hash: string): Option<APIKey> {
    if actions == [] then None
    else
      var earlier := actions[..|actions| - 1];
      StandingAfter(After(earlier), Standing(earlier, hash), actions[|actions| - 1], hash)
  }

  // The table holds exactly the keys that were created and not revoked since.
  lemma {:induction false} TableIsStanding(actions: seq<Action>, hash: string)
    ensures FindBy(After(actions).rows, HashOf, hash) == Standing(actions, hash)
  {
    if actions == [] {
    } else {
      var n := |actions| - 1;
      TableIsStanding(actions[..n], hash);
      HistoryKeepsUnique(actions[..n]);
      EffectOnTable(After(actions[..n]), actions[n], hash);
    }
  }

  lemma EffectOnTable(w: World, a: Action, hash: string)
    requires Unique(w.rows)
    ensures FindBy(Effect(w, a).rows, HashOf, hash) == StandingAfter(w, FindBy(w.rows, HashOf, hash), a, hash)
  {
    hide FindBy, Unique;
    match a {
      case Create(key, rf, wf) =>
        if CreateAnswer(w, key, rf, wf).Ok? {
          CreateKeepsUnique(w, key, rf, wf);
          InsertedIsFound(w.rows, key, hash);
        }
      case Revoke(id, _, rf, df) =>
        if RevokeAnswer(w, id, rf, df).None? {
          DeletedIsLost(w.rows, id, hash);
        }
      case _ =>
    }
  }

  lemma InsertedIsFound(rows: Rows, key: APIKey, hash: string)
    requires Unique(rows[key.id := key]) && key.id !in rows
    ensures FindBy(rows[key.id := key], HashOf, hash) == if key.keyHash == hash then Some(key) else FindBy(rows, HashOf, hash)
  {
    var after := rows[key.id := key];
    if id :| id in after && HashOf(after[id]) == hash {
      FindByHash(after, id);
      assert after[id].keyHash == hash && after[key.id] == key;
      if id != key.id {
        assert after[key.id].keyHash != after[id].keyHash;
        assert id in rows && rows[id] == after[id];
        assert Unique(rows) by {
          forall k | k in rows ensures k in after && after[k] == rows[k] {
          }
        }
        FindByHash(rows, id);
      }
    } else {
      assert key.id in after && after[key.id] == key;
      forall k | k in rows ensures HashOf(rows[k]) != hash {
        assert k in after && after[k] == rows[k];
      }
    }
  }

  lemma DeletedIsLost(rows: Rows, id: KeyId, hash: string)
    requires Unique(rows) && id in rows
    ensures var before := FindBy(rows, HashOf, hash);
            FindBy(rows - {id}, HashOf, hash) == if before.Some? && before.value.id == id then None else before
  {
    var after := rows - {id};
    if k :| k in rows && HashOf(rows[k]) == hash {
      FindByHash(rows, k);
      if k != id {
        assert Unique(after);
        FindByHash(after, k);
      }
    }
  }

  /** In every serial history without a stale revocation, whatever the cache drops or refuses, Validate answers
      a key exactly when that key was created under the hash and has not been revoked since. */
  lemma ValidateAnswersHistory(actions: seq<Action>, hash: string, ctx: Context, fails: bool)
    requires NeverStale(actions)
    ensures var r := ValidateAnswer(After(actions), hash, ctx, fails);
            && (r.Ok? ==> Standing(actions, hash) == Some(r.value))
            && (r == Err(NotFound) ==> Standing(actions, hash).None?)
            && (!Done(ctx, 1) && !fails ==>
                  r == match Standing(actions, hash) case Some(k) => Ok(k) case None => Err(NotFound))
  {
    hide After, Standing, Sound, Unique, ValidateAnswer;
    StaysSound(actions, |actions|);
    assert actions[..|actions|] == actions;
    HistoryKeepsUnique(actions);
    TableIsStanding(actions, hash);
    ValidateAgrees(After(actions), hash, ctx, fails);
  }
}
