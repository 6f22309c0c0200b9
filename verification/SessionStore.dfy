/** The in-memory session store: sessions by ID, and an index of each user's session IDs. */
module SessionStore {
  import opened Outcomes
  import opened Calendar

  type SessionId = string
  type UserId = string

  datatype Session = Session(
    id: SessionId, userId: UserId, email: string, name: string, isAdmin: bool, createdAt: Instant, expiresAt: Instant)
  {
    predicate IsExpired(now: Instant) {
      now > expiresAt
    }
  }

  /** Both maps of the store at one moment. */
  datatype Tables = Tables(sessions: map<SessionId, Session>, byUser: map<UserId, set<SessionId>>)

  const EMPTY_TABLES := Tables(map[], map[])

  function Bucket(tb: Tables, user: UserId): set<SessionId> {
    if user in tb.byUser then tb.byUser[user] else {}
  }

  function Created(tb: Tables, s: Session): Tables {
    Tables(tb.sessions[s.id := s], tb.byUser[s.userId := Bucket(tb, s.userId) + {s.id}])
  }

  function Removed(tb: Tables, s: Session): Tables {
    var left := Bucket(tb, s.userId) - {s.id};
    Tables(tb.sessions - {s.id},
           if s.userId !in tb.byUser then tb.byUser
           else if left == {} then tb.byUser - {s.userId}
           else tb.byUser[s.userId := left])
  }

  function Deleted(tb: Tables, id: SessionId): Tables {
    if id in tb.sessions then Removed(tb, tb.sessions[id]) else tb
  }

  function UserDeleted(tb: Tables, user: UserId): Tables {
    Tables(tb.sessions - Bucket(tb, user), tb.byUser - {user})
  }

  /** The index lists exactly the stored sessions, each under its own user, and has no empty bucket. */
  ghost predicate Inverse(tb: Tables) {
    && (forall id :: id in tb.sessions ==> tb.sessions[id].id == id)
    && (forall id, user :: user in tb.byUser && id in tb.byUser[user] <==> id in tb.sessions && tb.sessions[id].userId == user)
    && (forall user :: user in tb.byUser ==> tb.byUser[user] != {})
  }

  // ---- When an operation keeps the maps inverse ----

  /** Storing a session keeps the maps inverse unless its ID is stored for another user. */
  lemma CreatedKeepsInverseIff(tb: Tables, s: Session)
    requires Inverse(tb)
    ensures Inverse(Created(tb, s)) <==> (s.id in tb.sessions ==> tb.sessions[s.id].userId == s.userId)
  {
    var after := Created(tb, s);
    if s.id in tb.sessions && tb.sessions[s.id].userId != s.userId {
      var owner := tb.sessions[s.id].userId;
      assert s.id in tb.byUser[owner];
      assert s.id in after.byUser[owner] && after.sessions[s.id].userId != owner;
    } else {
      assert forall user :: user in after.byUser ==> after.byUser[user] != {} by {
        assert s.id in after.byUser[s.userId];
      }
    }
  }

  /** Removing a session that was read earlier keeps the maps inverse unless its ID has meanwhile gone to
      another user. */
  lemma RemovedKeepsInverseIff(tb: Tables, s: Session)
    requires Inverse(tb)
    ensures Inverse(Removed(tb, s)) <==> (s.id in tb.sessions ==> tb.sessions[s.id].userId == s.userId)
  {
    var after := Removed(tb, s);
    if s.id in tb.sessions && tb.sessions[s.id].userId != s.userId {
      var owner := tb.sessions[s.id].userId;
      assert s.id in tb.byUser[owner];
      assert s.id in after.byUser[owner];
    }
  }

  lemma UserDeletedKeepsInverse(tb: Tables, user: UserId)
    requires Inverse(tb)
    ensures Inverse(UserDeleted(tb, user))
    ensures forall id :: id in UserDeleted(tb, user).sessions <==> id in tb.sessions && tb.sessions[id].userId != user
  {
  }

  // ---- The store ----

  class MemorySessionStore {
    var sessions: map<SessionId, Session>
    var sessionsByUser: map<UserId, set<SessionId>>

    function Current(): Tables
      reads this
    {
      Tables(sessions, sessionsByUser)
    }

    constructor ()
      ensures Current() == EMPTY_TABLES
    {
      sessions, sessionsByUser := map[], map[];
    }

    method Create(session: Session)
      modifies this
      ensures Current() == Created(old(Current()), session)
      ensures sessions == old(sessions)[session.id := session]
    {
      sessions := sessions[session.id := session];
      if session.userId !in sessionsByUser {
        sessionsByUser := sessionsByUser[session.userId := {}];
      }
      sessionsByUser := sessionsByUser[session.userId := sessionsByUser[session.userId] + {session.id}];
    }

    // What the read lock of Get protects.
    method Read(id: SessionId) returns (found: Option<Session>)
      ensures found == if id in sessions then Some(sessions[id]) else None
    {
      found := if id in sessions then Some(sessions[id]) else None;
    }

    method RemoveLocked(session: Session)
      modifies this
      ensures Current() == Removed(old(Current()), session)
    {
      sessions := sessions - {session.id};
      if session.userId in sessionsByUser {
        var ids := sessionsByUser[session.userId] - {session.id};
        sessionsByUser := sessionsByUser[session.userId := ids];
        if ids == {} {
          sessionsByUser := sessionsByUser - {session.userId};
        }
      }
    }

    /** An unexpired session, without any change; an expired one is removed and reported missing. */
    method Get(id: SessionId, now: Instant) returns (r: Option<Session>)
      modifies this
      ensures r.Some? <==> id in old(sessions) && now <= old(sessions)[id].expiresAt
      ensures r.Some? ==> r.value == old(sessions)[id] && Current() == old(Current())
      ensures r.None? && id in old(sessions) ==> Current() == Removed(old(Current()), old(sessions)[id])
      ensures id !in old(sessions) ==> Current() == old(Current())
    {
      var found := Read(id);
      if found.None? {
        return None;
      }
      if found.value.IsExpired(now) {
        RemoveLocked(found.value);
        return None;
      }
      return found;
    }

    method Delete(id: SessionId)
      modifies this
      ensures Current() == Deleted(old(Current()), id)
    {
      if id in sessions {
        RemoveLocked(sessions[id]);
      }
    }

    method DeleteByUser(user: UserId)
      modifies this
      ensures Current() == UserDeleted(old(Current()), user)
    {
      var rest := if user in sessionsByUser then sessionsByUser[user] else {};
      ghost var bucket := rest;
      while rest != {}
        invariant rest <= bucket
        invariant sessions == old(sessions) - (bucket - rest)
        invariant sessionsByUser == old(sessionsByUser)
        decreases |rest|
      {
        var id :| id in rest;
        sessions := sessions - {id};
        rest := rest - {id};
      }
      sessionsByUser := sessionsByUser - {user};
    }
  }

  // ---- Interleavings ----

  /** The atomic steps of concurrent callers. Get is two of them: it reads, and later removes the copy it
      read if that had expired. */
  datatype Action =
    | Create(session: Session)
    | Delete(id: SessionId)
    | DeleteByUser(user: UserId)
    | GetRead(wanted: SessionId, at: Instant)
    | GetRemove(copy: Session)

  /** The maps, the copies that running Gets still have to remove, the IDs ever issued, and the clock. */
  datatype World = World(tables: Tables, expired: multiset<Session>, issued: set<SessionId>, now: Instant)

  ghost predicate Init(w: World) {
    w.tables == EMPTY_TABLES && w.expired == multiset{} && w.issued == {}
  }

  /** A session ID is issued at most once, and the clock does not run backwards. */
  ghost predicate Step(w: World, a: Action, w': World) {
    match a
    case Create(s) =>
      && s.id !in w.issued
      && w' == w.(tables := Created(w.tables, s), issued := w.issued + {s.id})
    case Delete(id) =>
      w' == w.(tables := Deleted(w.tables, id))
    case DeleteByUser(user) =>
      w' == w.(tables := UserDeleted(w.tables, user))
    case GetRead(id, at) =>
      && at >= w.now
      && w' == w.(now := at,
                  expired := if id in w.tables.sessions && w.tables.sessions[id].IsExpired(at)
                             then w.expired + multiset{w.tables.sessions[id]} else w.expired)
    case GetRemove(s) =>
      && s in w.expired
      && w' == w.(tables := Removed(w.tables, s), expired := w.expired - multiset{s})
  }

  ghost predicate Run(worlds: seq<World>, actions: seq<Action>) {
    && |worlds| == |actions| + 1
    && Init(worlds[0])
    && forall i :: 0 <= i < |actions| ==> Step(worlds[i], actions[i], worlds[i + 1])
  }

  /** What a Get that reads `id` at time `at` answers. */
  function Answer(tb: Tables, id: SessionId, at: Instant): Option<Session> {
    if id in tb.sessions && !tb.sessions[id].IsExpired(at) then Some(tb.sessions[id]) else None
  }

  function StandingAfter(before: Option<Session>, a: Action, id: SessionId): Option<Session> {
    match a
    case Create(s) => if s.id == id then Some(s) else before
    case Delete(gone) => if gone == id then None else before
    case DeleteByUser(user) => if before.Some? && before.value.userId == user then None else before
    case GetRead(_, _) => before
    case GetRemove(_) => before
  }

  /** The session an ID stands for after a history, going by creations and explicit deletions alone. */
  function Standing(actions: seq<Action>, id: SessionId): Option<Session> {
    if actions == [] then None
    else StandingAfter(Standing(actions[..|actions| - 1], id), actions[|actions| - 1], id)
  }

  // A stored session is the standing one, and a standing session is missing only after it has expired.
  predicate RowAgrees(w: World, id: SessionId, standing: Option<Session>) {
    && (id in w.tables.sessions ==> id in w.issued && standing == Some(w.tables.sessions[id]))
    && (id !in w.tables.sessions && standing.Some? ==> standing.value.IsExpired(w.now))
  }

  // A copy still to be removed has expired, and its ID stands for nothing else.
  predicate CopyAgrees(w: World, s: Session) {
    && s.id in w.issued && s.IsExpired(w.now)
    && (s.id in w.tables.sessions ==> w.tables.sessions[s.id] == s)
  }

  ghost predicate Inv(w: World, actions: seq<Action>) {
    && Inverse(w.tables)
    && (forall id :: RowAgrees(w, id, Standing(actions, id)))
    && (forall s :: s in w.expired ==> CopyAgrees(w, s))
  }

  lemma StepKeepsInverse(w: World, a: Action, w': World)
    requires Inverse(w.tables) && Step(w, a, w')
    requires a.Create? ==> a.session.id !in w.tables.sessions
    requires a.GetRemove? ==> CopyAgrees(w, a.copy)
    ensures Inverse(w'.tables)
  {
    hide Inverse;
    match a {
      case Create(s) => CreatedKeepsInverseIff(w.tables, s);
      case Delete(id) =>
        if id in w.tables.sessions {
          assert w.tables.sessions[id].id == id by { KeyedById(w.tables, id); }
          RemovedKeepsInverseIff(w.tables, w.tables.sessions[id]);
        }
      case DeleteByUser(user) => UserDeletedKeepsInverse(w.tables, user);
      case GetRead(id, at) =>
      case GetRemove(s) => RemovedKeepsInverseIff(w.tables, s);
    }
  }

  lemma KeyedById(tb: Tables, id: SessionId)
    requires Inverse(tb) && id in tb.sessions
    ensures tb.sessions[id].id == id
  {
  }

  // An indexed user has a session.
  lemma UserHasSession(tb: Tables, user: UserId)
    requires Inverse(tb)
    ensures user in tb.byUser ==> exists id :: id in tb.sessions && tb.sessions[id].userId == user
  {
    if user in tb.byUser {
      var id :| id in tb.byUser[user];
      assert id in tb.sessions;
    }
  }

  lemma StepKeepsRow(w: World, a: Action, w': World, id: SessionId, standing: Option<Session>)
    requires Inverse(w.tables) && Step(w, a, w')
    requires RowAgrees(w, id, standing)
    requires a.GetRemove? ==> CopyAgrees(w, a.copy)
    ensures RowAgrees(w', id, StandingAfter(standing, a, id))
  {
    match a {
      case DeleteByUser(user) =>
        UserDeletedKeepsInverse(w.tables, user);
      case Delete(gone) =>
        if gone in w.tables.sessions {
          KeyedById(w.tables, gone);
        }
      case _ =>
    }
  }

  lemma StepKeepsCopy(w: World, a: Action, w': World, s: Session)
    requires Inverse(w.tables) && Step(w, a, w')
    requires s in w'.expired
    requires s in w.expired ==> CopyAgrees(w, s)
    requires forall id :: id in w.tables.sessions ==> id in w.issued
    ensures CopyAgrees(w', s)
  {
    if a.GetRead? && s !in w.expired {
      KeyedById(w.tables, a.wanted);
    }
  }

  lemma StepKeepsInv(w: World, actions: seq<Action>, a: Action, w': World)
    requires Inv(w, actions) && Step(w, a, w')
    ensures Inv(w', actions + [a])
  {
    hide Inverse, Step, RowAgrees, CopyAgrees, Standing;
    assert a.Create? ==> a.session.id !in w.issued && a.session.id !in w.tables.sessions by {
      IssuedFirst(w, actions, a, w');
    }
    assert a.GetRemove? ==> a.copy in w.expired by {
      IssuedFirst(w, actions, a, w');
    }
    StepKeepsInverse(w, a, w');
    forall id ensures RowAgrees(w', id, Standing(actions + [a], id)) {
      assert RowAgrees(w, id, Standing(actions, id));
      StepKeepsRow(w, a, w', id, Standing(actions, id));
      StandingStep(actions, a, id);
    }
    forall s | s in w'.expired ensures CopyAgrees(w', s) {
      IssuedFirst(w, actions, a, w');
      StepKeepsCopy(w, a, w', s);
    }
  }

  lemma StandingStep(actions: seq<Action>, a: Action, id: SessionId)
    ensures Standing(actions + [a], id) == StandingAfter(Standing(actions, id), a, id)
  {
    assert (actions + [a])[..|actions|] == actions;
  }

  // What an invariant state says about the action that leaves it.
  lemma IssuedFirst(w: World, actions: seq<Action>, a: Action, w': World)
    requires Inv(w, actions) && Step(w, a, w')
    ensures forall id :: id in w.tables.sessions ==> id in w.issued
    ensures a.Create? ==> a.session.id !in w.issued
    ensures a.GetRemove? ==> a.copy in w.expired
  {
    hide Inverse, Standing;
    forall id | id in w.tables.sessions ensures id in w.issued {
      assert RowAgrees(w, id, Standing(actions, id));
    }
  }

  lemma {:induction false} RunKeepsInv(worlds: seq<World>, actions: seq<Action>)
    requires Run(worlds, actions)
    ensures Inv(worlds[|actions|], actions)
  {
    hide Inv, Step;
    if actions == [] {
      InitHasInv(worlds[0]);
    } else {
      var n := |actions| - 1;
      RunKeepsInv(worlds[..|actions|], actions[..n]);
      assert actions[..n] + [actions[n]] == actions;
      StepKeepsInv(worlds[n], actions[..n], actions[n], worlds[n + 1]);
    }
  }

  lemma InitHasInv(w: World)
    requires Init(w)
    ensures Inv(w, [])
  {
    forall id ensures RowAgrees(w, id, Standing([], id)) {
    }
  }

  /** In every interleaving the two maps are inverses of each other after every step. */
  lemma InverseAlways(worlds: seq<World>, actions: seq<Action>, k: nat)
    requires Run(worlds, actions) && k <= |actions|
    ensures Inverse(worlds[k].tables)
  {
    hide Inverse, Step;
    RunKeepsInv(worlds[..k + 1], actions[..k]);
  }

  /** In every interleaving Get answers exactly the session that was created under the ID and not deleted
      since, as long as it has not expired. */
  lemma GetAnswersHistory(worlds: seq<World>, actions: seq<Action>, id: SessionId, at: Instant)
    requires Run(worlds, actions) && at >= worlds[|actions|].now
    ensures Answer(worlds[|actions|].tables, id, at)
         == var s := Standing(actions, id); if s.Some? && at <= s.value.expiresAt then s else None
  {
    hide Standing, Inverse, Step;
    RunKeepsInv(worlds, actions);
    assert RowAgrees(worlds[|actions|], id, Standing(actions, id));
  }

  // After its sessions are deleted, a user has none standing until one is created.
  lemma {:induction false} NoneStanding(actions: seq<Action>, k: nat, user: UserId, id: SessionId)
    requires k < |actions| && actions[k] == DeleteByUser(user)
    requires forall i :: k < i < |actions| && actions[i].Create? ==> actions[i].session.userId != user
    ensures Standing(actions, id).Some? ==> Standing(actions, id).value.userId != user
  {
    if k < |actions| - 1 {
      NoneStanding(actions[..|actions| - 1], k, user, id);
    }
  }

  /** DeleteByUser leaves neither a session nor an index entry of the user, and however Gets in flight
      interleave none comes back before the next Create for that user. */
  lemma NothingLeftForUser(worlds: seq<World>, actions: seq<Action>, k: nat, user: UserId)
    requires Run(worlds, actions)
    requires k < |actions| && actions[k] == DeleteByUser(user)
    requires forall i :: k < i < |actions| && actions[i].Create? ==> actions[i].session.userId != user
    ensures user !in worlds[|actions|].tables.byUser
    ensures forall id :: id in worlds[|actions|].tables.sessions ==> worlds[|actions|].tables.sessions[id].userId != user
  {
    hide Standing, Step;
    RunKeepsInv(worlds, actions);
    var tb := worlds[|actions|].tables;
    forall id | id in tb.sessions ensures tb.sessions[id].userId != user {
      NoneStanding(actions, k, user, id);
      assert RowAgrees(worlds[|actions|], id, Standing(actions, id));
    }
    UserHasSession(tb, user);
  }
}
