/** The session store of packages/api/src/auth/session-store.js over whole runs: rotation, idle and absolute expiry.
    Times are milliseconds; hashing is injective and generated tokens are inputs. */
module Sessions {
  import opened Collections

  datatype Config = Config(idleTtlSeconds: int, absoluteTtlSeconds: int)

  datatype Hash = Sha256(token: string)

  datatype Session = Session(principalId: string, csrfToken: string, createdAt: int, lastSeenAt: int, rotationVersion: int)

  type Store = map<Hash, Session>

  function HashToken(token: string): Option<Hash> {
    if token == "" then None else Some(Sha256(token))
  }

  predicate IsExpired(cfg: Config, s: Session, now: int) {
    now - s.createdAt > cfg.absoluteTtlSeconds * 1000 || now - s.lastSeenAt > cfg.idleTtlSeconds * 1000
  }

  /** The session a token gives access to at `now`. */
  function Find(cfg: Config, store: Store, token: string, now: int): Option<Session> {
    var h := HashToken(token);
    if h.Some? && h.value in store && !IsExpired(cfg, store[h.value], now) then Some(store[h.value]) else None
  }

  function Forget(store: Store, token: string): Store {
    var h := HashToken(token);
    if h.None? then store else store - {h.value}
  }

  function Create(store: Store, token: string, principalId: string, csrf: string, now: int): Store {
    store[Sha256(token) := Session(principalId, csrf, now, now, 1)]
  }

  function Get(cfg: Config, store: Store, token: string, now: int): Store {
    var s := Find(cfg, store, token, now);
    if s.Some? then store[Sha256(token) := s.value.(lastSeenAt := now)] else Forget(store, token)
  }

  function Renew(s: Session, csrf: string, now: int): Session {
    s.(csrfToken := csrf, lastSeenAt := now, rotationVersion := (if s.rotationVersion == 0 then 1 else s.rotationVersion) + 1)
  }

  function Rotate(cfg: Config, store: Store, token: string, newToken: string, csrf: string, now: int): Store {
    var s := Find(cfg, store, token, now);
    if s.Some? then Forget(store, token)[Sha256(newToken) := Renew(s.value, csrf, now)] else Forget(store, token)
  }

  class MemorySessionStore {
    const cfg: Config
    var sessions: Store

    constructor (idleTtlSeconds: int, absoluteTtlSeconds: int)
      ensures cfg == Config(idleTtlSeconds, absoluteTtlSeconds) && sessions == map[]
    {
      cfg := Config(idleTtlSeconds, absoluteTtlSeconds);
      sessions := map[];
    }

    method CreateSession(principalId: string, rawToken: string, csrfToken: string, now: int) returns (session: Session)
      modifies this
      ensures sessions == Create(old(sessions), rawToken, principalId, csrfToken, now)
      ensures session == sessions[Sha256(rawToken)]
    {
      session := Session(principalId, csrfToken, now, now, 1);
      sessions := sessions[Sha256(rawToken) := session];
    }

    method GetSession(rawToken: string, now: int) returns (session: Option<Session>)
      modifies this
      ensures sessions == Get(cfg, old(sessions), rawToken, now)
      ensures session.Some? <==> Find(cfg, old(sessions), rawToken, now).Some?
      ensures session.Some? ==> session.value == sessions[Sha256(rawToken)]
    {
      var tokenHash := HashToken(rawToken);
      if tokenHash.None? { return None; }
      if tokenHash.value !in sessions { return None; }
      var found := sessions[tokenHash.value];
      if IsExpired(cfg, found, now) {
        sessions := sessions - {tokenHash.value};
        return None;
      }
      found := found.(lastSeenAt := now);
      sessions := sessions[tokenHash.value := found];
      return Some(found);
    }

    /** `None` stands for the error INVALID_SESSION. */
    method RotateSession(rawToken: string, newRawToken: string, csrfToken: string, now: int) returns (session: Option<Session>)
      modifies this
      ensures sessions == Rotate(cfg, old(sessions), rawToken, newRawToken, csrfToken, now)
      ensures session.Some? <==> Find(cfg, old(sessions), rawToken, now).Some?
      ensures session.Some? ==> session.value == sessions[Sha256(newRawToken)]
    {
      var tokenHash := HashToken(rawToken);
      if tokenHash.None? || tokenHash.value !in sessions || IsExpired(cfg, sessions[tokenHash.value], now) {
        if tokenHash.Some? { sessions := sessions - {tokenHash.value}; }
        return None;
      }
      var existing := sessions[tokenHash.value];
      sessions := sessions - {tokenHash.value};
      var renewed := Renew(existing, csrfToken, now);
      sessions := sessions[Sha256(newRawToken) := renewed];
      return Some(renewed);
    }

    method DestroySession(rawToken: string)
      modifies this
      ensures sessions == Forget(old(sessions), rawToken)
    {
      var tokenHash := HashToken(rawToken);
      if tokenHash.Some? { sessions := sessions - {tokenHash.value}; }
    }
  }

  // ---------------------------------------------------------------- lineages

  datatype Event =
    | Created(token: string, principalId: string, csrf: string, now: int)
    | Got(token: string, now: int)
    | RotatedTo(token: string, newToken: string, csrf: string, now: int)
    | Destroyed(token: string)

  /** What happened to one created session: when it was created and last used successfully, how often it was
      rotated, the CSRF token generated last, and the token it can be reached by, if any. */
  datatype Lineage = Lineage(principalId: string, csrf: string, born: int, used: int, rotations: nat, current: Option<string>)

  /** The store, and the history: the lineage of every issued token, by the token the session was created with. */
  datatype World = World(store: Store, origin: map<string, string>, lineages: map<string, Lineage>)

  const EMPTY_WORLD := World(map[], map[], map[])

  /** The lineage that `token` belonged to, after a call that lost or renewed it. */
  function Update(w: World, token: string, l: Lineage): map<string, Lineage>
    requires token in w.origin
  {
    w.lineages[w.origin[token] := l]
  }

  predicate IsCurrent(w: World, token: string) {
    token in w.origin && w.origin[token] in w.lineages && w.lineages[w.origin[token]].current == Some(token)
  }

  function LineageOf(w: World, token: string): Lineage
    requires IsCurrent(w, token)
  {
    w.lineages[w.origin[token]]
  }

  /** The history after a token was forgotten. */
  function Lost(w: World, token: string): map<string, Lineage> {
    if IsCurrent(w, token) then Update(w, token, LineageOf(w, token).(current := None)) else w.lineages
  }

  function Step(cfg: Config, w: World, e: Event): World {
    match e
    case Created(token, principalId, csrf, now) =>
      World(Create(w.store, token, principalId, csrf, now), w.origin[token := token],
            w.lineages[token := Lineage(principalId, csrf, now, now, 0, Some(token))])
    case Got(token, now) =>
      w.(store := Get(cfg, w.store, token, now),
         lineages := if Find(cfg, w.store, token, now).Some? && IsCurrent(w, token)
                     then Update(w, token, LineageOf(w, token).(used := now)) else Lost(w, token))
    case RotatedTo(token, newToken, csrf, now) =>
      if Find(cfg, w.store, token, now).Some? && IsCurrent(w, token) then
        var l := LineageOf(w, token);
        World(Rotate(cfg, w.store, token, newToken, csrf, now), w.origin[newToken := w.origin[token]],
              Update(w, token, l.(csrf := csrf, used := now, rotations := l.rotations + 1, current := Some(newToken))))
      else w.(store := Rotate(cfg, w.store, token, newToken, csrf, now), lineages := Lost(w, token))
    case Destroyed(token) =>
      w.(store := Forget(w.store, token), lineages := Lost(w, token))
  }

  /** Newly generated tokens are not empty and were never issued before. */
  predicate IsFresh(w: World, e: Event) {
    match e
    case Created(token, _, _, _) => token != "" && token !in w.origin
    case RotatedTo(_, newToken, _, _) => newToken != "" && newToken !in w.origin
    case _ => true
  }

  predicate IsRun(cfg: Config, w: World, events: seq<Event>)
    decreases |events|
  {
    events == [] || (IsFresh(w, events[0]) && IsRun(cfg, Step(cfg, w, events[0]), events[1..]))
  }

  function Run(cfg: Config, w: World, events: seq<Event>): World
    decreases |events|
  {
    if events == [] then w else Run(cfg, Step(cfg, w, events[0]), events[1..])
  }

  /** Every issued token belongs to a lineage, and every lineage is named by the token it started with. */
  ghost predicate OriginsOk(w: World) {
    && (forall t :: t in w.origin ==> t != "" && w.origin[t] in w.lineages)
    && (forall o :: o in w.lineages ==> o in w.origin && w.origin[o] == o)
  }

  /** The current token of a lineage is stored. */
  ghost predicate CurrentsOk(w: World) {
    forall o :: o in w.lineages && w.lineages[o].current.Some? ==>
      var t := w.lineages[o].current.value; t in w.origin && w.origin[t] == o && Sha256(t) in w.store
  }

  predicate Matches(s: Session, l: Lineage) {
    s.principalId == l.principalId && s.csrfToken == l.csrf && s.createdAt == l.born && s.lastSeenAt == l.used && s.rotationVersion == 1 + l.rotations
  }

  /** What is stored is the current token of its lineage, with what the history says. */
  ghost predicate RecordsOk(w: World) {
    forall h :: h in w.store ==> IsCurrent(w, h.token) && Matches(w.store[h], LineageOf(w, h.token))
  }

  ghost predicate Inv(w: World) {
    OriginsOk(w) && CurrentsOk(w) && RecordsOk(w)
  }

  lemma ForgetKeepsInv(w: World, token: string)
    requires Inv(w)
    ensures Inv(w.(store := Forget(w.store, token), lineages := Lost(w, token)))
  {
    var w' := w.(store := Forget(w.store, token), lineages := Lost(w, token));
    assert OriginsOk(w') by { hide CurrentsOk, RecordsOk; }
    assert CurrentsOk(w') by { hide RecordsOk; }
    assert RecordsOk(w') by { hide CurrentsOk; }
    hide OriginsOk, CurrentsOk, RecordsOk, Forget, Lost;
  }

  lemma CreateKeepsInv(cfg: Config, w: World, token: string, principalId: string, csrf: string, now: int)
    requires Inv(w) && token != "" && token !in w.origin
    ensures Inv(Step(cfg, w, Created(token, principalId, csrf, now)))
  {
    var w' := Step(cfg, w, Created(token, principalId, csrf, now));
    assert OriginsOk(w') by { hide CurrentsOk, RecordsOk; }
    assert CurrentsOk(w') by { hide RecordsOk; }
    assert RecordsOk(w') by { hide CurrentsOk; }
    hide OriginsOk, CurrentsOk, RecordsOk, Step;
  }

  /** A token that gives access is the current one of its lineage. */
  lemma FoundIsCurrent(cfg: Config, w: World, token: string, now: int)
    requires Inv(w) && Find(cfg, w.store, token, now).Some?
    ensures IsCurrent(w, token) && Matches(w.store[Sha256(token)], LineageOf(w, token))
  {
    assert IsCurrent(w, Sha256(token).token);
    hide OriginsOk, CurrentsOk;
  }

  lemma UseKeepsInv(cfg: Config, w: World, token: string, now: int)
    requires Inv(w) && Find(cfg, w.store, token, now).Some?
    ensures Inv(Step(cfg, w, Got(token, now)))
  {
    FoundIsCurrent(cfg, w, token, now);
    var w' := Step(cfg, w, Got(token, now));
    hide IsExpired, Forget, Lost;
    assert OriginsOk(w') by { hide CurrentsOk, RecordsOk; }
    assert CurrentsOk(w') by { hide RecordsOk; }
    assert RecordsOk(w') by { hide CurrentsOk; }
    hide OriginsOk, CurrentsOk, RecordsOk, Step, Find;
  }

  lemma RotateKeepsInv(cfg: Config, w: World, token: string, newToken: string, csrf: string, now: int)
    requires Inv(w) && Find(cfg, w.store, token, now).Some? && newToken != "" && newToken !in w.origin
    ensures Inv(Step(cfg, w, RotatedTo(token, newToken, csrf, now)))
  {
    FoundIsCurrent(cfg, w, token, now);
    var w' := Step(cfg, w, RotatedTo(token, newToken, csrf, now));
    hide IsExpired, Lost;
    assert OriginsOk(w') by { hide CurrentsOk, RecordsOk; }
    assert CurrentsOk(w') by { hide RecordsOk; }
    assert RecordsOk(w') by { hide CurrentsOk; }
    hide OriginsOk, CurrentsOk, RecordsOk, Step, Find;
  }

  lemma StepKeepsInv(cfg: Config, w: World, e: Event)
    requires Inv(w) && IsFresh(w, e)
    ensures Inv(Step(cfg, w, e))
  {
    hide Inv, Find, Forget, Lost, IsCurrent;
    match e
    case Created(token, principalId, csrf, now) => CreateKeepsInv(cfg, w, token, principalId, csrf, now);
    case Destroyed(token) => ForgetKeepsInv(w, token);
    case Got(token, now) =>
      if Find(cfg, w.store, token, now).Some? { UseKeepsInv(cfg, w, token, now); } else { ForgetKeepsInv(w, token); }
    case RotatedTo(token, newToken, csrf, now) =>
      if Find(cfg, w.store, token, now).Some? {
        RotateKeepsInv(cfg, w, token, newToken, csrf, now);
      } else {
        ForgetKeepsInv(w, token);
      }
  }

  lemma {:induction false} RunKeepsInv(cfg: Config, w: World, events: seq<Event>)
    requires Inv(w) && IsRun(cfg, w, events)
    ensures Inv(Run(cfg, w, events))
    decreases |events|
  {
    hide Inv, Step;
    if events != [] {
      StepKeepsInv(cfg, w, events[0]);
      RunKeepsInv(cfg, Step(cfg, w, events[0]), events[1..]);
    }
  }

  /** At most one token is live per created session, however the session was used and rotated. */
  lemma OneLiveToken(cfg: Config, events: seq<Event>, t: string, u: string)
    requires IsRun(cfg, EMPTY_WORLD, events)
    requires var w := Run(cfg, EMPTY_WORLD, events);
      Sha256(t) in w.store && Sha256(u) in w.store && t in w.origin && u in w.origin && w.origin[t] == w.origin[u]
    ensures t == u
  {
    assert Inv(EMPTY_WORLD);
    RunKeepsInv(cfg, EMPTY_WORLD, events);
    var w := Run(cfg, EMPTY_WORLD, events);
    hide Run, IsRun;
    assert IsCurrent(w, Sha256(t).token) && IsCurrent(w, Sha256(u).token);
  }

  /** Later than the absolute TTL after creation, or than the idle TTL after the last use. */
  predicate PastItsTime(cfg: Config, l: Lineage, now: int) {
    now > l.born + cfg.absoluteTtlSeconds * 1000 || now > l.used + cfg.idleTtlSeconds * 1000
  }

  /** A token gives access exactly while it is the current one of its lineage, no later than the absolute TTL after
      the session was created and no later than the idle TTL after it was last used, and access is always to the
      principal the session was created for, with the CSRF token generated last. */
  lemma AccessIff(cfg: Config, events: seq<Event>, token: string, now: int)
    requires IsRun(cfg, EMPTY_WORLD, events)
    ensures var w := Run(cfg, EMPTY_WORLD, events); var found := Find(cfg, w.store, token, now);
      && (found.Some? <==> IsCurrent(w, token) && !PastItsTime(cfg, LineageOf(w, token), now))
      && (found.Some? ==> found.value.principalId == LineageOf(w, token).principalId
                          && found.value.csrfToken == LineageOf(w, token).csrf
                          && found.value.rotationVersion == 1 + LineageOf(w, token).rotations)
  {
    assert Inv(EMPTY_WORLD);
    RunKeepsInv(cfg, EMPTY_WORLD, events);
    var w := Run(cfg, EMPTY_WORLD, events);
    hide Run, IsRun;
    if Sha256(token) in w.store { assert IsCurrent(w, Sha256(token).token); }
  }

  // ---------------------------------------------------------------- no way back

  /** The token was issued and is not live. */
  predicate IsDead(w: World, token: string) {
    token in w.origin && Sha256(token) !in w.store
  }

  lemma StepKeepsDead(cfg: Config, w: World, e: Event, token: string)
    requires IsFresh(w, e) && IsDead(w, token)
    ensures IsDead(Step(cfg, w, e), token)
  {}

  /** A token that was rotated away, destroyed or found expired never gives access again. */
  lemma {:induction false} DeadStaysDead(cfg: Config, w: World, events: seq<Event>, token: string, now: int)
    requires IsDead(w, token) && IsRun(cfg, w, events)
    ensures IsDead(Run(cfg, w, events), token) && Find(cfg, Run(cfg, w, events).store, token, now) == None
    decreases |events|
  {
    if events != [] {
      StepKeepsDead(cfg, w, events[0], token);
      hide Step, IsDead, Find;
      DeadStaysDead(cfg, Step(cfg, w, events[0]), events[1..], token, now);
    }
  }

  /** Rotating kills the old token. */
  lemma RotationKills(cfg: Config, w: World, token: string, newToken: string, csrf: string, now: int)
    requires Inv(w) && IsFresh(w, RotatedTo(token, newToken, csrf, now)) && token in w.origin
    ensures IsDead(Step(cfg, w, RotatedTo(token, newToken, csrf, now)), token)
  {}

  /** The clock reads at least `now`. */
  predicate IsAfter(e: Event, now: int) {
    e.Destroyed? || e.now >= now
  }

  lemma StepKeepsExpired(cfg: Config, w: World, e: Event, origin: string, now: int)
    requires Inv(w) && IsFresh(w, e) && IsAfter(e, now)
    requires origin in w.lineages && PastItsTime(cfg, w.lineages[origin], now)
    ensures var w' := Step(cfg, w, e);
      && origin in w'.lineages
      && w'.lineages[origin].born == w.lineages[origin].born && w'.lineages[origin].used == w.lineages[origin].used
  {
    if !e.Created? && Sha256(e.token) in w.store { assert IsCurrent(w, Sha256(e.token).token); }
  }

  /** A session past one of its TTLs is never used again: no later call renews it, whatever token is presented. */
  lemma {:induction false} ExpiredStaysExpired(cfg: Config, w: World, events: seq<Event>, origin: string, now: int)
    requires Inv(w) && IsRun(cfg, w, events) && forall e :: e in events ==> IsAfter(e, now)
    requires origin in w.lineages && PastItsTime(cfg, w.lineages[origin], now)
    ensures var r := Run(cfg, w, events);
      origin in r.lineages && r.lineages[origin].used == w.lineages[origin].used && PastItsTime(cfg, r.lineages[origin], now)
    decreases |events|
  {
    if events != [] {
      var e := events[0];
      assert e in events;
      StepKeepsExpired(cfg, w, e, origin, now);
      StepKeepsInv(cfg, w, e);
      hide Step, Inv;
      ExpiredStaysExpired(cfg, Step(cfg, w, e), events[1..], origin, now);
    }
  }
}
