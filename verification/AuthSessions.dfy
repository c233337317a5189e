/** The table of authentication sessions and its index by OAuth state. */
module AuthSessions {
  import opened Common
  import opened RateLimiting

  type Id = string
  type State = string

  datatype AuthSession = AuthSession(id: Id, state: Option<State>, email: Option<string>, expiresAt: real)

  datatype Store = Store(sessions: map<Id, AuthSession>, byState: map<State, Id>)

  function Created(st: Store, id: Id, state: State, expiresAt: real): Store {
    Store(st.sessions[id := AuthSession(id, Some(state), None, expiresAt)], st.byState[state := id])
  }

  function Updated(st: Store, session: AuthSession): Store {
    if session.id in st.sessions then st.(sessions := st.sessions[session.id := session]) else st
  }

  /** The OAuth states the given sessions have now. */
  function StatesOf(st: Store, ids: set<Id>): set<State> {
    set id | id in ids && id in st.sessions && st.sessions[id].state.Some? :: st.sessions[id].state.value
  }

  /** Sessions are removed together with the index entries of the states they have now. */
  function Dropped(st: Store, ids: set<Id>): Store {
    Store(st.sessions - ids, st.byState - StatesOf(st, ids))
  }

  function Lookup(st: Store, state: State): Option<AuthSession> {
    if state in st.byState && st.byState[state] in st.sessions then Some(st.sessions[st.byState[state]]) else None
  }

  function WithEmail(st: Store, email: string): set<Id> {
    set id | id in st.sessions && st.sessions[id].email == Some(email)
  }

  function Expired(st: Store, now: real): set<Id> {
    set id | id in st.sessions && now > st.sessions[id].expiresAt
  }

  // ---------------------------------------------------------------- the index over every run

  datatype Event =
    | Create(id: Id, state: State, expiresAt: real)
    | Update(session: AuthSession)
    | Remove(id: Id)
    | RemoveUser(email: string)
    | Cleanup(now: real)

  /** The store, and which session was created with each OAuth state. */
  datatype History = History(st: Store, origin: map<State, Id>)

  function Step(h: History, e: Event): History {
    match e
    case Create(id, state, expiresAt) => History(Created(h.st, id, state, expiresAt), h.origin[state := id])
    case Update(session) => h.(st := Updated(h.st, session))
    case Remove(id) => h.(st := Dropped(h.st, {id}))
    case RemoveUser(email) => h.(st := Dropped(h.st, WithEmail(h.st, email)))
    case Cleanup(now) => h.(st := Dropped(h.st, Expired(h.st, now)))
  }

  /** Ids and states are drawn afresh, and an update keeps the OAuth state or clears it. */
  predicate Disciplined(h: History, e: Event) {
    match e
    case Create(id, state, _) => state !in h.origin && id !in h.origin.Values
    case Update(session) =>
      session.id in h.st.sessions && session.state.Some? ==> session.state == h.st.sessions[session.id].state
    case _ => true
  }

  function Run(es: seq<Event>): History {
    if es == [] then History(Store(map[], map[]), map[]) else Step(Run(es[..|es| - 1]), es[|es| - 1])
  }

  predicate DisciplinedRun(es: seq<Event>) {
    es == [] || (DisciplinedRun(es[..|es| - 1]) && Disciplined(Run(es[..|es| - 1]), es[|es| - 1]))
  }

  /** Index entries point where they were created to point, sessions are stored under their own id, and
      their OAuth state is the one they were created with, if they still have one. */
  ghost predicate Sound(h: History) {
    && (forall s | s in h.st.byState :: s in h.origin && h.origin[s] == h.st.byState[s])
    && (forall id | id in h.st.sessions :: h.st.sessions[id].id == id && id in h.origin.Values)
    && (forall s, s' | s in h.origin && s' in h.origin && h.origin[s] == h.origin[s'] :: s == s')
  }

  ghost predicate OwnStates(h: History) {
    forall id | id in h.st.sessions && h.st.sessions[id].state.Some? ::
      var s := h.st.sessions[id].state.value;
      s in h.origin && h.origin[s] == id
  }

  /** Every stored session is still indexed under the state it was created with. */
  ghost predicate Indexed(h: History) {
    forall s | s in h.origin && h.origin[s] in h.st.sessions :: s in h.st.byState && h.st.byState[s] == h.origin[s]
  }

  /** Removing sessions keeps the index of the others exactly if no removed session has taken the state
      that a kept session was created with. */
  lemma RemovalKeepsIndexIff(h: History, ids: set<Id>)
    requires Sound(h) && Indexed(h) && ids <= h.st.sessions.Keys
    ensures Indexed(h.(st := Dropped(h.st, ids)))
            <==> forall s | s in h.origin && h.origin[s] in h.st.sessions.Keys - ids :: s !in StatesOf(h.st, ids)
  {
    var h' := h.(st := Dropped(h.st, ids));
    forall s | s in h.origin && h.origin[s] in h.st.sessions.Keys - ids
      ensures s in h'.st.byState <==> s !in StatesOf(h.st, ids)
      ensures s in h'.st.byState ==> h'.st.byState[s] == h.origin[s]
    {
    }
  }

  lemma DropKeeps(h: History, ids: set<Id>)
    requires Sound(h) && OwnStates(h) && Indexed(h)
    ensures var h' := h.(st := Dropped(h.st, ids));
            Sound(h') && OwnStates(h') && Indexed(h')
  {
    assert Dropped(h.st, ids) == Dropped(h.st, ids * h.st.sessions.Keys);
    RemovalKeepsIndexIff(h, ids * h.st.sessions.Keys);
  }

  lemma CreateKeeps(h: History, id: Id, state: State, expiresAt: real)
    requires Sound(h) && OwnStates(h) && Indexed(h) && Disciplined(h, Create(id, state, expiresAt))
    ensures var h' := Step(h, Create(id, state, expiresAt));
            Sound(h') && OwnStates(h') && Indexed(h')
  {
    var h' := Step(h, Create(id, state, expiresAt));
    assert h'.origin[state] == id;
    forall i | i in h'.st.sessions
      ensures i in h'.origin.Values
    {
      if i != id {
        var s :| s in h.origin && h.origin[s] == i;
        assert h'.origin[s] == i;
      }
    }
  }

  lemma StepKeeps(h: History, e: Event)
    requires Sound(h) && OwnStates(h) && Indexed(h) && Disciplined(h, e)
    ensures var h' := Step(h, e);
            Sound(h') && OwnStates(h') && Indexed(h')
  {
    match e
    case Create(id, state, expiresAt) => CreateKeeps(h, id, state, expiresAt);
    case Update(session) =>
    case Remove(id) => DropKeeps(h, {id});
    case RemoveUser(email) => DropKeeps(h, WithEmail(h.st, email));
    case Cleanup(now) => DropKeeps(h, Expired(h.st, now));
  }

  lemma {:induction false} RunKeeps(es: seq<Event>)
    requires DisciplinedRun(es)
    ensures Sound(Run(es)) && OwnStates(Run(es)) && Indexed(Run(es))
  {
    if es != [] {
      RunKeeps(es[..|es| - 1]);
      StepKeeps(Run(es[..|es| - 1]), es[|es| - 1]);
    }
  }

  /** Over every run in which updates only ever clear OAuth states: looking up a state finds the session
      that was created with it, as it is now, exactly as long as that session is stored, and nothing else. */
  lemma LookupExact(es: seq<Event>, s: State)
    requires DisciplinedRun(es)
    ensures var h := Run(es);
            Lookup(h.st, s) == if s in h.origin && h.origin[s] in h.st.sessions then Some(h.st.sessions[h.origin[s]])
                               else None
  {
    RunKeeps(es);
  }

  /** An update that takes over another session's state breaks this: removing the second session then
      hides the first. */
  lemma TakenStateHidesASession()
    ensures var es := [Create("1", "a", 9.0), Create("2", "b", 9.0),
                       Update(AuthSession("2", Some("a"), None, 9.0)), Remove("2")];
            "a" in Run(es).origin && Run(es).origin["a"] in Run(es).st.sessions && Lookup(Run(es).st, "a").None?
  {
    var es := [Create("1", "a", 9.0), Create("2", "b", 9.0), Update(AuthSession("2", Some("a"), None, 9.0)), Remove("2")];
    assert es[..3][..2] == es[..2] && es[..2][..1] == es[..1] && es[..1][..0] == [];
    var h := Run(es[..3]);
    assert Run(es[..1]).st == Store(map["1" := AuthSession("1", Some("a"), None, 9.0)], map["a" := "1"]);
    assert "2" in Run(es[..2]).st.sessions;
    assert h.st.sessions["2"].state == Some("a") && h.st.sessions["1"].state == Some("a");
    assert "a" in StatesOf(h.st, {"2"});
  }

  /** What each event does to a stored session: creation stores it without an e-mail, removal takes exactly the
      named one, that of a user exactly those with the e-mail, the cleanup exactly those past their expiry. */
  lemma RemovedIff(h: History, e: Event, id: Id)
    requires !e.Update?
    ensures var before, after := h.st.sessions, Step(h, e).st.sessions;
            && (id in after <==>
                  match e
                  case Create(added, _, _) => id in before || id == added
                  case Remove(gone) => id in before && id != gone
                  case RemoveUser(email) => id in before && before[id].email != Some(email)
                  case Cleanup(now) => id in before && before[id].expiresAt >= now
                  case Update(_) => true)
            && (id in after && !(e.Create? && e.id == id) ==> after[id] == before[id])
            && (e.Create? && e.id == id ==> after[id] == AuthSession(id, Some(e.state), None, e.expiresAt))
  {
  }

  // ---------------------------------------------------------------- the manager

  /** The limiter's history with one more check of `key`. */
  function Checked(history: map<Key, seq<real>>, key: Key, now: real): (h: map<Key, seq<real>>)
    ensures key in h
  {
    history[key := Log(history, key) + [now]]
  }

  lemma {:induction false} RemovedCount(sessions: map<Id, AuthSession>, ids: set<Id>)
    requires ids <= sessions.Keys
    ensures |sessions - ids| == |sessions| - |ids|
  {
    var rest := sessions - ids;
    assert rest.Keys == sessions.Keys - ids;
    assert |rest| == |rest.Keys| && |sessions| == |sessions.Keys|;
  }

  lemma DropOneMore(st: Store, ids: set<Id>, id: Id)
    requires id in st.sessions && id !in ids
    ensures var d, d', state := Dropped(st, ids), Dropped(st, ids + {id}), st.sessions[id].state;
            && id in d.sessions && d.sessions[id] == st.sessions[id]
            && d'.sessions == d.sessions - {id}
            && d'.byState == if state.Some? then d.byState - {state.value} else d.byState
  {
    assert StatesOf(st, ids + {id}) == StatesOf(st, ids) + StatesOf(st, {id});
  }

  class AuthSessionManager {
    var sessions: map<Id, AuthSession>
    var byState: map<State, Id>
    const isUuid: Id -> bool
    const limiter: RateLimiter

    ghost function Contents(): Store
      reads this
    {
      Store(sessions, byState)
    }

    constructor (isUuid: Id -> bool)
      ensures Contents() == Store(map[], map[]) && this.isUuid == isUuid
      ensures fresh(limiter) && limiter.Valid() && limiter.limit == 100 && limiter.window == 60.0
    {
      sessions, byState, this.isUuid := map[], map[], isUuid;
      limiter := new RateLimiter(100, 60.0);
    }

    method CreateSession(id: Id, state: State, expiresAt: real)
      modifies this
      ensures Contents() == Created(old(Contents()), id, state, expiresAt)
    {
      byState := byState[state := id];
      sessions := sessions[id := AuthSession(id, Some(state), None, expiresAt)];
    }

    method UpdateSession(session: AuthSession) returns (found: bool)
      modifies this
      ensures found == (session.id in old(sessions)) && Contents() == Updated(old(Contents()), session)
    {
      if session.id !in sessions {
        return false;
      }
      sessions := sessions[session.id := session];
      return true;
    }

    method RemoveSession(id: Id) returns (removed: Option<AuthSession>)
      modifies this
      ensures removed == if id in old(sessions) then Some(old(sessions)[id]) else None
      ensures Contents() == Dropped(old(Contents()), {id})
    {
      if id !in sessions {
        assert sessions - {id} == sessions && StatesOf(Contents(), {id}) == {};
        return None;
      }
      var session := sessions[id];
      sessions := sessions - {id};
      if session.state.Some? {
        byState := byState - {session.state.value};
      }
      return Some(session);
    }

    method RemoveUserSessions(email: string) returns (count: nat)
      modifies this
      ensures count == |WithEmail(old(Contents()), email)|
      ensures Contents() == Dropped(old(Contents()), WithEmail(old(Contents()), email))
    {
      var doomed := set id | id in sessions && sessions[id].email == Some(email);
      count := |doomed|;
      RemoveAll(doomed);
    }

    method CleanupExpired(now: real) returns (count: nat)
      modifies this
      ensures count == |Expired(old(Contents()), now)|
      ensures Contents() == Dropped(old(Contents()), Expired(old(Contents()), now))
    {
      var doomed := set id | id in sessions && now > sessions[id].expiresAt;
      var before := |sessions|;
      RemovedCount(sessions, doomed);
      RemoveAll(doomed);
      return before - |sessions|;
    }

    method RemoveAll(doomed: set<Id>)
      requires doomed <= sessions.Keys
      modifies this
      ensures Contents() == Dropped(old(Contents()), doomed)
    {
      ghost var st := Contents();
      var left := doomed;
      while left != {}
        invariant left <= doomed && Contents() == Dropped(st, doomed - left)
        decreases left
      {
        var id :| id in left;
        DropOneMore(st, doomed - left, id);
        assert doomed - (left - {id}) == doomed - left + {id};
        var session := sessions[id];
        hide Dropped;
        sessions := sessions - {id};
        if session.state.Some? {
          byState := byState - {session.state.value};
        }
        left := left - {id};
      }
      assert doomed - left == doomed;
    }

    /** A lookup by id, counted against the client's address or, without one, against the id. */
    method GetSession(now: real, id: Id, client: Option<Key>) returns (r: Option<AuthSession>)
      requires limiter.Valid() && limiter.clock <= now
      modifies limiter
      ensures limiter.Valid() && limiter.clock == now
      ensures var key := if client.Some? then client.value else id;
              var ts := Log(old(limiter.history), key) + [now];
              && limiter.history == old(limiter.history)[key := ts]
              && r == if Allowed(limiter.window, limiter.limit, ts) && isUuid(id) && id in sessions then Some(sessions[id])
                      else None
    {
      var allowed := limiter.Check(now, if client.Some? then client.value else id);
      if !allowed || !isUuid(id) || id !in sessions {
        return None;
      }
      return Some(sessions[id]);
    }

    /** A lookup by OAuth state finds what the index says or nothing, and is counted twice. */
    method GetSessionByState(now: real, state: State, client: Option<Key>) returns (r: Option<AuthSession>)
      requires limiter.Valid() && limiter.clock <= now
      modifies limiter
      ensures limiter.Valid() && limiter.clock == now
      ensures r.Some? ==> r == Lookup(Contents(), state)
      ensures var first := Checked(old(limiter.history), if client.Some? then client.value else state, now);
              limiter.history
              == if Allowed(limiter.window, limiter.limit, first[if client.Some? then client.value else state])
                    && state in byState
                 then Checked(first, if client.Some? then client.value else byState[state], now)
                 else first
      ensures client.Some? ==>
                var before := Log(old(limiter.history), client.value);
                r == if && Allowed(limiter.window, limiter.limit, before + [now])
                        && Allowed(limiter.window, limiter.limit, before + [now, now])
                        && state in byState && isUuid(byState[state])
                     then Lookup(Contents(), state) else None
    {
      var allowed := limiter.Check(now, if client.Some? then client.value else state);
      if !allowed || state !in byState {
        return None;
      }
      ghost var before := Log(old(limiter.history), if client.Some? then client.value else state);
      assert before + [now] + [now] == before + [now, now];
      r := GetSession(now, byState[state], client);
    }
  }
}
