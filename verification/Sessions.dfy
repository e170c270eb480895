/** Session limits: the two counters under their mutex, and the connection handlers that acquire and
    release a session around their work. */
module Sessions {

  /** The limits of the configuration. */
  datatype Limits = Limits(sessions: int, perUser: int)

  datatype Counters = Counters(total: int, perUser: map<int, int>)

  /** Reading a user who is not in the map gives zero. */
  function CountOf(c: Counters, user: int): (r: int) {
    if user in c.perUser then c.perUser[user] else 0
  }

  predicate AtLimit(c: Counters, limits: Limits, user: int) {
    c.total >= limits.sessions || CountOf(c, user) >= limits.perUser
  }

  function Acquired(c: Counters, user: int): (r: Counters) {
    Counters(c.total + 1, c.perUser[user := CountOf(c, user) + 1])
  }

  function Released(c: Counters, user: int): (r: Counters) {
    var left := CountOf(c, user) - 1;
    Counters(c.total - 1, if left <= 0 then c.perUser - {user} else c.perUser[user := left])
  }

  /** The counters count exactly the sessions that are held: one per user and session, no zero entries. */
  ghost predicate Counted(c: Counters, holders: multiset<int>) {
    c.total == |holders| && c.perUser.Keys == (set user | user in holders)
    && forall user :: user in c.perUser ==> c.perUser[user] == holders[user]
  }

  class Server {
    const limits: Limits
    var total: int
    var perUser: map<int, int>
    /** The users of the sessions that were acquired and not yet released. */
    ghost var holders: multiset<int>

    ghost function Counts(): (r: Counters)
      reads this
    {
      Counters(total, perUser)
    }

    ghost predicate Valid()
      reads this
    {
      Counted(Counts(), holders)
    }

    constructor (limits: Limits)
      ensures this.limits == limits && Valid() && holders == multiset{} && Counts() == Counters(0, map[])
    {
      this.limits, total, perUser, holders := limits, 0, map[], multiset{};
    }

    /** Refused exactly if the sessions of all users, or those of this one, are at their limit. */
    method Acquire(user: int) returns (ok: bool)
      requires Valid()
      modifies this
      ensures Valid() && holders == old(holders) + if ok then multiset{user} else multiset{}
      ensures ok <==> |old(holders)| < limits.sessions && old(holders)[user] < limits.perUser
      ensures Counts() == if ok then Acquired(old(Counts()), user) else old(Counts())
    {
      var count := if user in perUser then perUser[user] else 0;
      assert count == holders[user];
      if total >= limits.sessions || count >= limits.perUser {
        return false;
      }
      total := total + 1;
      perUser := perUser[user := count + 1];
      holders := holders + multiset{user};
      ok := true;
    }

    /** One session of the user less; nobody calls it for a user who holds none. */
    method Release(user: int)
      requires Valid()
      modifies this
      ensures user in old(holders) ==> Valid() && holders == old(holders) - multiset{user}
      ensures Counts() == Released(old(Counts()), user)
    {
      total := total - 1;
      var count := if user in perUser then perUser[user] else 0;
      perUser := perUser[user := count - 1];
      if perUser[user] <= 0 {
        assert perUser - {user} == old(perUser) - {user};
        perUser := perUser - {user};
      } else {
        assert perUser == old(perUser)[user := count - 1];
      }
      holders := holders - multiset{user};
      assert user in old(holders) ==> |holders| == |old(holders)| - 1;
    }
  }

  /** Releasing undoes acquiring. */
  lemma ReleaseUndoesAcquire(c: Counters, user: int)
    requires forall u :: u in c.perUser ==> c.perUser[u] > 0
    ensures Released(Acquired(c, user), user) == c
  {
    var after := Released(Acquired(c, user), user);
    if user in c.perUser {
      assert after.perUser == c.perUser;
    } else {
      assert c.perUser[user := 1] - {user} == c.perUser;
    }
  }

  // ---------- the handlers ----------

  /** handle, handleRouted and handleDirectTCPIP. */
  datatype Kind = Interactive | Routed | Forward

  datatype Phase = Arrived | Serving | Gone

  /** acquires and releases count the handler's successful and completed calls. */
  datatype Handler = Handler(kind: Kind, user: int, phase: Phase, acquires: nat, releases: nat)

  datatype State = State(counters: Counters, handlers: map<nat, Handler>)

  const INITIAL := State(Counters(0, map[]), map[])

  datatype Action =
    | Arrive(h: nat, kind: Kind, user: int)
    | TurnAway(h: nat)  // no terminal, or forwarding is denied: before acquire
    | Acquire(h: nat)   // and leave if it is refused
    | Leave(h: nat)     // the deferred release, however the work ended

  /** A routed session acquires first of all. */
  function Step(limits: Limits, s: State, a: Action): (r: (State, bool)) {
    match a
    case Arrive(h, kind, user) =>
      if h in s.handlers then (s, false)
      else (s.(handlers := s.handlers[h := Handler(kind, user, Arrived, 0, 0)]), true)
    case TurnAway(h) =>
      if h !in s.handlers || !s.handlers[h].phase.Arrived? || s.handlers[h].kind.Routed? then (s, false)
      else (s.(handlers := s.handlers[h := s.handlers[h].(phase := Gone)]), true)
    case Acquire(h) =>
      if h !in s.handlers || !s.handlers[h].phase.Arrived? then (s, false)
      else
        var handler := s.handlers[h];
        if AtLimit(s.counters, limits, handler.user) then
          (s.(handlers := s.handlers[h := handler.(phase := Gone)]), true)
        else
          (State(Acquired(s.counters, handler.user),
            s.handlers[h := handler.(phase := Serving, acquires := handler.acquires + 1)]), true)
    case Leave(h) =>
      if h !in s.handlers || !s.handlers[h].phase.Serving? then (s, false)
      else
        var handler := s.handlers[h];
        (State(Released(s.counters, handler.user),
          s.handlers[h := handler.(phase := Gone, releases := handler.releases + 1)]), true)
  }

  function Run(limits: Limits, s: State, actions: seq<Action>): (r: State)
    decreases |actions|
  {
    if actions == [] then s else Run(limits, Step(limits, s, actions[0]).0, actions[1..])
  }

  function Live(handlers: map<nat, Handler>): (r: set<nat>) {
    set h | h in handlers && handlers[h].phase.Serving?
  }

  function LiveOf(handlers: map<nat, Handler>, user: int): (r: set<nat>) {
    set h | h in handlers && handlers[h].phase.Serving? && handlers[h].user == user
  }

  /** The counters are the numbers of live sessions; users without one have no entry; limits hold. */
  ghost predicate Accounted(limits: Limits, s: State) {
    && s.counters.total == |Live(s.handlers)|
    && (forall user :: CountOf(s.counters, user) == |LiveOf(s.handlers, user)|)
    && (forall user :: user in s.counters.perUser ==> s.counters.perUser[user] > 0)
    && (s.counters.total > 0 ==> s.counters.total <= limits.sessions)
    && (forall user :: CountOf(s.counters, user) > 0 ==> CountOf(s.counters, user) <= limits.perUser)
  }

  /** Who serves has acquired and not yet released; everyone else has released what they acquired. */
  predicate Balanced(handler: Handler) {
    handler.acquires <= 1 && handler.acquires == handler.releases + (if handler.phase.Serving? then 1 else 0)
    && (handler.phase.Arrived? ==> handler.acquires == 0)
  }

  ghost predicate Inv(limits: Limits, s: State) {
    Accounted(limits, s) && forall h :: h in s.handlers ==> Balanced(s.handlers[h])
  }

  /** A handler that does not serve changes no count by arriving or leaving. */
  lemma NotServing(handlers: map<nat, Handler>, h: nat, handler: Handler)
    requires !handler.phase.Serving? && (h in handlers ==> !handlers[h].phase.Serving?)
    ensures Live(handlers[h := handler]) == Live(handlers)
    ensures forall user :: LiveOf(handlers[h := handler], user) == LiveOf(handlers, user)
  {
  }

  lemma AddOne(small: set<nat>, large: set<nat>, h: nat)
    requires h !in small && large == small + {h}
    ensures |large| == |small| + 1
  {
  }

  lemma StartsServing(handlers: map<nat, Handler>, h: nat, handler: Handler)
    requires handler.phase.Serving? && (h in handlers ==> !handlers[h].phase.Serving?)
    ensures |Live(handlers[h := handler])| == |Live(handlers)| + 1
    ensures forall user ::
      |LiveOf(handlers[h := handler], user)| == |LiveOf(handlers, user)| + (if user == handler.user then 1 else 0)
  {
    AddOne(Live(handlers), Live(handlers[h := handler]), h);
    hide LiveOf;
    forall user
      ensures |LiveOf(handlers[h := handler], user)|
        == |LiveOf(handlers, user)| + (if user == handler.user then 1 else 0)
    {
      StartsServingFor(handlers, h, handler, user);
    }
  }

  lemma StartsServingFor(handlers: map<nat, Handler>, h: nat, handler: Handler, user: int)
    requires handler.phase.Serving? && (h in handlers ==> !handlers[h].phase.Serving?)
    ensures |LiveOf(handlers[h := handler], user)| == |LiveOf(handlers, user)| + (if user == handler.user then 1 else 0)
  {
    var before, after := LiveOf(handlers, user), LiveOf(handlers[h := handler], user);
    if user == handler.user {
      AddOne(before, after, h);
    } else {
      assert after == before;
    }
  }

  lemma StopsServing(handlers: map<nat, Handler>, h: nat, handler: Handler)
    requires !handler.phase.Serving? && h in handlers && handlers[h].phase.Serving? && handlers[h].user == handler.user
    ensures |Live(handlers[h := handler])| == |Live(handlers)| - 1
    ensures forall user ::
      |LiveOf(handlers[h := handler], user)| == |LiveOf(handlers, user)| - (if user == handler.user then 1 else 0)
  {
    assert handlers[h := handler][h := handlers[h]] == handlers;
    StartsServing(handlers[h := handler], h, handlers[h]);
  }

  lemma AcquireAccounted(limits: Limits, s: State, h: nat)
    requires Inv(limits, s) && h in s.handlers && s.handlers[h].phase.Arrived?
    ensures Accounted(limits, Step(limits, s, Acquire(h)).0)
  {
    hide Live, LiveOf;
    var next := Step(limits, s, Acquire(h)).0;
    var handler := next.handlers[h];
    assert next.handlers == s.handlers[h := handler];
    if AtLimit(s.counters, limits, handler.user) {
      NotServing(s.handlers, h, handler);
    } else {
      StartsServing(s.handlers, h, handler);
      assert forall user ::
        CountOf(next.counters, user) == CountOf(s.counters, user) + if user == handler.user then 1 else 0;
    }
  }

  lemma LeaveAccounted(limits: Limits, s: State, h: nat)
    requires Inv(limits, s) && h in s.handlers && s.handlers[h].phase.Serving?
    ensures Accounted(limits, Step(limits, s, Leave(h)).0)
  {
    hide Live, LiveOf;
    var next := Step(limits, s, Leave(h)).0;
    var handler := next.handlers[h];
    assert next.handlers == s.handlers[h := handler];
    StopsServing(s.handlers, h, handler);
    assert |LiveOf(next.handlers, handler.user)| == |LiveOf(s.handlers, handler.user)| - 1;
    assert forall user ::
      CountOf(next.counters, user) == CountOf(s.counters, user) - if user == handler.user then 1 else 0;
  }

  lemma AccountedStep(limits: Limits, s: State, a: Action)
    requires Inv(limits, s)
    ensures Accounted(limits, Step(limits, s, a).0)
  {
    hide Live, LiveOf;
    var (next, done) := Step(limits, s, a);
    if done {
      match a
      case Acquire(h) => AcquireAccounted(limits, s, h);
      case Leave(h) => LeaveAccounted(limits, s, h);
      case Arrive(_, _, _) => NotServing(s.handlers, a.h, next.handlers[a.h]);
      case TurnAway(_) => NotServing(s.handlers, a.h, next.handlers[a.h]);
    }
  }

  lemma InvStep(limits: Limits, s: State, a: Action)
    requires Inv(limits, s)
    ensures Inv(limits, Step(limits, s, a).0)
  {
    AccountedStep(limits, s, a);
    hide Accounted;
  }

  /** After every run, in whatever order handlers arrive, acquire and leave. */
  lemma {:induction false} InvRun(limits: Limits, s: State, actions: seq<Action>)
    requires Inv(limits, s)
    ensures Inv(limits, Run(limits, s, actions))
    decreases |actions|
  {
    hide Inv, Step;
    if actions == [] {
    } else {
      InvStep(limits, s, actions[0]);
      InvRun(limits, Step(limits, s, actions[0]).0, actions[1..]);
    }
  }

  /** The counters always equal the numbers of live sessions, no entry is zero and both limits hold;
      and a handler that is gone has released exactly as often as it acquired, at most once. */
  lemma SessionsAccounted(limits: Limits, actions: seq<Action>, h: nat)
    ensures var s := Run(limits, INITIAL, actions);
      Accounted(limits, s)
      && (h in s.handlers && s.handlers[h].phase.Gone? ==> s.handlers[h].releases == s.handlers[h].acquires <= 1)
  {
    assert Live(INITIAL.handlers) == {} && forall user :: LiveOf(INITIAL.handlers, user) == {};
    InvRun(limits, INITIAL, actions);
    hide Accounted, Run;
  }

  /** A handler is refused exactly if at that moment the live sessions reach the limit of the gateway
      or those of its user reach the limit per user. */
  lemma RefusedOnlyAtLimit(limits: Limits, actions: seq<Action>, h: nat)
    requires var s := Run(limits, INITIAL, actions); h in s.handlers && s.handlers[h].phase.Arrived?
    ensures var s := Run(limits, INITIAL, actions);
      Step(limits, s, Acquire(h)).0.handlers[h].phase.Gone? <==>
        |Live(s.handlers)| >= limits.sessions || |LiveOf(s.handlers, s.handlers[h].user)| >= limits.perUser
  {
    SessionsAccounted(limits, actions, h);
    hide Run, Live, LiveOf;
  }

  /** When nobody is served any more, the counters are as they were at the start. */
  lemma AllReleased(limits: Limits, actions: seq<Action>)
    requires Live(Run(limits, INITIAL, actions).handlers) == {}
    ensures Run(limits, INITIAL, actions).counters == Counters(0, map[])
  {
    SessionsAccounted(limits, actions, 0);
    hide Run;
    var s := Run(limits, INITIAL, actions);
    forall user ensures user !in s.counters.perUser {
      assert LiveOf(s.handlers, user) <= Live(s.handlers);
      assert LiveOf(s.handlers, user) == {};
      assert CountOf(s.counters, user) == 0;
    }
    assert s.counters.perUser == map[];
  }
}
