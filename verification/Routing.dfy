/** The connection handlers: what each of them does to the outside, in order. No credential is opened
    and nothing is dialled unless a session is held and the store has just granted the capability. */
module Routing {
  import opened Wrappers
  import opened Text
  import opened Database
  import S = Store
  import Spec = StoreSpec
  import Sessions
  import Authorization

  type User = Authorization.User

  /** What a handler asks and does. */
  datatype Effect =
    | Acquire(user: int, granted: bool)
    | Release(user: int)
    | Check(target: int, capability: string, allowed: bool)
    | Rule(target: int, host: string, port: int, allowed: bool)
    | OpenCredential(target: int, ok: bool)
    | OpenAgent(target: int, ok: bool)
    | Dial(target: int, ok: bool)
    | DialThrough(target: int, host: string, port: int, ok: bool)
    | Serve(target: int)

  predicate Touches(e: Effect) {
    e.OpenCredential? || e.OpenAgent? || e.Dial? || e.DialThrough? || e.Serve?
  }

  // ---------- what must come before ----------

  /** The user was given a session that is not released yet. */
  ghost predicate Held(before: seq<Effect>, user: int) {
    exists i :: 0 <= i < |before| && before[i] == Acquire(user, true)
      && forall j :: i < j < |before| ==> before[j] != Release(user)
  }

  /** The latest question to the store was about this capability on this target, and was answered yes. */
  ghost predicate Granted(before: seq<Effect>, target: int, capability: string) {
    exists i :: 0 <= i < |before| && before[i] == Check(target, capability, true)
      && forall j :: i < j < |before| ==> !before[j].Check?
  }

  /** What an effect on a target presupposes. */
  ghost predicate MayFollow(before: seq<Effect>, e: Effect, user: int, capability: string) {
    Touches(e) ==>
      && Held(before, user) && Granted(before, e.target, capability)
      && (!e.OpenCredential? ==> OpenCredential(e.target, true) in before)
      && (e.DialThrough? || e.Serve? ==> Dial(e.target, true) in before)
      && (e.DialThrough? ==> Rule(e.target, e.host, e.port, true) in before)
  }

  ghost predicate Guarded(trace: seq<Effect>, user: int, capability: string) {
    forall i :: 0 <= i < |trace| ==> MayFollow(trace[..i], trace[i], user, capability)
  }

  /** How often something happened. */
  ghost function Times(trace: seq<Effect>, e: Effect): (r: nat) {
    if trace == [] then 0 else Times(trace[..|trace| - 1], e) + if trace[|trace| - 1] == e then 1 else 0
  }

  lemma TimesNext(trace: seq<Effect>, f: Effect, e: Effect)
    ensures Times(trace + [f], e) == Times(trace, e) + if f == e then 1 else 0
  {
    assert (trace + [f])[..|trace|] == trace;
  }

  lemma {:induction false} NeverHappened(trace: seq<Effect>, e: Effect)
    requires e !in trace
    ensures Times(trace, e) == 0
  {
    if trace == [] {
    } else {
      NeverHappened(trace[..|trace| - 1], e);
    }
  }

  /** How often the user's session was acquired and released. */
  ghost function Uses(trace: seq<Effect>, user: int): (r: (nat, nat)) {
    (Times(trace, Acquire(user, true)), Times(trace, Release(user)))
  }

  /** The session is released as often as it is acquired, at most once. */
  ghost predicate Balanced(trace: seq<Effect>, user: int) {
    Uses(trace, user) == (0, 0) || Uses(trace, user) == (1, 1)
  }

  lemma GuardedNext(trace: seq<Effect>, e: Effect, user: int, capability: string)
    requires Guarded(trace, user, capability) && MayFollow(trace, e, user, capability)
    ensures Guarded(trace + [e], user, capability)
  {
    hide MayFollow;
    var longer := trace + [e];
    forall i | 0 <= i < |longer| ensures MayFollow(longer[..i], longer[i], user, capability) {
      assert longer[..i] == trace[..i];
      if i == |trace| { assert trace[..i] == trace; }
    }
  }

  lemma Untouched(before: seq<Effect>, e: Effect, user: int, capability: string)
    requires !Touches(e)
    ensures MayFollow(before, e, user, capability)
  {
  }

  lemma HeldNext(trace: seq<Effect>, e: Effect, user: int)
    ensures Held(trace, user) && e != Release(user) ==> Held(trace + [e], user)
    ensures e == Acquire(user, true) ==> Held(trace + [e], user)
  {
    var longer := trace + [e];
    if Held(trace, user) && e != Release(user) {
      var i :| 0 <= i < |trace| && trace[i] == Acquire(user, true)
        && forall j :: i < j < |trace| ==> trace[j] != Release(user);
      assert longer[i] == Acquire(user, true);
    } else if e == Acquire(user, true) {
      assert longer[|trace|] == e;
    }
  }

  lemma GrantedNext(trace: seq<Effect>, e: Effect, target: int, capability: string)
    ensures Granted(trace, target, capability) && !e.Check? ==> Granted(trace + [e], target, capability)
    ensures e == Check(target, capability, true) ==> Granted(trace + [e], target, capability)
  {
    var longer := trace + [e];
    if Granted(trace, target, capability) && !e.Check? {
      var i :| 0 <= i < |trace| && trace[i] == Check(target, capability, true)
        && forall j :: i < j < |trace| ==> !trace[j].Check?;
      assert longer[i] == Check(target, capability, true);
    } else if e == Check(target, capability, true) {
      assert longer[|trace|] == e;
    }
  }

  /** One effect more; it keeps the trace guarded, and what was held and granted. */
  method Emit(trace: seq<Effect>, e: Effect, ghost user: int, ghost capability: string) returns (longer: seq<Effect>)
    requires Guarded(trace, user, capability) && MayFollow(trace, e, user, capability)
    ensures longer == trace + [e] && Guarded(longer, user, capability)
    ensures (Held(trace, user) && e != Release(user)) || e == Acquire(user, true) ==> Held(longer, user)
    ensures forall t :: (Granted(trace, t, capability) && !e.Check?) || e == Check(t, capability, true) ==>
      Granted(longer, t, capability)
    ensures var (acquired, released) := Uses(trace, user);
      Uses(longer, user) == (acquired + (if e == Acquire(user, true) then 1 else 0),
                             released + (if e == Release(user) then 1 else 0))
    ensures forall f :: f in longer <==> f in trace || f == e
  {
    hide Guarded, MayFollow, Held, Granted, Times;
    TimesNext(trace, e, Acquire(user, true));
    TimesNext(trace, e, Release(user));
    GuardedNext(trace, e, user, capability);
    HeldNext(trace, e, user);
    forall t ensures (Granted(trace, t, capability) && !e.Check?) || e == Check(t, capability, true) ==>
        Granted(trace + [e], t, capability)
    {
      GrantedNext(trace, e, t, capability);
    }
    longer := trace + [e];
  }

  // ---------- one connection ----------

  /** The requested protocol of a session that was routed to a target by its login name. */
  datatype Asked = Asked(target: string, sftp: bool, command: string, pty: bool)

  /** Whether the credential opens, the agent answers, the target accepts, and the destination behind
      it is reached. */
  datatype Net = Net(credential: bool, agent: bool, dial: bool, through: bool)

  function CapabilityOf(asked: Asked): (r: string) {
    if asked.sftp then "sftp" else if asked.command != "" then "scp" else "shell"
  }

  /** Every check in the trace is the store's answer at the moment of the check. */
  ghost predicate Asks(trace: seq<Effect>, db: Db, user: User, target: Option<int>, capability: string) {
    forall e :: e in trace && e.Check? ==>
      Some(e.target) == target && e.capability == capability
      && (e.allowed <==> Authorization.CanAccess(db, user, e.target, capability))
  }

  /** What the trace says about the session and the store: kept by everything that touches a target. */
  ghost predicate Calls(trace: seq<Effect>, more: seq<Effect>, user: int) {
    Uses(more, user) == Uses(trace, user)
    && (forall e :: e in more && e.Check? ==> e in trace) && (forall e :: e in trace ==> e in more)
  }

  /** The longer trace has in addition only effects on the target. */
  ghost predicate Touching(trace: seq<Effect>, more: seq<Effect>, target: int) {
    && |trace| <= |more| && more[..|trace|] == trace
    && forall j :: |trace| <= j < |more| ==> Touches(more[j]) && more[j].target == target
  }

  lemma TouchingNext(trace: seq<Effect>, more: seq<Effect>, e: Effect, target: int)
    requires Touching(trace, more, target) && Touches(e) && e.target == target
    ensures Touching(trace, more + [e], target)
  {
  }

  /** Opens the credential, and the agent if the target uses one, and dials the target. */
  method Connect(trace: seq<Effect>, user: int, capability: string, target: int, kind: string, net: Net)
    returns (more: seq<Effect>, ok: bool)
    requires Guarded(trace, user, capability) && Held(trace, user) && Granted(trace, target, capability)
    ensures Guarded(more, user, capability) && Held(more, user) && Granted(more, target, capability)
    ensures Calls(trace, more, user) && forall e :: e in more && (e.Serve? || e.DialThrough?) ==> e in trace
    ensures ok <==> Connects(kind, net)
    ensures ok ==> OpenCredential(target, true) in more && Dial(target, true) in more
    ensures Touching(trace, more, target) && |more| > |trace|
  {
    hide Uses, Guarded, Held, Granted, Touching;
    assert Touching(trace, trace, target) by { TouchingSelf(trace, target); }
    TouchingNext(trace, trace, OpenCredential(target, net.credential), target);
    more := Emit(trace, OpenCredential(target, net.credential), user, capability);
    if !net.credential {
      return more, false;
    }
    if kind == FORWARDED_AGENT {
      TouchingNext(trace, more, OpenAgent(target, net.agent), target);
      more := Emit(more, OpenAgent(target, net.agent), user, capability);
      if !net.agent {
        return more, false;
      }
    }
    TouchingNext(trace, more, Dial(target, net.dial), target);
    more := Emit(more, Dial(target, net.dial), user, capability);
    ok := net.dial;
  }

  predicate Connects(kind: string, net: Net) {
    net.credential && (kind == FORWARDED_AGENT ==> net.agent) && net.dial
  }

  lemma TouchingSelf(trace: seq<Effect>, target: int)
    ensures Touching(trace, trace, target)
  {
  }

  // ---------- what is done with one target ----------

  /** The question to the store comes first. Whatever follows is on that target, is due to this answer
      alone, and happens exactly if the target is reached; and it is served exactly as said. */
  ghost predicate Segment(
    seg: seq<Effect>, user: int, target: int, capability: string, allowed: bool, reached: bool, served: bool)
  {
    && |seg| > 0 && seg[0] == Check(target, capability, allowed)
    && (forall j :: 0 < j < |seg| ==> Touches(seg[j]) && seg[j].target == target)
    && Guarded([Acquire(user, true)] + seg, user, capability)
    && (|seg| > 1 <==> reached) && (Serve(target) in seg <==> served)
  }

  /** Asks about a target and, if it is allowed and nothing else stands against it, connects to it. */
  method Reach(user: int, target: int, capability: string, allowed: bool, found: bool, kind: string, net: Net)
    returns (seg: seq<Effect>)
    ensures Segment(seg, user, target, capability, allowed, allowed && found, allowed && found && Connects(kind, net))
  {
    hide Uses, Guarded, Held, Granted, Touching, MayFollow;
    Begins(user, true, capability);
    Untouched([Acquire(user, true)], Check(target, capability, allowed), user, capability);
    var asked := Emit([Acquire(user, true)], Check(target, capability, allowed), user, capability);
    var trace := asked;
    TouchingSelf(asked, target);
    var ok := allowed && found;
    if ok {
      trace, ok := Connect(trace, user, capability, target, kind, net);
    }
    if ok {
      MayServe(trace, user, target, capability);
      TouchingNext(asked, trace, Serve(target), target);
      trace := Emit(trace, Serve(target), user, capability);
    }
    seg := trace[1..];
    IsSegment(asked, trace, user, target, capability, allowed, allowed && found, ok);
  }

  lemma MayServe(trace: seq<Effect>, user: int, target: int, capability: string)
    requires Held(trace, user) && Granted(trace, target, capability)
    requires OpenCredential(target, true) in trace && Dial(target, true) in trace
    ensures MayFollow(trace, Serve(target), user, capability)
  {
    hide Held, Granted;
  }

  lemma IsSegment(
    asked: seq<Effect>, trace: seq<Effect>, user: int, target: int, capability: string, allowed: bool, reached: bool,
    served: bool)
    requires asked == [Acquire(user, true)] + [Check(target, capability, allowed)] && Touching(asked, trace, target)
    requires Guarded(trace, user, capability)
    requires (|trace| > |asked| <==> reached) && (Serve(target) in trace <==> served)
    ensures Segment(trace[1..], user, target, capability, allowed, reached, served)
  {
    hide Guarded;
    var seg := trace[1..];
    assert trace[..2] == asked && trace[0] == Acquire(user, true) && trace[1] == Check(target, capability, allowed);
    assert [Acquire(user, true)] + seg == trace;
    if Serve(target) in trace {
      var j :| 0 <= j < |trace| && trace[j] == Serve(target);
      assert seg[j - 1] == Serve(target);
    }
  }

  /** A segment may follow whatever was done before while the session is held. */
  lemma SegmentFollows(
    trace: seq<Effect>, seg: seq<Effect>, user: int, target: int, capability: string, allowed: bool, reached: bool,
    served: bool)
    requires Guarded(trace, user, capability) && Held(trace, user)
    requires Segment(seg, user, target, capability, allowed, reached, served)
    ensures Guarded(trace + seg, user, capability) && Held(trace + seg, user)
    ensures Uses(trace + seg, user) == Uses(trace, user)
  {
    SegmentHasNoUses(seg, user, target, capability, allowed, reached, served);
    HeldOn(trace, seg, user);
    TimesOn(trace, seg, Acquire(user, true));
    TimesOn(trace, seg, Release(user));
    hide Segment, Held, MayFollow;
    forall k | 0 <= k < |trace + seg| ensures MayFollow((trace + seg)[..k], (trace + seg)[k], user, capability) {
      if k < |trace| {
        assert (trace + seg)[..k] == trace[..k];
      } else {
        FollowsOn(trace, seg, k - |trace|, user, target, capability, allowed, reached, served);
        assert (trace + seg)[..k] == trace + seg[..k - |trace|];
      }
    }
  }

  lemma SegmentHasNoUses(
    seg: seq<Effect>, user: int, target: int, capability: string, allowed: bool, reached: bool, served: bool)
    requires Segment(seg, user, target, capability, allowed, reached, served)
    ensures Release(user) !in seg && Acquire(user, true) !in seg
  {
    hide Guarded;
  }

  lemma HeldOn(trace: seq<Effect>, more: seq<Effect>, user: int)
    requires Held(trace, user) && Release(user) !in more
    ensures Held(trace + more, user)
  {
    var longer := trace + more;
    var i :| 0 <= i < |trace| && trace[i] == Acquire(user, true)
      && forall j :: i < j < |trace| ==> trace[j] != Release(user);
    assert longer[i] == Acquire(user, true);
    forall j | i < j < |longer| ensures longer[j] != Release(user) {
      if j >= |trace| { assert longer[j] == more[j - |trace|]; }
    }
  }

  lemma {:induction false} TimesOn(trace: seq<Effect>, more: seq<Effect>, e: Effect)
    requires e !in more
    ensures Times(trace + more, e) == Times(trace, e)
  {
    if more == [] {
      assert trace + more == trace;
    } else {
      var n := |more| - 1;
      TimesOn(trace, more[..n], e);
      assert trace + more == (trace + more[..n]) + [more[n]];
      TimesNext(trace + more[..n], more[n], e);
    }
  }

  /** What presupposes nothing before its segment presupposes nothing more behind a longer trace. */
  lemma FollowsOn(
    trace: seq<Effect>, seg: seq<Effect>, k: nat, user: int, target: int, capability: string, allowed: bool,
    reached: bool, served: bool)
    requires Held(trace, user) && Segment(seg, user, target, capability, allowed, reached, served) && k < |seg|
    ensures MayFollow(trace + seg[..k], seg[k], user, capability)
  {
    SegmentHasNoUses(seg, user, target, capability, allowed, reached, served);
    HeldOn(trace, seg[..k], user);
    var short := [Acquire(user, true)] + seg;
    assert MayFollow(short[..k + 1], short[k + 1], user, capability);
    assert short[..k + 1] == [Acquire(user, true)] + seg[..k] && short[k + 1] == seg[k];
    if Touches(seg[k]) {
      GrantedOn([Acquire(user, true)], trace, seg[..k], seg[k].target, capability);
    }
    hide Held, Granted, Guarded;
  }

  lemma GrantedOn(one: seq<Effect>, two: seq<Effect>, more: seq<Effect>, target: int, capability: string)
    requires Granted(one + more, target, capability) && forall e :: e in one ==> !e.Check?
    ensures Granted(two + more, target, capability)
  {
    var short, long := one + more, two + more;
    var i :| 0 <= i < |short| && short[i] == Check(target, capability, true)
      && forall j :: i < j < |short| ==> !short[j].Check?;
    assert i >= |one|;
    assert long[i - |one| + |two|] == short[i];
    forall j | i - |one| + |two| < j < |long| ensures !long[j].Check? {
      assert long[j] == short[j - |two| + |one|];
    }
  }

  // ---------- a routed session ----------

  /** Whether a routed session is served, once it is held. */
  ghost predicate Served(lookup: Db, check: Db, user: User, asked: Asked, net: Net) {
    var t := TargetNamed(lookup, asked.target);
    t.Some? && Authorization.CanAccess(check, user, t.value, CapabilityOf(asked)) && Suits(asked)
    && Connects(lookup.targets[t.value].kind, net)
  }

  /** A shell needs a terminal. */
  predicate Suits(asked: Asked) { CapabilityOf(asked) == "shell" ==> asked.pty }

  ghost predicate SomeServed(trace: seq<Effect>) { exists t :: Serve(t) in trace }

  /** What a routed session does once it is held: nothing without a target of that name. */
  ghost predicate RoutedSegment(seg: seq<Effect>, lookup: Db, check: Db, user: User, asked: Asked, net: Net) {
    var t := TargetNamed(lookup, asked.target);
    if t.None? then seg == []
    else
      var allowed := Authorization.CanAccess(check, user, t.value, CapabilityOf(asked));
      Segment(seg, user.id, t.value, CapabilityOf(asked), allowed, allowed && Suits(asked),
              Served(lookup, check, user, asked, net))
  }

  /** The trace of a routed session and all that follows from its one segment. */
  lemma RoutedTrace(seg: seq<Effect>, lookup: Db, check: Db, user: User, asked: Asked, net: Net)
    requires RoutedSegment(seg, lookup, check, user, asked, net)
    ensures var before := [Acquire(user.id, true)] + seg;
      var trace := before + [Release(user.id)];
      && Guarded(trace, user.id, CapabilityOf(asked)) && Balanced(trace, user.id)
      && Asks(trace, check, user, TargetNamed(lookup, asked.target), CapabilityOf(asked))
      && (SomeServed(trace) <==> Served(lookup, check, user, asked, net))
  {
    var capability := CapabilityOf(asked);
    var start, t := [Acquire(user.id, true)], TargetNamed(lookup, asked.target);
    var before := start + seg;
    Begins(user.id, true, capability);
    if t.Some? {
      var allowed := Authorization.CanAccess(check, user, t.value, capability);
      var served := Served(lookup, check, user, asked, net);
      SegmentFollows(start, seg, user.id, t.value, capability, allowed, allowed && Suits(asked), served);
      SegmentSays(seg, check, user, t.value, capability, allowed && Suits(asked), served);
    } else {
      assert before == start;
      NothingYet(check, user, t, capability);
    }
    hide Segment, Authorization.CanAccess, Guarded, Served, TargetNamed, Uses, Balanced;
    Ends(before, user.id, capability);
    OnlySegment(seg, check, user, t, capability);
  }

  lemma SegmentSays(seg: seq<Effect>, check: Db, user: User, t: int, capability: string, reached: bool, served: bool)
    requires Segment(
      seg, user.id, t, capability, Authorization.CanAccess(check, user, t, capability), reached, served)
    ensures Asks(seg, check, user, Some(t), capability) && (SomeServed(seg) <==> served)
  {
    hide Guarded, Authorization.CanAccess;
    forall e | e in seg && e.Check? ensures e == seg[0] {
      var j :| 0 <= j < |seg| && seg[j] == e;
    }
    if x :| Serve(x) in seg {
      var j :| 0 <= j < |seg| && seg[j] == Serve(x);
    }
  }

  /** Acquiring and releasing adds no check and serves nothing. */
  lemma OnlySegment(seg: seq<Effect>, check: Db, user: User, t: Option<int>, capability: string)
    ensures var trace := [Acquire(user.id, true)] + seg + [Release(user.id)];
      && (Asks(seg, check, user, t, capability) ==> Asks(trace, check, user, t, capability))
      && (SomeServed(trace) <==> SomeServed(seg))
  {
    hide Authorization.CanAccess;
    var trace := [Acquire(user.id, true)] + seg + [Release(user.id)];
    assert forall e :: e in trace <==> e in seg || e == Acquire(user.id, true) || e == Release(user.id);
  }

  /** The part of `handleRouted` that runs while the session is held. */
  method Route(lookup: S.Store, check: S.Store, user: User, asked: Asked, net: Net) returns (seg: seq<Effect>)
    requires lookup.Valid() && check.Valid()
    ensures RoutedSegment(seg, lookup.db, check.db, user, asked, net)
  {
    assert UniqueTargets(lookup.db.targets) && ForeignKeys(check.db);
    hide UniqueTargets, ForeignKeys, Consistent, TargetNamed, Authorization.CanAccess, Segment;
    var target := lookup.TargetByName(asked.target);
    if target.None? {
      return [];
    }
    var allowed := check.CanAccessCapability(user, target.value, CapabilityOf(asked));
    var kind := lookup.db.targets[target.value].kind;
    seg := Reach(user.id, target.value, CapabilityOf(asked), allowed, Suits(asked), kind, net);
  }

  /** `handleRouted`. The store may change between the lookup and the check. */
  method HandleRouted(
    server: Sessions.Server, lookup: S.Store, check: S.Store, user: User, asked: Asked, net: Net)
    returns (trace: seq<Effect>)
    requires server.Valid() && lookup.Valid() && check.Valid()
    modifies server
    ensures server.Valid() && server.holders == old(server.holders)
    ensures Guarded(trace, user.id, CapabilityOf(asked)) && Balanced(trace, user.id)
    ensures Asks(trace, check.db, user, TargetNamed(lookup.db, asked.target), CapabilityOf(asked))
    ensures SomeServed(trace) <==>
      && |old(server.holders)| < server.limits.sessions && old(server.holders)[user.id] < server.limits.perUser
      && Served(lookup.db, check.db, user, asked, net)
    ensures if |old(server.holders)| < server.limits.sessions && old(server.holders)[user.id] < server.limits.perUser
      then |trace| >= 2 && trace[0] == Acquire(user.id, true) && trace[|trace| - 1] == Release(user.id)
           && RoutedSegment(trace[1..|trace| - 1], lookup.db, check.db, user, asked, net)
      else trace == [Acquire(user.id, false)]
  {
    hide Uses, Guarded, S.Store.Valid, Sessions.Server.Valid, TargetNamed, Authorization.CanAccess, Served, Asks,
      SomeServed, Balanced, RoutedSegment;
    var granted := server.Acquire(user.id);
    if !granted {
      Refused(user, check.db, TargetNamed(lookup.db, asked.target), CapabilityOf(asked));
      return [Acquire(user.id, false)];
    }
    var seg := Route(lookup, check, user, asked, net);
    RoutedTrace(seg, lookup.db, check.db, user, asked, net);
    server.Release(user.id);
    trace := [Acquire(user.id, true)] + seg + [Release(user.id)];
    assert trace[1..|trace| - 1] == seg;
  }

  lemma NothingYet(db: Db, user: User, target: Option<int>, capability: string)
    ensures Guarded([], user.id, capability) && Asks([], db, user, target, capability) && !SomeServed([])
  {
  }

  lemma Refused(user: User, check: Db, target: Option<int>, capability: string)
    ensures var trace := [Acquire(user.id, false)];
      && Guarded(trace, user.id, capability) && Balanced(trace, user.id)
      && Asks(trace, check, user, target, capability) && !SomeServed(trace)
  {
    Begins(user.id, false, capability);
    hide Guarded, Uses;
  }

  /** The release at the end. */
  lemma Ends(trace: seq<Effect>, user: int, capability: string)
    requires Guarded(trace, user, capability) && Uses(trace, user) == (1, 0)
    ensures Guarded(trace + [Release(user)], user, capability) && Balanced(trace + [Release(user)], user)
  {
    hide Guarded, Times;
    Untouched(trace, Release(user), user, capability);
    GuardedNext(trace, Release(user), user, capability);
    TimesNext(trace, Release(user), Acquire(user, true));
    TimesNext(trace, Release(user), Release(user));
  }

  lemma Begins(user: int, granted: bool, capability: string)
    ensures Guarded([Acquire(user, granted)], user, capability)
    ensures granted ==> Held([Acquire(user, granted)], user)
    ensures Uses([Acquire(user, granted)], user) == (if granted then 1 else 0, 0)
  {
    assert [Acquire(user, granted)][0] == Acquire(user, granted);
    assert [] + [Acquire(user, granted)] == [Acquire(user, granted)];
    TimesNext([], Acquire(user, granted), Acquire(user, true));
    TimesNext([], Acquire(user, granted), Release(user));
  }

  // ---------- a forwarded connection ----------

  /** `ForwardAllowed`: a rule for the target names the destination, in any case. */
  predicate ForwardAllowed(db: Db, target: int, host: string, port: int) {
    exists f :: f in db.forwards && db.forwards[f].targetId == target && db.forwards[f].port == port
      && Lower(db.forwards[f].host) == Lower(TrimSpace(host))
  }

  /** Adding a rule allows exactly its own destination in addition, in any spelling of case and with
      any space around it. */
  lemma RuleAllowsItsDestination(db: Db, name: string, host: string, port: int, t: int, h: string, p: int)
    requires Spec.AddForwardRule(db, name, host, port).1 == Spec.DONE
    ensures ForwardAllowed(Spec.AddForwardRule(db, name, host, port).0, t, h, p) <==>
      (ForwardAllowed(db, t, h, p)
       || (TargetNamed(db, name) == Some(t) && p == port && Lower(TrimSpace(h)) == Lower(TrimSpace(host))))
  {
    LowerIdempotent(TrimSpace(host));
    hide Lower, TrimSpace, TargetNamed, ForwardAllowed;
    var row := ForwardRow(TargetNamed(db, name).value, Lower(TrimSpace(host)), port);
    var id := AddedRule(db, name, host, port);
    hide Spec.AddForwardRule;
    OneRule(db, Spec.AddForwardRule(db, name, host, port).0, id, row, t, h, p);
  }

  lemma AddedRule(db: Db, name: string, host: string, port: int) returns (id: int)
    requires Spec.AddForwardRule(db, name, host, port).1 == Spec.DONE
    ensures var next := Spec.AddForwardRule(db, name, host, port).0;
      TargetNamed(db, name).Some?
      && var row := ForwardRow(TargetNamed(db, name).value, Lower(TrimSpace(host)), port);
      (if id in db.forwards then next == db && db.forwards[id] == row else next.forwards == db.forwards[id := row])
  {
    hide Lower, TrimSpace, TargetNamed, NextId;
    var row := ForwardRow(TargetNamed(db, name).value, Lower(TrimSpace(host)), port);
    if f :| f in db.forwards && db.forwards[f] == row { id := f; } else { id := NextId(db.forwards.Keys); }
  }

  lemma OneRule(db: Db, next: Db, id: int, row: ForwardRow, t: int, h: string, p: int)
    requires if id in db.forwards then next == db && db.forwards[id] == row else next.forwards == db.forwards[id := row]
    ensures ForwardAllowed(next, t, h, p) <==>
      (ForwardAllowed(db, t, h, p) || (row.targetId == t && row.port == p && Lower(row.host) == Lower(TrimSpace(h))))
  {
    hide Lower, TrimSpace;
    assert id in next.forwards && next.forwards[id] == row;
    if ForwardAllowed(db, t, h, p) {
      var f :| f in db.forwards && db.forwards[f].targetId == t && db.forwards[f].port == p
        && Lower(db.forwards[f].host) == Lower(TrimSpace(h));
      assert f in next.forwards && next.forwards[f] == db.forwards[f];
    }
  }

  /** Where a connection is asked to go. */
  datatype Destination = Destination(host: string, port: int)

  /** Whether a forwarded connection may be opened at all. */
  ghost predicate Admitted(lookup: Db, check: Db, rules: Db, user: User, name: string, to: Destination) {
    var t := TargetNamed(lookup, name);
    t.Some? && Authorization.CanAccess(check, user, t.value, "tcp_forward")
    && ForwardAllowed(rules, t.value, to.host, to.port) && lookup.targets[t.value].kind != FORWARDED_AGENT
  }

  /** What the store is asked: about the target, and then, if that is allowed, about the destination. */
  ghost function Questions(lookup: Db, check: Db, rules: Db, user: User, name: string, to: Destination)
    : (r: seq<Effect>)
  {
    var t := TargetNamed(lookup, name);
    if t.None? then []
    else if !Authorization.CanAccess(check, user, t.value, "tcp_forward") then [Check(t.value, "tcp_forward", false)]
    else
      [Check(t.value, "tcp_forward", true),
       Rule(t.value, to.host, to.port, ForwardAllowed(rules, t.value, to.host, to.port))]
  }

  /** The part of `handleDirectTCPIP` that decides, before a session is acquired. */
  method Admit(lookup: S.Store, check: S.Store, rules: S.Store, user: User, name: string, to: Destination)
    returns (asked: seq<Effect>, target: Option<int>)
    requires lookup.Valid() && check.Valid()
    ensures asked == Questions(lookup.db, check.db, rules.db, user, name, to)
    ensures target ==
      if Admitted(lookup.db, check.db, rules.db, user, name, to) then TargetNamed(lookup.db, name) else None
  {
    assert UniqueTargets(lookup.db.targets) && ForeignKeys(check.db);
    hide UniqueTargets, ForeignKeys, Consistent, TargetNamed, Authorization.CanAccess, ForwardAllowed;
    var found := lookup.TargetByName(name);
    if found.None? {
      return [], None;
    }
    var allowed := check.CanAccessCapability(user, found.value, "tcp_forward");
    if !allowed {
      return [Check(found.value, "tcp_forward", false)], None;
    }
    allowed := ForwardAllowed(rules.db, found.value, to.host, to.port);
    asked := [Check(found.value, "tcp_forward", true), Rule(found.value, to.host, to.port, allowed)];
    target := if allowed && lookup.db.targets[found.value].kind != FORWARDED_AGENT then found else None;
  }

  /** Questions alone need no session and use none. */
  lemma OnlyQuestions(asked: seq<Effect>, user: int, capability: string)
    requires forall e :: e in asked ==> e.Check? || e.Rule?
    ensures Guarded(asked, user, capability) && Uses(asked, user) == (0, 0) && Balanced(asked, user)
    ensures !SomeServed(asked)
  {
    NeverHappened(asked, Release(user));
    NeverHappened(asked, Acquire(user, true));
    forall i | 0 <= i < |asked| ensures MayFollow(asked[..i], asked[i], user, capability) {
      assert asked[i] in asked;
    }
  }

  /** Every session that is asked for is asked for after the store has allowed target and destination. */
  ghost predicate AsksFirst(trace: seq<Effect>, to: Destination) {
    forall i :: 0 <= i < |trace| && trace[i].Acquire? ==> AllowedBefore(trace[..i], to)
  }

  ghost predicate AllowedBefore(before: seq<Effect>, to: Destination) {
    exists t :: Check(t, "tcp_forward", true) in before && Rule(t, to.host, to.port, true) in before
  }

  /** The checks and destinations in a trace are those of the questions and, if it is guarded, nothing
      but the destination is dialled, and that only if a rule allows it. */
  ghost predicate Forwards(
    trace: seq<Effect>, lookup: Db, check: Db, rules: Db, user: User, name: string, request: Option<Destination>)
  {
    && Asks(trace, check, user, TargetNamed(lookup, name), "tcp_forward")
    && forall e :: e in trace && e.DialThrough? ==>
      request == Some(Destination(e.host, e.port)) && ForwardAllowed(rules, e.target, e.host, e.port)
  }

  lemma QuestionsForward(
    asked: seq<Effect>, trace: seq<Effect>, lookup: Db, check: Db, rules: Db, user: User, name: string, to: Destination)
    requires asked == Questions(lookup, check, rules, user, name, to)
    requires Guarded(trace, user.id, "tcp_forward")
    requires forall e :: e in trace && (e.Check? || e.Rule?) ==> e in asked
    ensures Forwards(trace, lookup, check, rules, user, name, Some(to))
  {
    hide Authorization.CanAccess, TargetNamed, ForwardAllowed, Held, Granted;
    forall e | e in trace && e.DialThrough?
      ensures to == Destination(e.host, e.port) && ForwardAllowed(rules, e.target, e.host, e.port)
    {
      var i :| 0 <= i < |trace| && trace[i] == e;
      assert MayFollow(trace[..i], trace[i], user.id, "tcp_forward");
      assert Rule(e.target, e.host, e.port, true) in trace[..i];
      assert Rule(e.target, e.host, e.port, true) in trace;
    }
  }

  lemma QuestionsAre(lookup: Db, check: Db, rules: Db, user: User, name: string, to: Destination)
    ensures forall e :: e in Questions(lookup, check, rules, user, name, to) ==> e.Check? || e.Rule?
    ensures Admitted(lookup, check, rules, user, name, to) ==>
      TargetNamed(lookup, name).Some? && var t := TargetNamed(lookup, name).value;
        Questions(lookup, check, rules, user, name, to)
          == [Check(t, "tcp_forward", true), Rule(t, to.host, to.port, true)]
  {
    hide Authorization.CanAccess, TargetNamed, ForwardAllowed;
  }

  /** Whether a connection that was admitted is carried, once the session is held. */
  predicate Carried(net: Net, accepted: bool) { Connects(PASSWORD, net) && net.through && accepted }

  /** `handleDirectTCPIP`: it asks the store first, and only then for a session. */
  method HandleDirectTCPIP(
    server: Sessions.Server, lookup: S.Store, check: S.Store, rules: S.Store, user: User, name: string,
    request: Option<Destination>, net: Net, accepted: bool) returns (trace: seq<Effect>)
    requires server.Valid() && lookup.Valid() && check.Valid()
    modifies server
    ensures server.Valid() && server.holders == old(server.holders)
    ensures Guarded(trace, user.id, "tcp_forward") && Balanced(trace, user.id)
    ensures Forwards(trace, lookup.db, check.db, rules.db, user, name, request)
    ensures SomeServed(trace) <==>
      && request.Some? && name != "" && Admitted(lookup.db, check.db, rules.db, user, name, request.value)
      && |old(server.holders)| < server.limits.sessions && old(server.holders)[user.id] < server.limits.perUser
      && Carried(net, accepted)
    ensures request.None? || name == "" ==> trace == []
    ensures request.Some? && name != "" ==>
      var asked := Questions(lookup.db, check.db, rules.db, user, name, request.value);
      AsksFirst(trace, request.value)
      && if !Admitted(lookup.db, check.db, rules.db, user, name, request.value) then trace == asked
        else if |old(server.holders)| < server.limits.sessions && old(server.holders)[user.id] < server.limits.perUser
        then |trace| > 0 && trace[|trace| - 1] == Release(user.id)
             && Touching(asked + [Acquire(user.id, true)], trace[..|trace| - 1], TargetNamed(lookup.db, name).value)
        else trace == asked + [Acquire(user.id, false)]
  {
    hide Uses, Guarded, Held, Granted, S.Store.Valid, Sessions.Server.Valid, TargetNamed, SomeServed, Balanced,
      Touching, Forwards, Admitted, Questions, AsksFirst;
    if request.None? || name == "" {
      Nothing(lookup.db, check.db, rules.db, user, name, request);
      return [];
    }
    var to := request.value;
    var asked, target := Admit(lookup, check, rules, user, name, to);
    QuestionsAre(lookup.db, check.db, rules.db, user, name, to);
    OnlyQuestions(asked, user.id, "tcp_forward");
    if target.None? {
      QuestionsForward(asked, asked, lookup.db, check.db, rules.db, user, name, to);
      NoSession(asked, to);
      return asked;
    }
    trace := Forward(server, asked, user.id, target.value, to, net, accepted);
    QuestionsForward(asked, trace, lookup.db, check.db, rules.db, user, name, to);
  }

  lemma Nothing(lookup: Db, check: Db, rules: Db, user: User, name: string, request: Option<Destination>)
    ensures Guarded([], user.id, "tcp_forward") && Balanced([], user.id) && !SomeServed([])
    ensures Forwards([], lookup, check, rules, user, name, request)
  {
  }

  lemma NoSession(asked: seq<Effect>, to: Destination)
    requires forall e :: e in asked ==> e.Check? || e.Rule?
    ensures AsksFirst(asked, to)
  {
    forall i | 0 <= i < |asked| ensures !asked[i].Acquire? { assert asked[i] in asked; }
  }

  /** The session of a forwarded connection that was admitted. */
  method Forward(
    server: Sessions.Server, asked: seq<Effect>, user: int, target: int, to: Destination, net: Net, accepted: bool)
    returns (trace: seq<Effect>)
    requires server.Valid() && asked == [Check(target, "tcp_forward", true), Rule(target, to.host, to.port, true)]
    modifies server
    ensures server.Valid() && server.holders == old(server.holders)
    ensures Guarded(trace, user, "tcp_forward") && Balanced(trace, user) && AsksFirst(trace, to)
    ensures forall e :: e in trace && (e.Check? || e.Rule?) ==> e in asked
    ensures SomeServed(trace) <==>
      && |old(server.holders)| < server.limits.sessions && old(server.holders)[user] < server.limits.perUser
      && Carried(net, accepted)
    ensures if |old(server.holders)| < server.limits.sessions && old(server.holders)[user] < server.limits.perUser
      then |trace| > 0 && trace[|trace| - 1] == Release(user)
           && Touching(asked + [Acquire(user, true)], trace[..|trace| - 1], target)
      else trace == asked + [Acquire(user, false)]
  {
    hide Uses, Guarded, Held, Granted, Sessions.Server.Valid, Touching, SomeServed, AsksFirst, Balanced;
    var granted := server.Acquire(user);
    if !granted {
      RefusedForward(asked, user, target, to);
      return asked + [Acquire(user, false)];
    }
    ForwardBegins(asked, user, target, to);
    var more := Tunnel(asked + [Acquire(user, true)], user, target, to, net, accepted);
    ForwardSays(asked, more, user, target, to);
    Ends(more, user, "tcp_forward");
    server.Release(user);
    trace := more + [Release(user)];
    assert trace[..|trace| - 1] == more;
  }

  lemma ForwardBegins(asked: seq<Effect>, user: int, target: int, to: Destination)
    requires asked == [Check(target, "tcp_forward", true), Rule(target, to.host, to.port, true)]
    ensures var start := asked + [Acquire(user, true)];
      && Guarded(start, user, "tcp_forward") && Held(start, user) && Granted(start, target, "tcp_forward")
      && Uses(start, user) == (1, 0) && Rule(target, to.host, to.port, true) in start && Serve(target) !in start
  {
    var start := asked + [Acquire(user, true)];
    assert start[2] == Acquire(user, true) && start[0] == Check(target, "tcp_forward", true) && start[1] == asked[1];
    OnlyQuestions(asked, user, "tcp_forward");
    Untouched(asked, Acquire(user, true), user, "tcp_forward");
    GuardedNext(asked, Acquire(user, true), user, "tcp_forward");
    TimesNext(asked, Acquire(user, true), Acquire(user, true));
    TimesNext(asked, Acquire(user, true), Release(user));
    hide Guarded, Times;
  }

  lemma RefusedForward(asked: seq<Effect>, user: int, target: int, to: Destination)
    requires asked == [Check(target, "tcp_forward", true), Rule(target, to.host, to.port, true)]
    ensures var trace := asked + [Acquire(user, false)];
      && Guarded(trace, user, "tcp_forward")
      && AsksFirst(trace, to) && !SomeServed(trace) && Balanced(trace, user)
      && forall e :: e in trace && (e.Check? || e.Rule?) ==> e in asked
  {
    var trace := asked + [Acquire(user, false)];
    OnlyQuestions(asked, user, "tcp_forward");
    Untouched(asked, Acquire(user, false), user, "tcp_forward");
    GuardedNext(asked, Acquire(user, false), user, "tcp_forward");
    TimesNext(asked, Acquire(user, false), Acquire(user, true));
    TimesNext(asked, Acquire(user, false), Release(user));
    hide Guarded, Times;
    forall i | 0 <= i < |trace| && trace[i].Acquire? ensures AllowedBefore(trace[..i], to) {
      assert trace[..i] == asked && asked[0] in asked && asked[1] in asked;
    }
  }

  /** What holds of the whole trace because only the middle of it touches the target. */
  lemma ForwardSays(asked: seq<Effect>, trace: seq<Effect>, user: int, target: int, to: Destination)
    requires asked == [Check(target, "tcp_forward", true), Rule(target, to.host, to.port, true)]
    requires Touching(asked + [Acquire(user, true)], trace, target)
    ensures var all := trace + [Release(user)];
      && AsksFirst(all, to) && (SomeServed(all) <==> Serve(target) in trace)
      && forall e :: e in all && (e.Check? || e.Rule?) ==> e in asked
  {
    var all, start := trace + [Release(user)], asked + [Acquire(user, true)];
    assert all[..3] == start && trace[..3] == start;
    assert all[0] == asked[0] && all[1] == asked[1] && all[2] == Acquire(user, true);
    assert forall i :: 3 <= i < |all| ==> (Touches(all[i]) && all[i].target == target) || all[i].Release?;
    hide Touching;
    AskedBefore(all, target, to);
    forall e | e in all && (e.Check? || e.Rule?) ensures e in asked {
      var i :| 0 <= i < |all| && all[i] == e;
      assert i < 2;
    }
    if t :| Serve(t) in all {
      var i :| 0 <= i < |all| && all[i] == Serve(t);
      assert trace[i] == Serve(t);
    }
  }

  lemma AskedBefore(all: seq<Effect>, target: int, to: Destination)
    requires |all| >= 3 && all[0] == Check(target, "tcp_forward", true)
    requires all[1] == Rule(target, to.host, to.port, true)
    ensures AsksFirst(all, to)
  {
    forall i | 0 <= i < |all| && all[i].Acquire? ensures AllowedBefore(all[..i], to) {
      assert i >= 2;
      assert all[..i][0] == all[0] && all[..i][1] == all[1];
    }
  }

  /** The connection itself, while the session is held. */
  method Tunnel(trace: seq<Effect>, user: int, target: int, to: Destination, net: Net, accepted: bool)
    returns (more: seq<Effect>)
    requires Guarded(trace, user, "tcp_forward") && Held(trace, user) && Granted(trace, target, "tcp_forward")
    requires Rule(target, to.host, to.port, true) in trace && Serve(target) !in trace
    ensures Guarded(more, user, "tcp_forward") && Uses(more, user) == Uses(trace, user)
    ensures Touching(trace, more, target) && (Serve(target) in more <==> Carried(net, accepted))
  {
    hide Uses, Guarded, Held, Granted, Touching;
    var ok;
    more, ok := Connect(trace, user, "tcp_forward", target, PASSWORD, net);
    if ok {
      TouchingNext(trace, more, DialThrough(target, to.host, to.port, net.through), target);
      more := Emit(more, DialThrough(target, to.host, to.port, net.through), user, "tcp_forward");
      if net.through && accepted {
        TouchingNext(trace, more, Serve(target), target);
        more := Emit(more, Serve(target), user, "tcp_forward");
      }
    }
  }

  // ---------- an interactive session ----------

  /** What the menu returns: it ended with an error or was quit, or a target was chosen. */
  datatype Choice = Ended | Chosen(target: int)

  /** One turn of the loop, with the store as its two queries find it. */
  datatype Round = Round(choice: Choice, check: S.Store, find: S.Store, net: Net)

  /** Every check in the trace is about a target chosen in some round, and is the store's answer then. */
  ghost predicate AsksInRounds(trace: seq<Effect>, user: User, rounds: seq<Round>)
    reads set i | 0 <= i < |rounds| :: rounds[i].check
  {
    forall e :: e in trace && e.Check? ==> exists i :: 0 <= i < |rounds| && AsksIn(e, user, rounds[i])
  }

  ghost predicate AsksIn(e: Effect, user: User, round: Round)
    requires e.Check?
    reads round.check
  {
    round.choice == Chosen(e.target) && e.capability == "shell"
    && (e.allowed <==> Authorization.CanAccess(round.check.db, user, e.target, "shell"))
  }

  /** What is done in one round: the store is asked again, whatever the menu showed and whatever was
      answered before; and the target is served exactly if it is allowed now, still exists, its credential
      opens, the agent answers and it can be dialled. */
  ghost predicate RoundSegment(seg: seq<Effect>, user: User, round: Round)
    requires round.choice.Chosen?
    reads round.check, round.find
  {
    var t := round.choice.target;
    var allowed, found := Authorization.CanAccess(round.check.db, user, t, "shell"), t in round.find.db.targets;
    Segment(seg, user.id, t, "shell", allowed, allowed && found,
            allowed && found && Connects(round.find.db.targets[t].kind, round.net))
  }

  method Visit(user: User, round: Round) returns (seg: seq<Effect>)
    requires round.choice.Chosen? && round.check.Valid()
    ensures RoundSegment(seg, user, round)
  {
    assert ForeignKeys(round.check.db);
    hide Segment, ForeignKeys, Consistent, Authorization.CanAccess;
    var t := round.choice.target;
    var allowed := round.check.CanAccessCapability(user, t, "shell");
    var found := t in round.find.db.targets;
    seg := Reach(user.id, t, "shell", allowed, found, if found then round.find.db.targets[t].kind else "", round.net);
  }

  /** There is a segment for each round up to the one in which the menu ends, in order. */
  ghost predicate InRounds(segments: seq<seq<Effect>>, user: User, rounds: seq<Round>)
    reads set i | 0 <= i < |rounds| :: rounds[i].check, set i | 0 <= i < |rounds| :: rounds[i].find
  {
    && |segments| <= |rounds|
    && (forall i :: 0 <= i < |segments| ==> rounds[i].choice.Chosen? && RoundSegment(segments[i], user, rounds[i]))
    && (|segments| < |rounds| ==> rounds[|segments|].choice.Ended?)
  }

  function Joined(segments: seq<seq<Effect>>): (r: seq<Effect>) {
    if segments == [] then [] else Joined(segments[..|segments| - 1]) + segments[|segments| - 1]
  }

  /** What was done is one such segment after another. */
  ghost predicate RoundByRound(done: seq<Effect>, user: User, rounds: seq<Round>)
    reads set i | 0 <= i < |rounds| :: rounds[i].check, set i | 0 <= i < |rounds| :: rounds[i].find
  {
    exists segments :: InRounds(segments, user, rounds) && done == Joined(segments)
  }

  /** The loop over menu and connections, while the session is held. */
  method Rounds(user: User, rounds: seq<Round>) returns (done: seq<Effect>)
    requires forall i :: 0 <= i < |rounds| ==> rounds[i].check.Valid()
    ensures RoundByRound(done, user, rounds)
  {
    hide S.Store.Valid, RoundSegment;
    done := [];
    ghost var segments := [];
    var i := 0;
    while i < |rounds| && rounds[i].choice.Chosen?
      invariant 0 <= i <= |rounds| && |segments| == i && done == Joined(segments)
      invariant forall k :: 0 <= k < i ==> rounds[k].choice.Chosen? && RoundSegment(segments[k], user, rounds[k])
    {
      var seg := Visit(user, rounds[i]);
      assert (segments + [seg])[..i] == segments;
      done, segments := done + seg, segments + [seg];
      i := i + 1;
    }
    assert InRounds(segments, user, rounds);
  }

  /** All rounds together may follow the acquisition, and only their first effects are checks. */
  lemma {:induction false} RoundsFollow(segments: seq<seq<Effect>>, user: User, rounds: seq<Round>)
    requires |segments| <= |rounds|
    requires forall i :: 0 <= i < |segments| ==> rounds[i].choice.Chosen? && RoundSegment(segments[i], user, rounds[i])
    ensures var trace := [Acquire(user.id, true)] + Joined(segments);
      && Guarded(trace, user.id, "shell") && Held(trace, user.id) && Uses(trace, user.id) == (1, 0)
      && AsksInRounds(trace, user, rounds)
  {
    hide RoundSegment, Guarded, Held, Uses, AsksInRounds;
    var start := [Acquire(user.id, true)];
    if segments == [] {
      assert start + Joined(segments) == start;
      Begins(user.id, true, "shell");
      NoneAsked(start, user, rounds);
    } else {
      var n := |segments| - 1;
      RoundsFollow(segments[..n], user, rounds);
      RoundFollows(start + Joined(segments[..n]), segments[n], user, rounds, n);
      assert start + Joined(segments) == (start + Joined(segments[..n])) + segments[n];
    }
  }

  lemma NoneAsked(trace: seq<Effect>, user: User, rounds: seq<Round>)
    requires forall e :: e in trace ==> !e.Check?
    ensures AsksInRounds(trace, user, rounds)
  {
  }

  lemma RoundFollows(trace: seq<Effect>, seg: seq<Effect>, user: User, rounds: seq<Round>, n: nat)
    requires n < |rounds| && rounds[n].choice.Chosen? && RoundSegment(seg, user, rounds[n])
    requires Guarded(trace, user.id, "shell") && Held(trace, user.id) && Uses(trace, user.id) == (1, 0)
    requires AsksInRounds(trace, user, rounds)
    ensures Guarded(trace + seg, user.id, "shell") && Held(trace + seg, user.id) && Uses(trace + seg, user.id) == (1, 0)
    ensures AsksInRounds(trace + seg, user, rounds)
  {
    var round := rounds[n];
    var t := round.choice.target;
    var allowed, found := Authorization.CanAccess(round.check.db, user, t, "shell"), t in round.find.db.targets;
    SegmentFollows(trace, seg, user.id, t, "shell", allowed, allowed && found,
                   allowed && found && Connects(round.find.db.targets[t].kind, round.net));
    hide Guarded, Held, Uses, Authorization.CanAccess;
    forall e | e in trace + seg && e.Check? ensures exists i :: 0 <= i < |rounds| && AsksIn(e, user, rounds[i]) {
      if e in seg {
        var j :| 0 <= j < |seg| && seg[j] == e;
        assert AsksIn(e, user, rounds[n]);
      }
    }
  }

  lemma NoChecks(more: seq<Effect>, trace: seq<Effect>, user: User, rounds: seq<Round>)
    requires AsksInRounds(trace, user, rounds) && forall e :: e in more && e.Check? ==> e in trace
    ensures AsksInRounds(more, user, rounds)
  {
    hide AsksIn;
  }

  /** `handle`. The session is held over all rounds, and each round is what RoundSegment says. */
  method HandleInteractive(
    server: Sessions.Server, user: User, pty: bool, rounds: seq<Round>) returns (trace: seq<Effect>)
    requires server.Valid() && forall i :: 0 <= i < |rounds| ==> rounds[i].check.Valid()
    modifies server
    ensures server.Valid() && server.holders == old(server.holders)
    ensures Guarded(trace, user.id, "shell") && Balanced(trace, user.id)
    ensures AsksInRounds(trace, user, rounds)
    ensures if !pty then trace == []
      else if |old(server.holders)| < server.limits.sessions && old(server.holders)[user.id] < server.limits.perUser
      then |trace| >= 2 && trace[0] == Acquire(user.id, true) && trace[|trace| - 1] == Release(user.id)
           && RoundByRound(trace[1..|trace| - 1], user, rounds)
      else trace == [Acquire(user.id, false)]
  {
    hide Uses, Guarded, Held, S.Store.Valid, Sessions.Server.Valid, AsksInRounds, RoundByRound, Balanced,
      MayFollow;
    Empty(user, rounds);
    if !pty {
      return [];
    }
    var granted := server.Acquire(user.id);
    if !granted {
      return [Acquire(user.id, false)];
    }
    var done := Rounds(user, rounds);
    trace := [Acquire(user.id, true)] + done;
    AllRounds(trace, done, user, rounds);
    server.Release(user.id);
    trace := trace + [Release(user.id)];
    assert trace[1..|trace| - 1] == done;
  }

  lemma AllRounds(trace: seq<Effect>, done: seq<Effect>, user: User, rounds: seq<Round>)
    requires RoundByRound(done, user, rounds) && trace == [Acquire(user.id, true)] + done
    ensures var all := trace + [Release(user.id)];
      Guarded(all, user.id, "shell") && Balanced(all, user.id) && AsksInRounds(all, user, rounds)
  {
    hide RoundSegment, Guarded, Held, AsksInRounds, Uses, Balanced;
    var segments :| InRounds(segments, user, rounds) && done == Joined(segments);
    RoundsFollow(segments, user, rounds);
    Ends(trace, user.id, "shell");
    NoChecks(trace + [Release(user.id)], trace, user, rounds);
  }

  lemma Empty(user: User, rounds: seq<Round>)
    ensures Guarded([], user.id, "shell") && Balanced([], user.id) && AsksInRounds([], user, rounds)
    ensures var refused := [Acquire(user.id, false)];
      Guarded(refused, user.id, "shell") && Balanced(refused, user.id) && AsksInRounds(refused, user, rounds)
  {
    assert Guarded([], user.id, "shell") && Balanced([], user.id);
    Begins(user.id, false, "shell");
    hide Guarded, Uses;
  }
}
