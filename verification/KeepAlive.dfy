/** The keep-alive loop of a downstream connection in a model with time: nothing that can happen at
    once is delayed. */
module KeepAlive {
  import opened Wrappers

  /** The period of the ticker and how long a request may remain unanswered. */
  datatype Setting = Setting(interval: int, timeout: int)

  ghost predicate Sensible(c: Setting) { c.interval > 0 && c.timeout > 0 }

  /** A keepalive request, and when it was answered and whether without an error. */
  datatype Request = Request(sent: int, answered: Option<int>, good: bool)

  datatype Phase = Idle | Asking | Closed | Ended

  /** The ticker holds at most one tick that was not taken yet. */
  datatype State = State(now: int, nextTick: int, tick: bool, phase: Phase, requests: seq<Request>)

  function Start(c: Setting, at: int): (r: State) { State(at, at + c.interval, false, Idle, []) }

  datatype Action =
    | Wait(to: int)      // time passes
    | Tick               // the ticker fires; a tick that finds the previous one untaken is lost
    | Ask                // the loop takes the tick and sends a request
    | Reply(good: bool)  // the answer of the current request arrives
    | Expire             // its timer fires
    | Done               // the connection ends by itself

  function Last(s: State): (r: Request)
    requires s.requests != []
  {
    s.requests[|s.requests| - 1]
  }

  function Answered(s: State, good: bool): (r: seq<Request>)
    requires s.requests != []
  {
    s.requests[|s.requests| - 1 := Last(s).(answered := Some(s.now), good := good)]
  }

  /** Time stops at the next tick, at the timer and while the loop can take a tick. */
  predicate MayWait(c: Setting, s: State, to: int) {
    s.now < to <= s.nextTick && !(s.phase.Idle? && s.tick)
    && (s.phase.Asking? && s.requests != [] ==> to <= Last(s).sent + c.timeout)
  }

  function Step(c: Setting, s: State, a: Action): (r: Option<State>) {
    match a
    case Wait(to) => if MayWait(c, s, to) then Some(s.(now := to)) else None
    case Tick => if s.now == s.nextTick then Some(s.(tick := true, nextTick := s.nextTick + c.interval)) else None
    case Ask =>
      if s.phase.Idle? && s.tick then
        Some(s.(tick := false, phase := Asking, requests := s.requests + [Request(s.now, None, false)]))
      else None
    case Reply(good) =>
      if s.phase.Asking? && s.requests != [] then
        Some(s.(phase := if good then Idle else Closed, requests := Answered(s, good)))
      else None
    case Expire =>
      if s.phase.Asking? && s.requests != [] && s.now == Last(s).sent + c.timeout then Some(s.(phase := Closed))
      else None
    case Done => if s.phase.Idle? || s.phase.Asking? then Some(s.(phase := Ended)) else None
  }

  function Run(c: Setting, s: State, actions: seq<Action>): (r: Option<State>)
    decreases |actions|
  {
    if actions == [] then Some(s)
    else match Step(c, s, actions[0])
      case None => None
      case Some(next) => Run(c, next, actions[1..])
  }

  /** When the loop last became idle: at the last good answer, or when it started. */
  function IdleSince(start: int, requests: seq<Request>): (r: int) {
    if requests == [] then start
    else
      var last := requests[|requests| - 1];
      if last.good && last.answered.Some? then last.answered.value else IdleSince(start, requests[..|requests| - 1])
  }

  predicate GoodInTime(c: Setting, r: Request) {
    r.answered.Some? && r.good && r.sent <= r.answered.value <= r.sent + c.timeout
  }

  ghost predicate Inv(c: Setting, start: int, s: State) {
    && s.now <= s.nextTick <= s.now + c.interval
    && start <= IdleSince(start, s.requests) <= s.now
    && (forall i :: 0 <= i < |s.requests| - 1 ==> GoodInTime(c, s.requests[i]))
    && match s.phase
       case Idle =>
         (s.requests != [] ==> GoodInTime(c, Last(s)))
         && s.now <= IdleSince(start, s.requests) + c.interval
         && (!s.tick ==> s.nextTick <= IdleSince(start, s.requests) + c.interval)
       case Asking =>
         s.requests != [] && Last(s).answered.None? && Last(s).sent <= s.now <= Last(s).sent + c.timeout
         && Last(s).sent <= IdleSince(start, s.requests) + c.interval
       case Closed =>
         s.requests != [] && Last(s).sent <= IdleSince(start, s.requests) + c.interval
         && (if Last(s).answered.Some? then !Last(s).good && Last(s).answered.value <= Last(s).sent + c.timeout
             else s.now >= Last(s).sent + c.timeout)
       case Ended => true
  }

  lemma IdleSinceLast(start: int, requests: seq<Request>, r: Request)
    ensures IdleSince(start, requests + [r]) == if r.good && r.answered.Some? then r.answered.value
      else IdleSince(start, requests)
  {
    assert (requests + [r])[..|requests|] == requests;
  }

  lemma IdleSinceAnswered(start: int, s: State, good: bool)
    requires s.requests != [] && Last(s).answered.None?
    ensures IdleSince(start, Answered(s, good)) == if good then s.now else IdleSince(start, s.requests)
  {
    var front := s.requests[..|s.requests| - 1];
    assert s.requests == front + [Last(s)];
    assert Answered(s, good) == front + [Last(s).(answered := Some(s.now), good := good)];
    IdleSinceLast(start, front, Last(s));
    IdleSinceLast(start, front, Last(s).(answered := Some(s.now), good := good));
  }

  lemma InvTime(c: Setting, start: int, s: State, a: Action)
    requires a.Wait? || a.Tick?
    requires Sensible(c) && Inv(c, start, s) && Step(c, s, a).Some?
    ensures Inv(c, start, Step(c, s, a).value)
  {
    hide IdleSince;
  }

  lemma InvAsk(c: Setting, start: int, s: State)
    requires Sensible(c) && Inv(c, start, s) && Step(c, s, Ask).Some?
    ensures Inv(c, start, Step(c, s, Ask).value)
  {
    IdleSinceLast(start, s.requests, Request(s.now, None, false));
    hide IdleSince;
  }

  lemma InvReply(c: Setting, start: int, s: State, good: bool)
    requires Sensible(c) && Inv(c, start, s) && Step(c, s, Reply(good)).Some?
    ensures Inv(c, start, Step(c, s, Reply(good)).value)
  {
    IdleSinceAnswered(start, s, good);
    hide IdleSince;
  }

  lemma InvEnd(c: Setting, start: int, s: State, a: Action)
    requires a.Expire? || a.Done?
    requires Sensible(c) && Inv(c, start, s) && Step(c, s, a).Some?
    ensures Inv(c, start, Step(c, s, a).value)
  {
    hide IdleSince;
  }

  lemma InvStep(c: Setting, start: int, s: State, a: Action)
    requires Sensible(c) && Inv(c, start, s) && Step(c, s, a).Some?
    ensures Inv(c, start, Step(c, s, a).value)
  {
    hide Inv, Step;
    match a
    case Wait(_) => InvTime(c, start, s, a);
    case Tick => InvTime(c, start, s, a);
    case Ask => InvAsk(c, start, s);
    case Reply(good) => InvReply(c, start, s, good);
    case Expire => InvEnd(c, start, s, a);
    case Done => InvEnd(c, start, s, a);
  }

  lemma {:induction false} InvRun(c: Setting, start: int, s: State, actions: seq<Action>)
    requires Sensible(c) && Inv(c, start, s) && Run(c, s, actions).Some?
    ensures Inv(c, start, Run(c, s, actions).value)
    decreases |actions|
  {
    hide Inv, Step;
    if actions == [] {
    } else {
      InvStep(c, start, s, actions[0]);
      InvRun(c, start, Step(c, s, actions[0]).value, actions[1..]);
    }
  }

  ghost predicate Reached(c: Setting, start: int, s: State) {
    exists actions :: Run(c, Start(c, start), actions) == Some(s)
  }

  lemma ReachedInv(c: Setting, start: int, s: State)
    requires Sensible(c) && Reached(c, start, s)
    ensures Inv(c, start, s)
  {
    var actions :| Run(c, Start(c, start), actions) == Some(s);
    InvRun(c, start, Start(c, start), actions);
  }

  /** The peer has given no good answer after the moment. */
  ghost predicate SilentSince(s: State, moment: int) {
    forall i :: 0 <= i < |s.requests| && s.requests[i].good && s.requests[i].answered.Some? ==>
      s.requests[i].answered.value <= moment
  }

  lemma {:induction false} IdleBySilence(start: int, requests: seq<Request>, moment: int)
    requires start <= moment
    requires forall i :: 0 <= i < |requests| && requests[i].good && requests[i].answered.Some? ==>
      requests[i].answered.value <= moment
    ensures IdleSince(start, requests) <= moment
  {
    if requests == [] {
    } else {
      IdleBySilence(start, requests[..|requests| - 1], moment);
    }
  }

  /** A peer that stops answering is noticed within one interval and one timeout: later than that the
      loop is no longer waiting; it has closed the connection, or the connection has ended. */
  lemma SilentPeerIsClosed(c: Setting, start: int, s: State, moment: int)
    requires Sensible(c) && Reached(c, start, s) && start <= moment && SilentSince(s, moment)
    requires s.now > moment + c.interval + c.timeout
    ensures s.phase.Closed? || s.phase.Ended?
  {
    ReachedInv(c, start, s);
    IdleBySilence(start, s.requests, moment);
  }

  /** The loop closes a connection only for its last request, which got an error or no answer for the
      whole timeout; so a connection on which every request is answered well before that is never closed. */
  lemma ClosedOnlyForFailure(c: Setting, start: int, s: State)
    requires Sensible(c) && Reached(c, start, s) && s.phase.Closed?
    ensures s.requests != [] && forall i :: 0 <= i < |s.requests| - 1 ==> GoodInTime(c, s.requests[i])
    ensures if Last(s).answered.Some? then !Last(s).good else s.now >= Last(s).sent + c.timeout
    ensures exists r :: r in s.requests && !GoodInTime(c, r)
  {
    ReachedInv(c, start, s);
    assert Last(s) in s.requests && !GoodInTime(c, Last(s));
  }

  /** Time can always pass or something can happen at once: the model does not get stuck. */
  lemma NeverStuck(c: Setting, start: int, s: State)
    requires Sensible(c) && Reached(c, start, s)
    ensures exists a :: Step(c, s, a).Some?
  {
    ReachedInv(c, start, s);
    if s.phase.Idle? && s.tick {
      assert Step(c, s, Ask).Some?;
    } else if s.now == s.nextTick {
      assert Step(c, s, Tick).Some?;
    } else if s.phase.Asking? && s.now == Last(s).sent + c.timeout {
      assert Step(c, s, Expire).Some?;
    } else {
      assert Step(c, s, Wait(s.now + 1)).Some?;
    }
  }

  // ---------- the loop as the program writes it ----------

  datatype Answer = Answer(delay: nat, good: bool)

  /** The loop against a peer that answers the first requests as given and then no more. Returns when
      it closes the connection, when it last had a good answer, and how many answers it took. */
  method Loop(c: Setting, start: int, answers: seq<Answer>) returns (closed: int, heard: int, used: nat)
    requires Sensible(c)
    ensures start <= heard <= closed <= heard + c.interval + c.timeout && used <= |answers|
    ensures forall i :: 0 <= i < used ==> answers[i].good && answers[i].delay < c.timeout
    ensures used < |answers| ==> !(answers[used].good && answers[used].delay < c.timeout)
  {
    var now, nextTick, tick := start, start + c.interval, false;
    heard, used := start, 0;
    while true
      invariant used <= |answers| && start <= heard && now == heard && now <= nextTick <= now + c.interval
      invariant forall i :: 0 <= i < used ==> answers[i].good && answers[i].delay < c.timeout
      decreases |answers| - used
    {
      if !tick {
        now, nextTick := nextTick, nextTick + c.interval;
      }
      tick := false;
      if used == |answers| || answers[used].delay >= c.timeout {
        closed := now + c.timeout;
        return;
      }
      now := now + answers[used].delay;
      while nextTick <= now
        invariant nextTick <= now + c.interval
        decreases now - nextTick
      {
        tick, nextTick := true, nextTick + c.interval;
      }
      if !answers[used].good {
        closed := now;
        return;
      }
      heard, used := now, used + 1;
    }
  }
}
