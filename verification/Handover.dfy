/** The gateway session as a state machine: one producer goroutine reads the SSH channel; the menu's
    reader goroutines and the shell's input worker consume through ReadContext, in small steps that
    interleave with everything else; and the session handler alternates between menu and shell. */
module Handover {
  import opened Wrappers

  /** Why the SSH channel stopped delivering: io.EOF or another error. */
  datatype Fault = Eof | Broken

  datatype Message = Message(data: seq<byte>, fault: Option<Fault>)

  // ---------- the parts ----------

  datatype Producer = Reading | Sending(m: Message) | Stopped

  /** Where a call of ReadContext is. */
  datatype Call =
    | AtCheck               // before ctx.Err()
    | AtPending             // before the length of pending is tested
    | Copied(chunk: seq<byte>) // copied out, pending not yet re-sliced
    | AtFault               // pending was empty, before err is tested
    | AtSelect
    | Received(m: Message)  // taken from the channel, fields not yet assigned

  /** What ReadContext returned. */
  datatype Outcome = Data(chunk: seq<byte>) | Cancelled | Failed(fault: Fault) | ChannelClosed

  /** A menu reader goroutine: waiting for a request, inside ReadContext, holding a result, or gone. */
  datatype MenuReader = Idle | MenuInside(call: Call) | Holding(outcome: Outcome) | Gone

  /** The shell's input worker. */
  datatype Worker = NotStarted | ShellInside(call: Call) | Writing(outcome: Outcome) | Exited

  datatype Control =
    | MenuStarting | MenuRequesting | MenuSelecting | MenuHandling(outcome: Outcome) // RunRemote
    | Deciding                                                                      // RunRemote chose a target
    | ShellStarting | ShellRunning | ShellJoining                                    // ProxyShell
    | Ended

  /** channelRead and delivered record all bytes read from the SSH channel and all bytes returned by
      ReadContext; dropped records that the producer gave up a message because the session ended. */
  datatype State = State(
    channelRead: seq<byte>, delivered: seq<byte>,
    producer: Producer, slot: Option<Message>, ended: bool, dropped: bool,
    pending: seq<byte>, fault: Option<Fault>,
    control: Control, readers: seq<MenuReader>, reply: Option<Outcome>,
    worker: Worker, cancelled: bool)

  const INITIAL := State([], [], Reading, None, false, false, [], None, MenuStarting, [], None, NotStarted, false)

  const BUFFER: nat := 4096

  datatype Caller = Menu(generation: nat) | Shell

  datatype Action =
    // the producer goroutine
    | ChannelRead(m: Message) | Send | Abandon
    // the session context is cancelled
    | EndSession
    // one step of ReadContext
    | Check(who: Caller) | Look(who: Caller) | Slice(who: Caller) | TestFault(who: Caller)
    | SelectCancelled(who: Caller) | SelectMessage(who: Caller) | SelectClosed(who: Caller) | Assign(who: Caller)
    // RunRemote: its reader goroutine and its loop
    | StartMenu | TakeRequest | Hand(generation: nat) | QuitReader(generation: nat)
    | TakeReply | ReadAgain | ChooseTarget | LeaveMenu
    // handle between menus, ProxyShell and its worker
    | Refuse | StartShell | ShellFails | StartWorker | ShellReturns | WorkerWrites | WorkerStops | Join

  // ---------- ReadContext ----------

  predicate Inside(s: State, who: Caller) {
    match who
    case Menu(g) => g < |s.readers| && s.readers[g].MenuInside?
    case Shell => s.worker.ShellInside?
  }

  function CallOf(s: State, who: Caller): (r: Call)
    requires Inside(s, who)
  {
    match who
    case Menu(g) => s.readers[g].call
    case Shell => s.worker.call
  }

  function Continue(s: State, who: Caller, call: Call): (r: State)
    requires Inside(s, who)
  {
    match who
    case Menu(g) => s.(readers := s.readers[g := MenuInside(call)])
    case Shell => s.(worker := ShellInside(call))
  }

  function Return(s: State, who: Caller, outcome: Outcome): (r: State)
    requires Inside(s, who)
  {
    match who
    case Menu(g) => s.(readers := s.readers[g := Holding(outcome)])
    case Shell => s.(worker := Writing(outcome))
  }

  /** The menu reads under the session context, the worker under a context derived from it. */
  predicate IsCancelled(s: State, who: Caller) {
    s.ended || (who.Shell? && s.cancelled)
  }

  function ReadStep(s: State, a: Action): (r: Option<State>)
    requires a.Check? || a.Look? || a.Slice? || a.TestFault? || a.SelectCancelled? || a.SelectMessage?
      || a.SelectClosed? || a.Assign?
  {
    if !Inside(s, a.who) then None
    else
      var call := CallOf(s, a.who);
      match a
      case Check(who) =>
        if !call.AtCheck? then None
        else if IsCancelled(s, who) then Some(Return(s, who, Cancelled))
        else Some(Continue(s, who, AtPending))
      case Look(who) =>
        if !call.AtPending? then None
        else if s.pending != [] then
          var n := if |s.pending| < BUFFER then |s.pending| else BUFFER;
          Some(Continue(s, who, Copied(s.pending[..n])))
        else Some(Continue(s, who, AtFault))
      case Slice(who) =>
        if !call.Copied? then None
        else
          var n := |call.chunk|;
          var left := if n <= |s.pending| then s.pending[n..] else [];
          Some(Return(s, who, Data(call.chunk)).(pending := left, delivered := s.delivered + call.chunk))
      case TestFault(who) =>
        if !call.AtFault? then None
        else if s.fault.Some? then Some(Return(s, who, Failed(s.fault.value)))
        else Some(Continue(s, who, AtSelect))
      case SelectCancelled(who) =>
        if !call.AtSelect? || !IsCancelled(s, who) then None else Some(Return(s, who, Cancelled))
      case SelectMessage(who) =>
        if !call.AtSelect? || s.slot.None? then None
        else Some(Continue(s, who, Received(s.slot.value)).(slot := None))
      case SelectClosed(who) =>
        if !call.AtSelect? || s.slot.Some? || !s.producer.Stopped? then None
        else Some(Return(s, who, ChannelClosed))
      case Assign(who) =>
        if !call.Received? then None
        else Some(Continue(s, who, AtCheck).(pending := call.m.data, fault := call.m.fault))
  }

  // ---------- everything else ----------

  function Current(s: State): (r: MenuReader) {
    if s.readers == [] then Gone else s.readers[|s.readers| - 1]
  }

  predicate InMenu(c: Control) { c.MenuRequesting? || c.MenuSelecting? || c.MenuHandling? }

  /** The done channel of a RunRemote call is closed once the call has returned. */
  predicate IsDone(s: State, g: nat) { g + 1 < |s.readers| || !InMenu(s.control) }

  function Step(s: State, a: Action): (r: Option<State>) {
    match a
    case ChannelRead(m) =>
      if !s.producer.Reading? || |m.data| > BUFFER then None
      else Some(s.(producer := Sending(m), channelRead := s.channelRead + m.data))
    case Send =>
      if !s.producer.Sending? || s.slot.Some? then None
      else Some(s.(slot := Some(s.producer.m), producer := if s.producer.m.fault.Some? then Stopped else Reading))
    case Abandon =>
      if !s.producer.Sending? || !s.ended then None else Some(s.(producer := Stopped, dropped := true))
    case EndSession => Some(s.(ended := true))

    case StartMenu =>
      if !s.control.MenuStarting? then None
      else Some(s.(control := MenuRequesting, readers := s.readers + [Idle], reply := None))
    case TakeRequest =>
      if !s.control.MenuRequesting? || !Current(s).Idle? then None
      else Some(s.(control := MenuSelecting, readers := s.readers[|s.readers| - 1 := MenuInside(AtCheck)]))
    case Hand(g) =>
      if g >= |s.readers| || !s.readers[g].Holding? || IsDone(s, g) || s.reply.Some? then None
      else
        var next := if s.readers[g].outcome.Data? then Idle else Gone;
        Some(s.(reply := Some(s.readers[g].outcome), readers := s.readers[g := next]))
    case QuitReader(g) =>
      if g >= |s.readers| || !IsDone(s, g) || s.readers[g].MenuInside? then None
      else Some(s.(readers := s.readers[g := Gone]))
    case TakeReply =>
      if !s.control.MenuSelecting? || s.reply.None? then None
      else Some(s.(control := MenuHandling(s.reply.value), reply := None))
    case ReadAgain =>
      if !s.control.MenuHandling? || !s.control.outcome.Data? then None else Some(s.(control := MenuRequesting))
    case ChooseTarget =>
      if !s.control.MenuHandling? || !s.control.outcome.Data? then None else Some(s.(control := Deciding))
    case LeaveMenu =>
      // quit, end of input, a read or write error, or the end of the session
      if !InMenu(s.control) && !s.control.MenuStarting? then None else Some(s.(control := Ended))

    case Refuse => if !s.control.Deciding? then None else Some(s.(control := MenuStarting))
    case StartShell => if !s.control.Deciding? then None else Some(s.(control := ShellStarting))
    case ShellFails => if !s.control.ShellStarting? then None else Some(s.(control := MenuStarting))
    case StartWorker =>
      if !s.control.ShellStarting? then None
      else Some(s.(control := ShellRunning, worker := ShellInside(AtCheck), cancelled := false))
    case ShellReturns =>
      if !s.control.ShellRunning? then None else Some(s.(control := ShellJoining, cancelled := true))
    case WorkerWrites =>
      if !s.worker.Writing? || !s.worker.outcome.Data? then None else Some(s.(worker := ShellInside(AtCheck)))
    case WorkerStops => if !s.worker.Writing? then None else Some(s.(worker := Exited))
    case Join =>
      if !s.control.ShellJoining? || !s.worker.Exited? then None
      else Some(s.(control := MenuStarting, worker := NotStarted))
    case _ => ReadStep(s, a)
  }

  /** The state after a run, if every action of it was possible. */
  function Run(s: State, actions: seq<Action>): (r: Option<State>)
    decreases |actions|
  {
    if actions == [] then Some(s)
    else match Step(s, actions[0])
      case None => None
      case Some(next) => Run(next, actions[1..])
  }

  // ---------- who may be reading ----------

  predicate Quiet(r: MenuReader) { r.Idle? || r.Gone? }

  predicate ReadersInv(s: State) {
    && (forall g :: 0 <= g < |s.readers| - 1 ==> Quiet(s.readers[g]))
    && (InMenu(s.control) ==> s.readers != [])
    && match s.control
       case MenuRequesting => Current(s).Idle? && s.reply.None?
       case MenuSelecting =>
         if s.reply.None? then Current(s).MenuInside? || Current(s).Holding?
         else Current(s) == if s.reply.value.Data? then Idle else Gone
       case MenuHandling(outcome) => s.reply.None? && Current(s) == if outcome.Data? then Idle else Gone
       case Ended => true
       case _ => Quiet(Current(s))
  }

  predicate WorkerInv(s: State) {
    && (s.worker.NotStarted? <==> !(s.control.ShellRunning? || s.control.ShellJoining?))
    && (s.control.ShellJoining? ==> s.cancelled)
  }

  /** Never two callers inside ReadContext. */
  ghost predicate SingleReader(s: State) {
    forall one, two :: Inside(s, one) && Inside(s, two) ==> one == two
  }

  lemma SingleReaderHolds(s: State)
    requires ReadersInv(s) && WorkerInv(s)
    ensures SingleReader(s)
    ensures forall who :: Inside(s, who) ==> Active(s) == Some(who)
  {
  }

  /** The caller that is inside ReadContext, if any. */
  function Active(s: State): (r: Option<Caller>) {
    if s.worker.ShellInside? then Some(Shell)
    else if Current(s).MenuInside? then Some(Menu(|s.readers| - 1))
    else None
  }

  predicate IsReadAction(a: Action) {
    a.Check? || a.Look? || a.Slice? || a.TestFault? || a.SelectCancelled? || a.SelectMessage? || a.SelectClosed?
    || a.Assign?
  }

  /** Only the caller's place in the protocol differs; the caller is still reading or holds a result. */
  predicate OnlyMoved(s: State, t: State, who: Caller) {
    t.control == s.control && t.reply == s.reply && t.cancelled == s.cancelled && t.ended == s.ended
    && match who
       case Menu(g) =>
         t.worker == s.worker && |t.readers| == |s.readers| && g < |s.readers|
         && t.readers == s.readers[g := t.readers[g]]
         && (t.readers[g].MenuInside? || t.readers[g].Holding?)
       case Shell => t.readers == s.readers && (t.worker.ShellInside? || t.worker.Writing?)
  }

  lemma ContinueMoves(s: State, who: Caller, call: Call)
    requires Inside(s, who)
    ensures OnlyMoved(s, Continue(s, who, call), who)
  {
  }

  lemma ReturnMoves(s: State, who: Caller, outcome: Outcome)
    requires Inside(s, who)
    ensures OnlyMoved(s, Return(s, who, outcome), who)
  {
  }

  /** A step of ReadContext touches only its caller's place in the protocol. */
  lemma ReadStepFrame(s: State, a: Action)
    requires IsReadAction(a) && Step(s, a).Some?
    ensures Inside(s, a.who) && OnlyMoved(s, Step(s, a).value, a.who)
  {
    hide Continue, Return, CallOf;
    assert Step(s, a) == ReadStep(s, a) && Inside(s, a.who);
    hide Step, Inside;
    forall call ensures OnlyMoved(s, Continue(s, a.who, call), a.who) { ContinueMoves(s, a.who, call); }
    forall outcome ensures OnlyMoved(s, Return(s, a.who, outcome), a.who) { ReturnMoves(s, a.who, outcome); }
  }

  lemma ReadersReadStep(s: State, a: Action)
    requires IsReadAction(a) && ReadersInv(s) && WorkerInv(s) && Step(s, a).Some?
    ensures ReadersInv(Step(s, a).value) && WorkerInv(Step(s, a).value)
  {
    hide Step;
    ReadStepFrame(s, a);
  }

  lemma ReadersMenuStep(s: State, a: Action)
    requires a.Hand? || a.QuitReader? || a.TakeRequest?
    requires ReadersInv(s) && WorkerInv(s) && Step(s, a).Some?
    ensures ReadersInv(Step(s, a).value) && WorkerInv(Step(s, a).value)
  {
    hide ReadStep;
  }

  lemma ReadersProducerStep(s: State, a: Action)
    requires a.ChannelRead? || a.Send? || a.Abandon? || a.EndSession?
    requires ReadersInv(s) && WorkerInv(s) && Step(s, a).Some?
    ensures ReadersInv(Step(s, a).value) && WorkerInv(Step(s, a).value)
  {
    hide ReadStep;
  }

  lemma ReadersLoopStep(s: State, a: Action)
    requires a.TakeReply? || a.ReadAgain? || a.ChooseTarget? || a.LeaveMenu?
    requires ReadersInv(s) && WorkerInv(s) && Step(s, a).Some?
    ensures ReadersInv(Step(s, a).value) && WorkerInv(Step(s, a).value)
  {
    hide ReadStep;
  }

  lemma ReadersStartMenu(s: State)
    requires ReadersInv(s) && WorkerInv(s) && Step(s, StartMenu).Some?
    ensures ReadersInv(Step(s, StartMenu).value) && WorkerInv(Step(s, StartMenu).value)
  {
    hide ReadStep;
  }

  lemma ReadersShellStep(s: State, a: Action)
    requires a.Refuse? || a.StartShell? || a.ShellFails? || a.StartWorker? || a.ShellReturns?
    requires ReadersInv(s) && WorkerInv(s) && Step(s, a).Some?
    ensures ReadersInv(Step(s, a).value) && WorkerInv(Step(s, a).value)
  {
    hide ReadStep;
  }

  lemma ReadersWorkerStep(s: State, a: Action)
    requires a.WorkerWrites? || a.WorkerStops? || a.Join?
    requires ReadersInv(s) && WorkerInv(s) && Step(s, a).Some?
    ensures ReadersInv(Step(s, a).value) && WorkerInv(Step(s, a).value)
  {
    hide ReadStep;
  }

  lemma ReadersStep(s: State, a: Action)
    requires ReadersInv(s) && WorkerInv(s) && Step(s, a).Some?
    ensures ReadersInv(Step(s, a).value) && WorkerInv(Step(s, a).value)
  {
    hide ReadStep, Step, ReadersInv, WorkerInv;
    if IsReadAction(a) {
      ReadersReadStep(s, a);
    } else if a.Hand? || a.QuitReader? || a.TakeRequest? {
      ReadersMenuStep(s, a);
    } else if a.ChannelRead? || a.Send? || a.Abandon? || a.EndSession? {
      ReadersProducerStep(s, a);
    } else if a.StartMenu? {
      ReadersStartMenu(s);
    } else if a.TakeReply? || a.ReadAgain? || a.ChooseTarget? || a.LeaveMenu? {
      ReadersLoopStep(s, a);
    } else if a.WorkerWrites? || a.WorkerStops? || a.Join? {
      ReadersWorkerStep(s, a);
    } else {
      ReadersShellStep(s, a);
    }
  }

  // ---------- where the bytes are ----------

  function CallAmong(worker: Worker, readers: seq<MenuReader>): (r: Option<Call>) {
    if worker.ShellInside? then Some(worker.call)
    else if readers != [] && readers[|readers| - 1].MenuInside? then Some(readers[|readers| - 1].call)
    else None
  }

  function CurrentCall(s: State): (r: Option<Call>) {
    CallAmong(s.worker, s.readers)
  }

  function MessageInHand(s: State): (r: Option<Message>) {
    match CurrentCall(s)
    case Some(Received(m)) => Some(m)
    case _ => None
  }

  function MessageHeld(s: State): (r: Option<Message>) {
    if s.producer.Sending? then Some(s.producer.m) else None
  }

  function Bytes(m: Option<Message>): (r: seq<byte>) { if m.Some? then m.value.data else [] }

  predicate HasFault(m: Option<Message>) { m.Some? && m.value.fault.Some? }

  /** The bytes that are on their way, oldest first, without those the producer holds. */
  function Queued(s: State): (r: seq<byte>) {
    s.pending + Bytes(MessageInHand(s)) + Bytes(s.slot)
  }

  ghost predicate Conserved(s: State) {
    if s.dropped then s.ended && s.producer.Stopped? && s.delivered + Queued(s) <= s.channelRead
    else s.channelRead == s.delivered + Queued(s) + Bytes(MessageHeld(s))
  }

  predicate CallInv(s: State) {
    match CurrentCall(s)
    case Some(Copied(chunk)) => chunk != [] && chunk <= s.pending
    case Some(AtFault) => s.pending == []
    case Some(AtSelect) => s.pending == [] && s.fault.None?
    case Some(Received(_)) => s.pending == [] && s.fault.None?
    case _ => true
  }

  /** The channel's fault is in exactly one place once the producer has sent it, behind all bytes. */
  predicate FaultInv(s: State) {
    && (!s.producer.Stopped? || s.dropped ==> s.fault.None? && !HasFault(MessageInHand(s)) && !HasFault(s.slot))
    && (s.producer.Stopped? && !s.dropped ==> s.fault.Some? || HasFault(MessageInHand(s)) || HasFault(s.slot))
    && (s.fault.Some? ==> MessageInHand(s).None? && s.slot.None?)
    && (HasFault(MessageInHand(s)) ==> s.slot.None?)
  }

  predicate OutcomeOk(s: State, outcome: Outcome, cancelled: bool) {
    match outcome
    case Data(chunk) => chunk != []
    case Cancelled => s.ended || cancelled
    case Failed(f) => s.fault == Some(f) && s.pending == []
    case ChannelClosed => s.dropped
  }

  predicate OutcomesInv(s: State) {
    && (forall g :: 0 <= g < |s.readers| && s.readers[g].Holding? ==> OutcomeOk(s, s.readers[g].outcome, false))
    && (s.worker.Writing? ==> OutcomeOk(s, s.worker.outcome, s.cancelled))
  }

  ghost predicate StreamInv(s: State) {
    Conserved(s) && CallInv(s) && FaultInv(s) && OutcomesInv(s)
  }

  ghost predicate Inv(s: State) {
    ReadersInv(s) && WorkerInv(s) && StreamInv(s)
  }

  lemma CallIsCurrent(s: State, who: Caller)
    requires ReadersInv(s) && WorkerInv(s) && Inside(s, who)
    ensures CurrentCall(s) == Some(CallOf(s, who)) && (who.Menu? ==> who.generation == |s.readers| - 1)
  {
    SingleReaderHolds(s);
  }

  lemma ContinueEffect(s: State, who: Caller, call: Call)
    requires ReadersInv(s) && WorkerInv(s) && Inside(s, who) && OutcomesInv(s)
    ensures var t := Continue(s, who, call);
      CurrentCall(t) == Some(call) && OutcomesInv(t) && t == s.(readers := t.readers, worker := t.worker)
  {
    CallIsCurrent(s, who);
  }

  lemma ReturnEffect(s: State, who: Caller, outcome: Outcome)
    requires ReadersInv(s) && WorkerInv(s) && Inside(s, who) && OutcomesInv(s)
    requires OutcomeOk(s, outcome, who.Shell? && s.cancelled)
    ensures var t := Return(s, who, outcome);
      CurrentCall(t) == None && OutcomesInv(t) && t == s.(readers := t.readers, worker := t.worker)
  {
    CallIsCurrent(s, who);
  }

  /** Results stay justified while the fault and an empty pending buffer stay. */
  lemma OutcomesKept(s: State, t: State)
    requires OutcomesInv(s) && t.readers == s.readers && t.worker == s.worker
    requires (s.ended ==> t.ended) && (s.cancelled ==> t.cancelled) && (s.dropped ==> t.dropped)
    requires s.fault.Some? && s.pending == [] ==> t.fault == s.fault && t.pending == []
    ensures OutcomesInv(t)
  {
  }

  lemma StreamReturns(s: State, a: Action)
    requires a.Check? || a.TestFault? || a.SelectCancelled? || a.SelectClosed?
    requires Inv(s) && Step(s, a).Some?
    ensures StreamInv(Step(s, a).value)
  {
    hide Return, Continue, OutcomesInv, ReadersInv;
    var who := a.who;
    CallIsCurrent(s, who);
    if a.Check? && !IsCancelled(s, who) {
      ContinueEffect(s, who, AtPending);
    } else if a.TestFault? && s.fault.None? {
      ContinueEffect(s, who, AtSelect);
    } else {
      var result :=
        if a.TestFault? then Failed(s.fault.value) else if a.SelectClosed? then ChannelClosed else Cancelled;
      ReturnEffect(s, who, result);
    }
  }

  /** Moving bytes along the way conserves them. */
  lemma SameQueue(s: State, t: State)
    requires Conserved(s) && s.delivered + Queued(s) == t.delivered + Queued(t)
    requires t.channelRead == s.channelRead && t.producer == s.producer && t.dropped == s.dropped && t.ended == s.ended
    ensures Conserved(t)
  {
  }

  lemma StreamLook(s: State, who: Caller)
    requires Inv(s) && ReadStep(s, Look(who)).Some?
    ensures StreamInv(ReadStep(s, Look(who)).value)
  {
    hide Return, Continue, OutcomesInv, ReadersInv, WorkerInv, CallAmong, Conserved;
    CallIsCurrent(s, who);
    var n := if |s.pending| < BUFFER then |s.pending| else BUFFER;
    ContinueEffect(s, who, if s.pending == [] then AtFault else Copied(s.pending[..n]));
    SameQueue(s, ReadStep(s, Look(who)).value);
  }

  lemma StreamSelectMessage(s: State, who: Caller)
    requires Inv(s) && ReadStep(s, SelectMessage(who)).Some?
    ensures StreamInv(ReadStep(s, SelectMessage(who)).value)
  {
    hide Return, Continue, OutcomesInv, ReadersInv, WorkerInv, CallAmong, Conserved;
    CallIsCurrent(s, who);
    var m := Received(s.slot.value);
    ContinueEffect(s, who, m);
    var t := ReadStep(s, SelectMessage(who)).value;
    OutcomesKept(Continue(s, who, m), t);
    SameQueue(s, t);
  }

  lemma StreamAssign(s: State, who: Caller)
    requires Inv(s) && ReadStep(s, Assign(who)).Some?
    ensures StreamInv(ReadStep(s, Assign(who)).value)
  {
    hide Return, Continue, OutcomesInv, ReadersInv, WorkerInv, CallAmong, Conserved;
    CallIsCurrent(s, who);
    ContinueEffect(s, who, AtCheck);
    var t := ReadStep(s, Assign(who)).value;
    OutcomesKept(Continue(s, who, AtCheck), t);
    SameQueue(s, t);
  }

  lemma StreamSlice(s: State, who: Caller)
    requires Inv(s) && ReadStep(s, Slice(who)).Some?
    ensures StreamInv(ReadStep(s, Slice(who)).value)
  {
    hide Return, OutcomesInv, ReadersInv, WorkerInv, CallAmong, Conserved, Queued;
    CallIsCurrent(s, who);
    var chunk, t := CallOf(s, who).chunk, ReadStep(s, Slice(who)).value;
    ReturnEffect(s, who, Data(chunk));
    OutcomesKept(Return(s, who, Data(chunk)), t);
    SliceMoves(s, t, chunk);
    SameQueue(s, t);
  }

  /** Taking a chunk off the pending bytes and delivering it. */
  lemma SliceMoves(s: State, t: State, chunk: seq<byte>)
    requires chunk <= s.pending && t.pending == s.pending[|chunk|..] && t.delivered == s.delivered + chunk
      && t.slot == s.slot
    requires MessageInHand(s).None? && MessageInHand(t).None?
    ensures s.delivered + Queued(s) == t.delivered + Queued(t)
  {
    hide MessageInHand;
    assert s.pending == chunk + t.pending;
    assert s.delivered + (s.pending + [] + Bytes(s.slot)) == t.delivered + (t.pending + [] + Bytes(t.slot));
  }

  /** The producer and the end of the session. */
  lemma StreamProducer(s: State, a: Action)
    requires a.ChannelRead? || a.Send? || a.Abandon? || a.EndSession?
    requires Inv(s) && Step(s, a).Some?
    ensures StreamInv(Step(s, a).value)
  {
    hide OutcomesInv, ReadersInv, ReadStep;
    var t := Step(s, a).value;
    OutcomesKept(s, t);
    assert CurrentCall(t) == CurrentCall(s);
    if a.Send? {
      assert s.delivered + Queued(s) + Bytes(MessageHeld(s)) == t.delivered + Queued(t) + Bytes(MessageHeld(t));
    } else if a.ChannelRead? {
      assert s.delivered + Queued(s) + Bytes(MessageHeld(s)) == s.delivered + Queued(s);
    } else if a.Abandon? && !s.dropped {
      assert s.delivered + Queued(s) <= s.delivered + Queued(s) + Bytes(MessageHeld(s));
    }
  }

  lemma StreamRead(s: State, a: Action)
    requires IsReadAction(a) && Inv(s) && Step(s, a).Some?
    ensures StreamInv(Step(s, a).value)
  {
    hide Inv, StreamInv, ReadStep;
    match a
    case Look(who) => StreamLook(s, who);
    case SelectMessage(who) => StreamSelectMessage(s, who);
    case Assign(who) => StreamAssign(s, who);
    case Slice(who) => StreamSlice(s, who);
    case _ => StreamReturns(s, a);
  }

  /** Handing control over moves no bytes: nobody stops or starts in the middle of a read. */
  ghost predicate Handed(s: State, t: State) {
    t == s.(control := t.control, readers := t.readers, reply := t.reply, worker := t.worker, cancelled := t.cancelled)
    && (CurrentCall(t) == CurrentCall(s) || (CurrentCall(s) == None && CurrentCall(t) == Some(AtCheck)))
    && OutcomesInv(t)
  }

  lemma HandedKeeps(s: State, t: State)
    requires StreamInv(s) && Handed(s, t)
    ensures StreamInv(t)
  {
    hide OutcomesInv, CallAmong;
    assert MessageInHand(t) == MessageInHand(s);
    assert Queued(t) == Queued(s);
  }

  lemma ReadersHanded(s: State, a: Action)
    requires a.StartMenu? || a.TakeRequest? || a.Hand? || a.QuitReader?
    requires Inv(s) && Step(s, a).Some?
    ensures Handed(s, Step(s, a).value)
  {
    hide ReadStep, Conserved, CallInv, FaultInv;
  }

  lemma ControlHanded(s: State, a: Action)
    requires !IsReadAction(a) && !a.ChannelRead? && !a.Send? && !a.Abandon? && !a.EndSession?
    requires !(a.StartMenu? || a.TakeRequest? || a.Hand? || a.QuitReader?)
    requires Inv(s) && Step(s, a).Some?
    ensures Handed(s, Step(s, a).value)
  {
    hide ReadStep, Conserved, CallInv, FaultInv;
  }

  lemma InvStep(s: State, a: Action)
    requires Inv(s) && Step(s, a).Some?
    ensures Inv(Step(s, a).value)
  {
    hide Step, StreamInv, ReadersInv;
    ReadersStep(s, a);
    if IsReadAction(a) {
      StreamRead(s, a);
    } else if a.ChannelRead? || a.Send? || a.Abandon? || a.EndSession? {
      StreamProducer(s, a);
    } else {
      if a.StartMenu? || a.TakeRequest? || a.Hand? || a.QuitReader? {
        ReadersHanded(s, a);
      } else {
        ControlHanded(s, a);
      }
      HandedKeeps(s, Step(s, a).value);
    }
  }

  lemma {:induction false} InvRun(s: State, actions: seq<Action>)
    requires Inv(s) && Run(s, actions).Some?
    ensures Inv(Run(s, actions).value)
    decreases |actions|
  {
    hide Inv, Step;
    if actions == [] {
    } else {
      InvStep(s, actions[0]);
      InvRun(Step(s, actions[0]).value, actions[1..]);
    }
  }

  // ---------- what every run guarantees ----------

  ghost predicate Reached(s: State) {
    exists actions :: Run(INITIAL, actions) == Some(s)
  }

  lemma ReachedInv(s: State)
    requires Reached(s)
    ensures Inv(s)
  {
    var actions :| Run(INITIAL, actions) == Some(s);
    assert Inv(INITIAL);
    InvRun(INITIAL, actions);
  }

  /** The menu reader and the shell's worker are never both reading, nor two menu readers. */
  lemma NeverTwoReaders(s: State)
    requires Reached(s)
    ensures SingleReader(s)
  {
    ReachedInv(s);
    SingleReaderHolds(s);
  }

  /** When RunRemote has returned a choice, no menu reader is reading or holds a result; and outside
      ProxyShell no worker exists, so every return of ProxyShell has joined it. */
  lemma HandedOverWhole(s: State)
    requires Reached(s)
    ensures s.control.Deciding? || s.control.ShellStarting? || s.control.ShellRunning? || s.control.ShellJoining?
      || s.control.MenuStarting?
      ==> forall g :: 0 <= g < |s.readers| ==> Quiet(s.readers[g])
    ensures !s.control.ShellRunning? && !s.control.ShellJoining? ==> s.worker.NotStarted?
  {
    ReachedInv(s);
    assert s.readers != [] ==> Current(s) == s.readers[|s.readers| - 1];
  }

  /** Until the session ends every byte read from the channel is delivered or on its way, in order;
      after that the delivered bytes are a prefix. */
  lemma StreamConservation(s: State)
    requires Reached(s)
    ensures !s.ended ==> s.channelRead == s.delivered + Queued(s) + Bytes(MessageHeld(s))
    ensures s.delivered <= s.channelRead
  {
    ReachedInv(s);
    if !s.dropped {
      assert s.delivered + Queued(s) + Bytes(MessageHeld(s)) == s.delivered + (Queued(s) + Bytes(MessageHeld(s)));
    }
  }

  /** ReadContext reports the channel's fault only after all its bytes, and a closed channel only
      after the session has ended. */
  lemma FaultComesLast(s: State, g: nat)
    requires Reached(s) && g < |s.readers|
    ensures s.readers[g].Holding? && s.readers[g].outcome.Failed? ==> s.delivered == s.channelRead
    ensures s.worker.Writing? && s.worker.outcome.Failed? ==> s.delivered == s.channelRead
    ensures s.readers[g].Holding? && s.readers[g].outcome.ChannelClosed? ==> s.ended
    ensures s.worker.Writing? && s.worker.outcome.ChannelClosed? ==> s.ended
  {
    ReachedInv(s);
  }

  /** No read returns bytes in the run, however many are begun, cancelled or fail. */
  predicate NothingReturned(actions: seq<Action>) {
    forall i :: 0 <= i < |actions| ==> !actions[i].Slice?
  }

  lemma {:induction false} DeliveredStays(s: State, actions: seq<Action>)
    requires Run(s, actions).Some? && NothingReturned(actions)
    ensures Run(s, actions).value.delivered == s.delivered
    decreases |actions|
  {
    hide Step;
    if actions == [] {
    } else {
      DeliveredByStep(s, actions[0]);
      DeliveredStays(Step(s, actions[0]).value, actions[1..]);
    }
  }

  /** The caller's result, or its place in the call. */
  function Place(s: State, who: Caller): (r: (Option<Call>, Option<Outcome>)) {
    match who
    case Menu(g) =>
      if g >= |s.readers| then (None, None)
      else if s.readers[g].MenuInside? then (Some(s.readers[g].call), None)
      else if s.readers[g].Holding? then (None, Some(s.readers[g].outcome))
      else (None, None)
    case Shell =>
      if s.worker.ShellInside? then (Some(s.worker.call), None)
      else if s.worker.Writing? then (None, Some(s.worker.outcome))
      else (None, None)
  }

  lemma ContinuePlace(s: State, who: Caller, call: Call)
    requires Inside(s, who)
    ensures var t := Continue(s, who, call);
      t == s.(readers := t.readers, worker := t.worker) && Inside(t, who) && CallOf(t, who) == call
      && Place(t, who) == (Some(call), None)
  {
  }

  lemma ReturnPlace(s: State, who: Caller, outcome: Outcome)
    requires Inside(s, who)
    ensures var t := Return(s, who, outcome);
      t == s.(readers := t.readers, worker := t.worker) && Place(t, who) == (None, Some(outcome))
  {
  }

  lemma DeliveredByRead(s: State, a: Action)
    requires IsReadAction(a) && Step(s, a).Some? && !a.Slice?
    ensures Step(s, a).value.delivered == s.delivered
  {
    hide Continue, Return, CallOf, Place;
    assert Step(s, a) == ReadStep(s, a) && Inside(s, a.who);
    hide Step, Inside;
    forall call ensures Continue(s, a.who, call).delivered == s.delivered { ContinuePlace(s, a.who, call); }
    forall outcome ensures Return(s, a.who, outcome).delivered == s.delivered { ReturnPlace(s, a.who, outcome); }
  }

  lemma DeliveredByStep(s: State, a: Action)
    requires Step(s, a).Some? && !a.Slice?
    ensures Step(s, a).value.delivered == s.delivered
  {
    if IsReadAction(a) {
      DeliveredByRead(s, a);
    } else {
      hide ReadStep;
    }
  }

  lemma {:induction false} RunTwice(s: State, first: seq<Action>, second: seq<Action>)
    requires Run(s, first).Some?
    ensures Run(s, first + second) == Run(Run(s, first).value, second)
    decreases |first|
  {
    hide Step;
    if first == [] {
      assert first + second == second;
    } else {
      assert (first + second)[1..] == first[1..] + second;
      RunTwice(Step(s, first[0]).value, first[1..], second);
    }
  }

  lemma ReachesOn(s: State, actions: seq<Action>)
    requires Reached(s) && Run(s, actions).Some?
    ensures Reached(Run(s, actions).value)
  {
    hide Run;
    var before :| Run(INITIAL, before) == Some(s);
    RunTwice(INITIAL, before, actions);
  }

  /** Whatever reads are cancelled in between, also those that had already taken a message from the
      channel: the next bytes that are returned continue the stream where the last ones ended. */
  lemma CancelledLosesNothing(s: State, actions: seq<Action>, who: Caller)
    requires Reached(s) && NothingReturned(actions) && Run(s, actions).Some?
    requires Step(Run(s, actions).value, Slice(who)).Some?
    ensures var before := Run(s, actions).value;
      var chunk, after := CallOf(before, who).chunk, Step(before, Slice(who)).value;
      chunk != [] && after.delivered == s.delivered + chunk <= after.channelRead
      && chunk == after.channelRead[|s.delivered|..|s.delivered| + |chunk|]
  {
    var before := Run(s, actions).value;
    var chunk, after := CallOf(before, who).chunk, Step(before, Slice(who)).value;
    DeliveredStays(s, actions);
    ReachesOn(s, actions);
    LastStep(before, Slice(who));
    ReachesOn(before, [Slice(who)]);
    ReachedInv(before);
    CallIsCurrent(before, who);
    StreamConservation(after);
    hide Run, Reached, Inv;
    assert after.delivered == s.delivered + chunk;
    assert after.channelRead[..|after.delivered|] == s.delivered + chunk;
  }

  lemma LastStep(s: State, a: Action)
    ensures Run(s, [a]) == Step(s, a)
  {
    hide Step;
    assert [a][1..] == [];
  }

  /** A call that is cancelled after it took a message leaves the bytes pending for the next reader. */
  lemma CancelledAfterTaking(s: State, who: Caller)
    requires Reached(s) && Inside(s, who) && CallOf(s, who).Received? && IsCancelled(s, who)
    ensures var t := Run(s, [Assign(who), Check(who)]);
      t.Some? && !Inside(t.value, who) && t.value.pending == CallOf(s, who).m.data
      && t.value.fault == CallOf(s, who).m.fault
      && t.value.delivered == s.delivered && t.value.channelRead == s.channelRead
  {
    ReachedInv(s);
    hide Inv, Reached;
    var first := Step(s, Assign(who)).value;
    assert [Assign(who), Check(who)][1..] == [Check(who)];
    LastStep(first, Check(who));
  }

  // ---------- joining the worker ends ----------

  /** How many steps the worker can still take once its context is cancelled. */
  function StepsLeft(w: Worker): (r: nat) {
    match w
    case NotStarted => 0
    case Exited => 0
    case Writing(outcome) => if outcome.Data? then 3 else 1
    case ShellInside(call) =>
      match call
      case AtCheck => 2
      case Received(_) => 3
      case AtSelect => 4
      case AtFault => 5
      case Copied(_) => 4
      case AtPending => 6
  }

  predicate IsWorkerAction(a: Action) {
    a.WorkerWrites? || a.WorkerStops? || (IsReadAction(a) && a.who.Shell?)
  }

  /** While ProxyShell joins, its worker can always move, every move brings it closer to its exit,
      and nobody else moves it back; so the join ends after at most six moves of the worker. */
  lemma JoinEnds(s: State, a: Action)
    requires Reached(s) && s.control.ShellJoining?
    ensures s.worker.Exited? || exists move :: IsWorkerAction(move) && Step(s, move).Some?
    ensures Step(s, a).Some? && IsWorkerAction(a) ==> StepsLeft(Step(s, a).value.worker) < StepsLeft(s.worker) <= 6
    ensures Step(s, a).Some? && !IsWorkerAction(a) && !a.Join? ==>
      var t := Step(s, a).value; t.worker == s.worker && t.control == s.control && t.cancelled
  {
    ReachedInv(s);
    assert WorkerInv(s);
    hide Inv, Reached, ReadersInv;
    WorkerCanMove(s);
    if Step(s, a).Some? && IsWorkerAction(a) { WorkerComesCloser(s, a); }
    if Step(s, a).Some? && !IsWorkerAction(a) && !a.Join? { OthersLeaveWorker(s, a); }
  }

  lemma WorkerCanMove(s: State)
    requires s.control.ShellJoining? && s.cancelled && WorkerInv(s)
    ensures s.worker.Exited? || exists move :: IsWorkerAction(move) && Step(s, move).Some?
  {
    if s.worker.Writing? {
      assert IsWorkerAction(WorkerStops) && Step(s, WorkerStops).Some?;
    } else if s.worker.ShellInside? {
      var move := NextMove(s.worker.call);
      assert IsWorkerAction(move) && Step(s, move).Some?;
    }
  }

  lemma WorkerComesCloser(s: State, a: Action)
    requires s.cancelled && Step(s, a).Some? && IsWorkerAction(a)
    ensures StepsLeft(Step(s, a).value.worker) < StepsLeft(s.worker) <= 6
  {
    if IsReadAction(a) { WorkerReads(s, a); }
  }

  function NextMove(call: Call): (r: Action) {
    match call
    case AtCheck => Check(Shell)
    case AtPending => Look(Shell)
    case Copied(_) => Slice(Shell)
    case AtFault => TestFault(Shell)
    case AtSelect => SelectCancelled(Shell)
    case Received(_) => Assign(Shell)
  }

  lemma WorkerReads(s: State, a: Action)
    requires IsReadAction(a) && a.who.Shell? && s.cancelled && Step(s, a).Some?
    ensures StepsLeft(Step(s, a).value.worker) < StepsLeft(s.worker)
  {
  }

  lemma OthersLeaveWorker(s: State, a: Action)
    requires s.control.ShellJoining? && s.cancelled && !IsWorkerAction(a) && !a.Join? && Step(s, a).Some?
    ensures var t := Step(s, a).value; t.worker == s.worker && t.control == s.control && t.cancelled
  {
    if IsReadAction(a) { ReadStepFrame(s, a); }
  }

  // ---------- ReadContext as the program writes it ----------

  /** What one round of the loop comes to. */
  datatype Round = Returns(outcome: Outcome, left: seq<byte>) | Takes(m: Message) | Blocks

  /** One round with room for limit bytes, when the channel offers next or is closed. */
  function RoundOf(
    pending: seq<byte>, fault: Option<Fault>, next: Option<Message>, closed: bool, cancelled: bool, limit: nat)
    : (r: Round)
  {
    if cancelled then Returns(Cancelled, pending)
    else if pending != [] then
      var n := if |pending| < limit then |pending| else limit;
      Returns(Data(pending[..n]), pending[n..])
    else if fault.Some? then Returns(Failed(fault.value), pending)
    else if next.Some? then Takes(next.value)
    else if closed then Returns(ChannelClosed, pending)
    else Blocks
  }

  function RoundHere(s: State, who: Caller): (r: Round) {
    RoundOf(s.pending, s.fault, s.slot, s.producer.Stopped?, IsCancelled(s, who), BUFFER)
  }

  /** The steps that make up a round in which nothing else happens. */
  function RoundSteps(s: State, who: Caller): (r: seq<Action>) {
    if IsCancelled(s, who) then [Check(who)]
    else if s.pending != [] then [Check(who), Look(who), Slice(who)]
    else if s.fault.Some? then [Check(who), Look(who), TestFault(who)]
    else if s.slot.Some? then [Check(who), Look(who), TestFault(who), SelectMessage(who), Assign(who)]
    else if s.producer.Stopped? then [Check(who), Look(who), TestFault(who), SelectClosed(who)]
    else [Check(who), Look(who), TestFault(who)]
  }

  lemma RunNext(s: State, a: Action, rest: seq<Action>)
    requires Step(s, a).Some?
    ensures Run(s, [a] + rest) == Run(Step(s, a).value, rest)
  {
    hide Step;
    assert ([a] + rest)[1..] == rest;
  }

  ghost predicate RoundDone(s: State, who: Caller, t: State, round: Round) {
    match round
    case Returns(outcome, left) => Place(t, who) == (None, Some(outcome)) && t.pending == left && t.fault == s.fault
    case Takes(m) => Place(t, who) == (Some(AtCheck), None) && t.pending == m.data && t.fault == m.fault && t.slot.None?
    case Blocks => Place(t, who) == (Some(AtSelect), None) && t.pending == s.pending && t.fault == s.fault
  }

  lemma ChecksAndLooks(s: State, who: Caller) returns (looked: State)
    requires Inside(s, who) && CallOf(s, who).AtCheck? && !IsCancelled(s, who)
    ensures Step(s, Check(who)).Some? && Step(Step(s, Check(who)).value, Look(who)) == Some(looked)
    ensures Inside(looked, who) && looked == s.(readers := looked.readers, worker := looked.worker)
    ensures s.pending == [] ==> CallOf(looked, who) == AtFault
    ensures s.pending != [] ==>
      var n := if |s.pending| < BUFFER then |s.pending| else BUFFER; CallOf(looked, who) == Copied(s.pending[..n])
  {
    hide Continue, Return, CallOf, Inside, Place;
    ContinuePlace(s, who, AtPending);
    var checked := Continue(s, who, AtPending);
    var n := if |s.pending| < BUFFER then |s.pending| else BUFFER;
    var call := if s.pending != [] then Copied(s.pending[..n]) else AtFault;
    ContinuePlace(checked, who, call);
    looked := Continue(checked, who, call);
  }

  lemma RoundReturnsData(s: State, who: Caller)
    requires Inside(s, who) && CallOf(s, who).AtCheck? && !IsCancelled(s, who) && s.pending != []
    ensures var t := Run(s, RoundSteps(s, who)); t.Some? && RoundDone(s, who, t.value, RoundHere(s, who))
  {
    var looked := ChecksAndLooks(s, who);
    hide Continue, Return, CallOf, Inside, Place, Run;
    ReturnPlace(looked, who, Data(CallOf(looked, who).chunk));
    RunOfThree(s, Check(who), Look(who), Slice(who));
  }

  lemma TestsFault(s: State, who: Caller) returns (tested: State)
    requires Inside(s, who) && CallOf(s, who).AtCheck? && !IsCancelled(s, who) && s.pending == []
    ensures Run(s, [Check(who), Look(who), TestFault(who)]) == Some(tested)
    ensures tested == s.(readers := tested.readers, worker := tested.worker)
    ensures s.fault.Some? ==> Place(tested, who) == (None, Some(Failed(s.fault.value)))
    ensures s.fault.None? ==>
      Inside(tested, who) && CallOf(tested, who) == AtSelect && Place(tested, who) == (Some(AtSelect), None)
  {
    var looked := ChecksAndLooks(s, who);
    hide Continue, Return, CallOf, Inside, Place, Run;
    if s.fault.Some? {
      ReturnPlace(looked, who, Failed(s.fault.value));
    } else {
      ContinuePlace(looked, who, AtSelect);
    }
    RunOfThree(s, Check(who), Look(who), TestFault(who));
    tested := Step(looked, TestFault(who)).value;
  }

  lemma RoundTakes(s: State, who: Caller)
    requires Inside(s, who) && CallOf(s, who).AtCheck? && !IsCancelled(s, who) && s.pending == [] && s.fault.None?
      && s.slot.Some?
    ensures var t := Run(s, RoundSteps(s, who)); t.Some? && RoundDone(s, who, t.value, RoundHere(s, who))
  {
    var tested := TestsFault(s, who);
    var first, second := [Check(who), Look(who), TestFault(who)], [SelectMessage(who), Assign(who)];
    hide Continue, Return, CallOf, Inside, Place, Run;
    var m := s.slot.value;
    ContinuePlace(tested, who, Received(m));
    var taken := Step(tested, SelectMessage(who)).value;
    SamePlace(taken, Continue(tested, who, Received(m)), who);
    ContinuePlace(taken, who, AtCheck);
    var after := Step(taken, Assign(who)).value;
    SamePlace(after, Continue(taken, who, AtCheck), who);
    RunOfTwo(tested, SelectMessage(who), Assign(who));
    RunTwice(s, first, second);
    assert first + second == RoundSteps(s, who);
  }

  lemma SamePlace(s: State, t: State, who: Caller)
    requires s.readers == t.readers && s.worker == t.worker
    ensures Place(s, who) == Place(t, who) && (Inside(s, who) <==> Inside(t, who))
    ensures Inside(s, who) ==> CallOf(s, who) == CallOf(t, who)
  {
  }

  lemma RoundEnds(s: State, who: Caller)
    requires Inside(s, who) && CallOf(s, who).AtCheck? && !IsCancelled(s, who) && s.pending == []
      && (s.fault.Some? || s.slot.None?)
    ensures var t := Run(s, RoundSteps(s, who)); t.Some? && RoundDone(s, who, t.value, RoundHere(s, who))
  {
    var tested := TestsFault(s, who);
    var first := [Check(who), Look(who), TestFault(who)];
    hide Continue, Return, CallOf, Inside, Place, Run;
    if s.fault.None? && s.producer.Stopped? {
      ReturnPlace(tested, who, ChannelClosed);
      LastStep(tested, SelectClosed(who));
      RunTwice(s, first, [SelectClosed(who)]);
      assert first + [SelectClosed(who)] == RoundSteps(s, who);
    } else {
      assert first == RoundSteps(s, who);
    }
  }

  /** The steps of a round of the machine come to what the round of the loop comes to. */
  lemma RoundIsSteps(s: State, who: Caller)
    requires Inside(s, who) && CallOf(s, who).AtCheck?
    ensures var t := Run(s, RoundSteps(s, who)); t.Some? && RoundDone(s, who, t.value, RoundHere(s, who))
  {
    if IsCancelled(s, who) {
      hide Return, Place, Run;
      ReturnPlace(s, who, Cancelled);
      LastStep(s, Check(who));
    } else {
      hide RoundDone, RoundSteps, Run, Place;
      if s.pending != [] {
        RoundReturnsData(s, who);
      } else if s.fault.None? && s.slot.Some? {
        RoundTakes(s, who);
      } else {
        RoundEnds(s, who);
      }
    }
  }

  lemma RunOfTwo(s: State, a: Action, b: Action)
    requires Step(s, a).Some?
    ensures Run(s, [a, b]) == Step(Step(s, a).value, b)
  {
    hide Step;
    assert [a, b] == [a] + [b];
    RunNext(s, a, [b]);
    LastStep(Step(s, a).value, b);
  }

  lemma RunOfThree(s: State, a: Action, b: Action, c: Action)
    requires Step(s, a).Some? && Step(Step(s, a).value, b).Some?
    ensures Run(s, [a, b, c]) == Step(Step(Step(s, a).value, b).value, c)
  {
    hide Step;
    assert [a, b, c] == [a] + [b, c];
    RunNext(s, a, [b, c]);
    RunOfTwo(Step(s, a).value, b, c);
  }

  function Flatten(messages: seq<Message>): (r: seq<byte>) {
    if messages == [] then [] else messages[0].data + Flatten(messages[1..])
  }

  /** A session whose producer will hand over the messages of queue, of which only the last may
      carry a fault. */
  class InteractiveSession {
    var queue: seq<Message>
    var pending: seq<byte>
    var fault: Option<Fault>

    ghost predicate Valid()
      reads this
    {
      && (forall i :: 0 <= i < |queue| ==> (queue[i].fault.Some? <==> i == |queue| - 1))
      && (fault.Some? ==> queue == [])
    }

    /** All bytes that are still to be returned. */
    ghost function Remaining(): (r: seq<byte>)
      reads this
    {
      pending + Flatten(queue)
    }

    constructor (messages: seq<Message>)
      requires forall i :: 0 <= i < |messages| ==> (messages[i].fault.Some? <==> i == |messages| - 1)
      ensures Valid() && Remaining() == Flatten(messages)
    {
      queue, pending, fault := messages, [], None;
    }

    /** One call with room for limit bytes, whose context is cancelled after the given number of rounds. */
    method ReadContext(limit: nat, rounds: nat) returns (outcome: Outcome)
      requires Valid() && limit > 0
      modifies this
      ensures Valid()
      ensures old(Remaining()) == (if outcome.Data? then outcome.chunk else []) + Remaining()
      ensures outcome.Data? ==> 0 < |outcome.chunk| <= limit
      ensures outcome.Failed? ==> Remaining() == [] && fault == Some(outcome.fault)
      ensures outcome.ChannelClosed? ==> Remaining() == [] && old(queue) == [] && old(fault) == None
      ensures outcome.Cancelled? ==> rounds <= |old(queue)|
    {
      var left := rounds;
      while true
        invariant Valid() && Remaining() == old(Remaining())
        invariant |queue| + rounds <= |old(queue)| + left
        invariant queue == [] && fault.None? ==> old(queue) == [] && old(fault) == None
        decreases |queue|, |pending|
      {
        ghost var slot := if queue == [] then None else Some(queue[0]);
        ghost var round := RoundOf(pending, fault, slot, queue == [], left == 0, limit);
        if left == 0 {
          assert round == Returns(Cancelled, pending);
          return Cancelled;
        }
        if pending != [] {
          var n := if |pending| < limit then |pending| else limit;
          var chunk := pending[..n];
          assert pending == chunk + pending[n..];
          pending := pending[n..];
          assert round == Returns(Data(chunk), pending);
          return Data(chunk);
        }
        if fault.Some? {
          assert round == Returns(Failed(fault.value), pending);
          return Failed(fault.value);
        }
        if queue == [] {
          assert round == Returns(ChannelClosed, pending);
          return ChannelClosed;
        }
        left := left - 1;
        var m := queue[0];
        assert round == Takes(m);
        queue := queue[1..];
        pending, fault := m.data, m.fault;
      }
    }
  }
}
