/** connect, disconnect and the worker thread as one state machine: every step is one atomic
    access or one callback, and any number of controlling threads interleave with the workers. */
module Worker {
  import opened Bytes
  import opened ConnectionState

  datatype Callback = Error(code: nat) | Opened | Data | Close(code: nat)

  /** Where a worker is in threadFunc. */
  datatype Pc =
    | SettingUp               // lookup, TCP, TLS, HTTP upgrade
    | SetupFailed(code: nat)  // DISCONNECTED stored, error callback due
    | SetupReported           // close callback 1006 due
    | UpgradeFailed           // doHandshake has called fail(), DISCONNECTED not stored yet
    | UpgradeReported         // close callback 1002 due
    | JustOpen                // OPEN stored, open callback due
    | LoopHead                // about to test running_
    | LoopBody
    | PeerClosing             // close frame: CLOSING stored, running_ not yet
    | Leaving                 // loop left, exchange due
    | Exchanged(code: nat)    // close callback with this code due
    | Finished

  /** One run of threadFunc: its place, its callbacks so far, and whether CLOSING has been
      stored since it stored OPEN. */
  datatype Thread = Thread(pc: Pc, trace: seq<Callback>, closing: bool)

  /** Where a controlling thread is in connect() or disconnect(). */
  datatype Control =
    | Ready
    | Claimed          // connect: CONNECTING is ours
    | RunningSet       // connect: running_ set, thread to be made
    | ThreadMade       // connect: threadStarted_ to be set
    | WillClose        // disconnect: loaded a state that is neither DISCONNECTED nor CLOSED
    | ClosingStored    // disconnect: running_ to be cleared
    | WillJoin         // disconnect: the join or detach
    | Joined           // disconnect: threadStarted_ to be cleared

  datatype System = System(
    state: State, running: bool, threadStarted: bool,
    handle: Option<nat>,          // the worker thread_ can be joined with
    threads: seq<Thread>, controls: seq<Control>,
    terminated: bool)             // std::terminate: a joinable thread_ was assigned to

  /** What the environment decides when a worker moves. */
  datatype Choice = Fail(code: nat) | FailUpgrade | Succeed | Deliver | PeerCloses | Break | Go

  datatype Action =
    | Connect(i: nat)
    | Disconnect(i: nat)
    | Proceed(i: nat, onWorker: bool)
    | Work(w: nat, choice: Choice)

  /** Between the store of OPEN and the exchange to CLOSED. */
  predicate InOpenRegion(pc: Pc) {
    pc.JustOpen? || pc.LoopHead? || pc.LoopBody? || pc.PeerClosing? || pc.Leaving?
  }

  /** May still store to state_. */
  predicate Active(pc: Pc) {
    pc.SettingUp? || pc.UpgradeFailed? || InOpenRegion(pc)
  }

  predicate Claiming(c: Control) {
    c.Claimed? || c.RunningSet?
  }

  /** `state_ = CLOSING`, noted by the run that is open, if any. */
  function StoreClosing(s: System): System {
    s.(state := CLOSING,
       threads := seq(|s.threads|, i requires 0 <= i < |s.threads| =>
                    if InOpenRegion(s.threads[i].pc) then s.threads[i].(closing := true) else s.threads[i]))
  }

  function SetControl(s: System, i: nat, c: Control): System
    requires i < |s.controls|
  {
    s.(controls := s.controls[i := c])
  }

  /** The end of disconnect(): detach on the worker itself, join elsewhere, or neither. */
  function JoinStep(s: System, i: nat, onWorker: bool): System
    requires i < |s.controls|
  {
    if !s.threadStarted || s.handle.None? then SetControl(s, i, Ready)
    else if onWorker then SetControl(s, i, Joined).(handle := None)
    else if s.handle.value < |s.threads| && s.threads[s.handle.value].pc.Finished? then
      SetControl(s, i, Joined).(handle := None)
    else s                                              // join() still waits
  }

  /** The next step of a controlling thread inside connect() or disconnect(). */
  function ControlStep(s: System, i: nat, onWorker: bool): System
    requires i < |s.controls|
  {
    match s.controls[i]
    case Ready => s
    case Claimed => SetControl(s, i, RunningSet).(running := true)
    case RunningSet =>
      if s.handle.Some? then s.(terminated := true)
      else SetControl(s, i, ThreadMade).(
             threads := s.threads + [Thread(SettingUp, [], false)], handle := Some(|s.threads|))
    case ThreadMade => SetControl(s, i, Ready).(threadStarted := true)
    case WillClose => SetControl(StoreClosing(s), i, ClosingStored)
    case ClosingStored => SetControl(s, i, WillJoin).(running := false)
    case WillJoin => JoinStep(s, i, onWorker)
    case Joined => SetControl(s, i, Ready).(threadStarted := false)
  }

  /** A worker's step: itself, the shared fields, and whether it stored CLOSING. */
  datatype Move = Move(thread: Thread, state: State, running: bool, closes: bool)

  /** The next step of a worker; a choice that does not fit its place changes nothing. */
  function ThreadStep(t: Thread, state: State, running: bool, choice: Choice): Move {
    var stay := Move(t, state, running, false);
    match t.pc
    case SettingUp =>
      if choice.Fail? then Move(t.(pc := SetupFailed(choice.code)), DISCONNECTED, running, false)
      else if choice.FailUpgrade? then stay.(thread := t.(pc := UpgradeFailed, trace := t.trace + [Error(6)]))
      else if choice.Succeed? then Move(t.(pc := JustOpen, closing := false), OPEN, running, false)
      else stay
    case SetupFailed(code) => stay.(thread := t.(pc := SetupReported, trace := t.trace + [Error(code)]))
    case SetupReported => stay.(thread := t.(pc := Finished, trace := t.trace + [Close(1006)]))
    case UpgradeFailed => Move(t.(pc := UpgradeReported), DISCONNECTED, running, false)
    case UpgradeReported => stay.(thread := t.(pc := Finished, trace := t.trace + [Close(1002)]))
    case JustOpen => stay.(thread := t.(pc := LoopHead, trace := t.trace + [Opened]))
    case LoopHead => stay.(thread := t.(pc := if running then LoopBody else Leaving))
    case LoopBody =>
      if choice.Deliver? then stay.(thread := t.(trace := t.trace + [Data]))
      else if choice.PeerCloses? then stay.(thread := t.(pc := PeerClosing), closes := true)
      else if choice.Break? then stay.(thread := t.(pc := Leaving))
      else stay.(thread := t.(pc := LoopHead))
    case PeerClosing => Move(t.(pc := LoopHead), state, false, false)
    case Leaving => Move(t.(pc := Exchanged(if state == CLOSING then 1000 else 1006)), CLOSED, running, false)
    case Exchanged(code) => stay.(thread := t.(pc := Finished, trace := t.trace + [Close(code)]))
    case Finished => stay
  }

  function AfterMove(s: System, w: nat, m: Move): System
    requires w < |s.threads|
  {
    s.(threads := s.threads[w := m.thread], state := m.state, running := m.running)
  }

  function WorkerStep(s: System, w: nat, choice: Choice): System
    requires w < |s.threads|
  {
    var m := ThreadStep(s.threads[w], s.state, s.running, choice);
    if m.closes then StoreClosing(AfterMove(s, w, m)) else AfterMove(s, w, m)
  }

  function Step(s: System, a: Action): System {
    if s.terminated then s else
    match a
    case Connect(i) =>
      if i < |s.controls| && s.controls[i].Ready? && s.state == DISCONNECTED
      then SetControl(s, i, Claimed).(state := CONNECTING) else s
    case Disconnect(i) =>
      if i < |s.controls| && s.controls[i].Ready?
      then SetControl(s, i, if s.state.DISCONNECTED? || s.state.CLOSED? then WillJoin else WillClose) else s
    case Proceed(i, onWorker) => if i < |s.controls| then ControlStep(s, i, onWorker) else s
    case Work(w, choice) => if w < |s.threads| then WorkerStep(s, w, choice) else s
  }

  function Run(s: System, actions: seq<Action>): System
    decreases |actions|
  {
    if actions == [] then s else Run(Step(s, actions[0]), actions[1..])
  }

  /** A fresh client and n threads that may call connect and disconnect, any number of times. */
  function Start(n: nat): System {
    System(DISCONNECTED, false, false, None, [], seq(n, _ => Ready), false)
  }

  // ---- The grammar of callbacks ----

  /** The open callback, then any number of data callbacks. */
  ghost predicate OpenThenData(trace: seq<Callback>) {
    && |trace| >= 1 && trace[0] == Opened
    && forall i :: 1 <= i < |trace| ==> trace[i] == Data
  }

  function CloseCode(closing: bool): nat {
    if closing then 1000 else 1006
  }

  /** A finished run: an error and a close, or the open callback, data and a close, whose code
      says normal exactly if CLOSING was stored while the run was open. */
  ghost predicate Complete(t: Thread) {
    || (exists code :: t.trace == [Error(code), Close(1006)])
    || t.trace == [Error(6), Close(1002)]
    || (exists body :: OpenThenData(body) && t.trace == body + [Close(CloseCode(t.closing))])
  }

  /** The trace a run has made when it is at pc. */
  ghost predicate TraceFits(t: Thread) {
    match t.pc
    case SettingUp => t.trace == []
    case SetupFailed(code) => t.trace == []
    case SetupReported => exists code :: t.trace == [Error(code)]
    case UpgradeFailed => t.trace == [Error(6)]
    case UpgradeReported => t.trace == [Error(6)]
    case JustOpen => t.trace == []
    case Exchanged(code) => OpenThenData(t.trace) && code == CloseCode(t.closing)
    case Finished => Complete(t)
    case _ => OpenThenData(t.trace)
  }

  // ---- The invariant ----

  /** At most one run, or claim to one, may still store to state_, and state_ tells which. */
  ghost predicate OneSession(s: System) {
    && (forall i, j :: 0 <= i < j < |s.threads| ==> !(Active(s.threads[i].pc) && Active(s.threads[j].pc)))
    && (forall i, j :: 0 <= i < j < |s.controls| ==> !(Claiming(s.controls[i]) && Claiming(s.controls[j])))
    && (forall i, j :: 0 <= i < |s.threads| && 0 <= j < |s.controls| ==>
          !(Active(s.threads[i].pc) && Claiming(s.controls[j])))
    && (s.state == DISCONNECTED ==>
          && (forall i :: 0 <= i < |s.threads| ==> !Active(s.threads[i].pc))
          && (forall i :: 0 <= i < |s.controls| ==> !Claiming(s.controls[i])))
  }

  ghost predicate OpenMeansOpenRun(s: System) {
    s.state == OPEN ==> exists i :: 0 <= i < |s.threads| && InOpenRegion(s.threads[i].pc)
  }

  ghost predicate ThreadFits(state: State, t: Thread) {
    && TraceFits(t)
    && (InOpenRegion(t.pc) ==> state == if t.closing then CLOSING else OPEN)
  }

  ghost predicate Inv(s: System) {
    && OneSession(s)
    && OpenMeansOpenRun(s)
    && forall i :: 0 <= i < |s.threads| ==> ThreadFits(s.state, s.threads[i])
  }

  /** A control thread moved, claiming nothing it had not claimed. */
  lemma ControlMoved(s: System, r: System, i: nat)
    requires Inv(s) && i < |s.controls| == |r.controls|
    requires r.state == s.state && r.threads == s.threads
    requires r.controls == s.controls[i := r.controls[i]]
    requires Claiming(r.controls[i]) ==> Claiming(s.controls[i])
    ensures Inv(r)
  {
    assert forall j :: 0 <= j < |s.threads| ==> ThreadFits(s.state, s.threads[j]) ==> ThreadFits(r.state, s.threads[j]);
  }

  /** A claim is made while nobody may store: the compare-exchange of connect. */
  lemma ClaimMade(s: System, i: nat)
    requires Inv(s) && i < |s.controls| && s.state == DISCONNECTED
    ensures Inv(SetControl(s, i, Claimed).(state := CONNECTING))
  {
    var r := SetControl(s, i, Claimed).(state := CONNECTING);
    assert forall j :: 0 <= j < |s.threads| ==> ThreadFits(s.state, s.threads[j]) ==> ThreadFits(r.state, s.threads[j]);
  }

  /** The claim passes to the new worker. */
  lemma WorkerMade(s: System, r: System, i: nat)
    requires Inv(s) && i < |s.controls| && s.controls[i].RunningSet?
    requires r.state == s.state && r.controls == s.controls[i := ThreadMade]
    requires r.threads == s.threads + [Thread(SettingUp, [], false)]
    ensures Inv(r)
  {
    assert Claiming(s.controls[i]);
    forall j | 0 <= j < |r.threads|
      ensures ThreadFits(r.state, r.threads[j])
      ensures j < |s.threads| ==> !Active(r.threads[j].pc)
    {
      if j < |s.threads| {
        assert ThreadFits(s.state, s.threads[j]) && r.threads[j] == s.threads[j];
      }
    }
    assert s.state != OPEN;
  }

  lemma ClosingKeeps(s: System)
    requires Inv(s)
    ensures Inv(StoreClosing(s))
  {
    var r := StoreClosing(s);
    forall j | 0 <= j < |s.threads|
      ensures ThreadFits(r.state, r.threads[j]) && r.threads[j].pc == s.threads[j].pc
    {
      assert ThreadFits(s.state, s.threads[j]);
    }
    if s.state == DISCONNECTED {
      assert forall j :: 0 <= j < |s.threads| ==> !Active(s.threads[j].pc);
    }
  }

  /** r is s after a step of control i that leaves state and workers alone and claims nothing. */
  ghost predicate Alone(s: System, r: System, i: nat)
    requires i < |s.controls|
  {
    && r.state == s.state && r.threads == s.threads
    && |r.controls| == |s.controls| && r.controls == s.controls[i := r.controls[i]]
    && (Claiming(r.controls[i]) ==> Claiming(s.controls[i]))
  }

  lemma JoinAlone(s: System, i: nat, onWorker: bool)
    requires i < |s.controls|
    ensures Alone(s, JoinStep(s, i, onWorker), i)
  {
    assert s.controls == s.controls[i := s.controls[i]];
  }

  lemma ControlAlone(s: System, i: nat, onWorker: bool)
    requires i < |s.controls| && !s.controls[i].WillClose?
    requires s.controls[i].RunningSet? ==> s.handle.Some?
    ensures Alone(s, ControlStep(s, i, onWorker), i)
  {
    if s.controls[i].WillJoin? {
      JoinAlone(s, i, onWorker);
    } else {
      assert s.controls == s.controls[i := s.controls[i]];
    }
  }

  lemma ControlKeeps(s: System, i: nat, onWorker: bool)
    requires Inv(s) && i < |s.controls|
    ensures Inv(ControlStep(s, i, onWorker))
  {
    var r := ControlStep(s, i, onWorker);
    if s.controls[i].WillClose? {
      ClosingKeeps(s);
      ControlMoved(StoreClosing(s), r, i);
    } else if s.controls[i].RunningSet? && s.handle.None? {
      WorkerMade(s, r, i);
    } else {
      ControlAlone(s, i, onWorker);
      ControlMoved(s, r, i);
    }
  }

  /** Worker w moved, keeping or giving up its right to store; it stored only if it had it. */
  lemma ThreadMoved(s: System, r: System, w: nat)
    requires Inv(s) && w < |s.threads| == |r.threads|
    requires r.controls == s.controls && r.threads == s.threads[w := r.threads[w]]
    requires ThreadFits(r.state, r.threads[w])
    requires Active(r.threads[w].pc) ==> Active(s.threads[w].pc)
    requires r.state != s.state ==> Active(s.threads[w].pc)
    requires r.state == DISCONNECTED && s.state != DISCONNECTED ==> !Active(r.threads[w].pc)
    requires r.state == OPEN ==> InOpenRegion(r.threads[w].pc) || (s.state == OPEN && !InOpenRegion(s.threads[w].pc))
    ensures Inv(r)
  {
    var t := s.threads[w];
    forall j | 0 <= j < |s.threads|
      ensures ThreadFits(r.state, r.threads[j])
    {
      if j != w {
        assert ThreadFits(s.state, s.threads[j]) && r.threads[j] == s.threads[j];
        if Active(t.pc) {
          assert !Active(s.threads[j].pc);
        }
      }
    }
    assert OneSession(r);
    if r.state == OPEN && !InOpenRegion(r.threads[w].pc) {
      var j :| 0 <= j < |s.threads| && InOpenRegion(s.threads[j].pc);
      assert r.threads[j] == s.threads[j];
    }
  }

  lemma OpenThenDataMore(t: seq<Callback>)
    requires OpenThenData(t)
    ensures OpenThenData(t + [Data])
  {}

  /** The worker's own trace and flag stay right, it never regains the right to store, it
      stores only while it has it, and it gives it up with DISCONNECTED. */
  ghost predicate MoveFits(t: Thread, state: State, m: Move) {
    && ThreadFits(m.state, m.thread)
    && (Active(m.thread.pc) ==> Active(t.pc))
    && (m.state != state ==> Active(t.pc))
    && (m.state == DISCONNECTED && state != DISCONNECTED ==> !Active(m.thread.pc))
    && (m.state == OPEN ==> InOpenRegion(m.thread.pc) || (state == OPEN && !InOpenRegion(t.pc)))
  }

  lemma OpenStepFits(t: Thread, state: State, running: bool, choice: Choice)
    requires ThreadFits(state, t) && InOpenRegion(t.pc)
    ensures MoveFits(t, state, ThreadStep(t, state, running, choice))
  {
    if t.pc.LoopBody? {
      OpenThenDataMore(t.trace);
    }
  }

  lemma ErrorStepFits(t: Thread, state: State, running: bool, choice: Choice)
    requires ThreadFits(state, t) && !InOpenRegion(t.pc)
    ensures MoveFits(t, state, ThreadStep(t, state, running, choice))
  {
    var m := ThreadStep(t, state, running, choice);
    match t.pc
    case SetupFailed(code) => assert m.thread.trace == [Error(code)];
    case SetupReported =>
      var code :| t.trace == [Error(code)];
      assert m.thread.trace == [Error(code), Close(1006)];
    case UpgradeReported => assert m.thread.trace == [Error(6), Close(1002)];
    case Exchanged(code) => assert m.thread.trace == t.trace + [Close(CloseCode(t.closing))];
    case _ =>
  }

  lemma WorkerKeeps(s: System, w: nat, choice: Choice)
    requires Inv(s) && w < |s.threads|
    ensures Inv(WorkerStep(s, w, choice))
  {
    var m := ThreadStep(s.threads[w], s.state, s.running, choice);
    if InOpenRegion(s.threads[w].pc) {
      OpenStepFits(s.threads[w], s.state, s.running, choice);
    } else {
      ErrorStepFits(s.threads[w], s.state, s.running, choice);
    }
    ThreadMoved(s, AfterMove(s, w, m), w);
    ClosingKeeps(AfterMove(s, w, m));
  }

  lemma StepKeeps(s: System, a: Action)
    requires Inv(s)
    ensures Inv(Step(s, a))
  {
    if !s.terminated {
      match a
      case Connect(i) =>
        if i < |s.controls| && s.controls[i].Ready? && s.state == DISCONNECTED { ClaimMade(s, i); }
      case Disconnect(i) =>
        if i < |s.controls| && s.controls[i].Ready? { ControlMoved(s, Step(s, a), i); }
      case Proceed(i, onWorker) => if i < |s.controls| { ControlKeeps(s, i, onWorker); }
      case Work(w, choice) => if w < |s.threads| { WorkerKeeps(s, w, choice); }
    }
  }

  lemma {:induction false} RunKeeps(s: System, actions: seq<Action>)
    requires Inv(s)
    ensures Inv(Run(s, actions))
    decreases |actions|
  {
    if actions != [] {
      StepKeeps(s, actions[0]);
      RunKeeps(Step(s, actions[0]), actions[1..]);
    }
  }

  /** No data without an open callback first. */
  predicate OpensFirst(trace: seq<Callback>) {
    forall k :: 0 <= k < |trace| && trace[k] == Data ==> trace[0] == Opened
  }

  lemma DataAfterOpened(t: Thread)
    requires TraceFits(t)
    ensures OpensFirst(t.trace)
  {}

  /** Under every interleaving: every run, finished or not, has made the callbacks of the grammar
      that belong to its place, and no data without the open callback; a finished one has reported
      an error and a close, or opened, delivered data and closed, with the normal code exactly if
      CLOSING was stored while it was open; and the state is OPEN only between some run's store of
      OPEN and its exchange. */
  lemma WorkerTraces(n: nat, actions: seq<Action>)
    ensures var s := Run(Start(n), actions);
            && (forall i :: 0 <= i < |s.threads| ==> TraceFits(s.threads[i]))
            && (forall i :: 0 <= i < |s.threads| && s.threads[i].pc.Finished? ==> Complete(s.threads[i]))
            && (forall i :: 0 <= i < |s.threads| ==> OpensFirst(s.threads[i].trace))
            && (s.state == OPEN ==> exists i :: 0 <= i < |s.threads| && InOpenRegion(s.threads[i].pc))
  {
    RunKeeps(Start(n), actions);
    var s := Run(Start(n), actions);
    forall i | 0 <= i < |s.threads|
      ensures TraceFits(s.threads[i])
      ensures OpensFirst(s.threads[i].trace)
    {
      assert ThreadFits(s.state, s.threads[i]);
      DataAfterOpened(s.threads[i]);
    }
  }
}
