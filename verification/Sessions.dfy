/** The life of a client: what its state tells, that it is open at most once, and how a disconnect()
    and a close frame end the session. */
module Sessions {
  import opened Bytes
  import opened ConnectionState
  import opened Worker
  import opened Reconnect
  import opened Shutdown

  /** The run has stored OPEN. */
  predicate WasOpen(t: Thread) {
    InOpenRegion(t.pc) || t.pc.Exchanged? || (t.pc.Finished? && t.trace != [] && t.trace[0] == Opened)
  }

  /** The run may still store OPEN or DISCONNECTED. */
  predicate IsConnecting(pc: Pc) {
    pc.SettingUp? || pc.UpgradeFailed?
  }

  predicate AnyWasOpen(s: System) {
    exists w :: 0 <= w < |s.threads| && WasOpen(s.threads[w])
  }

  predicate AnyConnecting(s: System) {
    AnyClaiming(s) || exists w :: 0 <= w < |s.threads| && IsConnecting(s.threads[w].pc)
  }

  // ---- Open at most once ----

  /** At most one run has been open, and then nobody can connect any more. */
  ghost predicate OpenedOnce(s: System) {
    && (forall i, j :: 0 <= i < j < |s.threads| ==> !(WasOpen(s.threads[i]) && WasOpen(s.threads[j])))
    && (AnyWasOpen(s) ==> s.state != DISCONNECTED && !AnyConnecting(s))
  }

  /** A step of a worker that has been open keeps it so, and one that has not been may open only
      from set-up. */
  lemma OpenStep(t: Thread, state: State, running: bool, choice: Choice)
    requires TraceFits(t)
    ensures var m := ThreadStep(t, state, running, choice);
            && (WasOpen(t) ==> WasOpen(m.thread) && (state != DISCONNECTED ==> m.state != DISCONNECTED))
            && (!WasOpen(t) && WasOpen(m.thread) ==> t.pc.SettingUp? && m.state == OPEN && m.thread.pc.JustOpen?)
            && (IsConnecting(m.thread.pc) ==> IsConnecting(t.pc))
            && (!IsConnecting(t.pc) && state != DISCONNECTED ==> m.state != DISCONNECTED)
  {}

  /** Nothing but worker w and the shared fields differs, as far as runs being open goes. */
  predicate Follows(s: System, r: System, w: nat) {
    && w < |s.threads| == |r.threads| && r.controls == s.controls
    && forall k :: 0 <= k < |s.threads| && k != w ==>
         r.threads[k].pc == s.threads[k].pc && WasOpen(r.threads[k]) == WasOpen(s.threads[k])
  }

  lemma WorkFollows(s: System, w: nat, choice: Choice)
    requires w < |s.threads|
    ensures var m := ThreadStep(s.threads[w], s.state, s.running, choice);
            var r := WorkerStep(s, w, choice);
            && Follows(s, r, w)
            && r.threads[w].pc == m.thread.pc && WasOpen(r.threads[w]) == WasOpen(m.thread)
            && r.state == if m.closes then CLOSING else m.state
  {}

  /** What a worker may do without spoiling it. */
  lemma OpenedOnceMoves(s: System, r: System, w: nat)
    requires Inv(s) && OpenedOnce(s) && Follows(s, r, w)
    requires s.state != DISCONNECTED && !IsConnecting(s.threads[w].pc) ==> r.state != DISCONNECTED
    requires IsConnecting(r.threads[w].pc) ==> IsConnecting(s.threads[w].pc)
    requires WasOpen(r.threads[w]) && !WasOpen(s.threads[w]) ==>
               s.threads[w].pc.SettingUp? && r.state != DISCONNECTED && !IsConnecting(r.threads[w].pc)
    ensures OpenedOnce(r)
  {
    if AnyWasOpen(r) && !AnyWasOpen(s) {
      assert Active(s.threads[w].pc);
    }
  }

  lemma WorkOpenedOnce(s: System, w: nat, choice: Choice)
    requires Inv(s) && OpenedOnce(s) && w < |s.threads|
    ensures OpenedOnce(WorkerStep(s, w, choice))
  {
    assert ThreadFits(s.state, s.threads[w]);
    OpenStep(s.threads[w], s.state, s.running, choice);
    WorkFollows(s, w, choice);
    OpenedOnceMoves(s, WorkerStep(s, w, choice), w);
  }

  lemma ProceedOpenedOnce(s: System, i: nat, onWorker: bool)
    requires Inv(s) && OpenedOnce(s) && i < |s.controls|
    ensures OpenedOnce(ControlStep(s, i, onWorker))
  {
    var r := ControlStep(s, i, onWorker);
    if AnyWasOpen(s) {
      assert !Claiming(s.controls[i]);
    }
    if s.controls[i].WillClose? {
      forall k | 0 <= k < |s.threads|
        ensures r.threads[k].pc == s.threads[k].pc && WasOpen(r.threads[k]) == WasOpen(s.threads[k])
      {}
    } else if s.controls[i].RunningSet? && s.handle.None? {
      assert Claiming(s.controls[i]) && !AnyWasOpen(s);
    } else {
      ControlAlone(s, i, onWorker);
    }
  }

  lemma StepOpenedOnce(s: System, a: Action)
    requires Inv(s) && OpenedOnce(s)
    ensures OpenedOnce(Step(s, a))
  {
    match a
    case Work(w, choice) => if w < |s.threads| { WorkOpenedOnce(s, w, choice); }
    case Proceed(i, onWorker) => if i < |s.controls| { ProceedOpenedOnce(s, i, onWorker); }
    case _ =>
  }

  lemma {:induction false} RunOpenedOnce(s: System, actions: seq<Action>)
    requires Inv(s) && OpenedOnce(s)
    ensures Inv(Run(s, actions)) && OpenedOnce(Run(s, actions))
    decreases |actions|
  {
    if actions != [] {
      StepKeeps(s, actions[0]);
      StepOpenedOnce(s, actions[0]);
      RunOpenedOnce(Step(s, actions[0]), actions[1..]);
    }
  }

  lemma WasOpenStays(s: System, a: Action, w: nat)
    requires Inv(s) && w < |s.threads| && WasOpen(s.threads[w])
    ensures w < |Step(s, a).threads| && WasOpen(Step(s, a).threads[w])
  {
    assert ThreadFits(s.state, s.threads[w]);
    match a
    case Work(v, choice) =>
      if v < |s.threads| && !s.terminated {
        WorkFollows(s, v, choice);
        if v == w { OpenStep(s.threads[w], s.state, s.running, choice); }
      }
    case Proceed(i, onWorker) =>
    case _ =>
  }

  lemma {:induction false} NoClaimAfterOpen(s: System, w: nat, actions: seq<Action>, a: Action)
    requires Inv(s) && OpenedOnce(s) && w < |s.threads| && WasOpen(s.threads[w])
    ensures !Claims(Run(s, actions), a)
    decreases |actions|
  {
    if actions == [] {
      assert AnyWasOpen(s);
    } else {
      StepKeeps(s, actions[0]);
      StepOpenedOnce(s, actions[0]);
      WasOpenStays(s, actions[0], w);
      NoClaimAfterOpen(Step(s, actions[0]), w, actions[1..], a);
    }
  }

  lemma StartIsUnopened(n: nat)
    ensures Inv(Start(n)) && OpenedOnce(Start(n))
  {}

  lemma OpenedMeansWasOpen(t: Thread)
    requires TraceFits(t)
    ensures Opened in t.trace ==> WasOpen(t)
  {
    if Opened in t.trace {
      var k :| 0 <= k < |t.trace| && t.trace[k] == Opened;
    }
  }

  lemma ThreadsFit(n: nat, actions: seq<Action>, i: nat)
    requires i < |Run(Start(n), actions).threads|
    ensures var s := Run(Start(n), actions); Inv(s) && OpenedOnce(s)
    ensures var t := Run(Start(n), actions).threads[i]; Opened in t.trace ==> WasOpen(t)
  {
    StartIsUnopened(n);
    RunOpenedOnce(Start(n), actions);
    var s := Run(Start(n), actions);
    assert ThreadFits(s.state, s.threads[i]);
    OpenedMeansWasOpen(s.threads[i]);
  }

  /** Under every interleaving the open callback is made at most once in the life of a client. */
  lemma OpensAtMostOnce(n: nat, actions: seq<Action>, i: nat, j: nat)
    requires i < j < |Run(Start(n), actions).threads|
    ensures var s := Run(Start(n), actions); !(Opened in s.threads[i].trace && Opened in s.threads[j].trace)
  {
    ThreadsFit(n, actions, i);
    ThreadsFit(n, actions, j);
  }

  /** And once a run is open, or has made that callback, no connect() ever claims the connection again. */
  lemma NeverReconnects(n: nat, actions: seq<Action>, i: nat, more: seq<Action>, a: Action)
    requires i < |Run(Start(n), actions).threads|
    requires var t := Run(Start(n), actions).threads[i]; InOpenRegion(t.pc) || Opened in t.trace
    ensures !Claims(Run(Run(Start(n), actions), more), a)
  {
    ThreadsFit(n, actions, i);
    NoClaimAfterOpen(Run(Start(n), actions), i, more, a);
  }

  // ---- A close frame ----

  lemma {:induction false} AllClaimFree(s: System, w: nat, actions: seq<Action>)
    requires Inv(s) && OpenedOnce(s) && w < |s.threads| && WasOpen(s.threads[w])
    ensures ClaimFree(s, actions)
    decreases |actions|
  {
    if actions != [] {
      NoClaimAfterOpen(s, w, [], actions[0]);
      StepKeeps(s, actions[0]);
      StepOpenedOnce(s, actions[0]);
      WasOpenStays(s, actions[0], w);
      AllClaimFree(Step(s, actions[0]), w, actions[1..]);
    }
  }

  /** Once a worker has stored what a close frame calls for, no worker of the client is ever in the
      body of the loop again: it delivers no more data. */
  lemma CloseFrameEndsLoop(n: nat, actions: seq<Action>, w: nat, choice: Choice, more: seq<Action>, k: nat)
    requires !Run(Start(n), actions).terminated && w < |Run(Start(n), actions).threads|
    requires Run(Start(n), actions).threads[w].pc.PeerClosing?
    requires k < |Run(Step(Run(Start(n), actions), Work(w, choice)), more).threads|
    ensures !Run(Step(Run(Start(n), actions), Work(w, choice)), more).threads[k].pc.LoopBody?
  {
    var s := Run(Start(n), actions);
    var t := Step(s, Work(w, choice));
    ThreadsFit(n, actions, w);
    StepKeeps(s, Work(w, choice));
    StepOpenedOnce(s, Work(w, choice));
    WasOpenStays(s, Work(w, choice), w);
    AllClaimFree(t, w, more);
    assert !t.running && t.threads[w].pc.LoopHead?;
    forall v | 0 <= v < |t.threads| ensures !t.threads[v].pc.LoopBody? {
      assert v != w ==> !Active(s.threads[v].pc);
    }
    assert AnyWasOpen(t);
    NobodyEnters(t);
    assert Reaches(t, Run(t, more));
  }

  // ---- What the state tells, while nobody disconnects ----

  predicate NoDisconnect(actions: seq<Action>) {
    forall k :: 0 <= k < |actions| ==> !actions[k].Disconnect?
  }

  predicate OnlyConnects(c: Control) {
    c.Ready? || Claiming(c) || c.ThreadMade?
  }

  /** Between the exchange to CLOSED and the end, or at the end, of a run that was open. */
  predicate WasClosed(t: Thread) {
    WasOpen(t) && !InOpenRegion(t.pc)
  }

  ghost predicate Telling(s: System) {
    && (forall i :: 0 <= i < |s.controls| ==> OnlyConnects(s.controls[i]))
    && (AnyConnecting(s) ==> s.state == CONNECTING)
    && (forall w :: 0 <= w < |s.threads| && WasClosed(s.threads[w]) ==> s.state == CLOSED)
    && (!AnyConnecting(s) && !AnyWasOpen(s) ==> s.state == DISCONNECTED)
  }

  /** What a worker's step does to the state, by where it goes. */
  lemma TellingMove(t: Thread, state: State, running: bool, choice: Choice)
    requires TraceFits(t)
    ensures var m := ThreadStep(t, state, running, choice);
            && (WasClosed(m.thread) ==> WasClosed(t) || m.state == CLOSED)
            && (WasClosed(t) ==> m.state == state && !m.closes)
            && (IsConnecting(t.pc) && !IsConnecting(m.thread.pc) && !WasOpen(m.thread) ==> m.state == DISCONNECTED)
            && (IsConnecting(m.thread.pc) || (!IsConnecting(t.pc) && !WasOpen(t)) ==> m.state == state && !m.closes)
  {}

  lemma TellingMoves(s: System, r: System, w: nat)
    requires Inv(s) && OpenedOnce(s) && Telling(s) && Follows(s, r, w)
    requires IsConnecting(r.threads[w].pc) ==> IsConnecting(s.threads[w].pc)
    requires WasOpen(s.threads[w]) ==> WasOpen(r.threads[w])
    requires WasOpen(r.threads[w]) && !WasOpen(s.threads[w]) ==> s.threads[w].pc.SettingUp?
    requires WasClosed(r.threads[w]) ==> r.state == CLOSED
    requires IsConnecting(s.threads[w].pc) && !IsConnecting(r.threads[w].pc) && !WasOpen(r.threads[w]) ==>
               r.state == DISCONNECTED
    requires IsConnecting(r.threads[w].pc) ==> r.state == s.state
    requires WasClosed(s.threads[w]) ==> r.state == s.state
    requires !IsConnecting(s.threads[w].pc) && !WasOpen(s.threads[w]) ==> r.state == s.state
    ensures Telling(r)
  {
    if IsConnecting(s.threads[w].pc) {
      assert Active(s.threads[w].pc);
    }
  }

  lemma WorkTells(s: System, w: nat, choice: Choice)
    requires Inv(s) && OpenedOnce(s) && Telling(s) && w < |s.threads|
    ensures Telling(WorkerStep(s, w, choice))
  {
    assert ThreadFits(s.state, s.threads[w]);
    OpenStep(s.threads[w], s.state, s.running, choice);
    TellingMove(s.threads[w], s.state, s.running, choice);
    WorkFollows(s, w, choice);
    TellingMoves(s, WorkerStep(s, w, choice), w);
  }

  lemma ProceedTells(s: System, i: nat, onWorker: bool)
    requires Inv(s) && OpenedOnce(s) && Telling(s) && i < |s.controls|
    ensures Telling(ControlStep(s, i, onWorker))
  {
    var r := ControlStep(s, i, onWorker);
    assert OnlyConnects(s.controls[i]);
    if s.controls[i].RunningSet? && s.handle.None? {
      assert r.threads[|s.threads|].pc.SettingUp? && IsConnecting(r.threads[|s.threads|].pc);
      assert Claiming(s.controls[i]);
    } else if s.controls[i].Claimed? {
      assert Claiming(s.controls[i]) && Claiming(r.controls[i]);
    } else if !s.controls[i].Ready? && !s.controls[i].RunningSet? {
      assert forall j :: 0 <= j < |s.controls| ==> Claiming(r.controls[j]) == Claiming(s.controls[j]);
    }
  }

  lemma ClaimTells(s: System, i: nat)
    requires Telling(s) && i < |s.controls| && s.controls[i].Ready? && s.state == DISCONNECTED
    ensures Telling(SetControl(s, i, Claimed).(state := CONNECTING))
  {
    var r := SetControl(s, i, Claimed).(state := CONNECTING);
    assert Claiming(r.controls[i]);
    assert forall w :: 0 <= w < |s.threads| ==> !WasClosed(s.threads[w]);
  }

  lemma StepTells(s: System, a: Action)
    requires Inv(s) && OpenedOnce(s) && Telling(s) && !a.Disconnect?
    ensures Telling(Step(s, a))
  {
    if !s.terminated {
      match a
      case Work(w, choice) => if w < |s.threads| { WorkTells(s, w, choice); }
      case Proceed(i, onWorker) => if i < |s.controls| { ProceedTells(s, i, onWorker); }
      case Connect(i) =>
        if i < |s.controls| && s.controls[i].Ready? && s.state == DISCONNECTED { ClaimTells(s, i); }
      case _ =>
    }
  }

  lemma {:induction false} RunTells(s: System, actions: seq<Action>)
    requires Inv(s) && OpenedOnce(s) && Telling(s) && NoDisconnect(actions)
    ensures Inv(Run(s, actions)) && OpenedOnce(Run(s, actions)) && Telling(Run(s, actions))
    decreases |actions|
  {
    if actions != [] {
      StepKeeps(s, actions[0]);
      StepOpenedOnce(s, actions[0]);
      StepTells(s, actions[0]);
      RunTells(Step(s, actions[0]), actions[1..]);
    }
  }

  /** While nobody disconnects, the state tells exactly where the client is: CONNECTING, while a
      connect() or a set-up is under way; OPEN and CLOSING, while a run is open, before and after a
      close frame; CLOSED, once a run that was open has left; and DISCONNECTED, so that connect()
      may be called, before all that and after every set-up that failed. */
  lemma StateTells(n: nat, actions: seq<Action>)
    requires NoDisconnect(actions)
    ensures var s := Run(Start(n), actions);
            && (s.state == CONNECTING <==> AnyConnecting(s))
            && (s.state == OPEN <==>
                  exists w :: 0 <= w < |s.threads| && InOpenRegion(s.threads[w].pc) && !s.threads[w].closing)
            && (s.state == CLOSING <==>
                  exists w :: 0 <= w < |s.threads| && InOpenRegion(s.threads[w].pc) && s.threads[w].closing)
            && (s.state == CLOSED <==> exists w :: 0 <= w < |s.threads| && WasClosed(s.threads[w]))
            && (s.state == DISCONNECTED <==> !AnyConnecting(s) && !AnyWasOpen(s))
  {
    StartIsUnopened(n);
    RunTells(Start(n), actions);
    var s := Run(Start(n), actions);
    forall w | 0 <= w < |s.threads| && InOpenRegion(s.threads[w].pc)
      ensures s.state == if s.threads[w].closing then CLOSING else OPEN
    {
      assert ThreadFits(s.state, s.threads[w]);
    }
    if AnyWasOpen(s) {
      var w :| 0 <= w < |s.threads| && WasOpen(s.threads[w]);
      assert InOpenRegion(s.threads[w].pc) || WasClosed(s.threads[w]);
    }
  }

  // ---- The join ----

  /** A disconnect() waits in its join exactly while the thread_ it has to join is another thread
      that has not finished; when it goes on, thread_ is empty or was never started, and what was
      joined has finished. */
  lemma JoinWaitsExactly(s: System, i: nat, onWorker: bool)
    requires HandleFits(s) && !s.terminated && i < |s.controls| && s.controls[i].WillJoin?
    ensures var r := Step(s, Proceed(i, onWorker));
            && (r.controls[i].WillJoin? <==>
                  && s.threadStarted && s.handle.Some? && !onWorker
                  && !s.threads[s.handle.value].pc.Finished?)
            && (!r.controls[i].WillJoin? && s.threadStarted ==> r.handle.None?)
            && (!r.controls[i].WillJoin? && s.threadStarted && s.handle.Some? && !onWorker ==>
                  r.threads[s.handle.value].pc.Finished?)
            && r.threads == s.threads && r.state == s.state
  {}

  /** A choice of the environment that brings a worker nearer to its end. */
  function Ending(pc: Pc): Choice {
    if pc.SettingUp? then Fail(6) else if pc.LoopBody? then Break else Go
  }

  /** The most steps a worker then takes. */
  function StepsToEnd(pc: Pc): nat {
    match pc
    case SettingUp => 3
    case JustOpen => 5
    case LoopHead => 4
    case LoopBody => 3
    case PeerClosing => 5
    case UpgradeFailed => 2
    case SetupFailed(_) => 2
    case Leaving => 2
    case Finished => 0
    case _ => 1
  }

  lemma EndingStep(s: System, w: nat)
    requires !s.terminated && w < |s.threads| && !s.threads[w].pc.Finished?
    ensures var r := Step(s, Work(w, Ending(s.threads[w].pc)));
            && |r.threads| == |s.threads| && StepsToEnd(r.threads[w].pc) < StepsToEnd(s.threads[w].pc)
            && r.controls == s.controls && r.handle == s.handle && r.threadStarted == s.threadStarted
            && !r.terminated
  {}

  /** Any worker can be driven to its end, and no control is touched. */
  lemma {:induction false} DriveWorker(s: System, t: System, w: nat) returns (u: System)
    requires Reaches(s, t) && !t.terminated && w < |t.threads|
    ensures Reaches(s, u) && w < |u.threads| && u.threads[w].pc.Finished? && !u.terminated
    ensures u.controls == t.controls && u.handle == t.handle && u.threadStarted == t.threadStarted
    decreases StepsToEnd(t.threads[w].pc)
  {
    if t.threads[w].pc.Finished? {
      u := t;
    } else {
      var a := Work(w, Ending(t.threads[w].pc));
      EndingStep(t, w);
      ReachesNext(s, t, a);
      u := DriveWorker(s, Step(t, a), w);
    }
  }

  /** No deadlock: in any run, a disconnect() that has come to its join can still return, whatever
      the worker is doing. */
  lemma JoinCanReturn(n: nat, actions: seq<Action>, i: nat) returns (u: System)
    requires var s := Run(Start(n), actions); !s.terminated && i < |s.controls| && s.controls[i].WillJoin?
    ensures Reaches(Run(Start(n), actions), u) && i < |u.controls| && u.controls[i].Ready?
  {
    var s := Run(Start(n), actions);
    RunHandleFits(Start(n), actions);
    ReachesSelf(s);
    var t := s;
    if s.handle.Some? {
      t := DriveWorker(s, s, s.handle.value);
    }
    var v := Step(t, Proceed(i, false));
    ReachesNext(s, t, Proceed(i, false));
    if v.controls[i].Ready? {
      return v;
    }
    u := Step(v, Proceed(i, false));
    ReachesNext(s, v, Proceed(i, false));
  }

  /** Where one control, one worker and the shared fields stand. */
  predicate Stands(s: System, i: nat, w: nat, state: State, running: bool, handle: Option<nat>, started: bool,
                   c: Control, t: Thread)
  {
    && !s.terminated && s.state == state && s.running == running && s.handle == handle && s.threadStarted == started
    && i < |s.controls| && s.controls[i] == c && w < |s.threads| && s.threads[w] == t
  }

  lemma StoresClosing(s: System, i: nat, w: nat, running: bool, trace: seq<Callback>) returns (r: System)
    requires Stands(s, i, w, OPEN, running, Some(w), true, Ready, Thread(LoopHead, trace, false))
    ensures r == Run(s, [Disconnect(i), Proceed(i, false), Proceed(i, false)])
    ensures Stands(r, i, w, CLOSING, false, Some(w), true, WillJoin, Thread(LoopHead, trace, true))
  {
    var a := [Disconnect(i), Proceed(i, false), Proceed(i, false)];
    var s1 := Step(s, a[0]);
    assert Stands(s1, i, w, OPEN, running, Some(w), true, WillClose, Thread(LoopHead, trace, false));
    var s2 := Step(s1, a[1]);
    assert Stands(s2, i, w, CLOSING, running, Some(w), true, ClosingStored, Thread(LoopHead, trace, true));
    r := Step(s2, a[2]);
    assert a[0..] == a;
    RunFrom(s, a, 0);
    RunFrom(s1, a, 1);
    RunFrom(s2, a, 2);
  }

  lemma LeavesLoop(s: System, i: nat, w: nat, trace: seq<Callback>) returns (r: System)
    requires Stands(s, i, w, CLOSING, false, Some(w), true, WillJoin, Thread(LoopHead, trace, true))
    ensures r == Run(s, [Work(w, Go), Work(w, Go), Work(w, Go)])
    ensures Stands(r, i, w, CLOSED, false, Some(w), true, WillJoin, Thread(Finished, trace + [Close(1000)], true))
  {
    var a := [Work(w, Go), Work(w, Go), Work(w, Go)];
    var s1 := Step(s, a[0]);
    assert Stands(s1, i, w, CLOSING, false, Some(w), true, WillJoin, Thread(Leaving, trace, true));
    var s2 := Step(s1, a[1]);
    assert Stands(s2, i, w, CLOSED, false, Some(w), true, WillJoin, Thread(Exchanged(1000), trace, true));
    r := Step(s2, a[2]);
    assert a[0..] == a;
    RunFrom(s, a, 0);
    RunFrom(s1, a, 1);
    RunFrom(s2, a, 2);
  }

  lemma Joins(s: System, i: nat, w: nat, trace: seq<Callback>) returns (r: System)
    requires Stands(s, i, w, CLOSED, false, Some(w), true, WillJoin, Thread(Finished, trace, true))
    ensures r == Run(s, [Proceed(i, false), Proceed(i, false)])
    ensures Stands(r, i, w, CLOSED, false, None, false, Ready, Thread(Finished, trace, true))
  {
    var a := [Proceed(i, false), Proceed(i, false)];
    var s1 := Step(s, a[0]);
    assert Stands(s1, i, w, CLOSED, false, None, true, Joined, Thread(Finished, trace, true));
    r := Step(s1, a[1]);
    assert a[0..] == a;
    RunFrom(s, a, 0);
    RunFrom(s1, a, 1);
  }

  /** Undisturbed, a disconnect() of an open client ends the session in order: CLOSING is stored, the
      worker leaves the loop, closes with the normal code, and is joined. */
  lemma DisconnectsInOrder(s: System, i: nat, w: nat, running: bool, trace: seq<Callback>)
    requires Stands(s, i, w, OPEN, running, Some(w), true, Ready, Thread(LoopHead, trace, false))
    ensures var r := Run(s, [Disconnect(i), Proceed(i, false), Proceed(i, false)]
                            + ([Work(w, Go), Work(w, Go), Work(w, Go)] + [Proceed(i, false), Proceed(i, false)]));
            Stands(r, i, w, CLOSED, false, None, false, Ready, Thread(Finished, trace + [Close(1000)], true))
  {
    var s1 := StoresClosing(s, i, w, running, trace);
    var s2 := LeavesLoop(s1, i, w, trace);
    var s3 := Joins(s2, i, w, trace + [Close(1000)]);
    var a, b, c := [Disconnect(i), Proceed(i, false), Proceed(i, false)],
                   [Work(w, Go), Work(w, Go), Work(w, Go)], [Proceed(i, false), Proceed(i, false)];
    RunAppend(s, a, b + c);
    RunAppend(s1, b, c);
  }
}
