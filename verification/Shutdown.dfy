/** When disconnect() is honoured: what can still happen once it has stored CLOSING and cleared
    running_, if nobody connects anew. */
module Shutdown {
  import opened Bytes
  import opened ConnectionState
  import opened Worker
  import opened Reconnect

  // ---- Runs in which no connect() claims the connection ----

  ghost predicate ClaimFree(s: System, actions: seq<Action>)
    decreases |actions|
  {
    actions == [] || (!Claims(s, actions[0]) && ClaimFree(Step(s, actions[0]), actions[1..]))
  }

  /** t can come after s without another connect() claiming the connection. */
  ghost predicate Reaches(s: System, t: System) {
    exists actions :: ClaimFree(s, actions) && Run(s, actions) == t
  }

  lemma {:induction false} ClaimFreeAppend(s: System, a: seq<Action>, b: seq<Action>)
    requires ClaimFree(s, a) && ClaimFree(Run(s, a), b)
    ensures ClaimFree(s, a + b)
    decreases |a|
  {
    if a == [] {
      assert a + b == b;
    } else {
      assert (a + b)[0] == a[0] && (a + b)[1..] == a[1..] + b;
      ClaimFreeAppend(Step(s, a[0]), a[1..], b);
    }
  }

  lemma ReachesSelf(s: System)
    ensures Reaches(s, s)
  {
    assert ClaimFree(s, []) && Run(s, []) == s;
  }

  lemma ReachesOn(s: System, t: System, u: System)
    requires Reaches(s, t) && Reaches(t, u)
    ensures Reaches(s, u)
  {
    var a :| ClaimFree(s, a) && Run(s, a) == t;
    var b :| ClaimFree(t, b) && Run(t, b) == u;
    ClaimFreeAppend(s, a, b);
    RunAppend(s, a, b);
  }

  lemma ReachesNext(s: System, t: System, a: Action)
    requires Reaches(s, t) && !Claims(t, a)
    ensures Reaches(s, Step(t, a))
  {
    var one := [a];
    assert one[1..] == [];
    assert ClaimFree(Step(t, a), one[1..]) && Run(Step(t, a), one[1..]) == Step(t, a);
    assert ClaimFree(t, one) && Run(t, one) == Step(t, a);
    ReachesOn(s, t, Step(t, a));
  }

  /** What no step but a claim breaks holds from then on. */
  lemma {:induction false} Stays(s: System, actions: seq<Action>, keep: System -> bool)
    requires keep(s) && ClaimFree(s, actions)
    requires forall u, a :: keep(u) && !Claims(u, a) ==> keep(Step(u, a))
    ensures keep(Run(s, actions))
    decreases |actions|
  {
    if actions != [] {
      Stays(Step(s, actions[0]), actions[1..], keep);
    }
  }

  lemma AlwaysKept(s: System, keep: System -> bool)
    requires keep(s)
    requires forall u, a :: keep(u) && !Claims(u, a) ==> keep(Step(u, a))
    ensures forall t :: Reaches(s, t) ==> keep(t)
  {
    forall t | Reaches(s, t) ensures keep(t) {
      var actions :| ClaimFree(s, actions) && Run(s, actions) == t;
      Stays(s, actions, keep);
    }
  }

  // ---- What a pending connect() can still do ----

  predicate AnyClaimed(s: System) {
    exists j :: 0 <= j < |s.controls| && s.controls[j].Claimed?
  }

  predicate AnyClaiming(s: System) {
    exists j :: 0 <= j < |s.controls| && Claiming(s.controls[j])
  }

  predicate AnySettingUp(s: System) {
    exists w :: 0 <= w < |s.threads| && s.threads[w].pc.SettingUp?
  }

  predicate AnyActive(s: System) {
    exists w :: 0 <= w < |s.threads| && Active(s.threads[w].pc)
  }

  predicate AnyMade(s: System) {
    exists k :: 0 <= k < |s.controls| && s.controls[k].ThreadMade?
  }

  /** thread_ is empty, or a disconnect() can still empty it. */
  predicate CanEmpty(s: System) {
    s.handle.None? || s.threadStarted || AnyMade(s)
  }

  /** A store of OPEN is still to come. */
  predicate OpenToCome(s: System) {
    AnySettingUp(s) || (AnyClaiming(s) && CanEmpty(s))
  }

  // ---- The safe halves ----

  predicate Cleared(s: System) {
    !s.running && !AnyClaimed(s)
  }

  /** running_ is set by nobody but a claimed connect(). */
  lemma ClearedStep(s: System, a: Action)
    requires Cleared(s) && !Claims(s, a)
    ensures Cleared(Step(s, a))
  {}

  /** No worker is in the body of the loop but those of `was`. */
  predicate NoneEnters(s: System, was: seq<Thread>) {
    forall w :: 0 <= w < |s.threads| && s.threads[w].pc.LoopBody? ==> w < |was| && was[w].pc.LoopBody?
  }

  /** While running_ is clear nobody enters the body of the loop. */
  lemma NoneEntersStep(s: System, a: Action, was: seq<Thread>)
    requires !s.running && NoneEnters(s, was)
    ensures NoneEnters(Step(s, a), was)
  {}

  predicate Unopened(s: System) {
    s.state != OPEN && !AnySettingUp(s) && !AnyClaiming(s)
  }

  lemma WorkUnopened(s: System, w: nat, choice: Choice)
    requires Unopened(s) && w < |s.threads|
    ensures Unopened(WorkerStep(s, w, choice))
  {
    var m := ThreadStep(s.threads[w], s.state, s.running, choice);
    assert !m.thread.pc.SettingUp? && m.state != OPEN;
    assert forall k :: 0 <= k < |s.threads| ==> !AfterMove(s, w, m).threads[k].pc.SettingUp?;
  }

  lemma ProceedUnopened(s: System, i: nat, onWorker: bool)
    requires Unopened(s) && i < |s.controls|
    ensures Unopened(ControlStep(s, i, onWorker))
  {
    assert !Claiming(s.controls[i]);
    if !s.controls[i].WillClose? {
      ControlAlone(s, i, onWorker);
    }
  }

  /** Nobody stores OPEN but a worker that sets up, and nobody makes one without a claim. */
  lemma UnopenedStep(s: System, a: Action)
    requires Unopened(s) && !Claims(s, a)
    ensures Unopened(Step(s, a))
  {
    match a
    case Work(w, choice) => if w < |s.threads| { WorkUnopened(s, w, choice); }
    case Proceed(i, onWorker) => if i < |s.controls| { ProceedUnopened(s, i, onWorker); }
    case _ =>
  }

  /** Whoever has the claim will end the program, and no worker is at it. */
  predicate Doomed(s: System) {
    !CanEmpty(s) && !AnyActive(s)
  }

  lemma DoomedStep(s: System, a: Action)
    requires Doomed(s) && !Claims(s, a)
    ensures Doomed(Step(s, a)) && (s.state != OPEN ==> Step(s, a).state != OPEN)
  {}

  // ---- The other halves: what a schedule can bring about ----

  /** thread_ is one of the workers. */
  predicate HandleFits(s: System) {
    s.handle.Some? ==> s.handle.value < |s.threads|
  }

  lemma {:induction false} RunHandleFits(s: System, actions: seq<Action>)
    requires HandleFits(s)
    ensures HandleFits(Run(s, actions))
    decreases |actions|
  {
    if actions != [] {
      RunHandleFits(Step(s, actions[0]), actions[1..]);
    }
  }

  /** The steps a worker that has given up still takes. */
  function StepsLeft(pc: Pc): nat {
    if pc.SetupFailed? then 2 else if pc.Finished? then 0 else 1
  }

  /** A worker that has given up can be driven to its end, and nothing else changes. */
  lemma {:induction false} DriveToEnd(s: System, t: System, w: nat) returns (u: System)
    requires Reaches(s, t) && !t.terminated && w < |t.threads| && !Active(t.threads[w].pc)
    ensures Reaches(s, u) && w < |u.threads| && u.threads[w].pc.Finished?
    ensures u == t.(threads := t.threads[w := u.threads[w]])
    decreases StepsLeft(t.threads[w].pc)
  {
    if t.threads[w].pc.Finished? {
      u := t;
    } else {
      var a := Work(w, Go);
      ReachesNext(s, t, a);
      var next := Step(t, a);
      u := DriveToEnd(s, next, w);
      assert next.threads == t.threads[w := next.threads[w]];
    }
  }

  lemma JoinFinished(s: System, v: System, i: nat, j: nat) returns (u: System)
    requires Reaches(s, v) && !v.terminated && v.threadStarted && v.handle.Some?
    requires v.handle.value < |v.threads| && v.threads[v.handle.value].pc.Finished?
    requires i < |v.controls| && v.controls[i].WillJoin? && j < |v.controls| && j != i
    ensures Reaches(s, u) && !u.terminated && u.handle.None? && u.running == v.running
    ensures u.threads == v.threads && |u.controls| == |v.controls| && u.controls[j] == v.controls[j]
  {
    u := Step(v, Proceed(i, false));
    ReachesNext(s, v, Proceed(i, false));
  }

  /** A disconnect() that is about to join can empty thread_ under a pending claim. */
  lemma EmptyHandle(s: System, i: nat, j: nat) returns (u: System)
    requires Inv(s) && HandleFits(s) && !s.terminated && CanEmpty(s)
    requires i < |s.controls| && s.controls[i].WillJoin? && j < |s.controls| && Claiming(s.controls[j])
    ensures Reaches(s, u) && !u.terminated && u.handle.None? && u.running == s.running
    ensures |u.threads| == |s.threads| && |u.controls| == |s.controls| && u.controls[j] == s.controls[j]
  {
    ReachesSelf(s);
    if s.handle.None? {
      return s;
    }
    var t := s;
    if !s.threadStarted {
      var k :| 0 <= k < |s.controls| && s.controls[k].ThreadMade?;
      ReachesNext(s, s, Proceed(k, false));
      t := Step(s, Proceed(k, false));
    }
    var w := s.handle.value;
    assert !Active(s.threads[w].pc);
    var v := DriveToEnd(s, t, w);
    u := JoinFinished(s, v, i, j);
  }

  /** A pending claim that finds thread_ empty makes its worker. */
  lemma MakeWorker(s: System, t: System, j: nat) returns (u: System)
    requires Reaches(s, t) && !t.terminated && t.handle.None? && j < |t.controls| && Claiming(t.controls[j])
    ensures Reaches(s, u) && !u.terminated && |u.threads| == |t.threads| + 1
    ensures u.threads[|t.threads|] == Thread(SettingUp, [], false)
    ensures u.running == (t.controls[j].Claimed? || t.running)
  {
    u := t;
    if t.controls[j].Claimed? {
      ReachesNext(s, u, Proceed(j, false));
      u := Step(u, Proceed(j, false));
    }
    ReachesNext(s, u, Proceed(j, false));
    u := Step(u, Proceed(j, false));
  }

  /** A worker that sets up can store OPEN. */
  lemma CanOpen(s: System, t: System, w: nat) returns (u: System)
    requires Reaches(s, t) && !t.terminated && w < |t.threads| && t.threads[w].pc.SettingUp?
    ensures Reaches(s, u) && !u.terminated && u.state == OPEN && u.running == t.running
    ensures |u.threads| == |t.threads| && u.threads[w].pc.JustOpen?
  {
    u := Step(t, Work(w, Succeed));
    ReachesNext(s, t, Work(w, Succeed));
  }

  /** And, while running_ is set, enter the loop. */
  lemma CanEnter(s: System, t: System, w: nat) returns (u: System)
    requires Reaches(s, t) && !t.terminated && w < |t.threads| && t.threads[w].pc.JustOpen?
    requires t.running && t.state == OPEN
    ensures Reaches(s, u) && |u.threads| == |t.threads| && u.threads[w].pc.LoopBody? && u.running && u.state == OPEN
  {
    var v := Step(t, Work(w, Go));
    ReachesNext(s, t, Work(w, Go));
    u := Step(v, Work(w, Go));
    ReachesNext(s, v, Work(w, Go));
  }

  // ---- The exact conditions ----

  /** A disconnect() has stored CLOSING and just cleared running_. */
  ghost predicate JustCleared(s: System, i: nat) {
    && Inv(s) && HandleFits(s) && !s.terminated && !s.running
    && i < |s.controls| && s.controls[i].WillJoin?
  }

  /** running_ stays clear exactly if no connect() stands between its exchange and its store. */
  lemma RunningStaysClear(s: System, i: nat)
    requires JustCleared(s, i)
    ensures (forall t :: Reaches(s, t) ==> !t.running) <==> !AnyClaimed(s)
  {
    if AnyClaimed(s) {
      var j :| 0 <= j < |s.controls| && s.controls[j].Claimed?;
      ReachesSelf(s);
      ReachesNext(s, s, Proceed(j, false));
      assert Step(s, Proceed(j, false)).running;
    } else {
      forall u, a | Cleared(u) && !Claims(u, a) ensures Cleared(Step(u, a)) {
        ClearedStep(u, a);
      }
      AlwaysKept(s, Cleared);
    }
  }

  lemma ClaimOpens(s: System, i: nat) returns (u: System)
    requires JustCleared(s, i) && AnyClaiming(s) && CanEmpty(s)
    ensures Reaches(s, u) && u.state == OPEN
  {
    var j :| 0 <= j < |s.controls| && Claiming(s.controls[j]);
    var t := EmptyHandle(s, i, j);
    var v := MakeWorker(s, t, j);
    u := CanOpen(s, v, |t.threads|);
  }

  lemma ClaimingMeansIdle(s: System)
    requires Inv(s) && AnyClaiming(s)
    ensures !AnyActive(s)
  {}

  lemma StaysUnopened(s: System)
    requires Inv(s) && s.state != OPEN && !OpenToCome(s)
    ensures forall t :: Reaches(s, t) ==> t.state != OPEN
  {
    if AnyClaiming(s) {
      ClaimingMeansIdle(s);
      var keep := (u: System) => Doomed(u) && u.state != OPEN;
      forall u, a | keep(u) && !Claims(u, a) ensures keep(Step(u, a)) {
        DoomedStep(u, a);
      }
      AlwaysKept(s, keep);
    } else {
      forall u, a | Unopened(u) && !Claims(u, a) ensures Unopened(Step(u, a)) {
        UnopenedStep(u, a);
      }
      AlwaysKept(s, Unopened);
    }
  }

  /** OPEN is never stored again exactly if it is not there and no store of it is to come. */
  lemma NeverOpenAgain(s: System, i: nat)
    requires JustCleared(s, i)
    ensures (forall t :: Reaches(s, t) ==> t.state != OPEN) <==> s.state != OPEN && !OpenToCome(s)
  {
    ReachesSelf(s);
    if AnySettingUp(s) {
      var w :| 0 <= w < |s.threads| && s.threads[w].pc.SettingUp?;
      var u := CanOpen(s, s, w);
    } else if AnyClaiming(s) && CanEmpty(s) {
      var u := ClaimOpens(s, i);
    } else if s.state != OPEN {
      StaysUnopened(s);
    }
  }

  lemma ClaimEnters(s: System, i: nat) returns (u: System)
    requires JustCleared(s, i) && AnyClaimed(s) && CanEmpty(s)
    ensures Reaches(s, u) && !NoneEnters(u, s.threads) && u.running && u.state == OPEN
  {
    var j :| 0 <= j < |s.controls| && s.controls[j].Claimed?;
    var t := EmptyHandle(s, i, j);
    var v := MakeWorker(s, t, j);
    var w := CanOpen(s, v, |t.threads|);
    u := CanEnter(s, w, |t.threads|);
    assert u.threads[|t.threads|].pc.LoopBody? && |t.threads| == |s.threads|;
  }

  lemma NobodyEnters(s: System)
    requires Inv(s) && !s.running && !(AnyClaimed(s) && CanEmpty(s))
    ensures forall t :: Reaches(s, t) ==> NoneEnters(t, s.threads)
  {
    if AnyClaimed(s) {
      assert AnyClaiming(s);
      ClaimingMeansIdle(s);
      forall u, a | Doomed(u) && !Claims(u, a) ensures Doomed(Step(u, a)) {
        DoomedStep(u, a);
      }
      AlwaysKept(s, Doomed);
      assert forall t :: Doomed(t) ==> NoneEnters(t, s.threads);
    } else {
      var keep := (u: System) => Cleared(u) && NoneEnters(u, s.threads);
      forall u, a | keep(u) && !Claims(u, a) ensures keep(Step(u, a)) {
        ClearedStep(u, a);
        NoneEntersStep(u, a, s.threads);
      }
      AlwaysKept(s, keep);
    }
  }

  /** The client stays connected, a worker entering the loop after all, exactly if some connect()
      stands between its exchange and its store of running_ and is not bound to end the program. */
  lemma StaysConnected(s: System, i: nat)
    requires JustCleared(s, i)
    ensures (forall t :: Reaches(s, t) ==> NoneEnters(t, s.threads)) <==> !(AnyClaimed(s) && CanEmpty(s))
  {
    if AnyClaimed(s) && CanEmpty(s) {
      var u := ClaimEnters(s, i);
    } else {
      NobodyEnters(s);
    }
  }

  /** A disconnect() that stored CLOSING, at the moment it clears running_, in any run of any
      number of threads: what it achieves unless somebody connects anew. */
  lemma DisconnectHonoured(n: nat, actions: seq<Action>, i: nat, onWorker: bool)
    requires !Run(Start(n), actions).terminated
    requires i < |Run(Start(n), actions).controls| && Run(Start(n), actions).controls[i].ClosingStored?
    ensures var s := Step(Run(Start(n), actions), Proceed(i, onWorker));
            && ((forall t :: Reaches(s, t) ==> !t.running) <==> !AnyClaimed(s))
            && ((forall t :: Reaches(s, t) ==> NoneEnters(t, s.threads)) <==> !(AnyClaimed(s) && CanEmpty(s)))
            && ((forall t :: Reaches(s, t) ==> t.state != OPEN) <==> s.state != OPEN && !OpenToCome(s))
  {
    var before := Run(Start(n), actions);
    var s := Step(before, Proceed(i, onWorker));
    RunKeeps(Start(n), actions);
    RunHandleFits(Start(n), actions);
    StepKeeps(before, Proceed(i, onWorker));
    assert JustCleared(s, i);
    RunningStaysClear(s, i);
    StaysConnected(s, i);
    NeverOpenAgain(s, i);
  }

  // ---- A failed set-up ----

  predicate AnyWillClose(s: System) {
    exists i :: 0 <= i < |s.controls| && s.controls[i].WillClose?
  }

  /** Nobody may store to state_ but a disconnect() that has loaded an older state. */
  predicate Idle(s: System) {
    !AnyActive(s) && !AnyClaiming(s)
  }

  predicate Connectable(s: System) {
    s.state == DISCONNECTED && Idle(s) && !AnyWillClose(s)
  }

  lemma IdleThread(t: Thread, state: State, running: bool, choice: Choice)
    requires !Active(t.pc)
    ensures var m := ThreadStep(t, state, running, choice);
            !Active(m.thread.pc) && m.state == state && !m.closes
  {}

  lemma WorkIdle(s: System, w: nat, choice: Choice)
    requires Idle(s) && w < |s.threads|
    ensures Idle(WorkerStep(s, w, choice)) && WorkerStep(s, w, choice).state == s.state
  {
    IdleThread(s.threads[w], s.state, s.running, choice);
    var r := WorkerStep(s, w, choice);
    forall k | 0 <= k < |r.threads| ensures !Active(r.threads[k].pc) {
      if k != w {
        assert r.threads[k] == s.threads[k];
      }
    }
  }

  lemma ProceedIdle(s: System, i: nat, onWorker: bool)
    requires Idle(s) && i < |s.controls|
    ensures var r := ControlStep(s, i, onWorker);
            && Idle(r) && (s.state != DISCONNECTED ==> r.state != DISCONNECTED)
            && (!AnyWillClose(s) ==> r.state == s.state && !AnyWillClose(r))
  {
    assert !Claiming(s.controls[i]);
    if !s.controls[i].WillClose? {
      ControlAlone(s, i, onWorker);
    }
  }

  lemma ConnectableStep(s: System, a: Action)
    requires Connectable(s) && !Claims(s, a)
    ensures Connectable(Step(s, a))
  {
    match a
    case Work(w, choice) => if w < |s.threads| { WorkIdle(s, w, choice); }
    case Proceed(i, onWorker) => if i < |s.controls| { ProceedIdle(s, i, onWorker); }
    case _ =>
  }

  predicate Lost(s: System) {
    s.state != DISCONNECTED && Idle(s)
  }

  lemma LostStep(s: System, a: Action)
    requires Lost(s)
    ensures Lost(Step(s, a)) && !Claims(s, a)
  {
    match a
    case Work(w, choice) => if w < |s.threads| { WorkIdle(s, w, choice); }
    case Proceed(i, onWorker) => if i < |s.controls| { ProceedIdle(s, i, onWorker); }
    case _ =>
  }

  lemma {:induction false} LostStays(s: System, actions: seq<Action>, a: Action)
    requires Lost(s)
    ensures !Claims(Run(s, actions), a)
    decreases |actions|
  {
    if actions == [] {
      LostStep(s, a);
    } else {
      LostStep(s, actions[0]);
      LostStays(Step(s, actions[0]), actions[1..], a);
    }
  }

  lemma DisconnectedIsIdle(s: System)
    requires Inv(s) && s.state == DISCONNECTED
    ensures Idle(s)
  {}

  /** In any run: a client that is disconnected, as after a failed set-up, stays so until somebody
      connects if and only if no disconnect() still stands before its store of CLOSING. */
  lemma StaysConnectable(n: nat, actions: seq<Action>)
    requires !Run(Start(n), actions).terminated && Run(Start(n), actions).state == DISCONNECTED
    ensures var s := Run(Start(n), actions);
            (forall t :: Reaches(s, t) ==> t.state == DISCONNECTED) <==> !AnyWillClose(s)
  {
    var s := Run(Start(n), actions);
    RunKeeps(Start(n), actions);
    DisconnectedIsIdle(s);
    if AnyWillClose(s) {
      var i :| 0 <= i < |s.controls| && s.controls[i].WillClose?;
      ReachesSelf(s);
      ReachesNext(s, s, Proceed(i, false));
      assert Step(s, Proceed(i, false)).state == CLOSING;
    } else {
      forall u, a | Connectable(u) && !Claims(u, a) ensures Connectable(Step(u, a)) {
        ConnectableStep(u, a);
      }
      AlwaysKept(s, Connectable);
    }
  }

  /** And once such a store lands, no connect() ever claims the connection again. */
  lemma LostForGood(n: nat, actions: seq<Action>, i: nat, onWorker: bool, more: seq<Action>, a: Action)
    requires !Run(Start(n), actions).terminated && Run(Start(n), actions).state == DISCONNECTED
    requires i < |Run(Start(n), actions).controls| && Run(Start(n), actions).controls[i].WillClose?
    ensures !Claims(Run(Step(Run(Start(n), actions), Proceed(i, onWorker)), more), a)
  {
    var s := Run(Start(n), actions);
    RunKeeps(Start(n), actions);
    DisconnectedIsIdle(s);
    ProceedIdle(s, i, onWorker);
    assert Lost(Step(s, Proceed(i, onWorker)));
    LostStays(Step(s, Proceed(i, onWorker)), more, a);
  }

  // ---- Runs in which a disconnect() is not honoured ----

  /** What worker w makes of the shared fields when its step does not store CLOSING. */
  lemma Moved(s: System, w: nat, choice: Choice, m: Move)
    requires !s.terminated && w < |s.threads|
    requires m == ThreadStep(s.threads[w], s.state, s.running, choice) && !m.closes
    ensures var r := Step(s, Work(w, choice));
            && !r.terminated && |r.threads| == |s.threads| && r.threads[w] == m.thread
            && r.state == m.state && r.running == m.running
  {}

  /** A CLOSING stored while a run is still setting up is overwritten by its store of OPEN: the
      client opens, leaves at once because running_ is clear, and reports an unexpected close. */
  lemma DisconnectDuringSetup(s: System, w: nat) returns (upgraded: System, done: System)
    requires !s.terminated && w < |s.threads| && s.threads[w] == Thread(SettingUp, [], false)
    requires s.state == CLOSING && !s.running
    ensures upgraded == Run(s, [Work(w, Succeed)]) && upgraded.state == OPEN
    ensures done == Run(upgraded, [Work(w, Go), Work(w, Go), Work(w, Go), Work(w, Go)])
    ensures w < |done.threads| && done.threads[w] == Thread(Finished, [Opened, Close(1006)], false)
  {
    upgraded := Step(s, Work(w, Succeed));
    Moved(s, w, Succeed, Move(Thread(JustOpen, [], false), OPEN, false, false));
    var a := [Work(w, Go), Work(w, Go), Work(w, Go), Work(w, Go)];
    var s1 := Step(upgraded, Work(w, Go));
    Moved(upgraded, w, Go, Move(Thread(LoopHead, [Opened], false), OPEN, false, false));
    var s2 := Step(s1, Work(w, Go));
    Moved(s1, w, Go, Move(Thread(Leaving, [Opened], false), OPEN, false, false));
    var s3 := Step(s2, Work(w, Go));
    Moved(s2, w, Go, Move(Thread(Exchanged(1006), [Opened], false), CLOSED, false, false));
    done := Step(s3, Work(w, Go));
    Moved(s3, w, Go, Move(Thread(Finished, [Opened, Close(1006)], false), CLOSED, false, false));
    assert a[0..] == a;
    RunFrom(upgraded, a, 0);
    RunFrom(s1, a, 1);
    RunFrom(s2, a, 2);
    RunFrom(s3, a, 3);
  }

  /** The state DisconnectDuringSetup starts from is reached when a second thread disconnects
      before the upgrade is through. */
  lemma SetupCanBeDisconnected(s: System) returns (r: System)
    requires s == Pair(CONNECTING, true, true, Some(0), [Thread(SettingUp, [], false)], Ready, Ready)
    ensures r == Run(s, [Disconnect(1), Proceed(1, false), Proceed(1, false)])
    ensures !r.terminated && |r.threads| == 1 && r.threads[0] == Thread(SettingUp, [], false)
    ensures r.state == CLOSING && !r.running
  {
    var a := [Disconnect(1), Proceed(1, false), Proceed(1, false)];
    var t := [Thread(SettingUp, [], false)];
    var s1 := Pair(CONNECTING, true, true, Some(0), t, Ready, WillClose);
    assert Step(s, a[0]) == s1;
    var s2 := Pair(CLOSING, true, true, Some(0), t, Ready, ClosingStored);
    assert Step(s1, a[1]) == s2;
    r := Pair(CLOSING, false, true, Some(0), t, Ready, WillJoin);
    assert Step(s2, a[2]) == r;
    assert a[0..] == a;
    RunFrom(s, a, 0);
    RunFrom(s1, a, 1);
    RunFrom(s2, a, 2);
  }

  /** A disconnect() between the exchange and the store of running_ returns with nothing done. */
  lemma ClearedTooEarly() returns (s: System)
    ensures s == Run(Start(2), [Connect(0), Disconnect(1), Proceed(1, false), Proceed(1, false), Proceed(1, false)])
    ensures s == Pair(CLOSING, false, false, None, [], Claimed, Ready)
  {
    var a := [Connect(0), Disconnect(1), Proceed(1, false), Proceed(1, false), Proceed(1, false)];
    var s0 := Pair(DISCONNECTED, false, false, None, [], Ready, Ready);
    assert Start(2) == s0;
    var s1 := Pair(CONNECTING, false, false, None, [], Claimed, Ready);
    assert Step(s0, a[0]) == s1;
    var s2 := Pair(CONNECTING, false, false, None, [], Claimed, WillClose);
    assert Step(s1, a[1]) == s2;
    var s3 := Pair(CLOSING, false, false, None, [], Claimed, ClosingStored);
    assert Step(s2, a[2]) == s3;
    var s4 := Pair(CLOSING, false, false, None, [], Claimed, WillJoin);
    assert Step(s3, a[3]) == s4;
    s := Pair(CLOSING, false, false, None, [], Claimed, Ready);
    assert Step(s4, a[4]) == s;
    assert a[0..] == a;
    RunFrom(s0, a, 0);
    RunFrom(s1, a, 1);
    RunFrom(s2, a, 2);
    RunFrom(s3, a, 3);
    RunFrom(s4, a, 4);
  }

  /** The connect() goes on as if nothing had happened. */
  lemma ConnectGoesOn(s: System) returns (r: System)
    requires s == Pair(CLOSING, false, false, None, [], Claimed, Ready)
    ensures r == Run(s, [Proceed(0, false), Proceed(0, false), Proceed(0, false)])
    ensures r == Pair(CLOSING, true, true, Some(0), [Thread(SettingUp, [], false)], Ready, Ready)
  {
    var a := [Proceed(0, false), Proceed(0, false), Proceed(0, false)];
    var s1 := Pair(CLOSING, true, false, None, [], RunningSet, Ready);
    assert Step(s, a[0]) == s1;
    var s2 := Pair(CLOSING, true, false, Some(0), [Thread(SettingUp, [], false)], ThreadMade, Ready);
    assert Step(s1, a[1]) == s2;
    r := Pair(CLOSING, true, true, Some(0), [Thread(SettingUp, [], false)], Ready, Ready);
    assert Step(s2, a[2]) == r;
    assert a[0..] == a;
    RunFrom(s, a, 0);
    RunFrom(s1, a, 1);
    RunFrom(s2, a, 2);
  }

  lemma {:induction false} NoConnectNoClaim(s: System, actions: seq<Action>)
    requires forall k :: 0 <= k < |actions| ==> !actions[k].Connect?
    ensures ClaimFree(s, actions)
    decreases |actions|
  {
    if actions != [] {
      NoConnectNoClaim(Step(s, actions[0]), actions[1..]);
    }
  }

  /** Both calls have returned, and the client opens and stays connected. */
  lemma DisconnectLost(s: System) returns (r: System)
    requires s == Pair(CLOSING, true, true, Some(0), [Thread(SettingUp, [], false)], Ready, Ready)
    ensures r == Run(s, [Work(0, Succeed), Work(0, Go), Work(0, Go)])
    ensures r == Pair(OPEN, true, true, Some(0), [Thread(LoopBody, [Opened], false)], Ready, Ready)
  {
    var a := [Work(0, Succeed), Work(0, Go), Work(0, Go)];
    assert [] + [Opened] == [Opened];
    var s1 := Pair(OPEN, true, true, Some(0), [Thread(JustOpen, [], false)], Ready, Ready);
    assert Step(s, a[0]) == s1;
    var s2 := Pair(OPEN, true, true, Some(0), [Thread(LoopHead, [Opened], false)], Ready, Ready);
    assert Step(s1, a[1]) == s2;
    r := Pair(OPEN, true, true, Some(0), [Thread(LoopBody, [Opened], false)], Ready, Ready);
    assert Step(s2, a[2]) == r;
    assert a[0..] == a;
    RunFrom(s, a, 0);
    RunFrom(s1, a, 1);
    RunFrom(s2, a, 2);
  }

  /** All of it in one run: disconnect() has returned, and the client stays connected. */
  lemma LostFromTheStart() returns (actions: seq<Action>)
    ensures Run(Start(2), actions)
         == Pair(OPEN, true, true, Some(0), [Thread(LoopBody, [Opened], false)], Ready, Ready)
    ensures |actions| == 11
    ensures actions[..5] == [Connect(0), Disconnect(1), Proceed(1, false), Proceed(1, false), Proceed(1, false)]
    ensures ClaimFree(Run(Start(2), actions[..5]), actions[5..])
  {
    var a := [Connect(0), Disconnect(1), Proceed(1, false), Proceed(1, false), Proceed(1, false)];
    var b := [Proceed(0, false), Proceed(0, false), Proceed(0, false)];
    var c := [Work(0, Succeed), Work(0, Go), Work(0, Go)];
    var s := ClearedTooEarly();
    var t := ConnectGoesOn(s);
    var u := DisconnectLost(t);
    RunAppend(Start(2), a, b + c);
    RunAppend(s, b, c);
    actions := a + (b + c);
    assert actions[..5] == a && actions[5..] == b + c;
    NoConnectNoClaim(s, b + c);
  }
}
