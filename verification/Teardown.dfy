/** The end of a session can always be reached: no sender, cleanup, callback or destructor waits for
    something that cannot happen any more. */
module Teardown {
  import opened Lifetime

  // ---- The worker ----

  /** A choice of the environment that brings the worker nearer to its end. */
  function Ending(w: WorkerPlace): Choice {
    if w.SettingUp? then Succeed else if w.Looping? then End else Go
  }

  /** The steps of a thread back to the outside. */
  function PlaceSteps(p: Place): nat {
    match p
    case Outside => 0
    case Sending => 1
    case Taken => 4
    case Deleted => 3
    case Closing => 2
    case Leaving => 1
  }

  /** The most steps the worker then takes. */
  function WorkerSteps(w: WorkerPlace): nat {
    match w
    case SettingUp => 4
    case DataCallback => 4
    case Looping => 3
    case CloseDue => 2
    case CloseCallback => 1
    case ErrorReported => 2
    case ErrorCallback(p) => 3 + PlaceSteps(p)
    case Finished => 0
  }

  /** On its own thread a cleanup waits for nothing. */
  lemma OwnCleanupGoesOn(s: System, p: Place)
    requires !p.Outside?
    ensures PlaceSteps(Continue(s, p, true).place) < PlaceSteps(p)
  {}

  lemma ErrorGoesOn(s: System, p: Place)
    requires s.worker == ErrorCallback(p) && s.cleanupStarted
    ensures WorkerSteps(ErrorStep(s, p, Go).worker) < WorkerSteps(s.worker) && ErrorStep(s, p, Go).cleanupStarted
  {
    if p.Outside? {
      DropSame(s, false);
    } else {
      OwnCleanupGoesOn(s, p);
      ContinueSame(s, p, true);
    }
  }

  lemma CallbackReturns(s: System)
    requires (s.worker.DataCallback? || s.worker.CloseCallback?) && s.cleanupStarted
    ensures WorkerSteps(WorkerStep(s, Go).worker) < WorkerSteps(s.worker) && WorkerStep(s, Go).cleanupStarted
  {
    DropSame(s, false);
  }

  lemma CallGoesOn(s: System, isSet: bool, inside: WorkerPlace, otherwise: WorkerPlace)
    ensures var r := Call(Touch(s), isSet, inside, otherwise);
            (r.worker == inside || r.worker == otherwise) && r.cleanupStarted == s.cleanupStarted
  {}

  lemma ReportingGoesOn(s: System)
    requires (s.worker.ErrorReported? || s.worker.CloseDue?) && s.cleanupStarted
    ensures WorkerSteps(WorkerStep(s, Go).worker) < WorkerSteps(s.worker) && WorkerStep(s, Go).cleanupStarted
  {
    CallGoesOn(s, !s.cleared, CloseCallback, Finished);
    assert WorkerStep(s, Go) == Call(Touch(s), !s.cleared, CloseCallback, Finished);
  }

  lemma LoopGoesOn(s: System)
    requires (s.worker.SettingUp? || s.worker.Looping?) && s.cleanupStarted
    ensures var r := WorkerStep(s, Ending(s.worker));
            WorkerSteps(r.worker) < WorkerSteps(s.worker) && r.cleanupStarted
  {
    assert WorkerStep(s, Ending(s.worker)) == At(Touch(s), if s.worker.SettingUp? then Looping else CloseDue);
  }

  lemma WorkerGoesOn(s: System)
    requires !s.worker.Finished? && s.cleanupStarted
    ensures var r := WorkerStep(s, Ending(s.worker));
            WorkerSteps(r.worker) < WorkerSteps(s.worker) && r.cleanupStarted
  {
    if s.worker.ErrorCallback? {
      ErrorGoesOn(s, s.worker.place);
    } else if InCallback(s.worker) {
      CallbackReturns(s);
    } else if s.worker.SettingUp? || s.worker.Looping? {
      LoopGoesOn(s);
    } else {
      ReportingGoesOn(s);
    }
  }

  lemma {:induction false} WorkerEnds(s: System, t: System) returns (u: System)
    requires Reaches(s, t) && Inv(t) && t.cleanupStarted
    ensures Reaches(s, u) && Inv(u) && u.cleanupStarted && u.worker.Finished?
    decreases WorkerSteps(t.worker)
  {
    if t.worker.Finished? {
      u := t;
    } else {
      WorkerGoesOn(t);
      ReachesNext(s, t, Work(Ending(t.worker)));
      u := WorkerEnds(s, Step(t, Work(Ending(t.worker))));
    }
  }

  // ---- The other threads ----

  function AllSteps(places: seq<Place>): nat {
    if places == [] then 0 else AllSteps(places[..|places| - 1]) + PlaceSteps(places[|places| - 1])
  }

  lemma {:induction false} StepsMoved(places: seq<Place>, i: nat, p: Place)
    requires i < |places|
    ensures AllSteps(places[i := p]) == AllSteps(places) - PlaceSteps(places[i]) + PlaceSteps(p)
  {
    var n := |places| - 1;
    if i < n {
      assert places[i := p][..n] == places[..n][i := p];
      StepsMoved(places[..n], i, p);
    } else {
      assert places[i := p][..n] == places[..n];
    }
  }

  lemma NobodyWaits(s: System, p: Place)
    requires s.worker.Finished? && !p.Outside?
    ensures PlaceSteps(Continue(s, p, false).place) < PlaceSteps(p)
  {}

  /** Once the worker is over nobody waits for it. */
  lemma ThreadGoesOn(s: System, i: nat)
    requires s.worker.Finished? && s.cleanupStarted && i < |s.places| && !s.places[i].Outside?
    ensures var r := Step(s, Proceed(i));
            && r.places == s.places[i := Continue(s, s.places[i], false).place]
            && PlaceSteps(Continue(s, s.places[i], false).place) < PlaceSteps(s.places[i])
            && r.worker == s.worker && r.cleanupStarted
  {
    NobodyWaits(s, s.places[i]);
    ContinueSame(s, s.places[i], false);
  }

  lemma {:induction false} ThreadsEnd(s: System, t: System) returns (u: System)
    requires Reaches(s, t) && Inv(t) && t.cleanupStarted && t.worker.Finished?
    ensures Reaches(s, u) && u.cleanupStarted && u.worker.Finished?
    ensures forall i :: 0 <= i < |u.places| ==> u.places[i].Outside?
    decreases AllSteps(t.places)
  {
    if i :| 0 <= i < |t.places| && !t.places[i].Outside? {
      var next := Step(t, Proceed(i));
      ThreadGoesOn(t, i);
      StepsMoved(t.places, i, Continue(t, t.places[i], false).place);
      ReachesNext(s, t, Proceed(i));
      u := ThreadsEnd(s, next);
    } else {
      u := t;
    }
  }

  /** No deadlock: from any state of any run in which a cleanup has started, however many threads are
      sending or cleaning up and wherever the worker is, all of them can still get out, and then the
      streamer has been destroyed, once, after two disconnects. */
  lemma TeardownCompletes(n: nat, actions: seq<Action>) returns (u: System)
    requires Run(Start(n), actions).cleanupStarted
    ensures Reaches(Run(Start(n), actions), u) && u.worker.Finished?
    ensures forall i :: 0 <= i < |u.places| ==> u.places[i].Outside?
    ensures u.destroyed == 1 && u.deletes == 1 && u.disconnects == 2 && u.references == 0
  {
    var s := Run(Start(n), actions);
    StartIsFine(n);
    RunKeeps(Start(n), actions);
    ReachesSelf(s);
    var t := WorkerEnds(s, s);
    u := ThreadsEnd(s, t);
    var more :| Run(s, more) == u;
    RunAppend(Start(n), actions, more);
    NothingLeft(n, actions + more);
  }

  // ---- A sender that outlives the cleanup ----

  /** Two threads and a worker that was never late. */
  function Pair(started: bool, wrapper: bool, references: int, cleared: bool, attached: bool, p: Place, q: Place,
                worker: WorkerPlace, disconnects: nat, destroyed: nat): System
  {
    System(started, !started, wrapper, references, cleared, attached, [p, q], worker, if wrapper then 0 else 1,
           disconnects, destroyed, false, false, false)
  }

  /** A sender gets its copy, the worker delivers once and comes to its end. */
  lemma SendsMeanwhile(s: System)
    requires s == Pair(false, true, 1, false, true, Outside, Outside, SettingUp, 0, 0)
    ensures Run(s, [Send(0), Work(Succeed), Work(Deliver), Work(Go), Work(End), Work(Go), Work(Go)])
         == Pair(false, true, 2, false, true, Sending, Outside, Finished, 0, 0)
  {
    var a := [Send(0), Work(Succeed), Work(Deliver), Work(Go), Work(End), Work(Go), Work(Go)];
    var s1 := Pair(false, true, 2, false, true, Sending, Outside, SettingUp, 0, 0);
    assert Step(s, a[0]) == s1;
    var s2 := Pair(false, true, 2, false, true, Sending, Outside, Looping, 0, 0);
    assert Step(s1, a[1]) == s2;
    var s3 := Pair(false, true, 3, false, true, Sending, Outside, DataCallback, 0, 0);
    assert Step(s2, a[2]) == s3;
    assert Step(s3, a[3]) == s2;
    var s5 := Pair(false, true, 2, false, true, Sending, Outside, CloseDue, 0, 0);
    assert Step(s2, a[4]) == s5;
    var s6 := Pair(false, true, 3, false, true, Sending, Outside, CloseCallback, 0, 0);
    assert Step(s5, a[5]) == s6;
    assert a[0..] == a;
    RunFrom(s, a, 0);
    RunFrom(s1, a, 1);
    RunFrom(s2, a, 2);
    RunFrom(s3, a, 3);
    RunFrom(s2, a, 4);
    RunFrom(s5, a, 5);
    RunFrom(s6, a, 6);
  }

  /** The cleanup takes the pointer, deletes the wrapper, disconnects and drops its copy. */
  lemma CleansUp(s: System)
    requires s == Pair(false, true, 2, false, true, Sending, Outside, Finished, 0, 0)
    ensures Run(s, [Cleanup(1), Proceed(1), Proceed(1), Proceed(1), Proceed(1)])
         == Pair(true, false, 1, true, false, Sending, Outside, Finished, 1, 0)
  {
    var a := [Cleanup(1), Proceed(1), Proceed(1), Proceed(1), Proceed(1)];
    var s1 := Pair(true, true, 3, false, true, Sending, Taken, Finished, 0, 0);
    assert Step(s, a[0]) == s1;
    var s2 := Pair(true, false, 2, false, true, Sending, Deleted, Finished, 0, 0);
    assert Step(s1, a[1]) == s2;
    var s3 := Pair(true, false, 2, true, true, Sending, Closing, Finished, 0, 0);
    assert Step(s2, a[2]) == s3;
    var s4 := Pair(true, false, 2, true, false, Sending, Leaving, Finished, 1, 0);
    assert Step(s3, a[3]) == s4;
    assert a[0..] == a;
    RunFrom(s, a, 0);
    RunFrom(s1, a, 1);
    RunFrom(s2, a, 2);
    RunFrom(s3, a, 3);
    RunFrom(s4, a, 4);
  }

  /** A sender that has its copy uses the streamer safely after the cleanup has returned, and is the
      one that destroys it. */
  lemma SenderIsLast() returns (actions: seq<Action>, s: System)
    ensures s == Run(Start(2), actions) && s == Pair(true, false, 1, true, false, Sending, Outside, Finished, 1, 0)
    ensures Step(s, Proceed(0)) == Pair(true, false, 0, true, false, Outside, Outside, Finished, 2, 1)
  {
    var a := [Send(0), Work(Succeed), Work(Deliver), Work(Go), Work(End), Work(Go), Work(Go)];
    var b := [Cleanup(1), Proceed(1), Proceed(1), Proceed(1), Proceed(1)];
    assert Start(2).places == [Outside, Outside];
    SendsMeanwhile(Start(2));
    CleansUp(Run(Start(2), a));
    RunAppend(Start(2), a, b);
    actions, s := a + b, Run(Start(2), a + b);
  }
}
