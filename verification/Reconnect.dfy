/** When connect() ends the program: it assigns a new thread to thread_, and std::terminate is
    called if thread_ is still joinable then. */
module Reconnect {
  import opened Bytes
  import opened ConnectionState
  import opened Worker

  /** The exchange of connect() succeeds. */
  predicate Claims(s: System, a: Action) {
    !s.terminated && a.Connect? && a.i < |s.controls| && s.controls[a.i].Ready? && s.state == DISCONNECTED
  }

  lemma {:induction false} EndedStays(s: System, actions: seq<Action>)
    requires s.terminated
    ensures Run(s, actions) == s
    decreases |actions|
  {
    if actions != [] {
      EndedStays(s, actions[1..]);
    }
  }

  // ---- Never, if every claim finds thread_ empty ----

  /** Every connect() that claims the connection finds no joinable thread: the last disconnect()
      has joined or detached it. */
  ghost predicate Careful(s: System, actions: seq<Action>)
    decreases |actions|
  {
    actions == [] ||
    ((Claims(s, actions[0]) ==> s.handle.None?) && Careful(Step(s, actions[0]), actions[1..]))
  }

  /** Whoever holds the claim will find thread_ empty. */
  ghost predicate ClaimsAreSafe(s: System) {
    forall i :: 0 <= i < |s.controls| && Claiming(s.controls[i]) ==> s.handle.None?
  }

  lemma WorkLeavesControls(s: System, w: nat, choice: Choice)
    ensures var r := Step(s, Work(w, choice));
            r.controls == s.controls && r.handle == s.handle && r.terminated == s.terminated
  {}

  lemma CallLeavesHandle(s: System, a: Action, j: nat)
    requires j < |s.controls| && (a.Connect? || a.Disconnect?)
    ensures var r := Step(s, a);
            && |r.controls| == |s.controls| && r.handle == s.handle && r.terminated == s.terminated
            && (Claiming(r.controls[j]) ==> Claiming(s.controls[j]) || (Claims(s, a) && a.i == j))
            && (Claiming(s.controls[j]) ==> r.controls[j] == s.controls[j])
  {}

  lemma OtherProceeds(s: System, i: nat, onWorker: bool, j: nat)
    requires j < |s.controls| && i != j
    ensures var r := Step(s, Proceed(i, onWorker));
            && |r.controls| == |s.controls| && r.controls[j] == s.controls[j]
            && (r.handle.Some? && s.handle.None? ==> i < |s.controls| && s.controls[i].RunningSet?)
  {}

  lemma ProceedMoves(s: System, j: nat, onWorker: bool)
    requires j < |s.controls| && !s.terminated
    ensures var r := Step(s, Proceed(j, onWorker));
            && |r.controls| == |s.controls|
            && (Claiming(r.controls[j]) ==> Claiming(s.controls[j]))
            && (s.controls[j].Claimed? ==>
                  r.controls[j].RunningSet? && !r.terminated && r.handle == s.handle && r.running)
            && (s.controls[j].RunningSet? ==> r.terminated == s.handle.Some?)
            && (r.terminated ==> s.controls[j].RunningSet? && s.handle.Some? && r.handle == s.handle)
  {}

  /** A step of one control changes no other. */
  lemma ControlsMove(s: System, a: Action, j: nat)
    requires j < |s.controls|
    ensures |Step(s, a).controls| == |s.controls|
    ensures !(a.Proceed? && a.i == j) && Claiming(Step(s, a).controls[j]) ==>
              Claiming(s.controls[j]) || (Claims(s, a) && a.i == j)
    ensures Claims(s, a) ==> Step(s, a).handle == s.handle
  {
    match a
    case Work(w, choice) => WorkLeavesControls(s, w, choice);
    case Proceed(i, onWorker) =>
      if i == j {
        if !s.terminated { ProceedMoves(s, j, onWorker); }
      } else {
        OtherProceeds(s, i, onWorker, j);
      }
    case _ => CallLeavesHandle(s, a, j);
  }

  /** While j holds the claim, nobody else's step ends the program, makes a worker or claims. */
  lemma OthersMove(s: System, j: nat, a: Action)
    requires Inv(s) && !s.terminated && j < |s.controls| && Claiming(s.controls[j]) && !(a.Proceed? && a.i == j)
    ensures var r := Step(s, a);
            && !r.terminated && j < |r.controls| && r.controls[j] == s.controls[j]
            && (r.handle.Some? ==> s.handle.Some?)
  {
    match a
    case Work(w, choice) => WorkLeavesControls(s, w, choice);
    case Proceed(i, onWorker) =>
      if i < |s.controls| {
        assert !s.controls[i].RunningSet?;
        ProceedMoves(s, i, onWorker);
      }
      OtherProceeds(s, i, onWorker, j);
    case _ => CallLeavesHandle(s, a, j);
  }

  lemma ControlsAreFixed(s: System, a: Action)
    ensures |Step(s, a).controls| == |s.controls|
  {}

  lemma StepGoesOn(s: System, a: Action)
    requires ClaimsAreSafe(s) && !s.terminated
    ensures !Step(s, a).terminated
  {
    match a
    case Work(w, choice) => WorkLeavesControls(s, w, choice);
    case Proceed(i, onWorker) => if i < |s.controls| { ProceedMoves(s, i, onWorker); }
    case _ =>
  }

  lemma StepCareful(s: System, a: Action)
    requires Inv(s) && ClaimsAreSafe(s) && !s.terminated && (Claims(s, a) ==> s.handle.None?)
    ensures ClaimsAreSafe(Step(s, a))
  {
    var r := Step(s, a);
    ControlsAreFixed(s, a);
    forall j | 0 <= j < |r.controls| && Claiming(r.controls[j])
      ensures r.handle.None?
    {
      ControlsMove(s, a, j);
      if a.Proceed? && a.i == j {
        ProceedMoves(s, j, a.onWorker);
      } else if Claiming(s.controls[j]) {
        OthersMove(s, j, a);
      }
    }
  }

  lemma {:induction false} RunCareful(s: System, actions: seq<Action>)
    requires Inv(s) && ClaimsAreSafe(s) && !s.terminated && Careful(s, actions)
    ensures !Run(s, actions).terminated
    decreases |actions|
  {
    if actions != [] {
      StepGoesOn(s, actions[0]);
      StepCareful(s, actions[0]);
      StepKeeps(s, actions[0]);
      RunCareful(Step(s, actions[0]), actions[1..]);
    }
  }

  /** If every claiming connect() finds thread_ empty, no run of any threads ends the program. */
  lemma CarefulNeverEnds(n: nat, actions: seq<Action>)
    requires Careful(Start(n), actions)
    ensures !Run(Start(n), actions).terminated
  {
    RunCareful(Start(n), actions);
  }

  // ---- Exactly when ----

  /** Nobody joins or detaches along the way. */
  ghost predicate HandleKept(s: System, actions: seq<Action>)
    decreases |actions|
  {
    s.handle.Some? && (actions == [] || HandleKept(Step(s, actions[0]), actions[1..]))
  }

  /** The steps thread j takes inside connect() or disconnect(). */
  function Proceeds(actions: seq<Action>, j: nat): nat {
    if actions == [] then 0
    else (if actions[0].Proceed? && actions[0].i == j then 1 else 0) + Proceeds(actions[1..], j)
  }

  /** The steps from a claim to the assignment of thread_. */
  function ToGo(c: Control): nat
    requires Claiming(c)
  {
    if c.Claimed? then 2 else 1
  }

  /** The k-th action claims the connection while thread_ is joinable, nobody joins or detaches
      from then on, and the claiming thread gets to its assignment. */
  ghost predicate Fatal(s: System, actions: seq<Action>, k: nat) {
    && k < |actions|
    && var u := Run(s, actions[..k]);
       && Claims(u, actions[k]) && u.handle.Some?
       && HandleKept(Step(u, actions[k]), actions[k + 1..])
       && Proceeds(actions[k + 1..], actions[k].i) >= 2
  }

  /** While the claim of j is pending and thread_ joinable, the program ends exactly when j gets
      to its assignment. */
  lemma {:induction false} PendingClaim(s: System, j: nat, actions: seq<Action>)
    requires Inv(s) && !s.terminated && j < |s.controls| && Claiming(s.controls[j]) && HandleKept(s, actions)
    ensures Run(s, actions).terminated <==> Proceeds(actions, j) >= ToGo(s.controls[j])
    decreases |actions|
  {
    if actions != [] {
      var a, r := actions[0], Step(s, actions[0]);
      if a.Proceed? && a.i == j {
        ProceedMoves(s, j, a.onWorker);
        if r.terminated {
          EndedStays(r, actions[1..]);
        } else {
          StepKeeps(s, a);
          PendingClaim(r, j, actions[1..]);
        }
      } else {
        OthersMove(s, j, a);
        StepKeeps(s, a);
        PendingClaim(r, j, actions[1..]);
      }
    }
  }

  /** One action in front. */
  lemma FatalLater(s: System, actions: seq<Action>, k: nat)
    requires actions != [] && Fatal(Step(s, actions[0]), actions[1..], k)
    ensures Fatal(s, actions, k + 1)
  {
    assert actions[..k + 1][0] == actions[0] && actions[..k + 1][1..] == actions[1..][..k];
    assert actions[1..][k + 1..] == actions[k + 2..];
  }

  lemma {:induction false} KeptAtEnd(s: System, actions: seq<Action>)
    requires s.terminated && s.handle.Some?
    ensures HandleKept(s, actions)
    decreases |actions|
  {
    if actions != [] {
      KeptAtEnd(s, actions[1..]);
    }
  }

  /** The claim of x is pending, and will end the program in this run. */
  ghost predicate WillEnd(s: System, actions: seq<Action>, x: nat) {
    && x < |s.controls| && Claiming(s.controls[x]) && HandleKept(s, actions)
    && Proceeds(actions, x) >= ToGo(s.controls[x])
  }

  lemma EndsNow(s: System, actions: seq<Action>) returns (x: nat)
    requires Inv(s) && !s.terminated && actions != [] && Step(s, actions[0]).terminated
    ensures WillEnd(s, actions, x)
  {
    var a, r := actions[0], Step(s, actions[0]);
    match a
    case Work(w, choice) => WorkLeavesControls(s, w, choice);
    case Proceed(i, onWorker) =>
      x := i;
      if i < |s.controls| {
        ProceedMoves(s, i, onWorker);
        KeptAtEnd(r, actions[1..]);
      }
    case _ =>
  }

  /** A claim that is pending after the first action was pending before, or was made by it. */
  lemma PendingBefore(s: System, actions: seq<Action>, x: nat)
    requires Inv(s) && !s.terminated && actions != [] && !Step(s, actions[0]).terminated
    requires WillEnd(Step(s, actions[0]), actions[1..], x)
    ensures if Claims(s, actions[0]) && actions[0].i == x then Fatal(s, actions, 0) else WillEnd(s, actions, x)
  {
    var a := actions[0];
    if x < |s.controls| {
      ControlsMove(s, a, x);
      if Claims(s, a) && a.i == x {
        assert actions[..0] == [];
      } else if a.Proceed? && a.i == x {
        ProceedMoves(s, x, a.onWorker);
      } else {
        OthersMove(s, x, a);
      }
    } else {
      ControlsAreFixed(s, a);
    }
  }

  /** A program that ended did so by a pending claim or by a fatal one. */
  lemma {:induction false} Blame(s: System, actions: seq<Action>) returns (pending: bool, x: nat)
    requires Inv(s) && !s.terminated && Run(s, actions).terminated
    ensures if pending then WillEnd(s, actions, x) else Fatal(s, actions, x)
    decreases |actions|
  {
    var a, r := actions[0], Step(s, actions[0]);
    if r.terminated {
      x := EndsNow(s, actions);
      pending := true;
    } else {
      StepKeeps(s, a);
      pending, x := Blame(r, actions[1..]);
      if !pending {
        FatalLater(s, actions, x);
        x := x + 1;
      } else {
        PendingBefore(s, actions, x);
        if Claims(s, a) && a.i == x {
          pending, x := false, 0;
        }
      }
    }
  }

  lemma {:induction false} RunAppend(s: System, a: seq<Action>, b: seq<Action>)
    ensures Run(s, a + b) == Run(Run(s, a), b)
    decreases |a|
  {
    if a == [] {
      assert a + b == b;
    } else {
      assert (a + b)[0] == a[0] && (a + b)[1..] == a[1..] + b;
      RunAppend(Step(s, a[0]), a[1..], b);
    }
  }

  lemma FatalEnds(n: nat, actions: seq<Action>, k: nat)
    requires Fatal(Start(n), actions, k)
    ensures Run(Start(n), actions).terminated
  {
    var u := Run(Start(n), actions[..k]);
    RunKeeps(Start(n), actions[..k]);
    StepKeeps(u, actions[k]);
    PendingClaim(Step(u, actions[k]), actions[k].i, actions[k + 1..]);
    RunAppend(Start(n), actions[..k], actions[k..]);
    assert actions[..k] + actions[k..] == actions && actions[k..][1..] == actions[k + 1..];
  }

  /** Over all runs of any number of threads: the program ends exactly if some connect() claims
      the connection while thread_ is joinable, is not helped by a join or detach, and gets to
      its assignment. */
  lemma EndsExactly(n: nat, actions: seq<Action>)
    ensures Run(Start(n), actions).terminated <==> exists k :: Fatal(Start(n), actions, k)
  {
    var s := Start(n);
    if Run(s, actions).terminated {
      var pending, k := Blame(s, actions);
      assert Fatal(s, actions, k);
    }
    if exists k :: Fatal(s, actions, k) {
      var k :| Fatal(s, actions, k);
      FatalEnds(n, actions, k);
    }
  }

  // ---- A run that ends the program ----

  lemma RunFrom(s: System, a: seq<Action>, k: nat)
    requires k < |a|
    ensures Run(s, a[k..]) == Run(Step(s, a[k]), a[k + 1..])
  {
    assert a[k..][1..] == a[k + 1..];
  }

  /** Two controlling threads. */
  function Pair(state: State, running: bool, started: bool, handle: Option<nat>,
                threads: seq<Thread>, c: Control, d: Control): System
  {
    System(state, running, started, handle, threads, [c, d], false)
  }

  /** connect() by the first of two threads. */
  lemma Connecting() returns (s: System)
    ensures s == Run(Start(2), [Connect(0), Proceed(0, false), Proceed(0, false), Proceed(0, false)])
    ensures s == Pair(CONNECTING, true, true, Some(0), [Thread(SettingUp, [], false)], Ready, Ready)
  {
    var a := [Connect(0), Proceed(0, false), Proceed(0, false), Proceed(0, false)];
    var t := Thread(SettingUp, [], false);
    var s0 := Pair(DISCONNECTED, false, false, None, [], Ready, Ready);
    assert Start(2) == s0;
    var s1 := Pair(CONNECTING, false, false, None, [], Claimed, Ready);
    assert Step(s0, a[0]) == s1;
    var s2 := Pair(CONNECTING, true, false, None, [], RunningSet, Ready);
    assert Step(s1, a[1]) == s2;
    var s3 := Pair(CONNECTING, true, false, Some(0), [t], ThreadMade, Ready);
    assert Step(s2, a[2]) == s3;
    s := Pair(CONNECTING, true, true, Some(0), [t], Ready, Ready);
    assert Step(s3, a[3]) == s;
    assert a[0..] == a;
    RunFrom(s0, a, 0);
    RunFrom(s1, a, 1);
    RunFrom(s2, a, 2);
    RunFrom(s3, a, 3);
  }

  /** A second connect() after a failed set-up, with no disconnect() in between, assigns to a
      joinable thread_, which ends the program. */
  lemma ReconnectWithoutJoin(s: System, code: nat)
    requires s == Pair(CONNECTING, true, true, Some(0), [Thread(SettingUp, [], false)], Ready, Ready)
    ensures Run(s, [Work(0, Fail(code)), Connect(0), Proceed(0, false), Proceed(0, false)]).terminated
  {
    var a := [Work(0, Fail(code)), Connect(0), Proceed(0, false), Proceed(0, false)];
    var t := [Thread(SetupFailed(code), [], false)];
    var s1 := Pair(DISCONNECTED, true, true, Some(0), t, Ready, Ready);
    assert Step(s, a[0]) == s1;
    var s2 := Pair(CONNECTING, true, true, Some(0), t, Claimed, Ready);
    assert Step(s1, a[1]) == s2;
    var s3 := Pair(CONNECTING, true, true, Some(0), t, RunningSet, Ready);
    assert Step(s2, a[2]) == s3;
    assert Step(s3, a[3]).terminated;
    assert a[0..] == a;
    RunFrom(s, a, 0);
    RunFrom(s1, a, 1);
    RunFrom(s2, a, 2);
    RunFrom(s3, a, 3);
  }
}
