/** Who may use the AudioStreamer, and when it is destroyed: the shared pointer in private_t,
    copied under the mutex by senders and taken away and deleted by the one cleanup; the copies
    the worker's callbacks take; and the destructor, which disconnects once more. Each critical
    section, callback and destruction is one step, and any number of threads interleave with the
    worker. */
module Lifetime {

  /** Where a thread is in the functions of audio_streamer_glue.cpp. */
  datatype Place =
    | Outside
    | Sending   // stream_session_send_text or stream_frame: holds a copy, mutex released
    | Taken     // cleanup: the pointer is ours, and a copy of what it points to
    | Deleted   // cleanup: the wrapper is deleted, markCleanedUp due
    | Closing   // cleanup: callbacks cleared, the join or detach of disconnect() due
    | Leaving   // cleanup: disconnected, the copy to be dropped

  /** Where the worker is in threadFunc; a callback holds a copy of its own. */
  datatype WorkerPlace =
    | SettingUp
    | ErrorCallback(place: Place) // from here a cleanup may run: the media bug is closed
    | ErrorReported               // onClose_ to be tested
    | Looping
    | DataCallback                // open, message or binary
    | CloseDue
    | CloseCallback
    | Finished

  datatype System = System(
    cleanupStarted: bool,
    pointer: bool,       // pAudioStreamer is set
    wrapper: bool,       // the heap-allocated shared_ptr exists
    references: int,     // the reference count of the AudioStreamer
    cleared: bool,       // markCleanedUp has run
    attached: bool,      // the worker can be joined or detached
    places: seq<Place>, worker: WorkerPlace,
    deletes: nat,        // of the wrapper
    disconnects: nat,    // of the client, the destructor's included
    destroyed: nat,      // runs of the destructor
    byWorker: bool,      // the cleanup is, or was, the worker's own
    misuse: bool,        // a thread used the wrapper or its copy after it was freed
    late: bool)          // the worker used the client after its destruction

  datatype Choice = Fail | Succeed | Deliver | End | Clean | Go

  datatype Action = Send(i: nat) | Cleanup(i: nat) | Proceed(i: nat) | Work(choice: Choice)

  // ---- References ----

  /** The destructor of the last copy would have to wait for the worker. */
  predicate MustWait(s: System, onWorker: bool) {
    s.references == 1 && s.attached && !onWorker && !s.worker.Finished?
  }

  /** The last copy is dropped: the destructor runs, and disconnects. */
  function DropLast(s: System, bad: bool): System {
    s.(references := 0, destroyed := s.destroyed + 1, disconnects := s.disconnects + 1, attached := false,
       misuse := s.misuse || bad)
  }

  /** A copy is dropped, wrongly if `bad`. */
  function Drop(s: System, bad: bool): System {
    if s.references == 1 then DropLast(s, bad)
    else s.(references := s.references - 1, misuse := s.misuse || bad || s.references <= 0)
  }

  function Copy(s: System, bad: bool): System {
    s.(references := s.references + 1, misuse := s.misuse || bad)
  }

  // ---- stream_session_cleanup, on any thread ----

  datatype Move = Move(system: System, place: Place)

  /** What the critical section does when it is the first. */
  function TakePointer(s: System, onWorker: bool): System {
    Copy(s, !s.wrapper).(cleanupStarted := true, pointer := false, byWorker := onWorker)
  }

  function Begin(s: System, onWorker: bool): Move {
    if s.cleanupStarted then Move(s, Outside)
    else if !s.pointer then Move(s.(cleanupStarted := true), Outside)
    else Move(TakePointer(s, onWorker), Taken)
  }

  function DeleteWrapper(s: System): System {
    Drop(s, !s.wrapper).(wrapper := false, deletes := s.deletes + 1)
  }

  function MarkCleanedUp(s: System): System {
    s.(cleared := true, misuse := s.misuse || s.destroyed > 0)
  }

  function Disconnect(s: System): System {
    s.(attached := false, disconnects := s.disconnects + 1, misuse := s.misuse || s.destroyed > 0)
  }

  /** What follows the critical section. */
  function Continue(s: System, p: Place, onWorker: bool): Move {
    match p
    case Outside => Move(s, p)
    case Sending => if MustWait(s, onWorker) then Move(s, p) else Move(Drop(s, s.destroyed > 0), Outside)
    case Taken => if MustWait(s, onWorker) then Move(s, p) else Move(DeleteWrapper(s), Deleted)
    case Deleted => Move(MarkCleanedUp(s), Closing)
    case Closing =>
      if s.attached && !onWorker && !s.worker.Finished? then Move(s, p)       // join() waits
      else Move(Disconnect(s), Leaving)
    case Leaving => if MustWait(s, onWorker) then Move(s, p) else Move(Drop(s, false), Outside)
  }

  // ---- The worker ----

  function At(s: System, w: WorkerPlace): System {
    s.(worker := w)
  }

  /** threadFunc reads or writes the client. */
  function Touch(s: System): System {
    s.(late := s.late || s.destroyed > 0)
  }

  /** A callback that is still set takes a copy, if there is one to take. */
  function Call(s: System, isSet: bool, inside: WorkerPlace, otherwise: WorkerPlace): System {
    if isSet && s.references > 0 then At(Copy(s, false), inside) else At(s, otherwise)
  }

  /** A step inside the error callback: the cleanup's first, its next, or the callback's end. */
  function ErrorStep(s: System, p: Place, choice: Choice): System {
    if !p.Outside? then At(Continue(s, p, true).system, ErrorCallback(Continue(s, p, true).place))
    else if choice.Clean? then At(Begin(s, true).system, ErrorCallback(Begin(s, true).place))
    else At(Drop(s, false), ErrorReported)
  }

  function WorkerStep(s: System, choice: Choice): System {
    match s.worker
    case SettingUp =>
      if choice.Fail? then Call(Touch(s), !s.cleared, ErrorCallback(Outside), ErrorReported)
      else if choice.Succeed? then At(Touch(s), Looping)
      else Touch(s)
    case ErrorCallback(p) => ErrorStep(s, p, choice)
    case ErrorReported => Call(Touch(s), !s.cleared, CloseCallback, Finished)
    case Looping =>
      if choice.Deliver? then Call(Touch(s), true, DataCallback, Looping)
      else if choice.End? then At(Touch(s), CloseDue)
      else Touch(s)
    case DataCallback => At(Drop(s, false), Looping)
    case CloseDue => Call(Touch(s), !s.cleared, CloseCallback, Finished)
    case CloseCallback => At(Drop(s, false), Finished)
    case Finished => s
  }

  // ---- The other threads ----

  function Put(s: System, m: Move, i: nat): System
    requires i < |s.places|
  {
    m.system.(places := s.places[i := m.place])
  }

  /** The critical section of stream_session_send_text and of stream_frame. */
  function SendStep(s: System, i: nat): System
    requires i < |s.places|
  {
    if s.pointer then Put(s, Move(Copy(s, !s.wrapper), Sending), i) else s
  }

  function Step(s: System, a: Action): System {
    match a
    case Work(choice) => WorkerStep(s, choice)
    case Send(i) => if i < |s.places| && s.places[i].Outside? then SendStep(s, i) else s
    case Cleanup(i) => if i < |s.places| && s.places[i].Outside? then Put(s, Begin(s, false), i) else s
    case Proceed(i) => if i < |s.places| then Put(s, Continue(s, s.places[i], false), i) else s
  }

  function Run(s: System, actions: seq<Action>): System
    decreases |actions|
  {
    if actions == [] then s else Run(Step(s, actions[0]), actions[1..])
  }

  /** A session that has been set up, its worker under way, and n threads. */
  function Start(n: nat): System {
    System(false, true, true, 1, false, true, seq(n, _ => Outside), SettingUp, 0, 0, 0, false, false, false)
  }

  // ---- Counting threads ----

  function One(b: bool): nat {
    if b then 1 else 0
  }

  function Count(places: seq<Place>, test: Place -> bool): nat {
    if places == [] then 0
    else Count(places[..|places| - 1], test) + One(test(places[|places| - 1]))
  }

  lemma {:induction false} CountMoved(places: seq<Place>, test: Place -> bool, i: nat, p: Place)
    requires i < |places|
    ensures Count(places[i := p], test) == Count(places, test) - One(test(places[i])) + One(test(p))
    ensures test(places[i]) ==> Count(places, test) > 0
  {
    var n := |places| - 1;
    if i < n {
      assert places[i := p][..n] == places[..n][i := p];
      CountMoved(places[..n], test, i, p);
    } else {
      assert places[i := p][..n] == places[..n];
    }
  }

  lemma {:induction false} CountNone(places: seq<Place>, test: Place -> bool)
    requires forall i :: 0 <= i < |places| ==> !test(places[i])
    ensures Count(places, test) == 0
  {
    if places != [] {
      CountNone(places[..|places| - 1], test);
    }
  }

  lemma {:induction false} CountSome(places: seq<Place>, test: Place -> bool) returns (i: nat)
    requires Count(places, test) > 0
    ensures i < |places| && test(places[i])
  {
    var n := |places| - 1;
    if test(places[n]) {
      i := n;
    } else {
      i := CountSome(places[..n], test);
    }
  }

  predicate Holds(p: Place) { !p.Outside? }
  predicate OwnsWrapper(p: Place) { p.Taken? }
  predicate BeforeMark(p: Place) { p.Taken? || p.Deleted? }
  predicate BeforeDisconnect(p: Place) { p.Taken? || p.Deleted? || p.Closing? }
  predicate InCleanup(p: Place) { BeforeDisconnect(p) || p.Leaving? }

  /** The place of the worker's own cleanup. */
  function Own(w: WorkerPlace): Place {
    if w.ErrorCallback? then w.place else Outside
  }

  predicate InCallback(w: WorkerPlace) {
    w.ErrorCallback? || w.DataCallback? || w.CloseCallback?
  }

  /** Threads with the property, the worker's own cleanup included. */
  function Total(s: System, test: Place -> bool): nat {
    Count(s.places, test) + One(test(Own(s.worker)))
  }

  // ---- The invariant ----

  /** Every reference is the wrapper's, a thread's or a callback's; the wrapper is there while
      the pointer or the cleanup has it; the cleanup clears, disconnects and drops once each. */
  ghost predicate Counted(s: System) {
    && s.references == One(s.wrapper) + Total(s, Holds) + One(InCallback(s.worker))
    && One(s.wrapper) == One(s.pointer) + Total(s, OwnsWrapper)
    && s.pointer == !s.cleanupStarted
    && s.deletes + One(s.wrapper) == 1
    && Total(s, InCleanup) <= One(s.cleanupStarted)
    && One(!s.cleared) == One(!s.cleanupStarted) + Total(s, BeforeMark)
    && One(s.attached) == One(!s.cleanupStarted) + Total(s, BeforeDisconnect)
    && s.destroyed == One(s.references == 0)
    && s.disconnects == One(!s.attached) + s.destroyed
  }

  /** The worker is over once somebody else has disconnected; after its own cleanup it is still
      reporting the error. */
  ghost predicate WorkerFits(s: System) {
    && !Own(s.worker).Sending?
    && (InCleanup(Own(s.worker)) ==> s.byWorker)
    && (s.byWorker ==> s.cleanupStarted && Count(s.places, InCleanup) == 0)
    && (s.byWorker ==> s.worker.ErrorCallback? || s.worker.ErrorReported? || s.worker.Finished?)
    && (!s.attached && !s.byWorker ==> s.worker.Finished?)
  }

  ghost predicate Inv(s: System) {
    Counted(s) && WorkerFits(s) && !s.misuse && (s.late ==> s.byWorker && s.destroyed == 1)
  }

  /** One thread, or the worker's own cleanup, went from p to q. */
  ghost predicate ShiftedBy(s: System, r: System, p: Place, q: Place, test: Place -> bool) {
    Total(r, test) == Total(s, test) - One(test(p)) + One(test(q)) && (test(p) ==> Total(s, test) > 0)
  }

  ghost predicate Shifted(s: System, r: System, p: Place, q: Place) {
    && ShiftedBy(s, r, p, q, Holds) && ShiftedBy(s, r, p, q, OwnsWrapper) && ShiftedBy(s, r, p, q, BeforeMark)
    && ShiftedBy(s, r, p, q, BeforeDisconnect) && ShiftedBy(s, r, p, q, InCleanup)
  }

  lemma ThreadShifts(s: System, r: System, i: nat, q: Place)
    requires i < |s.places| && r.places == s.places[i := q] && Own(r.worker) == Own(s.worker)
    ensures Shifted(s, r, s.places[i], q)
    ensures Count(r.places, InCleanup)
         == Count(s.places, InCleanup) - One(InCleanup(s.places[i])) + One(InCleanup(q))
  {
    CountMoved(s.places, Holds, i, q);
    CountMoved(s.places, OwnsWrapper, i, q);
    CountMoved(s.places, BeforeMark, i, q);
    CountMoved(s.places, BeforeDisconnect, i, q);
    CountMoved(s.places, InCleanup, i, q);
  }

  /** Of nested groups, the larger has at least as many; waiting copies are copies. */
  lemma {:induction false} Nested(places: seq<Place>)
    ensures Count(places, OwnsWrapper) <= Count(places, BeforeMark) <= Count(places, BeforeDisconnect)
         <= Count(places, InCleanup) <= Count(places, Holds)
  {
    if places != [] {
      Nested(places[..|places| - 1]);
    }
  }

  // ---- What each step does to the counts, on whatever thread ----

  lemma SendCounts(s: System, r: System)
    requires Counted(s) && s.pointer && !s.misuse && Shifted(s, r, Outside, Sending)
    requires r == Copy(s, !s.wrapper).(places := r.places, worker := s.worker)
    ensures Counted(r) && !r.misuse
  {}

  lemma TakeCounts(s: System, r: System, onWorker: bool)
    requires Counted(s) && s.pointer && !s.misuse && Shifted(s, r, Outside, Taken)
    requires r == TakePointer(s, onWorker).(places := r.places, worker := r.worker)
    requires InCallback(r.worker) == InCallback(s.worker)
    ensures Counted(r) && !r.misuse
  {}

  lemma DeleteCounts(s: System, r: System)
    requires Counted(s) && !s.misuse && Shifted(s, r, Taken, Deleted)
    requires r == DeleteWrapper(s).(places := r.places, worker := r.worker)
    requires InCallback(r.worker) == InCallback(s.worker)
    ensures Counted(r) && !r.misuse && r.destroyed >= s.destroyed && r.attached == s.attached
  {}

  lemma MarkCounts(s: System, r: System)
    requires Counted(s) && !s.misuse && Shifted(s, r, Deleted, Closing)
    requires r == MarkCleanedUp(s).(places := r.places, worker := r.worker)
    requires InCallback(r.worker) == InCallback(s.worker)
    ensures Counted(r) && !r.misuse && r.destroyed >= s.destroyed && r.attached == s.attached
  {}

  lemma DisconnectCounts(s: System, r: System)
    requires Counted(s) && !s.misuse && Shifted(s, r, Closing, Leaving)
    requires r == Disconnect(s).(places := r.places, worker := r.worker)
    requires InCallback(r.worker) == InCallback(s.worker)
    ensures Counted(r) && !r.misuse && r.destroyed >= s.destroyed
  {}

  lemma DropCounts(s: System, r: System, p: Place, bad: bool)
    requires Counted(s) && !s.misuse && (bad ==> s.destroyed > 0) && Shifted(s, r, p, Outside)
    requires p.Sending? || p.Leaving?
    requires r == Drop(s, bad).(places := r.places, worker := r.worker)
    requires InCallback(r.worker) == InCallback(s.worker)
    ensures Counted(r) && !r.misuse && r.destroyed >= s.destroyed && r.attached == s.attached
  {
    if s.references == 1 {
      Nested(r.places);
    }
  }

  /** A callback's copy. */
  lemma CallCounts(s: System, r: System)
    requires Counted(s) && !s.misuse && s.references > 0
    requires r == Copy(s, false).(worker := r.worker, late := r.late)
    requires InCallback(r.worker) && !InCallback(s.worker) && Own(r.worker) == Own(s.worker)
    ensures Counted(r) && !r.misuse
  {}

  lemma ReturnCounts(s: System, r: System)
    requires Counted(s) && !s.misuse
    requires r == Drop(s, false).(worker := r.worker)
    requires !InCallback(r.worker) && InCallback(s.worker) && Own(r.worker) == Own(s.worker) == Outside
    ensures Counted(r) && !r.misuse && r.destroyed >= s.destroyed && r.attached == s.attached
  {
    if s.references == 1 {
      Nested(s.places);
    }
  }

  // ---- Every step keeps the invariant ----

  lemma Unmoved(s: System, i: nat)
    requires i < |s.places|
    ensures s.(places := s.places[i := s.places[i]]) == s
  {
    assert s.places[i := s.places[i]] == s.places;
  }

  lemma SendKeeps(s: System, i: nat)
    requires Inv(s) && i < |s.places| && s.places[i].Outside?
    ensures Inv(SendStep(s, i))
  {
    if s.pointer {
      var r := SendStep(s, i);
      ThreadShifts(s, r, i, Sending);
      SendCounts(s, r);
    }
  }

  lemma CleanupKeeps(s: System, i: nat)
    requires Inv(s) && i < |s.places| && s.places[i].Outside?
    ensures Inv(Put(s, Begin(s, false), i))
  {
    Unmoved(s, i);
    if s.pointer {
      var r := Put(s, Begin(s, false), i);
      ThreadShifts(s, r, i, Taken);
      TakeCounts(s, r, false);
    }
  }

  /** No destructor has to wait for the worker: whoever drops the last copy finds the cleanup's
      disconnect() done. */
  lemma NoWait(s: System, i: nat)
    requires Inv(s) && i < |s.places|
    requires s.places[i].Sending? || s.places[i].Taken? || s.places[i].Leaving?
    ensures !MustWait(s, false)
  {
    CountMoved(s.places, Holds, i, Outside);
    CountMoved(s.places, OwnsWrapper, i, Outside);
    CountMoved(s.places, BeforeDisconnect, i, Outside);
    Nested(s.places);
    Nested(s.places[i := Outside]);
  }

  /** A thread moved, the worker did not. */
  lemma StillFits(s: System, r: System)
    requires WorkerFits(s) && r.worker == s.worker && r.byWorker == s.byWorker
    requires r.cleanupStarted == s.cleanupStarted && (r.attached == s.attached || s.worker.Finished?)
    requires Count(r.places, InCleanup) <= Count(s.places, InCleanup)
    ensures WorkerFits(r)
  {}

  lemma LastDropCounted(s: System, i: nat)
    requires Inv(s) && i < |s.places| && (s.places[i].Sending? || s.places[i].Leaving?) && s.references == 1
    ensures var r := Put(s, Move(DropLast(s, false), Outside), i);
            Counted(r) && !r.misuse && r.attached == s.attached && r.destroyed >= s.destroyed
  {
    var r := Put(s, Move(DropLast(s, false), Outside), i);
    ThreadShifts(s, r, i, Outside);
    DropCounts(s, r, s.places[i], false);
  }

  lemma DropCounted(s: System, i: nat, bad: bool)
    requires Inv(s) && i < |s.places| && (s.places[i].Sending? || s.places[i].Leaving?)
    requires bad ==> s.destroyed > 0
    ensures var r := Put(s, Move(Drop(s, bad), Outside), i);
            Counted(r) && !r.misuse && r.attached == s.attached && r.destroyed >= s.destroyed
  {
    if s.references == 1 {
      LastDropCounted(s, i);
    } else {
      var r := Put(s, Move(Drop(s, bad), Outside), i);
      ThreadShifts(s, r, i, Outside);
      DropCounts(s, r, s.places[i], bad);
    }
  }

  lemma DropKeeps(s: System, i: nat, bad: bool)
    requires Inv(s) && i < |s.places| && (s.places[i].Sending? || s.places[i].Leaving?)
    requires bad ==> s.destroyed > 0
    ensures Inv(Put(s, Move(Drop(s, bad), Outside), i))
  {
    DropCounted(s, i, bad);
    CountMoved(s.places, InCleanup, i, Outside);
    StillFits(s, Put(s, Move(Drop(s, bad), Outside), i));
  }

  lemma DeleteCounted(s: System, i: nat)
    requires Inv(s) && i < |s.places| && s.places[i].Taken?
    ensures var r := Put(s, Move(DeleteWrapper(s), Deleted), i);
            Counted(r) && !r.misuse && r.attached == s.attached && r.destroyed >= s.destroyed
  {
    var r := Put(s, Move(DeleteWrapper(s), Deleted), i);
    ThreadShifts(s, r, i, Deleted);
    DeleteCounts(s, r);
  }

  lemma DeleteKeeps(s: System, i: nat)
    requires Inv(s) && i < |s.places| && s.places[i].Taken?
    ensures Inv(Put(s, Move(DeleteWrapper(s), Deleted), i))
  {
    DeleteCounted(s, i);
    CountMoved(s.places, InCleanup, i, Deleted);
    StillFits(s, Put(s, Move(DeleteWrapper(s), Deleted), i));
  }

  lemma MarkKeeps(s: System, i: nat)
    requires Inv(s) && i < |s.places| && s.places[i].Deleted?
    ensures Inv(Put(s, Move(MarkCleanedUp(s), Closing), i))
  {
    var r := Put(s, Move(MarkCleanedUp(s), Closing), i);
    ThreadShifts(s, r, i, Closing);
    MarkCounts(s, r);
    StillFits(s, r);
  }

  lemma DisconnectKeeps(s: System, i: nat)
    requires Inv(s) && i < |s.places| && s.places[i].Closing? && (!s.attached || s.worker.Finished?)
    ensures Inv(Put(s, Move(Disconnect(s), Leaving), i))
  {
    var r := Put(s, Move(Disconnect(s), Leaving), i);
    ThreadShifts(s, r, i, Leaving);
    DisconnectCounts(s, r);
    StillFits(s, r);
  }

  lemma ProceedKeeps(s: System, i: nat)
    requires Inv(s) && i < |s.places|
    ensures Inv(Put(s, Continue(s, s.places[i], false), i))
  {
    Unmoved(s, i);
    match s.places[i]
    case Outside =>
    case Sending => DropKeeps(s, i, s.destroyed > 0);
    case Taken => DeleteKeeps(s, i);
    case Deleted => MarkKeeps(s, i);
    case Closing => if !s.attached || s.worker.Finished? { DisconnectKeeps(s, i); }
    case Leaving => DropKeeps(s, i, false);
  }

  lemma OwnDeleteKeeps(s: System)
    requires Inv(s) && s.worker == ErrorCallback(Taken)
    ensures Inv(At(DeleteWrapper(s), ErrorCallback(Deleted)))
  {
    DeleteCounts(s, At(DeleteWrapper(s), ErrorCallback(Deleted)));
  }

  lemma OwnMarkKeeps(s: System)
    requires Inv(s) && s.worker == ErrorCallback(Deleted)
    ensures Inv(At(MarkCleanedUp(s), ErrorCallback(Closing)))
  {
    MarkCounts(s, At(MarkCleanedUp(s), ErrorCallback(Closing)));
  }

  lemma OwnDisconnectKeeps(s: System)
    requires Inv(s) && s.worker == ErrorCallback(Closing)
    ensures Inv(At(Disconnect(s), ErrorCallback(Leaving)))
  {
    DisconnectCounts(s, At(Disconnect(s), ErrorCallback(Leaving)));
  }

  lemma OwnDropKeeps(s: System)
    requires Inv(s) && s.worker == ErrorCallback(Leaving)
    ensures Inv(At(Drop(s, false), ErrorCallback(Outside)))
  {
    DropCounts(s, At(Drop(s, false), ErrorCallback(Outside)), Leaving, false);
  }

  /** The worker's own cleanup goes on. */
  lemma OwnCleanupKeeps(s: System, p: Place, choice: Choice)
    requires Inv(s) && s.worker == ErrorCallback(p) && !p.Outside?
    ensures Inv(ErrorStep(s, p, choice))
  {
    match p
    case Taken => OwnDeleteKeeps(s);
    case Deleted => OwnMarkKeeps(s);
    case Closing => OwnDisconnectKeeps(s);
    case Leaving => OwnDropKeeps(s);
  }

  lemma OwnCleanupBegins(s: System)
    requires Inv(s) && s.worker == ErrorCallback(Outside)
    ensures Inv(ErrorStep(s, Outside, Clean))
  {
    if s.pointer {
      Nested(s.places);
      TakeCounts(s, ErrorStep(s, Outside, Clean), true);
    }
  }

  /** Set-up and reporting touch a client that is there, unless the cleanup was the worker's. */
  lemma ThereOrOwn(s: System)
    requires Inv(s) && s.destroyed > 0 && !s.worker.Finished?
    ensures s.byWorker && s.worker.ErrorReported?
  {
    Nested(s.places);
  }

  lemma CallKeeps(s: System, isSet: bool, inside: WorkerPlace, otherwise: WorkerPlace)
    requires Inv(s) && !s.worker.Finished? && !InCallback(s.worker)
    requires InCallback(inside) && Own(inside).Outside? && !InCallback(otherwise)
    requires s.byWorker ==> otherwise.Finished? && !isSet
    ensures Inv(Call(Touch(s), isSet, inside, otherwise))
  {
    if s.destroyed > 0 {
      ThereOrOwn(s);
    }
    var r := Call(Touch(s), isSet, inside, otherwise);
    if isSet && s.references > 0 {
      CallCounts(s, r);
    }
  }

  lemma ReturnKeeps(s: System, w: WorkerPlace)
    requires Inv(s) && InCallback(s.worker) && Own(s.worker).Outside? && !InCallback(w)
    requires s.byWorker ==> w.ErrorReported? || w.Finished?
    requires s.worker.ErrorCallback? || !s.byWorker
    ensures Inv(At(Drop(s, false), w))
  {
    ReturnCounts(s, At(Drop(s, false), w));
  }

  /** After its own cleanup the worker finds the callbacks cleared. */
  lemma OwnMeansCleared(s: System)
    requires Inv(s) && s.byWorker && !s.worker.ErrorCallback?
    ensures s.cleared
  {
    Nested(s.places);
  }

  lemma CallbackKeeps(s: System, choice: Choice)
    requires Inv(s) && InCallback(s.worker)
    ensures Inv(WorkerStep(s, choice))
  {
    match s.worker
    case ErrorCallback(p) =>
      if !p.Outside? {
        OwnCleanupKeeps(s, p, choice);
      } else if choice.Clean? {
        OwnCleanupBegins(s);
      } else {
        ReturnKeeps(s, ErrorReported);
      }
    case DataCallback => ReturnKeeps(s, Looping);
    case CloseCallback => ReturnKeeps(s, Finished);
  }

  /** In the parts of threadFunc that end with a close callback. */
  lemma ClosingKeeps(s: System, choice: Choice)
    requires Inv(s) && (s.worker.ErrorReported? || s.worker.CloseDue?)
    ensures Inv(WorkerStep(s, choice))
  {
    if s.byWorker {
      OwnMeansCleared(s);
    }
    CallKeeps(s, !s.cleared, CloseCallback, Finished);
  }

  lemma WorkKeeps(s: System, choice: Choice)
    requires Inv(s)
    ensures Inv(WorkerStep(s, choice))
  {
    if InCallback(s.worker) {
      CallbackKeeps(s, choice);
    } else if s.worker.ErrorReported? || s.worker.CloseDue? {
      ClosingKeeps(s, choice);
    } else {
      if s.destroyed > 0 && !s.worker.Finished? { ThereOrOwn(s); }
      if s.worker.SettingUp? && choice.Fail? {
        CallKeeps(s, !s.cleared, ErrorCallback(Outside), ErrorReported);
      } else if s.worker.Looping? && choice.Deliver? {
        CallKeeps(s, true, DataCallback, Looping);
      }
    }
  }

  lemma StepKeeps(s: System, a: Action)
    requires Inv(s)
    ensures Inv(Step(s, a))
  {
    match a
    case Work(choice) => WorkKeeps(s, choice);
    case Send(i) => if i < |s.places| && s.places[i].Outside? { SendKeeps(s, i); }
    case Cleanup(i) => if i < |s.places| && s.places[i].Outside? { CleanupKeeps(s, i); }
    case Proceed(i) => if i < |s.places| { ProceedKeeps(s, i); }
  }

  lemma {:induction false} RunKeeps(s: System, actions: seq<Action>)
    requires Inv(s)
    ensures Inv(Run(s, actions))
    decreases |actions|
  {
    if actions != [] {
      StepKeeps(s, actions[0]);
      RunKeeps(Step(s, actions[0]), actions[1..]);
    }
  }

  lemma StartIsFine(n: nat)
    ensures Inv(Start(n))
  {
    var p := Start(n).places;
    CountNone(p, Holds);
    CountNone(p, OwnsWrapper);
    CountNone(p, BeforeMark);
    CountNone(p, BeforeDisconnect);
    CountNone(p, InCleanup);
  }

  // ---- What every run keeps ----

  /** Under every interleaving of senders, cleanups and the worker: no thread uses the wrapper or
      its copy after it is freed; the wrapper is deleted and the streamer destroyed at most once,
      and not while anybody holds a copy; destruction comes with the last reference and disconnects
      a second time; and the worker uses the client after that only if the cleanup was its own. */
  lemma SafeLifetime(n: nat, actions: seq<Action>)
    ensures var s := Run(Start(n), actions);
            && !s.misuse && s.deletes <= 1 && s.destroyed <= 1 && s.disconnects <= 2
            && (s.destroyed == 1 <==> s.references == 0)
            && (s.destroyed == 1 ==> s.deletes == 1 && s.disconnects == 2)
            && (s.destroyed == 1 ==>
                  (forall i :: 0 <= i < |s.places| ==> s.places[i].Outside?) && !InCallback(s.worker))
            && (s.late ==> s.byWorker && s.destroyed == 1)
  {
    StartIsFine(n);
    RunKeeps(Start(n), actions);
    var s := Run(Start(n), actions);
    Nested(s.places);
    if s.destroyed == 1 {
      forall i | 0 <= i < |s.places| ensures s.places[i].Outside? {
        CountMoved(s.places, Holds, i, Outside);
      }
    }
  }

  /** Nothing is left behind: once a cleanup has started, no thread is inside and the worker is
      over, the streamer has been destroyed, after two disconnects. */
  lemma NothingLeft(n: nat, actions: seq<Action>)
    requires var s := Run(Start(n), actions);
             s.cleanupStarted && s.worker.Finished? && forall i :: 0 <= i < |s.places| ==> s.places[i].Outside?
    ensures var s := Run(Start(n), actions);
            s.destroyed == 1 && s.deletes == 1 && s.disconnects == 2 && s.references == 0
  {
    StartIsFine(n);
    RunKeeps(Start(n), actions);
    var p := Run(Start(n), actions).places;
    CountNone(p, Holds);
    CountNone(p, OwnsWrapper);
    CountNone(p, BeforeDisconnect);
  }

  // ---- When the worker outlives the client ----

  ghost predicate Reaches(s: System, t: System) {
    exists actions :: Run(s, actions) == t
  }

  lemma {:induction false} RunAppend(s: System, a: seq<Action>, b: seq<Action>)
    ensures Run(s, a + b) == Run(Run(s, a), b)
    decreases |a|
  {
    if a == [] {
      assert a + b == b;
    } else {
      assert (a + b)[0] == a[0] && (a + b)[1..] == a[1..] + b;
      RunAppend(Step(s, a[0]), a[1..], b);
    }
  }

  lemma ReachesSelf(s: System)
    ensures Reaches(s, s)
  {
    assert Run(s, []) == s;
  }

  lemma ReachesNext(s: System, t: System, a: Action)
    requires Reaches(s, t) && Inv(t)
    ensures Reaches(s, Step(t, a)) && Inv(Step(t, a))
  {
    var before :| Run(s, before) == t;
    RunAppend(s, before, [a]);
    assert [a][1..] == [] && Run(t, [a]) == Run(Step(t, a), [a][1..]);
    StepKeeps(t, a);
  }

  /** The cleanup is the worker's own and the worker not over, or it may still become so. */
  predicate LateToCome(s: System) {
    || (s.byWorker && !s.worker.Finished?)
    || (!s.cleanupStarted && (s.worker.SettingUp? || s.worker.ErrorCallback?))
  }

  /** r differs from s neither in the worker nor in whose the cleanup is. */
  predicate SameWorker(s: System, r: System) {
    && r.worker == s.worker && r.late == s.late && r.byWorker == s.byWorker
    && r.cleanupStarted == s.cleanupStarted
  }

  lemma DropSame(s: System, bad: bool)
    ensures SameWorker(s, Drop(s, bad)) && SameWorker(s, DeleteWrapper(s))
  {
    if s.references == 1 {
      assert SameWorker(s, DropLast(s, bad)) && SameWorker(s, DropLast(s, !s.wrapper));
    }
  }

  lemma ContinueSameSending(s: System, onWorker: bool)
    ensures SameWorker(s, Continue(s, Sending, onWorker).system)
  {
    var bad := s.destroyed > 0;
    DropSame(s, bad);
    if !MustWait(s, onWorker) {
      assert Continue(s, Sending, onWorker).system == Drop(s, bad);
    }
  }

  lemma ContinueSameLeaving(s: System, onWorker: bool)
    ensures SameWorker(s, Continue(s, Leaving, onWorker).system)
  {
    DropSame(s, false);
  }

  lemma ContinueSameTaken(s: System, onWorker: bool)
    ensures SameWorker(s, Continue(s, Taken, onWorker).system)
  {
    DropSame(s, false);
  }

  lemma ContinueSame(s: System, p: Place, onWorker: bool)
    ensures SameWorker(s, Continue(s, p, onWorker).system)
  {
    match p
    case Sending => ContinueSameSending(s, onWorker);
    case Taken => ContinueSameTaken(s, onWorker);
    case Leaving => ContinueSameLeaving(s, onWorker);
    case _ =>
  }

  lemma ProceedSame(s: System, i: nat)
    ensures SameWorker(s, Step(s, Proceed(i)))
  {
    if i < |s.places| {
      ContinueSame(s, s.places[i], false);
    }
  }

  lemma ThreadsNotLate(s: System, a: Action)
    requires Inv(s) && !a.Work?
    ensures var r := Step(s, a);
            && r.worker == s.worker && r.late == s.late
            && (r.byWorker ==> s.byWorker) && (s.cleanupStarted ==> r.cleanupStarted)
  {
    if a.Proceed? {
      ProceedSame(s, a.i);
    }
  }

  lemma OwnCleanupNotLate(s: System, p: Place, choice: Choice)
    requires s.worker == ErrorCallback(p) && s.cleanupStarted
    ensures var r := ErrorStep(s, p, choice);
            r.late == s.late && r.byWorker == s.byWorker && r.cleanupStarted
  {
    if p.Outside? {
      DropSame(s, false);
    } else {
      ContinueSame(s, p, true);
    }
  }

  lemma WorkerNotLate(s: System, choice: Choice)
    requires Inv(s) && !s.late && !LateToCome(s)
    ensures !WorkerStep(s, choice).late && !LateToCome(WorkerStep(s, choice))
  {
    if s.destroyed > 0 && !s.worker.Finished? {
      ThereOrOwn(s);
    }
    if s.worker.ErrorCallback? {
      OwnCleanupNotLate(s, s.worker.place, choice);
    }
  }

  lemma NeverLateStep(s: System, a: Action)
    requires Inv(s) && !s.late && !LateToCome(s)
    ensures !Step(s, a).late && !LateToCome(Step(s, a))
  {
    if a.Work? {
      WorkerNotLate(s, a.choice);
    } else {
      ThreadsNotLate(s, a);
    }
  }

  lemma {:induction false} NeverLate(s: System, actions: seq<Action>)
    requires Inv(s) && !s.late && !LateToCome(s)
    ensures !Run(s, actions).late
    decreases |actions|
  {
    if actions != [] {
      NeverLateStep(s, actions[0]);
      StepKeeps(s, actions[0]);
      NeverLate(Step(s, actions[0]), actions[1..]);
    }
  }

  /** The senders can all be driven out. */
  lemma {:induction false} DriveOut(s: System, t: System) returns (u: System)
    requires Reaches(s, t) && Inv(t) && t.byWorker
    ensures Reaches(s, u) && Inv(u) && u.byWorker && u.worker == t.worker && Count(u.places, Holds) == 0
    decreases Count(t.places, Holds)
  {
    if Count(t.places, Holds) == 0 {
      u := t;
    } else {
      var i := CountSome(t.places, Holds);
      CountMoved(t.places, InCleanup, i, Outside);
      NoWait(t, i);
      CountMoved(t.places, Holds, i, Outside);
      ReachesNext(s, t, Proceed(i));
      u := DriveOut(s, Step(t, Proceed(i)));
    }
  }

  /** How far the worker is from its test of onClose_. */
  function ToGo(w: WorkerPlace): nat {
    if !w.ErrorCallback? then 0
    else match w.place
      case Taken => 5
      case Deleted => 4
      case Closing => 3
      case Leaving => 2
      case _ => 1
  }

  /** Alone with its own cleanup, the worker ends up reporting to a client that is gone. */
  lemma {:induction false} DriveLate(s: System, t: System) returns (u: System)
    requires Reaches(s, t) && Inv(t) && t.byWorker && !t.worker.Finished? && Count(t.places, Holds) == 0
    ensures Reaches(s, u) && u.late
    decreases ToGo(t.worker)
  {
    Nested(t.places);
    ReachesNext(s, t, Work(Go));
    var next := Step(t, Work(Go));
    if t.worker.ErrorReported? {
      u := next;
    } else {
      u := DriveLate(s, next);
    }
  }

  lemma CleanupCanBeOwn(s: System, t: System) returns (u: System)
    requires Reaches(s, t) && Inv(t) && !t.cleanupStarted && (t.worker.SettingUp? || t.worker.ErrorCallback?)
    ensures Reaches(s, u) && Inv(u) && u.byWorker && !u.worker.Finished?
  {
    Nested(t.places);
    u := t;
    if u.worker.SettingUp? {
      ReachesNext(s, u, Work(Fail));
      u := Step(u, Work(Fail));
    }
    ReachesNext(s, u, Work(Clean));
    u := Step(u, Work(Clean));
  }

  /** In any state of any run: the worker can come to use the client after its destruction if and
      only if it has, or the cleanup is its own and it is not over, or no cleanup has started and
      its set-up may still fail into one. */
  lemma LateExactly(n: nat, actions: seq<Action>)
    ensures var s := Run(Start(n), actions);
            (exists t :: Reaches(s, t) && t.late) <==> s.late || LateToCome(s)
  {
    StartIsFine(n);
    RunKeeps(Start(n), actions);
    var s := Run(Start(n), actions);
    ReachesSelf(s);
    if s.late {
      assert Reaches(s, s) && s.late;
    } else if LateToCome(s) {
      var t := s;
      if !s.byWorker {
        t := CleanupCanBeOwn(s, s);
      }
      var v := DriveOut(s, t);
      var u := DriveLate(s, v);
    } else {
      forall t | Reaches(s, t) ensures !t.late {
        var more :| Run(s, more) == t;
        NeverLate(s, more);
      }
    }
  }

  /** A session in which only the worker moves. */
  function Alone(started: bool, references: int, cleared: bool, attached: bool, worker: WorkerPlace,
                 deletes: nat, disconnects: nat, destroyed: nat, late: bool): System
  {
    System(started, !started, deletes == 0, references, cleared, attached, [], worker, deletes, disconnects,
           destroyed, started, false, late)
  }

  lemma RunFrom(s: System, a: seq<Action>, k: nat)
    requires k < |a|
    ensures Run(s, a[k..]) == Run(Step(s, a[k]), a[k + 1..])
  {
    assert a[k..][1..] == a[k + 1..];
  }

  /** The set-up fails, its error callback closes the media bug, and the cleanup deletes the
      wrapper and clears the callbacks. */
  lemma CleanupInCallback() returns (s: System)
    ensures s == Run(Start(0), [Work(Fail), Work(Clean), Work(Go), Work(Go)])
    ensures s == Alone(true, 2, true, true, ErrorCallback(Closing), 1, 0, 0, false)
  {
    var a := [Work(Fail), Work(Clean), Work(Go), Work(Go)];
    var s0 := Alone(false, 1, false, true, SettingUp, 0, 0, 0, false);
    assert Start(0) == s0;
    var s1 := Alone(false, 2, false, true, ErrorCallback(Outside), 0, 0, 0, false);
    assert Step(s0, a[0]) == s1;
    var s2 := Alone(true, 3, false, true, ErrorCallback(Taken), 0, 0, 0, false);
    assert Step(s1, a[1]) == s2;
    var s3 := Alone(true, 2, false, true, ErrorCallback(Deleted), 1, 0, 0, false);
    assert Step(s2, a[2]) == s3;
    s := Alone(true, 2, true, true, ErrorCallback(Closing), 1, 0, 0, false);
    assert Step(s3, a[3]) == s;
    assert a[0..] == a;
    RunFrom(s0, a, 0);
    RunFrom(s1, a, 1);
    RunFrom(s2, a, 2);
    RunFrom(s3, a, 3);
  }

  /** It detaches the worker and returns, the callback drops the last copy, the destructor runs,
      and threadFunc tests onClose_. */
  lemma WorkerIsLate(s: System) returns (gone: System, r: System)
    requires s == Alone(true, 2, true, true, ErrorCallback(Closing), 1, 0, 0, false)
    ensures gone == Run(s, [Work(Go), Work(Go), Work(Go)]) && gone.destroyed == 1 && gone.worker.ErrorReported?
    ensures r == Run(gone, [Work(Go)]) && r.late
  {
    var a := [Work(Go), Work(Go), Work(Go)];
    var s1 := Alone(true, 2, true, false, ErrorCallback(Leaving), 1, 1, 0, false);
    assert Step(s, a[0]) == s1;
    var s2 := Alone(true, 1, true, false, ErrorCallback(Outside), 1, 1, 0, false);
    assert Step(s1, a[1]) == s2;
    gone := Alone(true, 0, true, false, ErrorReported, 1, 2, 1, false);
    assert Step(s2, a[2]) == gone;
    assert a[0..] == a;
    RunFrom(s, a, 0);
    RunFrom(s1, a, 1);
    RunFrom(s2, a, 2);
    r := Alone(true, 0, true, false, Finished, 1, 2, 1, true);
    assert Step(gone, Work(Go)) == r;
    var one := [Work(Go)];
    assert one[0..] == one;
    RunFrom(gone, one, 0);
  }
}
