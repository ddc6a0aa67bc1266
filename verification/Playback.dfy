/** The playback queue: audio from the server is buffered, counted in frames, injected into the
    call one frame at a time, and reported by events. */
module Playback {
  import opened Bytes
  import Division

  const PLAYBACK_FRAME_MS: nat := 20
  const PLAYBACK_BUFFER_SECONDS: nat := 30

  /** sizeof(frame_buf) in stream_frame_write. */
  const FRAME_BUFFER: nat := 4096

  /** The bytes of one 20 ms frame of 16-bit mono audio. */
  function FrameBytes(rate: nat): nat {
    rate * 2 * PLAYBACK_FRAME_MS / 1000
  }

  function Capacity(rate: nat): nat {
    rate * 2 * PLAYBACK_BUFFER_SECONDS
  }

  /** That is 20 of the 1000 milliseconds of a second, which has two bytes a sample; the buffer holds
      30 seconds. */
  lemma FrameIsTwentyMilliseconds(rate: nat)
    ensures 1000 * FrameBytes(rate) <= 20 * (2 * rate) < 1000 * (FrameBytes(rate) + 1)
    ensures rate % 50 == 0 ==> 50 * FrameBytes(rate) == 2 * rate && Capacity(rate) == 30 * 50 * FrameBytes(rate)
  {
    Division.RoundedDown(1000, rate * 2 * PLAYBACK_FRAME_MS);
    if rate % 50 == 0 {
      Division.Divided(50, rate);
      Division.Quotient(1000, rate * 2 * PLAYBACK_FRAME_MS, 2 * (rate / 50), 0);
    }
  }

  /** The whole frames of so many bytes, counted in 20 ms. */
  lemma FramesOfTwentyMilliseconds(rate: nat, length: nat)
    requires FrameBytes(rate) > 0 && rate % 50 == 0
    ensures var n := length / FrameBytes(rate); 2 * rate * n <= 50 * length < 2 * rate * (n + 1)
  {
    var f, n := FrameBytes(rate), length / FrameBytes(rate);
    FrameIsTwentyMilliseconds(rate);
    Division.RoundedDown(f, length);
    assert 50 * (n * f) == 2 * rate * n && 50 * (n * f + f) == 2 * rate * (n + 1);
  }

  /** What one injection reads from the buffer. */
  function ReadSize(f: nat): nat {
    if f > FRAME_BUFFER then FRAME_BUFFER else f
  }

  datatype Kind = ChunkPlayed | QueueCompleted

  /** The JSON of a playback event; a field is missing if its value was negative. */
  datatype Event = Event(kind: Kind, number: Option<int>, size: Option<int>,
                         remaining: Option<int>, total: Option<int>)

  function Field(x: int): Option<int> {
    if x >= 0 then Some(x) else None
  }

  function Fire(kind: Kind, number: int, size: int, remaining: int, total: int): Event {
    Event(kind, Field(number), Field(size), Field(remaining), Field(total))
  }

  /** playback_buffer, playback_seq, playback_chunks_remaining and playback_in_response. */
  datatype Playback = Playback(buffer: seq<byte>, number: int, remaining: int, inResponse: bool)

  /** What reaches the queue: audio as it is given to switch_buffer_write, a media frame (`runs`
      unless the tap is paused or the lock is taken; `space` the length of the frame to replace,
      if there is one), or a break. */
  datatype Op =
    | Enqueue(source: seq<byte>)
    | Frame(runs: bool, space: Option<nat>)
    | Break

  /** What the operation did with audio. */
  datatype Outcome =
    | Accepted(audio: seq<byte>)
    | Rejected(length: nat)     // did not fit; the result of the write is ignored
    | Injected(audio: seq<byte>)
    | Dropped(audio: seq<byte>) // read, but there was no frame it fits in
    | Quiet
    | Emptied

  function OutcomeOf(p: Playback, op: Op, f: nat, capacity: nat): Outcome {
    match op
    case Enqueue(source) =>
      if |p.buffer| + |source| <= capacity then Accepted(source) else Rejected(|source|)
    case Frame(runs, space) =>
      if !runs || !p.inResponse || |p.buffer| < f then Quiet
      else if space.Some? && space.value >= ReadSize(f) then Injected(p.buffer[..ReadSize(f)])
      else Dropped(p.buffer[..ReadSize(f)])
    case Break => Emptied
  }

  function After(p: Playback, op: Op, f: nat, capacity: nat): Playback
    requires f > 0
  {
    match OutcomeOf(p, op, f, capacity)
    case Accepted(audio) => Playback(p.buffer + audio, p.number, p.remaining + |audio| / f, true)
    case Rejected(length) => Playback(p.buffer, p.number, p.remaining + length / f, true)
    case Injected(audio) =>
      if p.remaining - 1 <= 0 then Playback(p.buffer[|audio|..], 0, p.remaining - 1, false)
      else Playback(p.buffer[|audio|..], p.number + 1, p.remaining - 1, p.inResponse)
    case Dropped(audio) => p.(buffer := p.buffer[|audio|..])
    case Quiet => if op.runs then p.(inResponse := p.inResponse && |p.buffer| >= f) else p
    case Emptied => Playback([], 0, 0, false)
  }

  /** The events the operation fires. */
  function Fired(p: Playback, op: Op, f: nat, capacity: nat): seq<Event> {
    match OutcomeOf(p, op, f, capacity)
    case Injected(audio) =>
      [Fire(ChunkPlayed, p.number + 1, |audio|, p.remaining - 1, -1)]
      + (if p.remaining - 1 <= 0 then [Fire(QueueCompleted, -1, -1, -1, p.number + 1)] else [])
    case Emptied => [Fire(QueueCompleted, -1, -1, -1, 0)]
    case _ => []
  }

  // ---- The code ----

  class Player {
    const rate: nat // native_sampling
    var buffer: seq<byte>
    var playbackSeq: int
    var chunksRemaining: int
    var inResponse: bool
    var enabled: bool
    var paused: bool
    var cleanupStarted: bool

    constructor (rate: nat, enabled: bool)
      ensures this.rate == rate && this.enabled == enabled && !paused && !cleanupStarted
      ensures View() == Playback([], 0, 0, false)
    {
      this.rate := rate;
      buffer := [];
      playbackSeq, chunksRemaining, inResponse := 0, 0, false;
      this.enabled, paused, cleanupStarted := enabled, false, false;
    }

    ghost function View(): Playback
      reads this
    {
      Playback(buffer, playbackSeq, chunksRemaining, inResponse)
    }

    /** switch_buffer_write: all or nothing. */
    method BufferWrite(source: seq<byte>) returns (written: nat)
      modifies this`buffer
      ensures written == if |old(buffer)| + |source| <= Capacity(rate) then |buffer| else 0
      ensures buffer == if |old(buffer)| + |source| <= Capacity(rate) then old(buffer) + source else old(buffer)
    {
      if |buffer| + |source| > Capacity(rate) {
        return 0;
      }
      buffer := buffer + source;
      written := |buffer|;
    }

    /** switch_buffer_read of what is known to be there. */
    method BufferRead(length: nat) returns (audio: seq<byte>)
      requires length <= |buffer|
      modifies this`buffer
      ensures audio == old(buffer)[..length] && buffer == old(buffer)[length..]
    {
      audio := buffer[..length];
      buffer := buffer[length..];
    }

    /** The enqueueing part of eventCallback and onBinaryData; `resampled` is what the
        resampler made of the audio, empty if it made nothing or could not be set up. */
    method EnqueueAudio(data: seq<byte>, sampleRate: int, resampled: seq<byte>)
      requires FrameBytes(rate) > 0
      modifies this`buffer, this`inResponse, this`chunksRemaining
      ensures var source := if sampleRate != rate && sampleRate > 0 && |resampled| > 0 then resampled else data;
              && View() == (if data == [] || !enabled then old(View())
                            else After(old(View()), Enqueue(source), FrameBytes(rate), Capacity(rate)))
              && (data != [] && enabled && rate % 50 == 0 ==>
                    var n := chunksRemaining - old(chunksRemaining);
                    2 * rate * n <= 50 * |source| < 2 * rate * (n + 1))
    {
      if data == [] || !enabled {
        return;
      }
      var source := data;
      if sampleRate != rate && sampleRate > 0 {
        if |resampled| > 0 {
          source := resampled;
        }
      }
      var _ := BufferWrite(source);
      inResponse := true;
      chunksRemaining := chunksRemaining + |source| / FrameBytes(rate);
      if rate % 50 == 0 { FramesOfTwentyMilliseconds(rate, |source|); }
    }

    /** stream_frame_write; `locked` says whether trylock succeeds, `space` the length of the
        write-replace frame, if there is one; returns its new contents. */
    method StreamFrameWrite(locked: bool, space: Option<nat>) returns (frame: Option<seq<byte>>, fired: seq<Event>)
      requires FrameBytes(rate) > 0
      modifies this`buffer, this`inResponse, this`chunksRemaining, this`playbackSeq
      ensures var op := Frame(enabled && !paused && !cleanupStarted && locked, space);
              var outcome := OutcomeOf(old(View()), op, FrameBytes(rate), Capacity(rate));
              && View() == After(old(View()), op, FrameBytes(rate), Capacity(rate))
              && fired == Fired(old(View()), op, FrameBytes(rate), Capacity(rate))
              && frame == if outcome.Injected? then Some(outcome.audio) else None
      ensures !enabled || paused || cleanupStarted || !locked ==>
                View() == old(View()) && frame == None && fired == []
      ensures frame.Some? ==> frame.value + buffer == old(buffer) && fired[0].size == Some(|frame.value|)
      ensures frame.Some? ==>
                if 40 * rate >= 1000 * 4097 then |frame.value| == 4096
                else 1000 * |frame.value| <= 20 * (2 * rate) < 1000 * (|frame.value| + 1)
    {
      FrameIsTwentyMilliseconds(rate);
      frame, fired := None, [];
      if !enabled || paused || cleanupStarted || !inResponse || !locked {
        return;
      }
      if |buffer| >= FrameBytes(rate) {
        var read := FrameBytes(rate);
        if read > FRAME_BUFFER {
          read := FRAME_BUFFER;
        }
        var audio := BufferRead(read);
        if space.Some? && space.value >= read {
          frame := Some(audio);
          playbackSeq := playbackSeq + 1;
          chunksRemaining := chunksRemaining - 1;
          fired := [Fire(ChunkPlayed, playbackSeq, read, chunksRemaining, -1)];
          if chunksRemaining <= 0 {
            inResponse := false;
            fired := fired + [Fire(QueueCompleted, -1, -1, -1, playbackSeq)];
            playbackSeq := 0;
          }
        }
      } else {
        inResponse := false;
      }
    }

    /** stream_session_break, which works whatever the rate. */
    method StreamSessionBreak() returns (fired: seq<Event>)
      modifies this`buffer, this`inResponse, this`chunksRemaining, this`playbackSeq
      ensures View() == Playback([], 0, 0, false)
      ensures FrameBytes(rate) > 0 ==> View() == After(old(View()), Break, FrameBytes(rate), Capacity(rate))
      ensures fired == Fired(old(View()), Break, FrameBytes(rate), Capacity(rate))
    {
      buffer := [];
      inResponse := false;
      playbackSeq := 0;
      chunksRemaining := 0;
      fired := [Fire(QueueCompleted, -1, -1, -1, 0)];
    }
  }

  // ---- Runs ----

  /** The queue, what has been done with audio, and the events fired, since the start. */
  datatype Session = Session(queue: Playback, history: seq<Outcome>, events: seq<Event>)

  function Step(s: Session, op: Op, f: nat, capacity: nat): Session
    requires f > 0
  {
    Session(After(s.queue, op, f, capacity),
            s.history + [OutcomeOf(s.queue, op, f, capacity)],
            s.events + Fired(s.queue, op, f, capacity))
  }

  function Start(): Session {
    Session(Playback([], 0, 0, false), [], [])
  }

  function Run(s: Session, ops: seq<Op>, f: nat, capacity: nat): Session
    requires f > 0
    decreases |ops|
  {
    if ops == [] then s else Run(Step(s, ops[0], f, capacity), ops[1..], f, capacity)
  }

  // ---- What is counted since the last break ----

  function BytesSince(history: seq<Outcome>, pick: Outcome -> seq<byte>): seq<byte> {
    if history == [] || history[|history| - 1].Emptied? then []
    else BytesSince(history[..|history| - 1], pick) + pick(history[|history| - 1])
  }

  function SumSince(history: seq<Outcome>, weigh: Outcome -> int): int {
    if history == [] || history[|history| - 1].Emptied? then 0
    else SumSince(history[..|history| - 1], weigh) + weigh(history[|history| - 1])
  }

  predicate AllSince(history: seq<Outcome>, test: Outcome -> bool) {
    history == [] || history[|history| - 1].Emptied? ||
    (AllSince(history[..|history| - 1], test) && test(history[|history| - 1]))
  }

  lemma SinceMore(history: seq<Outcome>, o: Outcome)
    ensures forall pick :: BytesSince(history + [o], pick)
                        == if o.Emptied? then [] else BytesSince(history, pick) + pick(o)
    ensures forall weigh :: SumSince(history + [o], weigh)
                         == if o.Emptied? then 0 else SumSince(history, weigh) + weigh(o)
    ensures forall test :: AllSince(history + [o], test) == (o.Emptied? || (AllSince(history, test) && test(o)))
  {
    assert (history + [o])[..|history|] == history;
  }

  /** The audio an operation put in, and the audio it took out. */
  function In(o: Outcome): seq<byte> {
    if o.Accepted? then o.audio else []
  }

  function Out(o: Outcome): seq<byte> {
    if o.Injected? || o.Dropped? then o.audio else []
  }

  /** By how much an operation moves the bytes in use away from f times the counter: the part of
      an accepted write that makes no full frame, the frames of a rejected one, a dropped frame,
      and what the read limit leaves of an injected one. */
  function WeightOf(o: Outcome, f: nat): int
    requires f > 0
  {
    match o
    case Accepted(audio) => |audio| % f
    case Rejected(length) => 0 - f * (length / f)
    case Injected(_) => f - ReadSize(f)
    case Dropped(_) => 0 - ReadSize(f)
    case _ => 0
  }

  function Weight(f: nat): Outcome -> int
    requires f > 0
  {
    (o: Outcome) => WeightOf(o, f)
  }

  /** No write was rejected and no frame dropped. */
  predicate Lossless(o: Outcome) {
    !o.Rejected? && !o.Dropped?
  }

  /** Every write was some full frames. */
  predicate IsWhole(o: Outcome, f: nat)
    requires f > 0
  {
    match o
    case Accepted(audio) => |audio| % f == 0
    case Rejected(length) => length % f == 0 && length > 0
    case _ => true
  }

  function Whole(f: nat): Outcome -> bool
    requires f > 0
  {
    (o: Outcome) => IsWhole(o, f)
  }

  /** Bytes in use and counter differ by exactly what the history says. */
  ghost predicate Balanced(s: Session, f: nat)
    requires f > 0
  {
    |s.queue.buffer| - f * s.queue.remaining == SumSince(s.history, Weight(f))
  }

  /** Audio leaves in the order it came, and none is older than the last break. */
  ghost predicate InOrder(s: Session) {
    BytesSince(s.history, Out) + s.queue.buffer == BytesSince(s.history, In)
  }

  // ---- The event trace ----

  /** The chunks played since the last completion. */
  function Played(events: seq<Event>): nat {
    if events == [] || events[|events| - 1].kind.QueueCompleted? then 0 else Played(events[..|events| - 1]) + 1
  }

  /** A completion other than a break's. */
  predicate Natural(e: Event) {
    e.kind.QueueCompleted? && e.total != Some(0)
  }

  predicate Last(e: Event) {
    e.kind.ChunkPlayed? && (e.remaining.None? || e.remaining.value == 0)
  }

  /** Chunks are numbered 1, 2, ... since the last completion; a natural completion comes right
      after a chunk that leaves none remaining, and only there, and reports the number of chunks,
      at least one; a break reports 0. */
  ghost predicate EventFits(events: seq<Event>, f: nat, i: nat)
    requires i < |events|
  {
    var e := events[i];
    var k := Played(events[..i]);
    if e.kind.ChunkPlayed? then
      && e.number == Some(k + 1) && e.size == Some(ReadSize(f)) && e.total == None
      && (Last(e) ==> i + 1 < |events| && Natural(events[i + 1]))
    else
      && e.number == None && e.size == None && e.remaining == None && e.total.Some?
      && (Natural(e) ==> i > 0 && Last(events[i - 1]) && k >= 1 && e.total == Some(k))
  }

  ghost predicate WellFormed(events: seq<Event>, f: nat) {
    forall i :: 0 <= i < |events| ==> EventFits(events, f, i)
  }

  lemma PlayedMore(events: seq<Event>, e: Event)
    ensures Played(events + [e]) == if e.kind.QueueCompleted? then 0 else Played(events) + 1
  {
    assert (events + [e])[..|events|] == events;
  }

  lemma EventFitsStill(events: seq<Event>, more: seq<Event>, f: nat, i: nat)
    requires i < |events| && EventFits(events, f, i)
    ensures EventFits(events + more, f, i)
  {
    assert (events + more)[..i] == events[..i];
  }

  lemma More(events: seq<Event>, more: seq<Event>, f: nat)
    requires WellFormed(events, f)
    requires forall i :: |events| <= i < |events + more| ==> EventFits(events + more, f, i)
    ensures WellFormed(events + more, f)
  {
    forall i | 0 <= i < |events| ensures EventFits(events + more, f, i) {
      EventFitsStill(events, more, f, i);
    }
  }

  /** The trace takes a chunk that leaves some remaining. */
  lemma ChunkFits(events: seq<Event>, f: nat, k: nat, remaining: int)
    requires WellFormed(events, f) && k == Played(events) && remaining > 0
    ensures var more := [Fire(ChunkPlayed, k + 1, ReadSize(f), remaining, -1)];
            WellFormed(events + more, f) && Played(events + more) == k + 1
  {
    var chunk := Fire(ChunkPlayed, k + 1, ReadSize(f), remaining, -1);
    assert (events + [chunk])[..|events|] == events;
    PlayedMore(events, chunk);
    More(events, [chunk], f);
  }

  /** The trace takes the last chunk and the completion right after it. */
  lemma LastChunkFits(events: seq<Event>, f: nat, k: nat, remaining: int)
    requires WellFormed(events, f) && k == Played(events) && remaining <= 0
    ensures var more := [Fire(ChunkPlayed, k + 1, ReadSize(f), remaining, -1)]
                        + [Fire(QueueCompleted, -1, -1, -1, k + 1)];
            WellFormed(events + more, f) && Played(events + more) == 0
  {
    var chunk := Fire(ChunkPlayed, k + 1, ReadSize(f), remaining, -1);
    var done := Fire(QueueCompleted, -1, -1, -1, k + 1);
    var all := events + ([chunk] + [done]);
    assert all[..|events|] == events;
    assert all[..|events| + 1] == events + [chunk] && all == events + [chunk] + [done];
    PlayedMore(events, chunk);
    PlayedMore(events + [chunk], done);
    assert EventFits(all, f, |events|) && EventFits(all, f, |events| + 1);
    More(events, [chunk] + [done], f);
  }

  lemma BreakFits(events: seq<Event>, f: nat)
    requires WellFormed(events, f)
    ensures WellFormed(events + [Fire(QueueCompleted, -1, -1, -1, 0)], f)
    ensures Played(events + [Fire(QueueCompleted, -1, -1, -1, 0)]) == 0
  {
    PlayedMore(events, Fire(QueueCompleted, -1, -1, -1, 0));
    More(events, [Fire(QueueCompleted, -1, -1, -1, 0)], f);
  }

  // ---- What every run keeps ----

  /** playback_seq is the number of chunks played since the last completion. */
  ghost predicate Reported(s: Session, f: nat) {
    WellFormed(s.events, f) && s.queue.number == Played(s.events)
  }

  /** Audio counted in frames is waiting, and the consumer's fast path skips it. */
  predicate Stranded(p: Playback) {
    p.remaining > 0 && !p.inResponse
  }

  ghost predicate Inv(s: Session, f: nat, capacity: nat)
    requires f > 0
  {
    && |s.queue.buffer| <= capacity
    && Balanced(s, f)
    && InOrder(s)
    && Reported(s, f)
    && (AllSince(s.history, Lossless) ==> !Stranded(s.queue) && SumSince(s.history, Weight(f)) >= 0)
  }

  /** What an injection fires, spelled out. */
  lemma InjectionFires(p: Playback, op: Op, f: nat, capacity: nat)
    requires f > 0 && OutcomeOf(p, op, f, capacity).Injected?
    ensures var chunk := Fire(ChunkPlayed, p.number + 1, ReadSize(f), p.remaining - 1, -1);
            Fired(p, op, f, capacity) ==
            if p.remaining - 1 <= 0 then [chunk] + [Fire(QueueCompleted, -1, -1, -1, p.number + 1)] else [chunk]
    ensures After(p, op, f, capacity).number == if p.remaining - 1 <= 0 then 0 else p.number + 1
  {}

  /** The trace and the sequence number agree after these events. */
  ghost predicate ReportedWith(s: Session, f: nat, fired: seq<Event>, number: int) {
    WellFormed(s.events + fired, f) && number == Played(s.events + fired)
  }

  lemma InjectionReports(s: Session, op: Op, f: nat, capacity: nat)
    requires f > 0 && Reported(s, f) && OutcomeOf(s.queue, op, f, capacity).Injected?
    ensures ReportedWith(s, f, Fired(s.queue, op, f, capacity), After(s.queue, op, f, capacity).number)
  {
    InjectionFires(s.queue, op, f, capacity);
    if s.queue.remaining - 1 <= 0 {
      LastChunkFits(s.events, f, s.queue.number, s.queue.remaining - 1);
    } else {
      ChunkFits(s.events, f, s.queue.number, s.queue.remaining - 1);
    }
  }

  lemma StepReports(s: Session, op: Op, f: nat, capacity: nat)
    requires f > 0 && Reported(s, f)
    ensures Reported(Step(s, op, f, capacity), f)
  {
    var o := OutcomeOf(s.queue, op, f, capacity);
    if o.Injected? {
      InjectionReports(s, op, f, capacity);
    } else if o.Emptied? {
      BreakFits(s.events, f);
    } else {
      assert s.events + Fired(s.queue, op, f, capacity) == s.events;
    }
  }

  /** By how much the counter changes. */
  function Counted(o: Outcome, f: nat): int
    requires f > 0
  {
    match o
    case Accepted(audio) => |audio| / f
    case Rejected(length) => length / f
    case Injected(_) => -1
    case _ => 0
  }

  /** An operation other than a break moves audio through the buffer and counts it. */
  lemma Moves(p: Playback, op: Op, f: nat, capacity: nat)
    requires f > 0 && !OutcomeOf(p, op, f, capacity).Emptied?
    ensures var o := OutcomeOf(p, op, f, capacity);
            && Out(o) + After(p, op, f, capacity).buffer == p.buffer + In(o)
            && After(p, op, f, capacity).remaining == p.remaining + Counted(o, f)
            && (o.Injected? || o.Dropped? ==> |o.audio| == ReadSize(f))
  {
    var o := OutcomeOf(p, op, f, capacity);
    var r := After(p, op, f, capacity);
    if o.Accepted? {
      assert [] + r.buffer == p.buffer + o.audio;
    } else if o.Injected? || o.Dropped? {
      assert o.audio + r.buffer == p.buffer + [];
    } else {
      assert [] + r.buffer == p.buffer + [];
    }
  }

  lemma Shift(taken: seq<byte>, kept: seq<byte>, given: seq<byte>, more: seq<byte>, left: seq<byte>, now: seq<byte>)
    requires taken + kept == given && left + now == kept + more
    ensures (taken + left) + now == given + more
  {
    assert (taken + left) + now == taken + (left + now);
    assert taken + (kept + more) == (taken + kept) + more;
  }

  lemma StepOrders(s: Session, op: Op, f: nat, capacity: nat)
    requires f > 0 && InOrder(s)
    ensures InOrder(Step(s, op, f, capacity))
  {
    var o := OutcomeOf(s.queue, op, f, capacity);
    SinceMore(s.history, o);
    if !o.Emptied? {
      Moves(s.queue, op, f, capacity);
      Shift(BytesSince(s.history, Out), s.queue.buffer, BytesSince(s.history, In), In(o), Out(o),
            After(s.queue, op, f, capacity).buffer);
    }
  }

  lemma BalanceMoves(f: nat, bytes: int, remaining: int, sum: int, change: int, counted: int, weight: int)
    requires bytes - f * remaining == sum && weight == change - f * counted
    ensures (bytes + change) - f * (remaining + counted) == sum + weight
  {
    Division.Distributes(f, remaining + counted, counted);
  }

  lemma WeightMeans(o: Outcome, f: nat)
    requires f > 0 && (o.Injected? || o.Dropped? ==> |o.audio| == ReadSize(f))
    ensures WeightOf(o, f) == |In(o)| - |Out(o)| - f * Counted(o, f)
  {}

  lemma StepBalances(s: Session, op: Op, f: nat, capacity: nat)
    requires f > 0 && Balanced(s, f)
    ensures Balanced(Step(s, op, f, capacity), f)
  {
    var o := OutcomeOf(s.queue, op, f, capacity);
    var r := Step(s, op, f, capacity);
    SinceMore(s.history, o);
    if o.Emptied? {
      assert r.queue.remaining == 0;
    } else {
      Moves(s.queue, op, f, capacity);
      assert |Out(o) + r.queue.buffer| == |s.queue.buffer + In(o)|;
      WeightMeans(o, f);
      BalanceMoves(f, |s.queue.buffer|, s.queue.remaining, SumSince(s.history, Weight(f)),
                   |In(o)| - |Out(o)|, Counted(o, f), WeightOf(o, f));
    }
  }

  lemma Positive(f: nat, n: int, bytes: int)
    requires f > 0 && bytes - f * n >= 0 && n > 0
    ensures bytes >= f
  {
    Division.Distributes(f, n, 1);
  }

  lemma StepStrandsNothing(s: Session, op: Op, f: nat, capacity: nat)
    requires f > 0 && Inv(s, f, capacity) && AllSince(s.history, Lossless)
    requires Lossless(OutcomeOf(s.queue, op, f, capacity))
    ensures !Stranded(After(s.queue, op, f, capacity))
    ensures WeightOf(OutcomeOf(s.queue, op, f, capacity), f) >= 0
  {
    if s.queue.remaining > 0 {
      Positive(f, s.queue.remaining, |s.queue.buffer|);
    }
  }

  lemma StepKeeps(s: Session, op: Op, f: nat, capacity: nat)
    requires f > 0 && Inv(s, f, capacity)
    ensures Inv(Step(s, op, f, capacity), f, capacity)
  {
    var o := OutcomeOf(s.queue, op, f, capacity);
    StepReports(s, op, f, capacity);
    StepOrders(s, op, f, capacity);
    StepBalances(s, op, f, capacity);
    SinceMore(s.history, o);
    if AllSince(s.history, Lossless) && Lossless(o) {
      StepStrandsNothing(s, op, f, capacity);
    }
  }

  lemma {:induction false} RunKeeps(s: Session, ops: seq<Op>, f: nat, capacity: nat)
    requires f > 0 && Inv(s, f, capacity)
    ensures Inv(Run(s, ops, f, capacity), f, capacity)
    decreases |ops|
  {
    if ops != [] {
      StepKeeps(s, ops[0], f, capacity);
      RunKeeps(Step(s, ops[0], f, capacity), ops[1..], f, capacity);
    }
  }

  // ---- The main results ----

  lemma StartIsFine(f: nat, capacity: nat)
    requires f > 0
    ensures Inv(Start(), f, capacity)
  {
    assert f * 0 == 0;
  }

  /** In every run, the bytes in use are f times the counter, corrected by exactly the partial
      frames accepted, the writes rejected and the frames dropped since the last break. */
  lemma Ledger(ops: seq<Op>, f: nat, capacity: nat)
    requires f > 0
    ensures var s := Run(Start(), ops, f, capacity);
            && |s.queue.buffer| - f * s.queue.remaining == SumSince(s.history, Weight(f))
            && |s.queue.buffer| <= capacity
  {
    StartIsFine(f, capacity);
    RunKeeps(Start(), ops, f, capacity);
  }

  /** In every run, the audio taken out since the last break and the buffer are the audio
      accepted since that break: first in, first out, and nothing older. */
  lemma BreakIsolation(ops: seq<Op>, f: nat, capacity: nat)
    requires f > 0
    ensures var s := Run(Start(), ops, f, capacity);
            BytesSince(s.history, Out) + s.queue.buffer == BytesSince(s.history, In)
  {
    StartIsFine(f, capacity);
    RunKeeps(Start(), ops, f, capacity);
  }

  /** In every run, the events are well-formed: see EventFits. */
  lemma EventTrace(ops: seq<Op>, f: nat, capacity: nat)
    requires f > 0
    ensures var s := Run(Start(), ops, f, capacity);
            WellFormed(s.events, f) && s.queue.number == Played(s.events)
  {
    StartIsFine(f, capacity);
    RunKeeps(Start(), ops, f, capacity);
  }

  /** In every run, while nothing has been rejected or dropped since the last break, the fast
      path never skips counted audio. */
  lemma NoStrandedChunk(ops: seq<Op>, f: nat, capacity: nat)
    requires f > 0
    ensures var s := Run(Start(), ops, f, capacity);
            AllSince(s.history, Lossless) ==> !Stranded(s.queue)
  {
    StartIsFine(f, capacity);
    RunKeeps(Start(), ops, f, capacity);
  }

  lemma BalanceTells(f: nat, bytes: int, n: int, sum: int)
    requires f > 0 && bytes - f * n == sum && bytes < f
    ensures n > 0 <==> bytes - sum >= f
  {
    if n > 0 {
      Division.Distributes(f, n, 1);
      assert f * (n - 1) >= 0;
    } else {
      assert f * n <= 0;
    }
  }

  /** Without that proviso it is false, exactly at a frame that finds less than a frame of audio
      while the losses since the last break outweigh what is there by a frame or more. */
  lemma StrandsExactly(ops: seq<Op>, op: Op, f: nat, capacity: nat)
    requires f > 0
    ensures var s := Run(Start(), ops, f, capacity);
            var r := Step(s, op, f, capacity);
            !Stranded(s.queue) ==>
              (Stranded(r.queue) <==>
                 && op.Frame? && op.runs && s.queue.inResponse && |s.queue.buffer| < f
                 && |s.queue.buffer| - SumSince(s.history, Weight(f)) >= f)
  {
    var s := Run(Start(), ops, f, capacity);
    Ledger(ops, f, capacity);
    if |s.queue.buffer| < f {
      BalanceTells(f, |s.queue.buffer|, s.queue.remaining, SumSince(s.history, Weight(f)));
    }
  }

  lemma {:induction false} RunMore(s: Session, ops: seq<Op>, op: Op, f: nat, capacity: nat)
    requires f > 0
    ensures Run(s, ops + [op], f, capacity) == Step(Run(s, ops, f, capacity), op, f, capacity)
    decreases |ops|
  {
    if ops == [] {
      assert [op][1..] == [] && ops + [op] == [op];
    } else {
      assert (ops + [op])[0] == ops[0] && (ops + [op])[1..] == ops[1..] + [op];
      RunMore(Step(s, ops[0], f, capacity), ops[1..], op, f, capacity);
    }
  }

  lemma TwoSteps(s: Session, a: Op, b: Op, f: nat, capacity: nat)
    requires f > 0
    ensures Run(s, [a, b], f, capacity) == Step(Step(s, a, f, capacity), b, f, capacity)
  {
    RunMore(s, [], a, f, capacity);
    RunMore(s, [a], b, f, capacity);
    assert [] + [a] == [a] && [a] + [b] == [a, b];
  }

  /** One dropped frame is enough: of two frames of audio one is injected, and then a counted
      chunk stays behind with the response flag clear and no queue_completed fired. */
  lemma OneDropStrands(audio: seq<byte>, f: nat, capacity: nat)
    requires 0 < f <= FRAME_BUFFER && |audio| == 2 * f <= capacity
    ensures var s := Run(Run(Start(), [Enqueue(audio), Frame(true, None)], f, capacity),
                         [Frame(true, Some(f)), Frame(true, Some(f))], f, capacity);
            && Stranded(s.queue) && s.queue.buffer == []
            && s.events == [Fire(ChunkPlayed, 1, f, 1, -1)]
  {
    TwoSteps(Start(), Enqueue(audio), Frame(true, None), f, capacity);
    var s1 := Step(Start(), Enqueue(audio), f, capacity);
    Division.Quotient(f, |audio|, 2, 0);
    assert s1.queue == Playback(audio, 0, 2, true);
    var s2 := Step(s1, Frame(true, None), f, capacity);
    assert s2.queue == Playback(audio[f..], 0, 2, true);
    var s3 := Step(s2, Frame(true, Some(f)), f, capacity);
    assert s3.queue == Playback([], 1, 1, true);
    TwoSteps(s2, Frame(true, Some(f)), Frame(true, Some(f)), f, capacity);
  }

  lemma WholeFrames(f: nat, n: nat)
    requires f > 0 && n > 0 && n % f == 0
    ensures f * (n / f) == n >= f
  {
    Division.Divided(f, n);
    Division.Gap(f, 0, n);
  }

  lemma {:induction false} WholeSums(history: seq<Outcome>, f: nat)
    requires 0 < f <= FRAME_BUFFER && AllSince(history, Whole(f))
    ensures AllSince(history, Lossless) ==> SumSince(history, Weight(f)) == 0
    ensures !AllSince(history, Lossless) ==> SumSince(history, Weight(f)) + f <= 0
  {
    if history != [] && !history[|history| - 1].Emptied? {
      var o := history[|history| - 1];
      WholeSums(history[..|history| - 1], f);
      assert IsWhole(o, f) && Weight(f)(o) == WeightOf(o, f);
      if o.Rejected? {
        WholeFrames(f, o.length);
      }
    }
  }

  lemma LastFired(s: Session, op: Op, f: nat, capacity: nat)
    requires f > 0 && OutcomeOf(s.queue, op, f, capacity).Injected? && s.queue.number >= 0
    ensures var r := Step(s, op, f, capacity);
            |r.events| > 0 && (Natural(r.events[|r.events| - 1]) <==> r.queue.remaining <= 0)
  {
    var fired := Fired(s.queue, op, f, capacity);
    var r := Step(s, op, f, capacity);
    assert r.events[|r.events| - 1] == fired[|fired| - 1];
  }

  lemma NotAboveExactly(f: nat, bytes: nat, n: int, sum: int)
    requires f > 0 && bytes - f * n == sum
    ensures n <= 0 <==> bytes <= sum
  {
    if n > 0 {
      Division.AtLeast(f, n);
    } else {
      assert f * n <= 0;
    }
  }

  /** In every run, whatever the writes: injecting a frame fires queue_completed exactly if what is
      then left in the buffer is no more than the surplus of the ledger, the partial frames accepted
      since the last break less the losses. */
  lemma CompletesExactly(ops: seq<Op>, space: nat, f: nat, capacity: nat)
    requires f > 0
    ensures var s := Run(Start(), ops, f, capacity);
            var r := Step(s, Frame(true, Some(space)), f, capacity);
            OutcomeOf(s.queue, Frame(true, Some(space)), f, capacity).Injected? ==>
              && r.events != []
              && (Natural(r.events[|r.events| - 1]) <==> |r.queue.buffer| <= SumSince(r.history, Weight(f)))
  {
    var s := Run(Start(), ops, f, capacity);
    var op := Frame(true, Some(space));
    if OutcomeOf(s.queue, op, f, capacity).Injected? {
      var r := Step(s, op, f, capacity);
      EventTrace(ops, f, capacity);
      Ledger(ops + [op], f, capacity);
      RunMore(Start(), ops, op, f, capacity);
      NotAboveExactly(f, |r.queue.buffer|, r.queue.remaining, SumSince(r.history, Weight(f)));
      LastFired(s, op, f, capacity);
    }
  }

  /** Read the other way: queue_completed comes too early, with a whole frame or more left that the
      fast path then skips, exactly if that much is left and no more than the surplus. */
  lemma CompletesEarlyExactly(ops: seq<Op>, space: nat, f: nat, capacity: nat)
    requires f > 0
    ensures var s := Run(Start(), ops, f, capacity);
            var r := Step(s, Frame(true, Some(space)), f, capacity);
            OutcomeOf(s.queue, Frame(true, Some(space)), f, capacity).Injected? ==>
              && r.events != []
              && (Natural(r.events[|r.events| - 1]) && |r.queue.buffer| >= f
                  <==> f <= |r.queue.buffer| <= SumSince(r.history, Weight(f)))
              && (Natural(r.events[|r.events| - 1]) ==> !r.queue.inResponse)
  {
    CompletesExactly(ops, space, f, capacity);
    var s := Run(Start(), ops, f, capacity);
    if OutcomeOf(s.queue, Frame(true, Some(space)), f, capacity).Injected? {
      EventTrace(ops, f, capacity);
      LastFired(s, Frame(true, Some(space)), f, capacity);
    }
  }

  /** When every write is some full frames, injecting a frame fires queue_completed exactly if
      it empties the buffer and nothing was rejected or dropped since the last break: one lost
      frame keeps queue_completed from firing until the next break. */
  lemma WholeFramesComplete(ops: seq<Op>, space: nat, f: nat, capacity: nat)
    requires 0 < f <= FRAME_BUFFER
    ensures var s := Run(Start(), ops, f, capacity);
            var r := Step(s, Frame(true, Some(space)), f, capacity);
            OutcomeOf(s.queue, Frame(true, Some(space)), f, capacity).Injected? && AllSince(s.history, Whole(f)) ==>
              && r.events != []
              && (Natural(r.events[|r.events| - 1]) <==> r.queue.buffer == [] && AllSince(s.history, Lossless))
  {
    var s := Run(Start(), ops, f, capacity);
    var op := Frame(true, Some(space));
    var o := OutcomeOf(s.queue, op, f, capacity);
    if o.Injected? && AllSince(s.history, Whole(f)) {
      CompletesExactly(ops, space, f, capacity);
      SinceMore(s.history, o);
      WholeSums(s.history, f);
      assert Weight(f)(o) == WeightOf(o, f) == 0;
    }
  }

  /** Two frames are injected, and the counter reaches 0. */
  lemma PlayTwo(s: Session, f: nat, capacity: nat)
    requires 0 < f <= FRAME_BUFFER && |s.queue.buffer| == 3 * f && s.events == []
    requires s.queue.number == 0 && s.queue.remaining == 2 && s.queue.inResponse
    ensures var one := Frame(true, Some(f));
            var r := Step(Step(s, one, f, capacity), one, f, capacity);
            && |r.queue.buffer| == f && !r.queue.inResponse
            && (AllSince(s.history, Lossless) ==> AllSince(r.history, Lossless))
            && r.events == [Fire(ChunkPlayed, 1, f, 1, -1), Fire(ChunkPlayed, 2, f, 0, -1),
                            Fire(QueueCompleted, -1, -1, -1, 2)]
  {
    var one := Frame(true, Some(f));
    var t := Step(s, one, f, capacity);
    InjectionFires(s.queue, one, f, capacity);
    assert t.queue.number == 1 && t.queue.remaining == 1 && |t.queue.buffer| == 2 * f;
    InjectionFires(t.queue, one, f, capacity);
    SinceMore(s.history, OutcomeOf(s.queue, one, f, capacity));
    SinceMore(t.history, OutcomeOf(t.queue, one, f, capacity));
  }

  /** Nothing lost, and still too early: of two writes of one and a half frames, two chunks are
      played, queue_completed is fired, and a whole frame is left that no media frame takes. */
  lemma HalvesCompleteEarly(a: seq<byte>, b: seq<byte>, h: nat, capacity: nat)
    requires 0 < h && |a| == |b| == 3 * h && 2 * h <= FRAME_BUFFER && 6 * h <= capacity
    ensures var f := 2 * h;
            var s := Run(Run(Start(), [Enqueue(a), Enqueue(b)], f, capacity),
                         [Frame(true, Some(f)), Frame(true, Some(f))], f, capacity);
            && |s.queue.buffer| == f && !s.queue.inResponse && AllSince(s.history, Lossless)
            && s.events == [Fire(ChunkPlayed, 1, f, 1, -1), Fire(ChunkPlayed, 2, f, 0, -1),
                            Fire(QueueCompleted, -1, -1, -1, 2)]
  {
    var f, one := 2 * h, Frame(true, Some(2 * h));
    TwoSteps(Start(), Enqueue(a), Enqueue(b), f, capacity);
    Division.Quotient(f, |a|, 1, h);
    var s1 := Step(Start(), Enqueue(a), f, capacity);
    assert [] + a == a && s1.queue == Playback(a, 0, 1, true);
    var s2 := Step(s1, Enqueue(b), f, capacity);
    assert s2.queue == Playback(a + b, 0, 2, true) && s2.events == [];
    TwoSteps(s2, one, one, f, capacity);
    PlayTwo(s2, f, capacity);
    SinceMore([], Accepted(a));
    SinceMore(s1.history, Accepted(b));
  }

  /** After a completion, media frames alone fire nothing and take nothing until more audio
      comes, whatever is left in the buffer. */
  lemma {:induction false} QuietAfterCompletion(s: Session, op: Op, frames: seq<Op>, f: nat, capacity: nat)
    requires f > 0 && forall i :: 0 <= i < |frames| ==> frames[i].Frame?
    ensures var fired := Fired(s.queue, op, f, capacity);
            var r := Step(s, op, f, capacity);
            fired != [] && fired[|fired| - 1].kind.QueueCompleted? ==>
              && Run(r, frames, f, capacity).queue == r.queue
              && Run(r, frames, f, capacity).events == r.events
    decreases |frames|
  {
    if frames != [] {
      var last := |frames| - 1;
      QuietAfterCompletion(s, op, frames[..last], f, capacity);
      RunMore(Step(s, op, f, capacity), frames[..last], frames[last], f, capacity);
      assert frames[..last] + [frames[last]] == frames;
    }
  }

  // ---- The field that may be missing ----

  lemma NegativeExactly(f: nat, bytes: nat, n: int, sum: int)
    requires f > 0 && bytes - f * n == sum
    ensures n < 0 <==> sum - bytes >= f
  {
    if n < 0 {
      Division.AtLeast(f, -n);
      Division.Distributes(f, 0, n);
    } else {
      assert f * n >= 0;
    }
  }

  /** The chunk_played event of an injection lacks its `remaining` field exactly if the partial
      frames accepted since the last break, less the losses, exceed the buffer by a frame. */
  lemma RemainingMissing(ops: seq<Op>, space: nat, f: nat, capacity: nat)
    requires f > 0
    ensures var s := Run(Start(), ops, f, capacity);
            var r := Step(s, Frame(true, Some(space)), f, capacity);
            OutcomeOf(s.queue, Frame(true, Some(space)), f, capacity).Injected? ==>
              && |s.events| < |r.events| && r.events[|s.events|].kind.ChunkPlayed?
              && (r.events[|s.events|].remaining.None? <==>
                    SumSince(r.history, Weight(f)) - |r.queue.buffer| >= f)
  {
    var s := Run(Start(), ops, f, capacity);
    var op := Frame(true, Some(space));
    if OutcomeOf(s.queue, op, f, capacity).Injected? {
      var r := Step(s, op, f, capacity);
      Ledger(ops + [op], f, capacity);
      RunMore(Start(), ops, op, f, capacity);
      InjectionFires(s.queue, op, f, capacity);
      assert r.events[|s.events|] == Fired(s.queue, op, f, capacity)[0];
      NegativeExactly(f, |r.queue.buffer|, r.queue.remaining, SumSince(r.history, Weight(f)));
    }
  }

  /** Two writes of half a frame count for nothing and play as one chunk, with the counter at -1. */
  lemma HalvesHideRemaining(a: seq<byte>, b: seq<byte>, capacity: nat)
    requires 0 < |a| == |b| && 2 * |a| <= FRAME_BUFFER && 2 * |a| <= capacity
    ensures var f := 2 * |a|;
            var s := Run(Run(Start(), [Enqueue(a), Enqueue(b)], f, capacity), [Frame(true, Some(f))], f, capacity);
            s.events == [Event(ChunkPlayed, Some(1), Some(f), None, None),
                         Event(QueueCompleted, None, None, None, Some(1))]
  {
    var f := 2 * |a|;
    TwoSteps(Start(), Enqueue(a), Enqueue(b), f, capacity);
    Division.Quotient(f, |a|, 0, |a|);
    var s1 := Step(Start(), Enqueue(a), f, capacity);
    assert [] + a == a;
    assert s1.queue == Playback(a, 0, 0, true);
    var s2 := Step(s1, Enqueue(b), f, capacity);
    assert s2.queue == Playback(a + b, 0, 0, true) && s2.events == [];
    InjectionFires(s2.queue, Frame(true, Some(f)), f, capacity);
    RunMore(s2, [], Frame(true, Some(f)), f, capacity);
    assert [] + [Frame(true, Some(f))] == [Frame(true, Some(f))];
  }
}
