/** The forward packetizer: media frames of the call, resampled or not, become packets of one
    buffer each, kept across invocations of stream_frame. */
module Packetizer {
  import opened Bytes
  import Division

  const FRAME_SIZE_8000: nat := 320

  /** The size of sbuffer, and so of every packet. */
  function BufferSize(sampling: nat, channels: nat, rtpPackets: nat): nat {
    FRAME_SIZE_8000 * sampling / 8000 * channels * rtpPackets
  }

  /** The bytes of one sample of every channel. */
  function SampleBytes(channels: nat): nat {
    channels * 2
  }

  /** What taking in one frame makes: the buffer after it and the packets handed off. */
  datatype Made = Made(buffer: seq<byte>, packets: seq<seq<byte>>)

  /** Hand off the buffer if it is full. */
  function Flush(b: seq<byte>, capacity: nat): Made {
    if |b| >= capacity && |b| > 0 then Made([], [b]) else Made(b, [])
  }

  /** The bytes of a frame that find room: all of it or none. */
  function Kept(b: seq<byte>, data: seq<byte>, capacity: nat): seq<byte> {
    if |data| <= capacity - |b| then data else []
  }

  /** One media frame, without resampling. */
  function TakePlain(b: seq<byte>, frame: seq<byte>, capacity: nat, rtpPackets: int): Made {
    if frame == [] then Made(b, [])
    else if rtpPackets == 1 then Made(b, [frame])
    else Flush(b + Kept(b, frame, capacity), capacity)
  }

  /** A media frame and the number of the resampler call that gets it. */
  datatype Media = Media(audio: seq<byte>, id: nat)

  /** The bytes the resampler emits in its id-th call, given room for so many samples. */
  type Resampler = (nat, nat) -> seq<byte>

  /** The samples of `unit` bytes there is room for. */
  function Room(b: seq<byte>, capacity: nat, unit: nat): nat
    requires unit > 0
  {
    if |b| > capacity then 0 else (capacity - |b|) / unit
  }

  /** The room is the free space, rounded down to samples. */
  lemma RoomIsFreeSpace(b: seq<byte>, capacity: nat, unit: nat)
    requires unit > 0 && |b| <= capacity
    ensures Room(b, capacity, unit) * unit <= capacity - |b| < (Room(b, capacity, unit) + 1) * unit
  {
    Division.RoundedDown(unit, capacity - |b|);
  }

  function TakeResampled(b: seq<byte>, m: Media, capacity: nat, unit: nat, rtpPackets: int, resampler: Resampler): Made
    requires unit > 0
  {
    if m.audio == [] then Made(b, [])
    else if Room(b, capacity, unit) == 0 then Flush(b, capacity)
    else
      var out := resampler(m.id, Room(b, capacity, unit));
      if out != [] && rtpPackets == 1 then Made(b, [out])
      else Flush(b + Kept(b, out, capacity), capacity)
  }

  // ---- Loops over frames ----

  /** All the frames, one after the other. */
  function Loop<F>(take: (seq<byte>, F) -> Made, b: seq<byte>, frames: seq<F>): Made
    decreases |frames|
  {
    if frames == [] then Made(b, [])
    else
      var m := take(b, frames[0]);
      var r := Loop(take, m.buffer, frames[1..]);
      Made(r.buffer, m.packets + r.packets)
  }

  /** What the frames contribute, `part` telling what each does to the buffer it meets. */
  function Gather<F>(take: (seq<byte>, F) -> Made, part: (seq<byte>, F) -> seq<byte>,
                     b: seq<byte>, frames: seq<F>): seq<byte>
    decreases |frames|
  {
    if frames == [] then []
    else part(b, frames[0]) + Gather(take, part, take(b, frames[0]).buffer, frames[1..])
  }

  lemma {:induction false} LoopAppend<F>(take: (seq<byte>, F) -> Made, b: seq<byte>, x: seq<F>, y: seq<F>)
    ensures var m := Loop(take, b, x);
            var r := Loop(take, m.buffer, y);
            Loop(take, b, x + y) == Made(r.buffer, m.packets + r.packets)
    decreases |x|
  {
    if x == [] {
      assert x + y == y;
      assert [] + Loop(take, b, y).packets == Loop(take, b, y).packets;
    } else {
      assert (x + y)[0] == x[0] && (x + y)[1..] == x[1..] + y;
      LoopAppend(take, take(b, x[0]).buffer, x[1..], y);
      var m := take(b, x[0]);
      Assoc(m.packets, Loop(take, m.buffer, x[1..]).packets, Loop(take, Loop(take, b, x).buffer, y).packets);
    }
  }

  lemma LoopSnoc<F>(take: (seq<byte>, F) -> Made, b: seq<byte>, frames: seq<F>, last: F)
    ensures var m := Loop(take, b, frames);
            var r := take(m.buffer, last);
            Loop(take, b, frames + [last]) == Made(r.buffer, m.packets + r.packets)
  {
    LoopAppend(take, b, frames, [last]);
    var m := take(Loop(take, b, frames).buffer, last);
    assert [last][1..] == [] && m.packets + [] == m.packets;
  }

  /** If every frame, met by a buffer that is fine, leaves one that is fine, hands off packets
      of one size and loses nothing of its part, so do all of them together. */
  ghost predicate Lossless<F>(take: (seq<byte>, F) -> Made, part: (seq<byte>, F) -> seq<byte>,
                              fine: seq<byte> -> bool, sized: seq<byte> -> bool, frames: seq<F>)
  {
    forall b, i :: fine(b) && 0 <= i < |frames| ==>
      && fine(take(b, frames[i]).buffer)
      && (forall p :: p in take(b, frames[i]).packets ==> sized(p))
      && Concat(take(b, frames[i]).packets) + take(b, frames[i]).buffer == b + part(b, frames[i])
  }

  lemma Joined(p: seq<byte>, q: seq<byte>, mid: seq<byte>, end: seq<byte>, g: seq<byte>, b: seq<byte>, part: seq<byte>)
    requires q + end == mid + g && p + mid == b + part
    ensures (p + q) + end == b + (part + g)
  {
    assert (p + q) + end == p + (q + end);
    assert p + (mid + g) == (p + mid) + g;
  }

  lemma {:induction false} LoopLossless<F>(take: (seq<byte>, F) -> Made, part: (seq<byte>, F) -> seq<byte>,
                                           fine: seq<byte> -> bool, sized: seq<byte> -> bool,
                                           b: seq<byte>, frames: seq<F>)
    requires Lossless(take, part, fine, sized, frames) && fine(b)
    ensures var m := Loop(take, b, frames);
            && fine(m.buffer)
            && (forall p :: p in m.packets ==> sized(p))
            && Concat(m.packets) + m.buffer == b + Gather(take, part, b, frames)
    decreases |frames|
  {
    if frames != [] {
      var m := take(b, frames[0]);
      var r := Loop(take, m.buffer, frames[1..]);
      var g := Gather(take, part, m.buffer, frames[1..]);
      LoopLossless(take, part, fine, sized, m.buffer, frames[1..]);
      ConcatAppend(m.packets, r.packets);
      Joined(Concat(m.packets), Concat(r.packets), m.buffer, r.buffer, g, b, part(b, frames[0]));
    } else {
      assert Concat<byte>([]) + b == b + [];
    }
  }

  /** Several invocations of stream_frame, the buffer kept in between. */
  function Calls<F>(take: (seq<byte>, F) -> Made, b: seq<byte>, calls: seq<seq<F>>): Made
    decreases |calls|
  {
    if calls == [] then Made(b, [])
    else
      var m := Loop(take, b, calls[0]);
      var r := Calls(take, m.buffer, calls[1..]);
      Made(r.buffer, m.packets + r.packets)
  }

  /** How the frames are spread over invocations makes no difference. */
  lemma {:induction false} CallsAreOneLoop<F>(take: (seq<byte>, F) -> Made, b: seq<byte>, calls: seq<seq<F>>)
    ensures Calls(take, b, calls) == Loop(take, b, Concat(calls))
    decreases |calls|
  {
    if calls != [] {
      CallsAreOneLoop(take, Loop(take, b, calls[0]).buffer, calls[1..]);
      LoopAppend(take, b, calls[0], Concat(calls[1..]));
    }
  }

  // ---- Without resampling ----

  function Plain(capacity: nat, rtpPackets: int): (seq<byte>, seq<byte>) -> Made {
    (b: seq<byte>, frame: seq<byte>) => TakePlain(b, frame, capacity, rtpPackets)
  }

  /** The part of a frame that is not dropped. */
  function Accepted(capacity: nat): (seq<byte>, seq<byte>) -> seq<byte> {
    (b: seq<byte>, frame: seq<byte>) => Kept(b, frame, capacity)
  }

  function Everything(): (seq<byte>, seq<byte>) -> seq<byte> {
    (b: seq<byte>, frame: seq<byte>) => frame
  }

  function NonEmpty(frames: seq<seq<byte>>): seq<seq<byte>> {
    if frames == [] then [] else (if frames[0] == [] then [] else [frames[0]]) + NonEmpty(frames[1..])
  }

  /** A single packet per RTP packet: every frame is passed on as it is. */
  lemma {:induction false} PassThrough(b: seq<byte>, frames: seq<seq<byte>>, capacity: nat)
    ensures Loop(Plain(capacity, 1), b, frames) == Made(b, NonEmpty(frames))
  {
    if frames != [] {
      PassThrough(b, frames[1..], capacity);
    }
  }

  function AtMost(n: nat): seq<byte> -> bool {
    (b: seq<byte>) => |b| <= n
  }

  function Exactly(n: nat): seq<byte> -> bool {
    (b: seq<byte>) => |b| == n
  }

  lemma FlushKeeps(b: seq<byte>, data: seq<byte>, capacity: nat)
    requires |b| + |data| <= capacity
    ensures var m := Flush(b + data, capacity);
            && |m.buffer| <= capacity
            && (forall p :: p in m.packets ==> |p| == capacity)
            && Concat(m.packets) + m.buffer == b + data
            && (m.buffer == b + data || m.buffer == [])
            && (capacity > 0 ==> |m.buffer| < capacity)
  {
    assert Concat([b + data]) + [] == b + data by { assert Concat([b + data]) == (b + data) + Concat<byte>([]); }
    assert Concat<byte>([]) + (b + data) == b + data;
  }

  lemma NothingTaken(b: seq<byte>)
    ensures Concat<byte>([]) + b == b + []
  {}

  /** With several RTP packets per packet: over all invocations, packets and buffer are the
      accepted frames in order, and every packet fills the buffer exactly. */
  lemma PlainConserves(calls: seq<seq<seq<byte>>>, capacity: nat, rtpPackets: int)
    requires rtpPackets != 1
    ensures var take := Plain(capacity, rtpPackets);
            var m := Calls(take, [], calls);
            && Concat(m.packets) + m.buffer == Gather(take, Accepted(capacity), [], Concat(calls))
            && (forall p :: p in m.packets ==> |p| == capacity)
            && |m.buffer| <= capacity
  {
    var take := Plain(capacity, rtpPackets);
    var frames := Concat(calls);
    forall b: seq<byte>, i | AtMost(capacity)(b) && 0 <= i < |frames|
      ensures AtMost(capacity)(take(b, frames[i]).buffer)
      ensures forall p :: p in take(b, frames[i]).packets ==> Exactly(capacity)(p)
      ensures Concat(take(b, frames[i]).packets) + take(b, frames[i]).buffer == b + Accepted(capacity)(b, frames[i])
    {
      FlushKeeps(b, Kept(b, frames[i], capacity), capacity);
      NothingTaken(b);
    }
    LoopLossless(take, Accepted(capacity), AtMost(capacity), Exactly(capacity), [], frames);
    CallsAreOneLoop(take, [], calls);
  }

  // ---- Frames of one size ----

  ghost predicate Uniform(frames: seq<seq<byte>>, d: nat) {
    forall i :: 0 <= i < |frames| ==> |frames[i]| == d
  }

  /** A buffer between two frames: whole frames, not full. */
  predicate IsBetween(b: seq<byte>, d: nat, capacity: nat)
    requires d > 0
  {
    |b| % d == 0 && |b| < capacity
  }

  function Between(d: nat, capacity: nat): seq<byte> -> bool
    requires d > 0
  {
    (b: seq<byte>) => IsBetween(b, d, capacity)
  }

  lemma {:induction false} GatherEverything(take: (seq<byte>, seq<byte>) -> Made, b: seq<byte>, frames: seq<seq<byte>>)
    ensures Gather(take, Everything(), b, frames) == Concat(frames)
    decreases |frames|
  {
    if frames != [] {
      GatherEverything(take, take(b, frames[0]).buffer, frames[1..]);
    }
  }

  lemma NextMultiple(d: nat, n: nat, capacity: nat)
    requires d > 0 && n % d == 0 && n < capacity
    ensures (n + d) % d == 0
    ensures capacity % d == 0 ==> n + d <= capacity
    ensures capacity % d != 0 ==> n + d != capacity
  {
    Division.OneMore(d, n);
    if capacity % d == 0 {
      Division.Gap(d, n, capacity);
    }
  }

  /** A frame is dropped, completes the packet or is buffered. */
  lemma PlainCases(b: seq<byte>, frame: seq<byte>, capacity: nat, rtpPackets: int)
    requires rtpPackets != 1 && frame != [] && |b| < capacity
    ensures TakePlain(b, frame, capacity, rtpPackets) ==
            if |b| + |frame| > capacity then Made(b, [])
            else if |b| + |frame| == capacity then Made([], [b + frame])
            else Made(b + frame, [])
  {
    assert b + [] == b;
  }

  lemma UniformStep(b: seq<byte>, frame: seq<byte>, d: nat, capacity: nat, rtpPackets: int)
    requires rtpPackets != 1 && d > 0 && |frame| == d && IsBetween(b, d, capacity)
    ensures var m := TakePlain(b, frame, capacity, rtpPackets);
            && IsBetween(m.buffer, d, capacity)
            && (capacity % d == 0 ==>
                  (forall p :: p in m.packets ==> |p| == capacity) && Concat(m.packets) + m.buffer == b + frame)
            && (capacity % d != 0 ==> m.packets == [])
  {
    PlainCases(b, frame, capacity, rtpPackets);
    NextMultiple(d, |b|, capacity);
    if |b| + d <= capacity {
      FlushKeeps(b, frame, capacity);
    }
    assert |b + frame| == |b| + d;
  }

  lemma UniformLoop(frames: seq<seq<byte>>, d: nat, capacity: nat, rtpPackets: int)
    requires rtpPackets != 1 && 0 < d && 0 < capacity && Uniform(frames, d) && capacity % d == 0
    ensures var m := Loop(Plain(capacity, rtpPackets), [], frames);
            && Concat(m.packets) + m.buffer == Concat(frames)
            && (forall p :: p in m.packets ==> |p| == capacity)
            && |m.buffer| % d == 0 && |m.buffer| < capacity
  {
    var take := Plain(capacity, rtpPackets);
    forall b: seq<byte>, i | Between(d, capacity)(b) && 0 <= i < |frames|
      ensures Between(d, capacity)(take(b, frames[i]).buffer)
      ensures forall p :: p in take(b, frames[i]).packets ==> Exactly(capacity)(p)
      ensures Concat(take(b, frames[i]).packets) + take(b, frames[i]).buffer == b + Everything()(b, frames[i])
    {
      UniformStep(b, frames[i], d, capacity, rtpPackets);
    }
    LoopLossless(take, Everything(), Between(d, capacity), Exactly(capacity), [], frames);
    GatherEverything(take, [], frames);
  }

  /** Frames of one size that divides the buffer are never dropped. */
  lemma UniformFrames(calls: seq<seq<seq<byte>>>, d: nat, capacity: nat, rtpPackets: int)
    requires rtpPackets != 1 && 0 < d && 0 < capacity && Uniform(Concat(calls), d) && capacity % d == 0
    ensures var m := Calls(Plain(capacity, rtpPackets), [], calls);
            && Concat(m.packets) + m.buffer == Concat(Concat(calls))
            && (forall p :: p in m.packets ==> |p| == capacity)
            && |m.buffer| % d == 0 && |m.buffer| < capacity
  {
    UniformLoop(Concat(calls), d, capacity, rtpPackets);
    CallsAreOneLoop(Plain(capacity, rtpPackets), [], calls);
  }

  /** Frames of one size that does not divide the buffer never fill it: nothing is handed off. */
  lemma {:induction false} UniformJams(b: seq<byte>, frames: seq<seq<byte>>, d: nat, capacity: nat, rtpPackets: int)
    requires rtpPackets != 1 && 0 < d && Uniform(frames, d) && capacity % d != 0 && Between(d, capacity)(b)
    ensures var m := Loop(Plain(capacity, rtpPackets), b, frames);
            m.packets == [] && |m.buffer| < capacity
    decreases |frames|
  {
    if frames != [] {
      UniformStep(b, frames[0], d, capacity, rtpPackets);
      UniformJams(TakePlain(b, frames[0], capacity, rtpPackets).buffer, frames[1..], d, capacity, rtpPackets);
    }
  }

  ghost predicate NothingDropped(frames: seq<seq<byte>>, capacity: nat, rtpPackets: int) {
    var m := Loop(Plain(capacity, rtpPackets), [], frames);
    Concat(m.packets) + m.buffer == Concat(frames)
  }

  function Silence(n: nat, d: nat): (frames: seq<seq<byte>>)
    requires d > 0
    ensures Uniform(frames, d) && |Concat(frames)| >= n
  {
    if n == 0 then [] else [seq(d, _ => 0)] + Silence(n - 1, d)
  }

  /** So the frames of one size are passed on whole, however many, exactly if the size divides
      the buffer. */
  lemma UniformExactly(d: nat, capacity: nat, rtpPackets: int)
    requires rtpPackets != 1 && 0 < d && 0 < capacity
    ensures (forall frames :: Uniform(frames, d) ==> NothingDropped(frames, capacity, rtpPackets))
            <==> capacity % d == 0
  {
    if capacity % d == 0 {
      forall frames | Uniform(frames, d) ensures NothingDropped(frames, capacity, rtpPackets) {
        UniformLoop(frames, d, capacity, rtpPackets);
      }
    } else {
      var frames := Silence(capacity, d);
      UniformJams([], frames, d, capacity, rtpPackets);
      assert Concat<byte>([]) == [];
      assert !NothingDropped(frames, capacity, rtpPackets);
    }
  }

  // ---- Frames of any sizes ----

  /** The i-th frame, so many bytes having come before the first, fits below the next multiple of
      the buffer size. */
  predicate StaysWithin(frames: seq<seq<byte>>, capacity: nat, n: nat, i: nat)
    requires i < |frames| && capacity > 0
  {
    (n + |Concat(frames[..i])|) % capacity + |frames[i]| <= capacity
  }

  /** No frame crosses a multiple of the buffer size. */
  ghost predicate NoneCrosses(frames: seq<seq<byte>>, capacity: nat, n: nat)
    requires capacity > 0
  {
    forall i :: 0 <= i < |frames| ==> StaysWithin(frames, capacity, n, i)
  }

  lemma WithinBehind(frame: seq<byte>, rest: seq<seq<byte>>, capacity: nat, n: nat, i: nat)
    requires i < |rest| && capacity > 0
    ensures StaysWithin([frame] + rest, capacity, n, i + 1) == StaysWithin(rest, capacity, n + |frame|, i)
  {
    assert ([frame] + rest)[..i + 1] == [frame] + rest[..i];
    assert ([frame] + rest[..i])[1..] == rest[..i];
  }

  lemma FirstCrosses(frame: seq<byte>, rest: seq<seq<byte>>, capacity: nat, n: nat)
    requires capacity > 0
    ensures NoneCrosses([frame] + rest, capacity, n)
       <==> n % capacity + |frame| <= capacity && NoneCrosses(rest, capacity, n + |frame|)
  {
    var all, later := [frame] + rest, n + |frame|;
    assert all[..0] == [] && |Concat<byte>([])| == 0;
    assert StaysWithin(all, capacity, n, 0) == (n % capacity + |frame| <= capacity);
    forall i | 0 < i < |all| ensures StaysWithin(all, capacity, n, i) == StaysWithin(rest, capacity, later, i - 1) {
      WithinBehind(frame, rest, capacity, n, i - 1);
    }
    forall i | 0 <= i < |rest| ensures StaysWithin(rest, capacity, later, i) == StaysWithin(all, capacity, n, i + 1) {
      WithinBehind(frame, rest, capacity, n, i);
    }
  }

  lemma ConcatOne(p: seq<byte>)
    ensures Concat([p]) == p && Concat<byte>([]) == []
  {
    assert [p][1..] == [] && p + Concat<byte>([]) == p;
  }

  lemma TakesAtMost(b: seq<byte>, frame: seq<byte>, capacity: nat, rtpPackets: int)
    requires rtpPackets != 1 && |b| < capacity
    ensures var m := TakePlain(b, frame, capacity, rtpPackets);
            && |m.buffer| < capacity
            && |Concat(m.packets)| + |m.buffer| == if |b| + |frame| <= capacity then |b| + |frame| else |b|
  {
    ConcatOne(b + frame);
    if frame != [] {
      PlainCases(b, frame, capacity, rtpPackets);
    }
  }

  /** Nothing is gained on the way. */
  lemma {:induction false} NothingGained(b: seq<byte>, frames: seq<seq<byte>>, capacity: nat, rtpPackets: int)
    requires rtpPackets != 1 && |b| < capacity
    ensures var m := Loop(Plain(capacity, rtpPackets), b, frames);
            |Concat(m.packets)| + |m.buffer| <= |b| + |Concat(frames)|
    decreases |frames|
  {
    if frames != [] {
      var m := TakePlain(b, frames[0], capacity, rtpPackets);
      var r := Loop(Plain(capacity, rtpPackets), m.buffer, frames[1..]);
      TakesAtMost(b, frames[0], capacity, rtpPackets);
      NothingGained(m.buffer, frames[1..], capacity, rtpPackets);
      ConcatAppend(m.packets, r.packets);
    }
  }

  /** A frame that is taken moves the buffer to the next place. */
  lemma NextPlace(b: seq<byte>, frame: seq<byte>, capacity: nat, rtpPackets: int, n: nat)
    requires rtpPackets != 1 && 0 < capacity && |b| == n % capacity && |b| + |frame| <= capacity
    ensures |TakePlain(b, frame, capacity, rtpPackets).buffer| == (n + |frame|) % capacity
  {
    Division.Divided(capacity, n);
    if frame == [] {
    } else {
      PlainCases(b, frame, capacity, rtpPackets);
      if |b| + |frame| == capacity {
        Division.Distributes(capacity, n / capacity, -1);
        Division.Quotient(capacity, n + |frame|, n / capacity + 1, 0);
      } else {
        Division.Quotient(capacity, n + |frame|, n / capacity, |b| + |frame|);
      }
    }
  }

  lemma MixedJoin(b: seq<byte>, frame: seq<byte>, rest: seq<seq<byte>>, capacity: nat, rtpPackets: int)
    requires rtpPackets != 1 && |b| < capacity && |b| + |frame| <= capacity
    requires var m := TakePlain(b, frame, capacity, rtpPackets);
             var r := Loop(Plain(capacity, rtpPackets), m.buffer, rest);
             Concat(r.packets) + r.buffer == m.buffer + Concat(rest)
    ensures var m := Loop(Plain(capacity, rtpPackets), b, [frame] + rest);
            Concat(m.packets) + m.buffer == b + Concat([frame] + rest)
  {
    var m := TakePlain(b, frame, capacity, rtpPackets);
    var r := Loop(Plain(capacity, rtpPackets), m.buffer, rest);
    assert ([frame] + rest)[1..] == rest;
    if frame == [] {
      NothingTaken(b);
    } else {
      PlainCases(b, frame, capacity, rtpPackets);
      FlushKeeps(b, frame, capacity);
    }
    ConcatAppend(m.packets, r.packets);
    Joined(Concat(m.packets), Concat(r.packets), m.buffer, r.buffer, Concat(rest), b, frame);
  }

  /** All that comes goes on, or something is missing at the end. */
  lemma {:induction false} MixedLoop(b: seq<byte>, frames: seq<seq<byte>>, capacity: nat, rtpPackets: int, n: nat)
    requires rtpPackets != 1 && 0 < capacity && |b| == n % capacity
    ensures var m := Loop(Plain(capacity, rtpPackets), b, frames);
            && (NoneCrosses(frames, capacity, n) ==> Concat(m.packets) + m.buffer == b + Concat(frames))
            && (!NoneCrosses(frames, capacity, n) ==>
                  |Concat(m.packets)| + |m.buffer| < |b| + |Concat(frames)|)
    decreases |frames|
  {
    Division.Divided(capacity, n);
    if frames == [] {
      NothingTaken(b);
    } else {
      var frame, rest := frames[0], frames[1..];
      assert frames == [frame] + rest;
      FirstCrosses(frame, rest, capacity, n);
      var m := TakePlain(b, frame, capacity, rtpPackets);
      var r := Loop(Plain(capacity, rtpPackets), m.buffer, rest);
      TakesAtMost(b, frame, capacity, rtpPackets);
      ConcatAppend(m.packets, r.packets);
      if |b| + |frame| <= capacity {
        NextPlace(b, frame, capacity, rtpPackets, n);
        MixedLoop(m.buffer, rest, capacity, rtpPackets, n + |frame|);
        if NoneCrosses(frames, capacity, n) {
          MixedJoin(b, frame, rest, capacity, rtpPackets);
        }
      } else {
        NothingGained(m.buffer, rest, capacity, rtpPackets);
      }
    }
  }

  /** For frames of any sizes: nothing is dropped if and only if no frame crosses a multiple of the
      buffer size. */
  lemma MixedExactly(frames: seq<seq<byte>>, capacity: nat, rtpPackets: int)
    requires rtpPackets != 1 && 0 < capacity
    ensures NothingDropped(frames, capacity, rtpPackets) <==> NoneCrosses(frames, capacity, 0)
  {
    MixedLoop([], frames, capacity, rtpPackets, 0);
    assert [] + Concat(frames) == Concat(frames);
  }

  // ---- The buffer stream_data_init makes ----

  /** The bytes of a media frame of so many milliseconds of 16-bit audio. */
  function FrameSize(sampling: nat, channels: nat, milliseconds: nat): nat {
    sampling * milliseconds / 1000 * SampleBytes(channels)
  }

  lemma BufferIs(k: nat, channels: nat, rtpPackets: nat)
    ensures BufferSize(8000 * k, channels, rtpPackets) == 320 * k * channels * rtpPackets
    ensures FrameSize(8000 * k, channels, 20) == 320 * k * channels
  {
    assert FRAME_SIZE_8000 * (8000 * k) == 8000 * (320 * k);
    Division.Quotient(8000, 8000 * (320 * k), 320 * k, 0);
    assert 8000 * k * 20 == 1000 * (160 * k);
    Division.Quotient(1000, 1000 * (160 * k), 160 * k, 0);
    assert 160 * k * (channels * 2) == 320 * k * channels;
  }

  lemma Product(a: nat, b: nat)
    requires a > 0 && b > 0
    ensures a * b > 0
  {}

  lemma Associative(a: int, b: int, c: int)
    ensures (a * b) * c == a * (b * c)
  {}

  lemma Halves(k: nat, channels: nat, rtpPackets: nat)
    ensures 320 * k * channels * rtpPackets == (channels * 2) * (160 * (k * rtpPackets))
  {
    assert 320 * k * channels == (channels * 2) * (160 * k);
    Associative(channels * 2, 160 * k, rtpPackets);
    Associative(160, k, rtpPackets);
  }

  /** For the accepted sampling rates the buffer is a positive number of 20 ms frames and of
      samples of every channel. */
  lemma BufferDivides(sampling: nat, channels: nat, rtpPackets: nat)
    requires sampling > 0 && sampling % 8000 == 0 && channels > 0 && rtpPackets > 0
    ensures FrameSize(sampling, channels, 20) > 0
    ensures var b := BufferSize(sampling, channels, rtpPackets);
            b > 0 && b % FrameSize(sampling, channels, 20) == 0 && b % SampleBytes(channels) == 0
  {
    var k := sampling / 8000;
    Division.Divided(8000, sampling);
    BufferIs(k, channels, rtpPackets);
    var d := 320 * k * channels;
    Product(320 * k, channels);
    Product(d, rtpPackets);
    Division.Multiple(d, rtpPackets);
    Halves(k, channels, rtpPackets);
    Division.Multiple(SampleBytes(channels), 160 * (k * rtpPackets));
  }

  /** The buffer has room for so many 20 ms of samples. */
  lemma BufferSamples(sampling: nat, channels: nat, rtpPackets: nat)
    requires sampling % 8000 == 0
    ensures BufferSize(sampling, channels, rtpPackets) == sampling / 50 * rtpPackets * SampleBytes(channels)
  {
    var k := sampling / 8000;
    Division.Divided(8000, sampling);
    Division.Quotient(50, sampling, 160 * k, 0);
    BufferIs(k, channels, rtpPackets);
    Halves(k, channels, rtpPackets);
    Associative(160, k, rtpPackets);
  }

  lemma TwentyMillisecondFrame(sampling: nat, channels: nat)
    requires sampling % 8000 == 0
    ensures FrameSize(sampling, channels, 20) == sampling / 50 * (2 * channels)
  {
    var k := sampling / 8000;
    Division.Divided(8000, sampling);
    Division.Quotient(50, sampling, 160 * k, 0);
    BufferIs(k, channels, 1);
    assert 160 * k * (2 * channels) == 320 * k * channels;
  }

  lemma {:induction false} LengthOfAll(pieces: seq<seq<byte>>, n: nat)
    requires forall i :: 0 <= i < |pieces| ==> |pieces[i]| == n
    ensures |Concat(pieces)| == |pieces| * n
  {
    if pieces != [] {
      LengthOfAll(pieces[1..], n);
      Division.Distributes(n, |pieces|, 1);
    }
  }

  /** So many packets of r frames each, and fewer than r frames left. */
  lemma PacketCount(frames: nat, packets: nat, left: nat, d: nat, r: nat)
    requires d > 0 && r > 0 && packets * (r * d) + left == frames * d && left % d == 0 && left < r * d
    ensures packets == frames / r && left == frames % r * d
  {
    var k := left / d;
    Division.Divided(d, left);
    Associative(packets, r, d);
    Division.SameQuotient(d, packets * r + k, 0, frames, 0);
    Division.Ordered(d, k, r);
    Division.Quotient(r, frames, packets, k);
  }

  /** With media frames of 20 ms of 16-bit samples, STREAM_BUFFER_SIZE works at every accepted rate:
      no frame is dropped, every rtpPackets frames make a packet, and the rest is buffered. */
  lemma TwentyMilliseconds(calls: seq<seq<seq<byte>>>, sampling: nat, channels: nat, rtpPackets: nat)
    requires sampling > 0 && sampling % 8000 == 0 && channels > 0 && rtpPackets > 1
    requires Uniform(Concat(calls), sampling / 50 * (2 * channels))
    ensures var d, n := sampling / 50 * (2 * channels), |Concat(calls)|;
            var m := Calls(Plain(BufferSize(sampling, channels, rtpPackets), rtpPackets), [], calls);
            && Concat(m.packets) + m.buffer == Concat(Concat(calls))
            && (forall p :: p in m.packets ==> |p| == rtpPackets * d)
            && |m.packets| == n / rtpPackets && |m.buffer| == n % rtpPackets * d
  {
    var d, capacity := sampling / 50 * (2 * channels), BufferSize(sampling, channels, rtpPackets);
    var m := Calls(Plain(capacity, rtpPackets), [], calls);
    BufferDivides(sampling, channels, rtpPackets);
    BufferSamples(sampling, channels, rtpPackets);
    TwentyMillisecondFrame(sampling, channels);
    assert capacity == rtpPackets * d;
    UniformFrames(calls, d, capacity, rtpPackets);
    LengthOfAll(m.packets, capacity);
    LengthOfAll(Concat(calls), d);
    assert |Concat(m.packets) + m.buffer| == |Concat(m.packets)| + |m.buffer|;
    PacketCount(|Concat(calls)|, |m.packets|, |m.buffer|, d, rtpPackets);
  }

  /** With media frames of 30 ms and a buffer of 40 ms, nothing is ever handed off. */
  lemma ThirtyMilliseconds(frames: seq<seq<byte>>)
    requires Uniform(frames, FrameSize(8000, 1, 30))
    ensures Loop(Plain(BufferSize(8000, 1, 2), 2), [], frames).packets == []
  {
    assert FrameSize(8000, 1, 30) == 480 && BufferSize(8000, 1, 2) == 640;
    UniformJams([], frames, 480, 640, 2);
  }

  // ---- With resampling ----

  function Resampled(capacity: nat, unit: nat, rtpPackets: int, resampler: Resampler): (seq<byte>, Media) -> Made
    requires unit > 0
  {
    (b: seq<byte>, m: Media) => TakeResampled(b, m, capacity, unit, rtpPackets, resampler)
  }

  /** What the resampler emits for a frame, offered the free space in samples. */
  function Emitted(capacity: nat, unit: nat, resampler: Resampler): (seq<byte>, Media) -> seq<byte>
    requires unit > 0
  {
    (b: seq<byte>, m: Media) =>
      if m.audio == [] || capacity < |b| + unit then [] else resampler(m.id, (capacity - |b|) / unit)
  }

  /** The resampler emits whole samples, no more than there is room for. */
  ghost predicate Bounded(resampler: Resampler, unit: nat)
    requires unit > 0
  {
    forall id: nat, room: nat :: |resampler(id, room)| % unit == 0 && |resampler(id, room)| <= room * unit
  }

  lemma RoomFits(b: seq<byte>, capacity: nat, unit: nat)
    requires unit > 0 && IsBetween(b, unit, capacity) && capacity % unit == 0
    ensures 0 < Room(b, capacity, unit) && Room(b, capacity, unit) * unit <= capacity - |b|
  {
    Division.Gap(unit, |b|, capacity);
    Division.RoundedDown(unit, capacity - |b|);
  }

  lemma SumOfMultiples(d: nat, a: nat, b: nat)
    requires d > 0 && a % d == 0 && b % d == 0
    ensures (a + b) % d == 0
  {
    Division.Divided(d, a);
    Division.Divided(d, b);
    Division.Distributes(d, a / d, 0 - b / d);
    Division.Multiple(d, a / d + b / d);
  }

  lemma EmittedIs(b: seq<byte>, m: Media, capacity: nat, unit: nat, resampler: Resampler)
    requires unit > 0 && IsBetween(b, unit, capacity) && capacity % unit == 0
    ensures Emitted(capacity, unit, resampler)(b, m)
         == if m.audio == [] then [] else resampler(m.id, Room(b, capacity, unit))
  {
    Division.Gap(unit, |b|, capacity);
  }

  lemma EmittedFits(b: seq<byte>, m: Media, capacity: nat, unit: nat, resampler: Resampler)
    requires unit > 0 && IsBetween(b, unit, capacity) && capacity % unit == 0 && Bounded(resampler, unit)
    ensures var out := Emitted(capacity, unit, resampler)(b, m);
            |out| <= capacity - |b| && (|b| + |out|) % unit == 0
  {
    var out := resampler(m.id, Room(b, capacity, unit));
    EmittedIs(b, m, capacity, unit, resampler);
    RoomFits(b, capacity, unit);
    SumOfMultiples(unit, |b|, |out|);
  }

  /** Between frames: free space for some whole samples, and nothing buffered if packets are
      single. */
  function Open(unit: nat, capacity: nat, rtpPackets: int): seq<byte> -> bool
    requires unit > 0
  {
    (b: seq<byte>) => IsBetween(b, unit, capacity) && (rtpPackets == 1 ==> b == [])
  }

  function Full(capacity: nat, rtpPackets: int): seq<byte> -> bool {
    (p: seq<byte>) => rtpPackets != 1 ==> |p| == capacity
  }

  /** Taking in the emitted bytes, for any room there is. */
  lemma TakesEmitted(b: seq<byte>, m: Media, capacity: nat, unit: nat, rtpPackets: int, resampler: Resampler,
                     out: seq<byte>)
    requires unit > 0 && Room(b, capacity, unit) > 0 && |b| + |out| <= capacity && |b| < capacity
    requires out == if m.audio == [] then [] else resampler(m.id, Room(b, capacity, unit))
    requires rtpPackets == 1 ==> b == []
    ensures var r := TakeResampled(b, m, capacity, unit, rtpPackets, resampler);
            && (r.buffer == b + out || r.buffer == [])
            && |r.buffer| < capacity && (rtpPackets == 1 ==> r.buffer == [])
            && (forall p :: p in r.packets ==> rtpPackets != 1 ==> |p| == capacity)
            && Concat(r.packets) + r.buffer == b + out
  {
    FlushKeeps(b, out, capacity);
    NothingTaken(b);
    ConcatOne(out);
  }

  /** The buffer after whole samples is one between frames. */
  lemma StaysOpen(b: seq<byte>, out: seq<byte>, now: seq<byte>, capacity: nat, unit: nat, rtpPackets: int)
    requires unit > 0 && (|b| + |out|) % unit == 0 && (now == b + out || now == [])
    requires |now| < capacity && (rtpPackets == 1 ==> now == [])
    ensures Open(unit, capacity, rtpPackets)(now)
  {}

  lemma OpenFits(b: seq<byte>, m: Media, capacity: nat, unit: nat, rtpPackets: int, resampler: Resampler)
    requires unit > 0 && Open(unit, capacity, rtpPackets)(b) && capacity % unit == 0 && Bounded(resampler, unit)
    ensures Room(b, capacity, unit) > 0 && |b| < capacity && (rtpPackets == 1 ==> b == [])
    ensures var out := Emitted(capacity, unit, resampler)(b, m);
            && |b| + |out| <= capacity && (|b| + |out|) % unit == 0
            && out == if m.audio == [] then [] else resampler(m.id, Room(b, capacity, unit))
  {
    RoomFits(b, capacity, unit);
    EmittedIs(b, m, capacity, unit, resampler);
    EmittedFits(b, m, capacity, unit, resampler);
  }

  lemma ResampledStep(b: seq<byte>, m: Media, capacity: nat, unit: nat, rtpPackets: int, resampler: Resampler)
    requires unit > 0 && Open(unit, capacity, rtpPackets)(b) && capacity % unit == 0 && Bounded(resampler, unit)
    ensures var r := TakeResampled(b, m, capacity, unit, rtpPackets, resampler);
            && Open(unit, capacity, rtpPackets)(r.buffer)
            && (forall p :: p in r.packets ==> Full(capacity, rtpPackets)(p))
            && Concat(r.packets) + r.buffer == b + Emitted(capacity, unit, resampler)(b, m)
  {
    var out := Emitted(capacity, unit, resampler)(b, m);
    var r := TakeResampled(b, m, capacity, unit, rtpPackets, resampler);
    OpenFits(b, m, capacity, unit, rtpPackets, resampler);
    TakesEmitted(b, m, capacity, unit, rtpPackets, resampler, out);
    StaysOpen(b, out, r.buffer, capacity, unit, rtpPackets);
  }

  lemma ResampledLoop(frames: seq<Media>, capacity: nat, unit: nat, rtpPackets: int, resampler: Resampler)
    requires 0 < unit && 0 < capacity && capacity % unit == 0 && Bounded(resampler, unit)
    ensures var take := Resampled(capacity, unit, rtpPackets, resampler);
            var m := Loop(take, [], frames);
            && Concat(m.packets) + m.buffer == Gather(take, Emitted(capacity, unit, resampler), [], frames)
            && (forall p :: p in m.packets ==> Full(capacity, rtpPackets)(p))
            && Open(unit, capacity, rtpPackets)(m.buffer)
  {
    var take, part := Resampled(capacity, unit, rtpPackets, resampler), Emitted(capacity, unit, resampler);
    forall b: seq<byte>, i | Open(unit, capacity, rtpPackets)(b) && 0 <= i < |frames|
      ensures Open(unit, capacity, rtpPackets)(take(b, frames[i]).buffer)
      ensures forall p :: p in take(b, frames[i]).packets ==> Full(capacity, rtpPackets)(p)
      ensures Concat(take(b, frames[i]).packets) + take(b, frames[i]).buffer == b + part(b, frames[i])
    {
      ResampledStep(b, frames[i], capacity, unit, rtpPackets, resampler);
    }
    LoopLossless(take, part, Open(unit, capacity, rtpPackets), Full(capacity, rtpPackets), [], frames);
  }

  /** The free space is some samples of every channel, and all the resampler emits fits. */
  ghost predicate Ready(b: seq<byte>, capacity: nat, unit: nat, resampler: Resampler)
    requires unit > 0
  {
    && Room(b, capacity, unit) > 0 && Room(b, capacity, unit) * unit == capacity - |b|
    && forall id: nat :: |resampler(id, Room(b, capacity, unit))| <= capacity - |b|
  }

  lemma Remaining(d: nat, capacity: nat, n: nat)
    requires d > 0 && capacity % d == 0 && n % d == 0
    ensures (capacity - n) % d == 0
  {
    Division.Divided(d, capacity);
    Division.Divided(d, n);
    Division.Distributes(d, capacity / d, n / d);
    Division.Multiple(d, capacity / d - n / d);
  }

  lemma OpenMeans(b: seq<byte>, capacity: nat, unit: nat, rtpPackets: int, resampler: Resampler)
    requires 0 < unit && capacity % unit == 0 && Bounded(resampler, unit) && Open(unit, capacity, rtpPackets)(b)
    ensures Ready(b, capacity, unit, resampler)
  {
    Remaining(unit, capacity, |b|);
    RoomFits(b, capacity, unit);
  }

  lemma ResampledAny(calls: seq<seq<Media>>, capacity: nat, unit: nat, rtpPackets: nat, resampler: Resampler)
    requires 0 < unit && 0 < capacity && capacity % unit == 0 && Bounded(resampler, unit)
    ensures var take := Resampled(capacity, unit, rtpPackets, resampler);
            var m := Calls(take, [], calls);
            && Concat(m.packets) + m.buffer == Gather(take, Emitted(capacity, unit, resampler), [], Concat(calls))
            && (forall p :: p in m.packets ==> Full(capacity, rtpPackets)(p))
            && Ready(m.buffer, capacity, unit, resampler)
  {
    var take := Resampled(capacity, unit, rtpPackets, resampler);
    ResampledLoop(Concat(calls), capacity, unit, rtpPackets, resampler);
    CallsAreOneLoop(take, [], calls);
    OpenMeans(Calls(take, [], calls).buffer, capacity, unit, rtpPackets, resampler);
  }

  /** At every accepted rate, over all invocations: everything the resampler emits is in the
      packets and the buffer, in order; packets are one buffer each; and whenever a frame comes
      there is room for a sample of every channel and for all the resampler then emits. */
  lemma ResampledConserves(calls: seq<seq<Media>>, sampling: nat, channels: nat, rtpPackets: nat, resampler: Resampler)
    requires sampling > 0 && sampling % 8000 == 0 && channels > 0 && rtpPackets > 0
    requires Bounded(resampler, SampleBytes(channels))
    ensures var capacity, unit := BufferSize(sampling, channels, rtpPackets), SampleBytes(channels);
            var take := Resampled(capacity, unit, rtpPackets, resampler);
            var m := Calls(take, [], calls);
            && Concat(m.packets) + m.buffer == Gather(take, Emitted(capacity, unit, resampler), [], Concat(calls))
            && (forall p :: p in m.packets ==> Full(capacity, rtpPackets)(p))
            && Ready(m.buffer, capacity, unit, resampler)
  {
    var capacity, unit := BufferSize(sampling, channels, rtpPackets), SampleBytes(channels);
    BufferDivides(sampling, channels, rtpPackets);
    ResampledAny(calls, capacity, unit, rtpPackets, resampler);
  }

  // ---- A resampler that fills the room it is given ----

  ghost predicate Fills(resampler: Resampler, unit: nat) {
    forall id: nat, room: nat :: |resampler(id, room)| == room * unit
  }

  ghost predicate NoneEmpty(frames: seq<Media>) {
    forall i :: 0 <= i < |frames| ==> frames[i].audio != []
  }

  /** Every frame makes one packet: what the resampler emits for the whole buffer. */
  ghost predicate OnePacketEach(m: Made, frames: seq<Media>, capacity: nat, samples: nat, resampler: Resampler) {
    && m.buffer == [] && |m.packets| == |frames|
    && forall i :: 0 <= i < |frames| ==>
         m.packets[i] == resampler(frames[i].id, samples) && |m.packets[i]| == capacity
  }

  lemma FillingStep(m: Media, samples: nat, unit: nat, rtpPackets: int, resampler: Resampler)
    requires unit > 0 && samples > 0 && m.audio != [] && |resampler(m.id, samples)| == samples * unit
    ensures TakeResampled([], m, samples * unit, unit, rtpPackets, resampler) == Made([], [resampler(m.id, samples)])
  {
    var out := resampler(m.id, samples);
    Division.Quotient(unit, samples * unit, samples, 0);
    Division.AtLeast(samples, unit);
    assert Room([], samples * unit, unit) == samples;
    assert [] + out == out;
  }

  lemma {:induction false} FillingLoop(frames: seq<Media>, samples: nat, unit: nat, rtpPackets: int,
                                       resampler: Resampler)
    requires unit > 0 && samples > 0 && Fills(resampler, unit) && NoneEmpty(frames)
    ensures OnePacketEach(Loop(Resampled(samples * unit, unit, rtpPackets, resampler), [], frames), frames,
                          samples * unit, samples, resampler)
    decreases |frames|
  {
    if frames != [] {
      FillingStep(frames[0], samples, unit, rtpPackets, resampler);
      FillingLoop(frames[1..], samples, unit, rtpPackets, resampler);
    }
  }

  /** At every accepted rate, over all invocations: if the resampler fills the room it is given, every
      media frame makes a packet of all the samples of rtpPackets times 20 ms. */
  lemma FillingCompletes(calls: seq<seq<Media>>, sampling: nat, channels: nat, rtpPackets: nat, resampler: Resampler)
    requires sampling > 0 && sampling % 8000 == 0 && channels > 0 && rtpPackets > 0
    requires Fills(resampler, 2 * channels) && NoneEmpty(Concat(calls))
    ensures var capacity, samples := BufferSize(sampling, channels, rtpPackets), sampling / 50 * rtpPackets;
            OnePacketEach(Calls(Resampled(capacity, SampleBytes(channels), rtpPackets, resampler), [], calls),
                          Concat(calls), samples * (2 * channels), samples, resampler)
  {
    var unit, samples := SampleBytes(channels), sampling / 50 * rtpPackets;
    BufferSamples(sampling, channels, rtpPackets);
    Division.Gap(8000, 0, sampling);
    Product(sampling / 50, rtpPackets);
    FillingLoop(Concat(calls), samples, unit, rtpPackets, resampler);
    CallsAreOneLoop(Resampled(samples * unit, unit, rtpPackets, resampler), [], calls);
  }

  // ---- The code ----

  class Forwarder {
    const capacity: nat
    const channels: nat
    const rtpPackets: int
    var sbuffer: seq<byte>
    var paused: bool
    var cleanupStarted: bool

    constructor (sampling: nat, channels: nat, rtpPackets: nat)
      ensures capacity == BufferSize(sampling, channels, rtpPackets)
      ensures this.channels == channels && this.rtpPackets == rtpPackets
      ensures sbuffer == [] && !paused && !cleanupStarted
    {
      capacity := BufferSize(sampling, channels, rtpPackets);
      this.channels, this.rtpPackets := channels, rtpPackets;
      sbuffer, paused, cleanupStarted := [], false, false;
    }

    function FreeSpace(): int
      reads this
    {
      capacity - |sbuffer|
    }

    /** switch_buffer_write: all or nothing. */
    method BufferWrite(data: seq<byte>)
      modifies this`sbuffer
      ensures sbuffer == old(sbuffer) + Kept(old(sbuffer), data, capacity)
    {
      if |data| <= FreeSpace() {
        sbuffer := sbuffer + data;
      } else {
        assert sbuffer == sbuffer + [];
      }
    }

    /** Move the buffer to the pending packets if it is full. */
    method FlushIfFull(pending: seq<seq<byte>>) returns (now: seq<seq<byte>>)
      modifies this`sbuffer
      ensures var m := Flush(old(sbuffer), capacity);
              sbuffer == m.buffer && now == pending + m.packets
    {
      now := pending;
      if FreeSpace() <= 0 {
        if |sbuffer| > 0 {
          now := now + [sbuffer];
          sbuffer := [];
        }
      }
    }

    method OnePlainFrame(frame: seq<byte>, pending: seq<seq<byte>>) returns (now: seq<seq<byte>>)
      modifies this`sbuffer
      ensures var m := TakePlain(old(sbuffer), frame, capacity, rtpPackets);
              sbuffer == m.buffer && now == pending + m.packets
    {
      now := pending;
      if |frame| == 0 {
        return;
      }
      if rtpPackets == 1 {
        now := now + [frame];
        return;
      }
      if FreeSpace() >= |frame| {
        BufferWrite(frame);
      } else {
        assert sbuffer == sbuffer + [];
      }
      now := FlushIfFull(now);
    }

    method OneResampledFrame(m: Media, resampler: Resampler, pending: seq<seq<byte>>) returns (now: seq<seq<byte>>)
      requires channels > 0
      modifies this`sbuffer
      ensures var r := TakeResampled(old(sbuffer), m, capacity, SampleBytes(channels), rtpPackets, resampler);
              sbuffer == r.buffer && now == pending + r.packets
    {
      now := pending;
      if |m.audio| == 0 {
        return;
      }
      var room := Room(sbuffer, capacity, SampleBytes(channels));
      if room == 0 {
        now := FlushIfFull(now);
        return;
      }
      var out := resampler(m.id, room);
      if |out| > 0 {
        if rtpPackets == 1 {
          now := now + [out];
          return;
        }
        if |out| <= FreeSpace() {
          BufferWrite(out);
        }
      }
      assert sbuffer == old(sbuffer) + Kept(old(sbuffer), out, capacity);
      now := FlushIfFull(now);
    }

    /** The final loop: writeBinary for every chunk that is not empty. */
    method HandOff(pending: seq<seq<byte>>) returns (sent: seq<seq<byte>>)
      ensures sent == NonEmpty(pending)
    {
      sent := [];
      for i := 0 to |pending|
        invariant sent + NonEmpty(pending[i..]) == NonEmpty(pending)
      {
        assert pending[i..][1..] == pending[i + 1..];
        if pending[i] != [] {
          Assoc(sent, [pending[i]], NonEmpty(pending[i + 1..]));
          sent := sent + [pending[i]];
        }
      }
    }

    /** stream_frame without a resampler: `ready` unless the lock is taken or the streamer is
        gone, `connected` as isConnected says afterwards. */
    method StreamFrame(ready: bool, frames: seq<seq<byte>>, connected: bool) returns (sent: seq<seq<byte>>)
      modifies this`sbuffer
      ensures var read := if ready && !paused && !cleanupStarted then frames else [];
              var m := Loop(Plain(capacity, rtpPackets), old(sbuffer), read);
              sbuffer == m.buffer && sent == if connected then NonEmpty(m.packets) else []
    {
      sent := [];
      if paused || cleanupStarted || !ready {
        return;
      }
      var pending: seq<seq<byte>> := [];
      var i := 0;
      while i < |frames|
        invariant 0 <= i <= |frames|
        invariant Loop(Plain(capacity, rtpPackets), old(sbuffer), frames[..i]) == Made(sbuffer, pending)
      {
        LoopSnoc(Plain(capacity, rtpPackets), old(sbuffer), frames[..i], frames[i]);
        assert frames[..i + 1] == frames[..i] + [frames[i]];
        pending := OnePlainFrame(frames[i], pending);
        i := i + 1;
      }
      assert frames[..i] == frames;
      if connected {
        sent := HandOff(pending);
      }
    }

    /** stream_frame with a resampler. */
    method StreamFrameResampled(ready: bool, frames: seq<Media>, resampler: Resampler, connected: bool)
      returns (sent: seq<seq<byte>>)
      requires channels > 0
      modifies this`sbuffer
      ensures var read := if ready && !paused && !cleanupStarted then frames else [];
              var m := Loop(Resampled(capacity, SampleBytes(channels), rtpPackets, resampler), old(sbuffer), read);
              sbuffer == m.buffer && sent == if connected then NonEmpty(m.packets) else []
    {
      sent := [];
      if paused || cleanupStarted || !ready {
        return;
      }
      var pending: seq<seq<byte>> := [];
      ghost var take := Resampled(capacity, SampleBytes(channels), rtpPackets, resampler);
      var i := 0;
      while i < |frames|
        invariant 0 <= i <= |frames|
        invariant Loop(take, old(sbuffer), frames[..i]) == Made(sbuffer, pending)
      {
        LoopSnoc(take, old(sbuffer), frames[..i], frames[i]);
        assert frames[..i + 1] == frames[..i] + [frames[i]];
        pending := OneResampledFrame(frames[i], resampler, pending);
        i := i + 1;
      }
      assert frames[..i] == frames;
      if connected {
        sent := HandOff(pending);
      }
    }
  }
}
