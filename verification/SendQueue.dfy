/** The send queue: what one drain does to the queue and to the wire. */
module SendQueue {
  import opened Bytes
  import opened Frames

  datatype Item = Item(data: seq<byte>, isBinary: bool)

  const MAX_SEND_QUEUE: nat := 1024

  /** What the k-th send() of one frame returns. The socket takes no more than it is offered. */
  type Writes = nat -> int

  /** What the environment supplies to one sendFrame: the random mask and the socket's answers. */
  datatype Attempt = Attempt(mask: Mask, writes: Writes)

  /** What it supplies to a series of sendFrame calls. */
  type Link = nat -> Attempt

  function Min(a: nat, b: nat): nat {
    if a < b then a else b
  }

  /** How many of `left` bytes the socket takes from its k-th answer on. */
  function Taken(w: Writes, k: nat, left: nat): (t: nat)
    ensures t <= left
    decreases left
  {
    if left == 0 || w(k) <= 0 then 0
    else Min(w(k), left) + Taken(w, k + 1, left - Min(w(k), left))
  }

  /** The sum of the first n answers. */
  function Answers(w: Writes, k: nat, n: nat): int
    decreases n
  {
    if n == 0 then 0 else w(k) + Answers(w, k + 1, n - 1)
  }

  /** The first n answers are positive. */
  ghost predicate Accepting(w: Writes, k: nat, n: nat) {
    forall i :: k <= i < k + n ==> w(i) > 0
  }

  /** Positive answers up to the first that is not add up to the bytes taken, if they do not reach
      the end of the frame before that. */
  lemma {:induction false} TakenIs(w: Writes, k: nat, n: nat, left: nat)
    requires Accepting(w, k, n)
    ensures Answers(w, k, n) >= left ==> Taken(w, k, left) == left
    ensures Answers(w, k, n) < left && w(k + n) <= 0 ==> Taken(w, k, left) == Answers(w, k, n)
    ensures Answers(w, k, n) >= 0
    decreases n
  {
    if n > 0 {
      TakenIs(w, k + 1, n - 1, if w(k) < left then left - w(k) else 0);
    }
  }

  function FrameOf(item: Item, mask: Mask): seq<byte> {
    EncodeFrame(if item.isBinary then OP_BINARY else OP_TEXT, item.data, mask)
  }

  /** The bytes of a frame that reach the socket, if it is open. */
  function SentBytes(open: bool, frame: seq<byte>, w: Writes): seq<byte> {
    if open then frame[..Taken(w, 0, |frame|)] else []
  }

  predicate Succeeds(open: bool, frame: seq<byte>, w: Writes) {
    open && Taken(w, 0, |frame|) == |frame|
  }

  // ---- drainSendQueue ----

  /** A drain in progress: the queue, the retry counter, the frames tried, the items sent and
      all the bytes on the wire. */
  datatype Drain = Drain(queue: seq<Item>, retries: nat, calls: nat, sent: seq<Item>, wire: seq<byte>)

  predicate Going(d: Drain) {
    d.queue != [] && d.retries < |d.queue|
  }

  /** One turn of the loop. */
  function DrainStep(d: Drain, open: bool, link: Link): Drain
    requires Going(d)
  {
    var item, rest := d.queue[0], d.queue[1..];
    if item.data == [] then d.(queue := rest) else
    var frame := FrameOf(item, link(d.calls).mask);
    var d' := d.(calls := d.calls + 1, wire := d.wire + SentBytes(open, frame, link(d.calls).writes));
    if Succeeds(open, frame, link(d.calls).writes)
    then d'.(queue := rest, retries := 0, sent := d.sent + [item])
    else d'.(queue := rest + [item], retries := d.retries + 1)
  }

  /** The whole loop. It ends because either the queue shrinks or the retries catch up with it. */
  function DrainAll(d: Drain, open: bool, link: Link): (r: Drain)
    ensures |r.queue| <= |d.queue| && r.calls >= d.calls
    decreases |d.queue|, if d.retries < |d.queue| then |d.queue| - d.retries else 0
  {
    if Going(d) then DrainAll(DrainStep(d, open, link), open, link) else d
  }

  function NonEmpty(items: seq<Item>): seq<Item> {
    if items == [] then []
    else if items[0].data == [] then NonEmpty(items[1..])
    else [items[0]] + NonEmpty(items[1..])
  }

  lemma {:induction false} NonEmptyAppend(a: seq<Item>, b: seq<Item>)
    ensures NonEmpty(a + b) == NonEmpty(a) + NonEmpty(b)
  {
    if a == [] {
      assert a + b == b;
    } else {
      assert (a + b)[0] == a[0] && (a + b)[1..] == a[1..] + b;
      NonEmptyAppend(a[1..], b);
    }
  }

  /** No item is empty: what the producers let in. */
  predicate Filled(items: seq<Item>) {
    forall i :: 0 <= i < |items| ==> items[i].data != []
  }

  lemma {:induction false} FilledIsNonEmpty(items: seq<Item>)
    requires Filled(items)
    ensures NonEmpty(items) == items
  {
    if items != [] {
      FilledIsNonEmpty(items[1..]);
    }
  }

  lemma {:induction false} DrainKeepsFilled(d: Drain, open: bool, link: Link)
    requires Filled(d.queue)
    ensures Filled(DrainAll(d, open, link).queue)
    decreases |d.queue|, if d.retries < |d.queue| then |d.queue| - d.retries else 0
  {
    if Going(d) {
      DrainKeepsFilled(DrainStep(d, open, link), open, link);
    }
  }

  /** One turn neither loses nor invents an item. */
  lemma StepConserves(d: Drain, open: bool, link: Link)
    requires Going(d)
    ensures var r := DrainStep(d, open, link);
            multiset(r.sent) + multiset(NonEmpty(r.queue)) == multiset(d.sent) + multiset(NonEmpty(d.queue))
  {
    var item, rest := d.queue[0], d.queue[1..];
    if item.data != [] {
      NonEmptyAppend(rest, [item]);
      assert NonEmpty([item]) == [item] + NonEmpty([item][1..]) == [item];
    }
  }

  /** Conservation for every pattern of partial, failed and complete writes: what was sent
      and what is left are the nonempty items there were. */
  lemma {:induction false} DrainConserves(d: Drain, open: bool, link: Link)
    ensures var r := DrainAll(d, open, link);
            multiset(r.sent) + multiset(NonEmpty(r.queue)) == multiset(d.sent) + multiset(NonEmpty(d.queue))
    decreases |d.queue|, if d.retries < |d.queue| then |d.queue| - d.retries else 0
  {
    if Going(d) {
      StepConserves(d, open, link);
      DrainConserves(DrainStep(d, open, link), open, link);
    }
  }

  // ---- Order, whatever the writes ----

  /** sendFrame reports success for the item. */
  predicate Through(item: Item, open: bool, a: Attempt) {
    Succeeds(open, FrameOf(item, a.mask), a.writes)
  }

  /** The i-th of the items, tried in order from the first-th frame on, gets through. */
  predicate Gets(items: seq<Item>, open: bool, link: Link, first: nat, i: nat)
    requires i < |items|
  {
    Through(items[i], open, link(first + i))
  }

  ghost predicate NoneGets(items: seq<Item>, open: bool, link: Link, first: nat) {
    forall i :: 0 <= i < |items| ==> !Gets(items, open, link, first, i)
  }

  /** Tried in order, no item gets through behind one that does not. */
  ghost predicate NoRecovery(items: seq<Item>, open: bool, link: Link, first: nat) {
    forall i, j :: 0 <= i < j < |items| && !Gets(items, open, link, first, i) ==> !Gets(items, open, link, first, j)
  }

  lemma GetsBehind(item: Item, rest: seq<Item>, open: bool, link: Link, first: nat, i: nat)
    requires i < |rest|
    ensures Gets([item] + rest, open, link, first, i + 1) == Gets(rest, open, link, first + 1, i)
  {}

  /** One item in front of the others. */
  lemma FirstGets(item: Item, rest: seq<Item>, open: bool, link: Link, first: nat)
    ensures Gets([item] + rest, open, link, first, 0) == Through(item, open, link(first))
    ensures NoneGets([item] + rest, open, link, first)
       <==> !Through(item, open, link(first)) && NoneGets(rest, open, link, first + 1)
    ensures NoRecovery([item] + rest, open, link, first)
       <==> if Through(item, open, link(first)) then NoRecovery(rest, open, link, first + 1)
            else NoneGets(rest, open, link, first + 1)
  {
    var all := [item] + rest;
    var second := first + 1;
    forall i | 0 < i < |all|
      ensures Gets(all, open, link, first, i) == Gets(rest, open, link, second, i - 1)
    {
      GetsBehind(item, rest, open, link, first, i - 1);
    }
    forall i | 0 <= i < |rest|
      ensures Gets(rest, open, link, second, i) == Gets(all, open, link, first, i + 1)
    {
      GetsBehind(item, rest, open, link, first, i);
    }
  }

  /** A failure moves the item to the back, whatever part of it was taken. */
  lemma StepFails(d: Drain, open: bool, link: Link)
    requires Going(d) && d.queue[0].data != [] && !Through(d.queue[0], open, link(d.calls))
    ensures var r := DrainStep(d, open, link);
            && r.queue == d.queue[1..] + [d.queue[0]] && r.sent == d.sent
            && r.retries == d.retries + 1 && r.calls == d.calls + 1
  {}

  /** A success takes the item off the queue. */
  lemma StepSends(d: Drain, open: bool, link: Link)
    requires Going(d) && d.queue[0].data != [] && Through(d.queue[0], open, link(d.calls))
    ensures var r := DrainStep(d, open, link);
            && r.queue == d.queue[1..] && r.sent == d.sent + [d.queue[0]]
            && r.retries == 0 && r.calls == d.calls + 1
  {}

  /** Once nothing gets through any more, the rest of the drain puts the queue back in its order. */
  lemma {:induction false} DrainFailing(d: Drain, open: bool, link: Link, rest: seq<Item>, failed: seq<Item>)
    requires d.queue == rest + failed && d.retries == |failed|
    requires NoneGets(NonEmpty(rest), open, link, d.calls)
    ensures var r := DrainAll(d, open, link);
            r.queue == failed + NonEmpty(rest) && r.sent == d.sent
    decreases |rest|
  {
    if rest == [] {
      assert failed + [] == failed && rest + failed == failed;
    } else {
      var item := rest[0];
      assert d.queue[0] == item && d.queue[1..] == rest[1..] + failed;
      var next := DrainStep(d, open, link);
      if item.data == [] {
        DrainFailing(next, open, link, rest[1..], failed);
      } else {
        FirstGets(item, NonEmpty(rest[1..]), open, link, d.calls);
        StepFails(d, open, link);
        Assoc(rest[1..], failed, [item]);
        DrainFailing(next, open, link, rest[1..], failed + [item]);
        Assoc(failed, [item], NonEmpty(rest[1..]));
      }
    }
  }

  /** Without recovery a drain sends a prefix and leaves the rest in order. */
  lemma {:induction false} DrainKeepsOrder(d: Drain, open: bool, link: Link)
    requires d.retries == 0 && NoRecovery(NonEmpty(d.queue), open, link, d.calls)
    ensures var r := DrainAll(d, open, link); r.sent + r.queue == d.sent + NonEmpty(d.queue)
    decreases |d.queue|
  {
    if d.queue != [] {
      var item, rest := d.queue[0], d.queue[1..];
      if item.data == [] {
        DrainKeepsOrder(DrainStep(d, open, link), open, link);
      } else {
        FirstGets(item, NonEmpty(rest), open, link, d.calls);
        if Through(item, open, link(d.calls)) {
          StepSends(d, open, link);
          DrainKeepsOrder(DrainStep(d, open, link), open, link);
          Assoc(d.sent, [item], NonEmpty(rest));
        } else {
          StepFails(d, open, link);
          DrainFailing(DrainStep(d, open, link), open, link, rest, [item]);
        }
      }
    }
  }

  /** Tried in order, the first n items get through, and the next one does not. */
  ghost predicate Leads(items: seq<Item>, open: bool, link: Link, first: nat, n: nat) {
    && n <= |items|
    && (forall i :: 0 <= i < n ==> Gets(items, open, link, first, i))
    && (n < |items| ==> !Gets(items, open, link, first, n))
  }

  lemma LeadsBehind(item: Item, rest: seq<Item>, open: bool, link: Link, first: nat, n: nat)
    requires Leads([item] + rest, open, link, first, n)
    ensures Through(item, open, link(first)) <==> n > 0
    ensures n > 0 ==> Leads(rest, open, link, first + 1, n - 1)
  {
    var all, second := [item] + rest, first + 1;
    assert Gets(all, open, link, first, 0) == Through(item, open, link(first));
    if n > 0 {
      forall i | 0 <= i < |rest| ensures Gets(rest, open, link, second, i) == Gets(all, open, link, first, i + 1) {
        GetsBehind(item, rest, open, link, first, i);
      }
    }
  }

  /** As many are sent as lead. */
  lemma {:induction false} LeadingAreSent(d: Drain, open: bool, link: Link, n: nat)
    requires d.retries == 0 && NoRecovery(NonEmpty(d.queue), open, link, d.calls)
    requires Leads(NonEmpty(d.queue), open, link, d.calls, n)
    ensures |DrainAll(d, open, link).sent| == |d.sent| + n
    decreases |d.queue|
  {
    if d.queue != [] {
      var item, rest := d.queue[0], d.queue[1..];
      if item.data == [] {
        LeadingAreSent(DrainStep(d, open, link), open, link, n);
      } else {
        FirstGets(item, NonEmpty(rest), open, link, d.calls);
        LeadsBehind(item, NonEmpty(rest), open, link, d.calls, n);
        if n > 0 {
          StepSends(d, open, link);
          LeadingAreSent(DrainStep(d, open, link), open, link, n - 1);
        } else {
          StepFails(d, open, link);
          DrainFailing(DrainStep(d, open, link), open, link, rest, [item]);
        }
      }
    }
  }

  lemma Prefix(before: seq<Item>, items: seq<Item>, sent: seq<Item>, queue: seq<Item>, n: nat)
    requires sent + queue == before + items && |sent| == |before| + n && n <= |items|
    ensures sent == before + items[..n] && queue == items[n..]
  {
    assert sent == (before + items)[..|before| + n] && queue == (before + items)[|before| + n..];
  }

  /** Without recovery a drain sends exactly the leading items that get through, and leaves the
      others in order; so it empties the queue exactly if all of them get through. */
  lemma DrainSendsLeading(d: Drain, open: bool, link: Link, n: nat)
    requires d.retries == 0 && NoRecovery(NonEmpty(d.queue), open, link, d.calls)
    requires Leads(NonEmpty(d.queue), open, link, d.calls, n)
    ensures var r := DrainAll(d, open, link);
            r.sent == d.sent + NonEmpty(d.queue)[..n] && r.queue == NonEmpty(d.queue)[n..]
  {
    var r := DrainAll(d, open, link);
    DrainKeepsOrder(d, open, link);
    LeadingAreSent(d, open, link, n);
    Prefix(d.sent, NonEmpty(d.queue), r.sent, r.queue, n);
  }

  /** What has been sent stays sent. */
  lemma {:induction false} SentGrows(d: Drain, open: bool, link: Link)
    ensures d.sent <= DrainAll(d, open, link).sent
    decreases |d.queue|, if d.retries < |d.queue| then |d.queue| - d.retries else 0
  {
    if Going(d) {
      SentGrows(DrainStep(d, open, link), open, link);
    }
  }

  /** After a failure, the next item to get through is one that was behind the failed ones. */
  lemma {:induction false} RecoveryOvertakes(d: Drain, open: bool, link: Link, rest: seq<Item>, failed: seq<Item>)
    requires d.queue == rest + failed && d.retries == |failed|
    requires !NoneGets(NonEmpty(rest), open, link, d.calls)
    ensures var r := DrainAll(d, open, link);
            |r.sent| > |d.sent| && r.sent[|d.sent|] in NonEmpty(rest)
    decreases |rest|
  {
    var item := rest[0];
    assert d.queue[0] == item && d.queue[1..] == rest[1..] + failed;
    var next := DrainStep(d, open, link);
    if item.data == [] {
      RecoveryOvertakes(next, open, link, rest[1..], failed);
    } else {
      FirstGets(item, NonEmpty(rest[1..]), open, link, d.calls);
      if Through(item, open, link(d.calls)) {
        StepSends(d, open, link);
        SentGrows(next, open, link);
        assert next.sent[|d.sent|] == item;
      } else {
        StepFails(d, open, link);
        Assoc(rest[1..], failed, [item]);
        RecoveryOvertakes(next, open, link, rest[1..], failed + [item]);
      }
    }
  }

  ghost predicate Distinct(items: seq<Item>) {
    forall i, j :: 0 <= i < j < |items| ==> items[i] != items[j]
  }

  lemma DistinctTail(item: Item, items: seq<Item>)
    requires Distinct([item] + items)
    ensures Distinct(items) && item !in items
  {
    var all := [item] + items;
    assert forall k :: 0 <= k < |items| ==> items[k] == all[k + 1];
    assert all[0] == item;
  }

  /** A first item that is not the expected one spoils the order for good. */
  lemma Differs(before: seq<Item>, sent: seq<Item>, item: Item, rest: seq<Item>)
    requires before <= sent && |sent| > |before| && sent[|before|] != item
    ensures !(sent <= before + ([item] + rest))
  {
    assert (before + ([item] + rest))[|before|] == item;
  }

  /** With a recovery, and all items different, an item is sent before its turn. */
  lemma {:induction false} RecoveryReorders(d: Drain, open: bool, link: Link)
    requires d.retries == 0 && Distinct(NonEmpty(d.queue)) && !NoRecovery(NonEmpty(d.queue), open, link, d.calls)
    ensures var r := DrainAll(d, open, link); !(r.sent <= d.sent + NonEmpty(d.queue))
    decreases |d.queue|
  {
    var item, rest := d.queue[0], d.queue[1..];
    var next := DrainStep(d, open, link);
    if item.data == [] {
      RecoveryReorders(next, open, link);
    } else {
      DistinctTail(item, NonEmpty(rest));
      FirstGets(item, NonEmpty(rest), open, link, d.calls);
      if Through(item, open, link(d.calls)) {
        StepSends(d, open, link);
        RecoveryReorders(next, open, link);
        Assoc(d.sent, [item], NonEmpty(rest));
      } else {
        StepFails(d, open, link);
        RecoveryOvertakes(next, open, link, rest, [item]);
        SentGrows(next, open, link);
        Differs(d.sent, DrainAll(next, open, link).sent, item, NonEmpty(rest));
      }
    }
  }

  /** For any writes, partial ones included, and any socket: a drain keeps the order of different
      items exactly when, each tried once in order, none gets through behind one that does not. */
  lemma OrderExactly(queue: seq<Item>, wire: seq<byte>, open: bool, link: Link)
    requires Distinct(NonEmpty(queue))
    ensures var r := DrainAll(Drain(queue, 0, 0, [], wire), open, link);
            r.sent + r.queue == NonEmpty(queue) <==> NoRecovery(NonEmpty(queue), open, link, 0)
  {
    var d := Drain(queue, 0, 0, [], wire);
    assert [] + NonEmpty(queue) == NonEmpty(queue);
    if NoRecovery(NonEmpty(queue), open, link, 0) {
      DrainKeepsOrder(d, open, link);
    } else {
      RecoveryReorders(d, open, link);
    }
  }

  /** A socket that takes `part` bytes of the first frame and then refuses, and takes all of the
      others. */
  function Recovering(mask: Mask, part: nat): Link {
    (k: nat) => Attempt(mask, (i: nat) => if k > 0 then 1 else if i == 0 then part else -1)
  }

  lemma {:induction false} AllTaken(w: Writes, k: nat, left: nat)
    requires forall i: nat :: w(i) > 0
    ensures Taken(w, k, left) == left
    decreases left
  {
    if left > 0 {
      AllTaken(w, k + 1, left - Min(w(k), left));
    }
  }

  lemma RecoveringTakes(item: Item, mask: Mask, part: nat, k: nat)
    requires k > 0 || part < |FrameOf(item, mask)|
    ensures Through(item, true, Recovering(mask, part)(k)) <==> k > 0
  {
    var w := Recovering(mask, part)(k).writes;
    var n := |FrameOf(item, mask)|;
    if k > 0 {
      AllTaken(w, 0, n);
    } else if part > 0 {
      assert Taken(w, 1, n - part) == 0;
    }
  }

  /** Two items, the first cut off once after none or some of its bytes, are sent in the other
      order. */
  lemma RecoverySwaps(a: Item, b: Item, wire: seq<byte>, mask: Mask, part: nat)
    requires a.data != [] && b.data != [] && part < |FrameOf(a, mask)|
    ensures DrainAll(Drain([a, b], 0, 0, [], wire), true, Recovering(mask, part)).sent == [b, a]
  {
    var link := Recovering(mask, part);
    var d := Drain([a, b], 0, 0, [], wire);
    RecoveringTakes(a, mask, part, 0);
    StepFails(d, true, link);
    var d1 := DrainStep(d, true, link);
    assert d1.queue == [b, a];
    RecoveringTakes(b, mask, part, 1);
    StepSends(d1, true, link);
    var d2 := DrainStep(d1, true, link);
    assert d2.queue == [a] && d2.sent == [b];
    RecoveringTakes(a, mask, part, 2);
    StepSends(d2, true, link);
    var d3 := DrainStep(d2, true, link);
    assert d3.queue == [] && d3.sent == [b, a];
    assert DrainAll(d, true, link) == DrainAll(d1, true, link) == DrainAll(d2, true, link) == d3;
  }

  // ---- Writes that take all or nothing ----

  /** The socket takes nothing of the frame, or keeps taking until it has all of it. */
  ghost predicate Clean(w: Writes) {
    w(0) <= 0 || forall i: nat :: w(i) > 0
  }

  ghost predicate CleanFrom(link: Link, k: nat) {
    forall i: nat :: k <= i ==> Clean(link(i).writes)
  }

  predicate Fails(a: Attempt) {
    a.writes(0) <= 0
  }

  lemma CleanTaken(w: Writes, left: nat)
    requires Clean(w)
    ensures Taken(w, 0, left) == if w(0) <= 0 then 0 else left
  {
    if w(0) > 0 {
      AllTaken(w, 0, left);
    }
  }

  /** A clean failure leaves nothing on the wire. */
  lemma CleanFailure(d: Drain, open: bool, link: Link)
    requires Going(d) && Clean(link(d.calls).writes) && !Through(d.queue[0], open, link(d.calls))
    ensures DrainStep(d, open, link).wire == d.wire
  {
    CleanTaken(link(d.calls).writes, |FrameOf(d.queue[0], link(d.calls).mask)|);
    assert d.wire + [] == d.wire;
  }

  /** With clean writes, a drain in which nothing more gets through leaves the wire alone. */
  lemma {:induction false} FailingLeavesWire(d: Drain, open: bool, link: Link, rest: seq<Item>, failed: seq<Item>)
    requires d.queue == rest + failed && d.retries == |failed|
    requires NoneGets(NonEmpty(rest), open, link, d.calls) && CleanFrom(link, d.calls)
    ensures DrainAll(d, open, link).wire == d.wire
    decreases |rest|
  {
    if rest == [] {
      assert rest + failed == failed;
    } else {
      var item := rest[0];
      assert d.queue[0] == item && d.queue[1..] == rest[1..] + failed;
      var next := DrainStep(d, open, link);
      if item.data == [] {
        FailingLeavesWire(next, open, link, rest[1..], failed);
      } else {
        FirstGets(item, NonEmpty(rest[1..]), open, link, d.calls);
        StepFails(d, open, link);
        CleanFailure(d, open, link);
        Assoc(rest[1..], failed, [item]);
        FailingLeavesWire(next, open, link, rest[1..], failed + [item]);
      }
    }
  }

  // ---- The wire ----

  /** The data items a reader finds in a list of frames. */
  function ItemsOf(frames: seq<Frame>): seq<Item> {
    if frames == [] then []
    else
      var f, more := frames[0], ItemsOf(frames[1..]);
      if f.opcode == OP_TEXT then [Item(f.payload, false)] + more
      else if f.opcode == OP_BINARY then [Item(f.payload, true)] + more
      else more
  }

  lemma {:induction false} ItemsOfSnoc(frames: seq<Frame>, f: Frame)
    ensures ItemsOf(frames + [f]) == ItemsOf(frames) + ItemsOf([f])
  {
    if frames == [] {
      assert frames + [f] == [f];
    } else {
      assert (frames + [f])[0] == frames[0] && (frames + [f])[1..] == frames[1..] + [f];
      ItemsOfSnoc(frames[1..], f);
    }
  }

  /** The wire is whole frames, and its data frames are just these items. */
  predicate Delivered(wire: seq<byte>, items: seq<Item>) {
    ParseAll(wire).rest == [] && ItemsOf(ParseAll(wire).frames) == items
  }

  predicate Sized(items: seq<Item>) {
    forall i :: 0 <= i < |items| ==> |items[i].data| <= MAX_VECTOR
  }

  /** One more frame, clean written, adds its item if it is a data frame and gets through. */
  lemma FrameDelivers(wire: seq<byte>, items: seq<Item>, opcode: byte, data: seq<byte>, open: bool, a: Attempt)
    requires Delivered(wire, items) && Clean(a.writes) && opcode < 16 && |data| <= MAX_VECTOR
    ensures var frame := EncodeFrame(opcode, data, a.mask);
            && (Succeeds(open, frame, a.writes) <==> open && !Fails(a))
            && Delivered(wire + SentBytes(open, frame, a.writes),
                 if open && !Fails(a) then items + ItemsOf([Frame(true, opcode, data)]) else items)
  {
    var frame := EncodeFrame(opcode, data, a.mask);
    CleanTaken(a.writes, |frame|);
    assert frame[..|frame|] == frame && wire + [] == wire;
    if open && !Fails(a) {
      ParseAllSnoc(wire, opcode, data, a.mask);
      ItemsOfSnoc(ParseAll(wire).frames, Frame(true, opcode, data));
    }
  }

  /** The wire is whole frames after one more exactly if none or all of its bytes were taken. */
  lemma WholeExactly(wire: seq<byte>, opcode: byte, data: seq<byte>, mask: Mask, k: nat)
    requires ParseAll(wire).rest == [] && opcode < 16 && |data| <= MAX_VECTOR
    requires k <= |EncodeFrame(opcode, data, mask)|
    ensures var frame := EncodeFrame(opcode, data, mask);
            ParseAll(wire + frame[..k]).rest == [] <==> k == 0 || k == |frame|
  {
    var frame := EncodeFrame(opcode, data, mask);
    ParseAllAppend(wire, frame[..k]);
    assert [] + frame[..k] == frame[..k];
    if k == |frame| {
      assert frame[..k] == frame;
      ParseAllSnoc(wire, opcode, data, mask);
    } else {
      PrefixIncomplete(opcode, data, mask, k);
    }
  }

  lemma ItemOfFrame(item: Item)
    ensures ItemsOf([Frame(true, if item.isBinary then OP_BINARY else OP_TEXT, item.data)]) == [item]
  {
    assert ItemsOf([]) == [];
  }

  lemma StepDelivers(d: Drain, open: bool, link: Link, base: seq<Item>)
    requires Going(d) && CleanFrom(link, d.calls) && Sized(d.queue) && Delivered(d.wire, base + d.sent)
    ensures var r := DrainStep(d, open, link);
            Sized(r.queue) && r.calls >= d.calls && Delivered(r.wire, base + r.sent)
  {
    var item, a := d.queue[0], link(d.calls);
    if item.data != [] {
      FrameDelivers(d.wire, base + d.sent, if item.isBinary then OP_BINARY else OP_TEXT, item.data, open, a);
      ItemOfFrame(item);
      Assoc(base, d.sent, [item]);
    }
  }

  /** The items a drain sends are the data frames it adds to the wire, in order. */
  lemma {:induction false} DrainDelivers(d: Drain, open: bool, link: Link, base: seq<Item>)
    requires CleanFrom(link, d.calls) && Sized(d.queue) && Delivered(d.wire, base + d.sent)
    ensures var r := DrainAll(d, open, link);
            Sized(r.queue) && Delivered(r.wire, base + r.sent)
    decreases |d.queue|, if d.retries < |d.queue| then |d.queue| - d.retries else 0
  {
    if Going(d) {
      StepDelivers(d, open, link, base);
      DrainDelivers(DrainStep(d, open, link), open, link, base);
    }
  }
}
