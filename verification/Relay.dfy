/**
 * The Mooncake chain: rank 0 sends, ranks 1..n receive, and every rank passes
 * each bucket on to its successor through two buffer halves and two completion
 * slots. One sync is a transition system in which any rank may take the next
 * step. A receiver's RDMA read copies one byte per step, so a read may
 * interleave with any step of the rank it reads from.
 */
module Relay {
  import opened Common

  type Bucket = seq<Weight>

  datatype Meta = Meta(name: string, item: ItemSize, offset: nat, size: nat)

  /** The record one rank sends its successor; the pointers are half and slot numbers. */
  datatype Info = Info(meta: seq<Meta>, half: nat, slot: nat, len: nat, isLast: bool)

  datatype Pc =
    | Fill(filled: nat)    // sender: this many weights of the bucket are in the half
    | SlotWait             // sender: bucket sent, waiting before it refills the other half
    | FinalWait            // sender: last bucket sent
    | Recv                 // receiver: waiting for the next record
    | Await                // receiver: waiting until its own half may be overwritten
    | Read(pos: nat)       // receiver: this many bytes have been read
    | Forward
    | Yield(yielded: nat)  // receiver: this many weights have been handed to the consumer
    | Signal
    | Finished

  /**
   * One rank. A slot holds the number of the bucket that was signalled; the
   * protocol only ever tests whether a slot is set.
   */
  datatype Rank = Rank(
    idx: nat,
    pc: Pc,
    halves: seq<seq<byte>>,
    slots: seq<Option<nat>>,
    queue: seq<Info>,
    cur: Info,
    out: seq<Weight>)

  /** A receiver and the rank before it. */
  datatype Hop = Hop(pred: Rank, rank: Rank)

  type State = seq<Rank>

  /** n receivers, a bucket size in bytes, and the buckets of one sync. */
  datatype Config = Config(n: nat, size: nat, buckets: seq<Bucket>)

  ghost predicate ValidConfig(c: Config) {
    && c.n >= 1
    && |c.buckets| >= 1
    && forall b :: 0 <= b < |c.buckets| ==> |Bytes(c.buckets[b])| <= c.size
  }

  // ----- buckets -----

  function Bytes(b: Bucket): (r: seq<byte>) {
    if b == [] then [] else Bytes(b[..|b| - 1]) + b[|b| - 1].bytes
  }

  /** The names in a bucket, each once, where it first appears. */
  function Names(b: Bucket): (r: seq<string>) {
    if b == [] then []
    else
      var n := |b| - 1;
      var before := Names(b[..n]);
      if b[n].name in before then before else before + [b[n].name]
  }

  /** The last weight of that name in the bucket. */
  function LastOf(b: Bucket, name: string): (k: nat)
    requires name in Names(b)
    ensures k < |b|
  {
    var n := |b| - 1;
    if b[n].name == name then n else LastOf(b[..n], name)
  }

  /** The record of weight k of the bucket. */
  function MetaOf(b: Bucket, k: nat): Meta
    requires k < |b|
  {
    Meta(b[k].name, b[k].item, |Bytes(b[..k])|, |b[k].bytes|)
  }

  /** bucket_meta, a dict: one record per name, that of the last weight of that name. */
  function Metas(b: Bucket): (r: seq<Meta>)
    ensures |r| == |Names(b)|
  {
    seq(|Names(b)|, y requires 0 <= y < |Names(b)| => MetaOf(b, LastOf(b, Names(b)[y])))
  }

  /** The weights that bucket_meta describes. */
  function Described(b: Bucket): (r: seq<Weight>)
    ensures |r| == |Names(b)|
  {
    seq(|Names(b)|, y requires 0 <= y < |Names(b)| => b[LastOf(b, Names(b)[y])])
  }

  function DescribedAll(bs: seq<Bucket>): (r: seq<seq<Weight>>)
    ensures |r| == |bs| && forall j :: 0 <= j < |bs| ==> r[j] == Described(bs[j])
  {
    seq(|bs|, j requires 0 <= j < |bs| => Described(bs[j]))
  }

  /** What a sync of these buckets hands to a receiver. */
  function Handed(c: Config): seq<seq<Weight>> {
    DescribedAll(c.buckets)
  }

  function InfoOf(c: Config, j: nat): Info
    requires j < |c.buckets|
  {
    Info(Metas(c.buckets[j]), j % 2, j % 2, |Bytes(c.buckets[j])|, j == |c.buckets| - 1)
  }

  // ----- steps -----

  predicate WellShaped(c: Config, s: State) {
    && |s| == c.n + 1
    && forall r :: 0 <= r < |s| ==> ShapedRank(c, s[r])
  }

  predicate ShapedRank(c: Config, x: Rank) {
    |x.halves| == 2 && |x.slots| == 2 && |x.halves[0]| == c.size && |x.halves[1]| == c.size
  }

  /**
   * Whether rank r can take its next step. Only SlotWait, FinalWait, Recv and
   * Await ever wait; a rank whose next view raises stops for good; the other
   * conditions are bounds that always hold in a run.
   */
  predicate Enabled(c: Config, s: State, r: nat)
    requires WellShaped(c, s)
  {
    r <= c.n && if r == 0 then SenderEnabled(c, s[0]) else ReceiverEnabled(c, s[r - 1], s[r], r == c.n)
  }

  predicate SenderEnabled(c: Config, x: Rank)
    requires ShapedRank(c, x)
  {
    x.idx < |c.buckets| &&
    match x.pc
    case Fill(k) =>
      var b := c.buckets[x.idx];
      k <= |b| && (k < |b| ==> |Bytes(b[..k])| + |b[k].bytes| <= c.size)
    case SlotWait => x.slots[(x.idx + 1) % 2].Some?
    case FinalWait => x.slots[x.idx % 2].Some?
    case _ => false
  }

  predicate ReceiverEnabled(c: Config, p: Rank, x: Rank, last: bool)
    requires ShapedRank(c, x)
  {
    match x.pc
    case Recv => p.queue != []
    case Await => x.idx >= 2 && !last ==> x.slots[x.idx % 2].Some?
    case Read(pos) => x.cur.half < 2 && x.cur.len <= c.size
    case Forward => true
    case Yield(y) =>
      y < |x.cur.meta| ==> x.cur.meta[y].offset + x.cur.meta[y].size <= c.size && Viewable(c, x.idx % 2, x.cur.meta[y])
    case Signal => x.cur.slot < 2
    case _ => false
  }

  /** A view of a dtype must start at a multiple of its item size, counted from the start of the whole buffer. */
  predicate Viewable(c: Config, half: nat, m: Meta) {
    ((if half == 0 then 0 else c.size) + m.offset) % m.item == 0
  }

  function Overwrite(half: seq<byte>, offset: nat, data: seq<byte>): (r: seq<byte>)
    requires offset + |data| <= |half|
    ensures |r| == |half|
  {
    half[..offset] + data + half[offset + |data|..]
  }

  function SenderNext(c: Config, x: Rank): (y: Rank)
    requires ShapedRank(c, x) && SenderEnabled(c, x)
    ensures ShapedRank(c, y)
  {
    var h := x.idx % 2;
    match x.pc
    case Fill(k) =>
      var b := c.buckets[x.idx];
      if k < |b| then
        x.(halves := x.halves[h := Overwrite(x.halves[h], |Bytes(b[..k])|, b[k].bytes)], pc := Fill(k + 1))
      else
        var sent := x.(queue := x.queue + [InfoOf(c, x.idx)]);
        if x.idx == |c.buckets| - 1 then sent.(pc := FinalWait)
        else if x.idx >= 1 then sent.(pc := SlotWait)
        else sent.(idx := x.idx + 1, pc := Fill(0))
    case SlotWait => x.(slots := x.slots[(x.idx + 1) % 2 := None], idx := x.idx + 1, pc := Fill(0))
    case FinalWait => x.(slots := x.slots[h := None], idx := x.idx + 1, pc := Finished)
  }

  /** The step of a receiver x with predecessor p; p changes at Recv and Signal only. */
  function ReceiverNext(c: Config, p: Rank, x: Rank, last: bool): (r: Hop)
    requires ShapedRank(c, p) && ShapedRank(c, x) && ReceiverEnabled(c, p, x, last)
    ensures ShapedRank(c, r.pred) && ShapedRank(c, r.rank)
  {
    var h := x.idx % 2;
    match x.pc
    case Recv => Hop(p.(queue := p.queue[1..]), x.(cur := p.queue[0], pc := Await))
    case Await => Hop(p, x.(slots := if x.idx >= 2 && !last then x.slots[h := None] else x.slots, pc := Read(0)))
    case Read(pos) =>
      if pos < x.cur.len then
        Hop(p, x.(halves := x.halves[h := x.halves[h][pos := p.halves[x.cur.half][pos]]], pc := Read(pos + 1)))
      else
        Hop(p, x.(pc := Forward))
    case Forward => Hop(p, x.(queue := if last then x.queue else x.queue + [x.cur.(half := h, slot := h)], pc := Yield(0)))
    case Yield(y) =>
      if y < |x.cur.meta| then
        var m := x.cur.meta[y];
        Hop(p, x.(out := x.out + [Weight(m.name, m.item, x.halves[h][m.offset..m.offset + m.size])], pc := Yield(y + 1)))
      else
        Hop(p, x.(pc := Signal))
    case Signal =>
      Hop(p.(slots := p.slots[x.cur.slot := Some(x.idx)]),
          x.(idx := x.idx + 1, pc := if x.cur.isLast then Finished else Recv))
  }

  function Next(c: Config, s: State, r: nat): (t: State)
    requires WellShaped(c, s) && Enabled(c, s, r)
    ensures WellShaped(c, t)
  {
    if r == 0 then s[0 := SenderNext(c, s[0])]
    else
      var Hop(p, x) := ReceiverNext(c, s[r - 1], s[r], r == c.n);
      s[r - 1 := p][r := x]
  }

  // ----- runs -----

  /** The buffers may hold anything; the slots must be clear. */
  ghost predicate Init(c: Config, s: State) {
    && InitExceptSlots(c, s)
    && forall r :: 0 <= r < |s| ==> s[r].slots == [None, None]
  }

  ghost predicate InitExceptSlots(c: Config, s: State) {
    && WellShaped(c, s)
    && forall r :: 0 <= r < |s| ==>
         s[r].idx == 0 && s[r].pc == (if r == 0 then Fill(0) else Recv) && s[r].queue == [] && s[r].out == []
  }

  /** The state after the ranks in the schedule have stepped in that order, if each could. */
  function Exec(c: Config, s: State, schedule: seq<nat>): (r: Option<State>)
    requires WellShaped(c, s)
    ensures r.Some? ==> WellShaped(c, r.value)
  {
    if schedule == [] then Some(s)
    else
      match Exec(c, s, schedule[..|schedule| - 1])
      case None => None
      case Some(t) =>
        var r := schedule[|schedule| - 1];
        if Enabled(c, t, r) then Some(Next(c, t, r)) else None
  }

  // ----- how far a rank is -----

  /** Buckets whose record this rank has passed on. */
  function Sent(x: Rank): nat {
    match x.pc
    case SlotWait => x.idx + 1
    case FinalWait => x.idx + 1
    case Yield(_) => x.idx + 1
    case Signal => x.idx + 1
    case _ => x.idx
  }

  /** Buckets whose record this receiver has taken from its predecessor. */
  function Taken(x: Rank): nat {
    if x.pc.Recv? || x.pc.Finished? then x.idx else x.idx + 1
  }

  /** Buckets this receiver has read completely from its predecessor's buffer. */
  function ReadDone(x: Rank): nat {
    if x.pc.Forward? || x.pc.Yield? || x.pc.Signal? then x.idx + 1 else x.idx
  }

  function Max0(i: int): nat {
    if i < 0 then 0 else i
  }

  /** Signals 0, 1, ... this rank has consumed in order (the sender's final wait is apart). */
  function Consumed(x: Rank): nat {
    match x.pc
    case Recv => Max0(x.idx - 2)
    case Await => Max0(x.idx - 2)
    case Finished => Max0(x.idx - 2)
    case FinalWait => Max0(x.idx - 1)
    case _ => Max0(x.idx - 1)
  }

  /** The unique bucket in [lo, hi) with parity h, when hi <= lo + 2. */
  function Pending(lo: nat, hi: nat, h: nat): Option<nat> {
    if lo < hi && lo % 2 == h then Some(lo)
    else if lo + 1 < hi && (lo + 1) % 2 == h then Some(lo + 1)
    else None
  }

  // ----- the invariant -----

  ghost predicate Holds(c: Config, halves: seq<seq<byte>>, j: nat)
    requires |halves| == 2 && j < |c.buckets|
  {
    StartsWith(halves[j % 2], Bytes(c.buckets[j]))
  }

  ghost predicate StartsWith(half: seq<byte>, data: seq<byte>) {
    |data| <= |half| && half[..|data|] == data
  }

  ghost predicate SenderOk(c: Config, x: Rank) {
    && ShapedRank(c, x)
    && match x.pc
       case Fill(k) =>
         && x.idx < |c.buckets| && k <= |c.buckets[x.idx]|
         && StartsWith(x.halves[x.idx % 2], Bytes(c.buckets[x.idx][..k]))
       case SlotWait => 1 <= x.idx < |c.buckets| - 1
       case FinalWait => x.idx == |c.buckets| - 1
       case Finished => x.idx == |c.buckets|
       case _ => false
  }

  ghost predicate ReceiverOk(c: Config, x: Rank) {
    && ShapedRank(c, x)
    && x.idx <= |c.buckets|
    && (x.pc.Finished? <==> x.idx == |c.buckets|)
    && (!x.pc.Finished? && !x.pc.Recv? ==>
          && x.cur == InfoOf(c, x.idx)
          && |Bytes(c.buckets[x.idx])| <= c.size)
    && match x.pc
       case Recv => x.out == Flatten(Handed(c)[..x.idx])
       case Await => x.out == Flatten(Handed(c)[..x.idx])
       case Read(pos) =>
         && x.out == Flatten(Handed(c)[..x.idx])
         && pos <= x.cur.len
         && StartsWith(x.halves[x.idx % 2], Bytes(c.buckets[x.idx])[..pos])
       case Forward => x.out == Flatten(Handed(c)[..x.idx]) && Holds(c, x.halves, x.idx)
       case Yield(y) =>
         && y <= |Names(c.buckets[x.idx])|
         && x.out == Flatten(Handed(c)[..x.idx]) + Described(c.buckets[x.idx])[..y]
         && Holds(c, x.halves, x.idx)
       case Signal => x.out == Flatten(Handed(c)[..x.idx + 1]) && Holds(c, x.halves, x.idx)
       case Finished => x.out == Flatten(Handed(c))
       case _ => false
  }

  ghost predicate RankOk(c: Config, x: Rank, first: bool) {
    if first then SenderOk(c, x) else ReceiverOk(c, x)
  }

  ghost predicate QueueOk(c: Config, queue: seq<Info>, lo: nat, hi: nat) {
    && lo <= hi <= |c.buckets|
    && |queue| == hi - lo
    && forall k :: 0 <= k < |queue| ==> queue[k] == InfoOf(c, lo + k)
  }

  /** The buckets in [lo, hi) are still in the halves. */
  ghost predicate HoldsRange(c: Config, halves: seq<seq<byte>>, lo: nat, hi: nat) {
    && |halves| == 2
    && hi <= |c.buckets|
    && forall j :: lo <= j < hi ==> Holds(c, halves, j)
  }

  /** The slots hold exactly the signals in [lo, hi), of which there are at most two. */
  ghost predicate SlotsHold(slots: seq<Option<nat>>, lo: nat, hi: nat) {
    && |slots| == 2
    && lo <= hi <= lo + 2
    && slots[0] == Pending(lo, hi, 0)
    && slots[1] == Pending(lo, hi, 1)
  }

  /** Signals written to x by its successor and taken in order; the sender's final wait takes the last one too. */
  function Signalled(x: Rank, y: Rank, first: bool): nat {
    if first && x.pc.Finished? then Max0(y.idx - 1) else y.idx
  }

  /** What holds between a rank x and its successor y; first says that x is the sender. */
  ghost predicate LinkOk(c: Config, x: Rank, y: Rank, first: bool) {
    && QueueOk(c, x.queue, Taken(y), Sent(x))
    && HoldsRange(c, x.halves, y.idx, Sent(x))
    && (first && x.pc.Finished? ==> y.idx == |c.buckets|)
    && SlotsHold(x.slots, Consumed(x), Signalled(x, y, first))
  }

  ghost predicate Inv(c: Config, s: State) {
    && ValidConfig(c)
    && WellShaped(c, s)
    && (forall r :: 0 <= r <= c.n ==> RankAt(c, s, r))
    && (forall r :: 0 <= r < c.n ==> LinkAt(c, s, r))
  }

  ghost predicate RankAt(c: Config, s: State, r: nat)
    requires r < |s|
  {
    RankOk(c, s[r], r == 0)
  }

  ghost predicate LinkAt(c: Config, s: State, r: nat)
    requires r + 1 < |s|
  {
    LinkOk(c, s[r], s[r + 1], r == 0)
  }

  // ----- bucket facts -----

  lemma {:induction false} BytesPrefix(b: Bucket, k: nat)
    requires k <= |b|
    ensures Bytes(b[..k]) <= Bytes(b)
  {
    if k < |b| {
      var n := |b| - 1;
      BytesPrefix(b[..n], k);
      assert b[..n][..k] == b[..k];
    } else {
      assert b[..k] == b;
    }
  }

  /** Each weight of a bucket lies where its record says. */
  lemma {:induction false} MetaLocates(b: Bucket, y: nat)
    requires y < |b|
    ensures Bytes(b[..y + 1]) == Bytes(b[..y]) + b[y].bytes
    ensures |Bytes(b[..y])| + |b[y].bytes| <= |Bytes(b)|
    ensures Bytes(b)[|Bytes(b[..y])|..|Bytes(b[..y])| + |b[y].bytes|] == b[y].bytes
  {
    assert b[..y + 1][..y] == b[..y];
    BytesPrefix(b, y + 1);
    var n := |b| - 1;
    if y < n {
      MetaLocates(b[..n], y);
      assert b[..n][..y] == b[..y];
    }
  }

  /** Cutting a weight out of a half that holds its bucket gives back the weight. */
  lemma CutAt(b: Bucket, half: seq<byte>, k: nat)
    requires k < |b| && StartsWith(half, Bytes(b))
    ensures var m := MetaOf(b, k);
            m.offset + m.size <= |Bytes(b)| && Weight(m.name, m.item, half[m.offset..m.offset + m.size]) == b[k]
  {
    MetaLocates(b, k);
    SliceOfStart(half, Bytes(b), MetaOf(b, k).offset, MetaOf(b, k).offset + MetaOf(b, k).size);
  }

  lemma SliceOfStart(half: seq<byte>, data: seq<byte>, lo: nat, hi: nat)
    requires StartsWith(half, data) && lo <= hi <= |data|
    ensures half[lo..hi] == data[lo..hi]
  {
    forall i | lo <= i < hi ensures half[i] == data[i] {
      assert half[..|data|][i] == half[i];
    }
  }

  lemma CutOut(b: Bucket, half: seq<byte>, y: nat)
    requires y < |Metas(b)| && StartsWith(half, Bytes(b))
    ensures var m := Metas(b)[y];
            m.offset + m.size <= |Bytes(b)| && Weight(m.name, m.item, half[m.offset..m.offset + m.size]) == Described(b)[y]
  {
    CutAt(b, half, LastOf(b, Names(b)[y]));
  }

  // ----- the invariant is inductive -----

  lemma QueuePush(c: Config, queue: seq<Info>, lo: nat, hi: nat)
    requires QueueOk(c, queue, lo, hi) && hi < |c.buckets|
    ensures QueueOk(c, queue + [InfoOf(c, hi)], lo, hi + 1)
  {
  }

  lemma QueuePop(c: Config, queue: seq<Info>, lo: nat, hi: nat)
    requires QueueOk(c, queue, lo, hi) && queue != []
    ensures lo < hi && queue[0] == InfoOf(c, lo) && QueueOk(c, queue[1..], lo + 1, hi)
  {
    forall k | 0 <= k < |queue[1..]| ensures queue[1..][k] == InfoOf(c, lo + 1 + k) {
      assert queue[1..][k] == queue[k + 1];
    }
  }

  /** A new signal goes into an empty slot. */
  lemma SlotSet(slots: seq<Option<nat>>, lo: nat, hi: nat)
    requires SlotsHold(slots, lo, hi) && hi < lo + 2
    ensures slots[hi % 2].None? && SlotsHold(slots[hi % 2 := Some(hi)], lo, hi + 1)
  {
  }

  /** The oldest signal is the one found in its slot. */
  lemma SlotTake(slots: seq<Option<nat>>, lo: nat, hi: nat)
    requires SlotsHold(slots, lo, hi) && slots[lo % 2].Some?
    ensures lo < hi && slots[lo % 2] == Some(lo) && SlotsHold(slots[lo % 2 := None], lo + 1, hi)
  {
  }

  /** Writing one half leaves a bucket of the other half in place. */
  lemma OtherHalf(c: Config, halves: seq<seq<byte>>, lo: nat, hi: nat, h: nat, data: seq<byte>)
    requires HoldsRange(c, halves, lo, hi) && h < 2
    requires forall j :: lo <= j < hi ==> j % 2 != h
    ensures HoldsRange(c, halves[h := data], lo, hi)
  {
    var halves' := halves[h := data];
    forall j | lo <= j < hi ensures Holds(c, halves', j) {
      assert Holds(c, halves, j);
    }
  }

  lemma InitInv(c: Config, s: State)
    requires ValidConfig(c) && Init(c, s)
    ensures Inv(c, s)
  {
    assert Handed(c)[..0] == [];
    assert c.buckets[0][..0] == [];
  }

  lemma FillKeeps(c: Config, x: Rank, y: Rank)
    requires ValidConfig(c) && SenderOk(c, x) && LinkOk(c, x, y, true) && x.pc.Fill? && SenderEnabled(c, x)
    ensures SenderOk(c, SenderNext(c, x)) && LinkOk(c, SenderNext(c, x), y, true)
  {
    var b, k, h := c.buckets[x.idx], x.pc.filled, x.idx % 2;
    var x' := SenderNext(c, x);
    if k < |b| {
      MetaLocates(b, k);
      OtherHalf(c, x.halves, y.idx, x.idx, h, x'.halves[h]);
    } else {
      assert b[..k] == b;
      QueuePush(c, x.queue, Taken(y), x.idx);
      assert Holds(c, x.halves, x.idx);
      if x.idx == 0 && |c.buckets| > 1 {
        assert c.buckets[1][..0] == [];
      }
    }
  }

  lemma SlotWaitKeeps(c: Config, x: Rank, y: Rank)
    requires ValidConfig(c) && SenderOk(c, x) && LinkOk(c, x, y, true) && x.pc.SlotWait? && SenderEnabled(c, x)
    ensures SenderOk(c, SenderNext(c, x)) && LinkOk(c, SenderNext(c, x), y, true)
  {
    SlotTake(x.slots, x.idx - 1, y.idx);
    assert c.buckets[x.idx + 1][..0] == [];
  }

  lemma SenderKeeps(c: Config, x: Rank, y: Rank)
    requires ValidConfig(c) && SenderOk(c, x) && LinkOk(c, x, y, true) && ReceiverOk(c, y)
    requires SenderEnabled(c, x)
    ensures SenderOk(c, SenderNext(c, x)) && LinkOk(c, SenderNext(c, x), y, true)
  {
    match x.pc
    case Fill(k) => FillKeeps(c, x, y);
    case SlotWait => SlotWaitKeeps(c, x, y);
    case FinalWait =>
  }

  /** Only the queue and the slots of the predecessor change in a receiver's step. */
  ghost predicate SameButQueueAndSlots(x: Rank, y: Rank) {
    y == x.(queue := y.queue, slots := y.slots)
  }

  ghost predicate StepInPre(c: Config, p: Rank, x: Rank, first: bool, last: bool) {
    && ValidConfig(c) && RankOk(c, p, first) && ReceiverOk(c, x) && LinkOk(c, p, x, first)
    && ReceiverEnabled(c, p, x, last)
  }

  ghost predicate StepInOk(c: Config, p: Rank, x: Rank, first: bool, last: bool) {
    && ShapedRank(c, p) && ShapedRank(c, x) && ReceiverEnabled(c, p, x, last)
    && var Hop(p', x') := ReceiverNext(c, p, x, last);
       SameButQueueAndSlots(p, p') && RankOk(c, p', first) && ReceiverOk(c, x') && LinkOk(c, p', x', first)
  }

  /** The rank invariant does not read the queue or the slots. */
  lemma QueueAndSlotsFree(c: Config, p: Rank, p': Rank, first: bool)
    requires SameButQueueAndSlots(p, p') && |p'.slots| == 2 && RankOk(c, p, first)
    ensures RankOk(c, p', first)
  {
  }

  lemma LinkQueueAndSlotsFree(c: Config, q: Rank, p: Rank, p': Rank, first: bool)
    requires SameButQueueAndSlots(p, p') && LinkOk(c, q, p, first)
    ensures LinkOk(c, q, p', first)
  {
  }

  lemma ReadKeeps(c: Config, p: Rank, x: Rank, last: bool)
    requires ReceiverOk(c, x) && ShapedRank(c, p) && x.pc.Read? && ReceiverEnabled(c, p, x, last)
    requires HoldsRange(c, p.halves, x.idx, x.idx + 1)
    ensures ReceiverOk(c, ReceiverNext(c, p, x, last).rank)
  {
    var data := Bytes(c.buckets[x.idx]);
    assert Holds(c, p.halves, x.idx);
    if x.pc.pos < x.cur.len {
      assert data[..x.pc.pos + 1] == data[..x.pc.pos] + [data[x.pc.pos]];
    } else {
      assert data[..x.pc.pos] == data;
    }
  }

  lemma TakeOneMore<T>(done: seq<T>, b: seq<T>, y: nat)
    requires y < |b|
    ensures done + b[..y] + [b[y]] == done + b[..y + 1]
  {
  }

  lemma YieldKeeps(c: Config, p: Rank, x: Rank, last: bool)
    requires ReceiverOk(c, x) && ShapedRank(c, p) && x.pc.Yield? && x.pc.yielded < |x.cur.meta|
    requires ReceiverEnabled(c, p, x, last)
    ensures ReceiverOk(c, ReceiverNext(c, p, x, last).rank)
  {
    var b, y := c.buckets[x.idx], x.pc.yielded;
    CutOut(b, x.halves[x.idx % 2], y);
    TakeOneMore(Flatten(Handed(c)[..x.idx]), Described(b), y);
  }

  lemma YieldEnds(c: Config, p: Rank, x: Rank, last: bool)
    requires ReceiverOk(c, x) && ShapedRank(c, p) && x.pc.Yield? && x.pc.yielded >= |x.cur.meta|
    requires ReceiverEnabled(c, p, x, last)
    ensures ReceiverOk(c, ReceiverNext(c, p, x, last).rank)
  {
    var b, y := c.buckets[x.idx], x.pc.yielded;
    assert Described(b)[..y] == Described(b);
    assert Handed(c)[..x.idx + 1][..x.idx] == Handed(c)[..x.idx];
  }

  lemma SignalKeepsRank(c: Config, p: Rank, x: Rank, last: bool)
    requires ReceiverOk(c, x) && ShapedRank(c, p) && x.pc.Signal? && ReceiverEnabled(c, p, x, last)
    ensures ReceiverOk(c, ReceiverNext(c, p, x, last).rank)
  {
    assert Handed(c)[..|c.buckets|] == Handed(c);
  }

  /** A signal never lands on one that was not yet consumed. */
  lemma SignalKeepsLink(c: Config, p: Rank, x: Rank, first: bool)
    requires RankOk(c, p, first) && ReceiverOk(c, x) && LinkOk(c, p, x, first) && x.pc.Signal?
    ensures p.slots[x.cur.slot].None?
    ensures LinkOk(c, p.(slots := p.slots[x.cur.slot := Some(x.idx)]),
                   x.(idx := x.idx + 1, pc := if x.cur.isLast then Finished else Recv), first)
  {
    assert x.cur.slot == x.idx % 2 && !(first && p.pc.Finished?);
    SlotSet(p.slots, Consumed(p), x.idx);
  }

  lemma SignalKeeps(c: Config, p: Rank, x: Rank, first: bool, last: bool)
    requires StepInPre(c, p, x, first, last) && x.pc.Signal?
    ensures StepInOk(c, p, x, first, last)
  {
    SignalKeepsRank(c, p, x, last);
    SignalKeepsLink(c, p, x, first);
    QueueAndSlotsFree(c, p, p.(slots := p.slots[x.cur.slot := Some(x.idx)]), first);
  }

  lemma RecvKeepsLink(c: Config, p: Rank, x: Rank, first: bool)
    requires LinkOk(c, p, x, first) && ReceiverOk(c, x) && x.pc.Recv? && p.queue != []
    ensures p.queue[0] == InfoOf(c, x.idx)
    ensures LinkOk(c, p.(queue := p.queue[1..]), x.(cur := p.queue[0], pc := Await), first)
  {
    QueuePop(c, p.queue, x.idx, Sent(p));
  }

  lemma RecvKeeps(c: Config, p: Rank, x: Rank, first: bool, last: bool)
    requires StepInPre(c, p, x, first, last) && x.pc.Recv?
    ensures StepInOk(c, p, x, first, last)
  {
    RecvKeepsLink(c, p, x, first);
    QueueAndSlotsFree(c, p, p.(queue := p.queue[1..]), first);
  }

  lemma ForwardKeeps(c: Config, p: Rank, x: Rank, last: bool)
    requires ReceiverOk(c, x) && ShapedRank(c, p) && (x.pc.Forward? || x.pc.Await?) && ReceiverEnabled(c, p, x, last)
    ensures ReceiverOk(c, ReceiverNext(c, p, x, last).rank)
  {
    assert Described(c.buckets[x.idx])[..0] == [];
  }

  /** The steps that touch only the receiver's own state, within one bucket. */
  lemma InnerKeeps(c: Config, p: Rank, x: Rank, first: bool, last: bool)
    requires StepInPre(c, p, x, first, last) && !x.pc.Recv? && !x.pc.Signal?
    ensures ReceiverOk(c, ReceiverNext(c, p, x, last).rank)
  {
    match x.pc
    case Read(_) =>
      assert HoldsRange(c, p.halves, x.idx, x.idx + 1);
      ReadKeeps(c, p, x, last);
    case Yield(y) =>
      if y < |x.cur.meta| {
        YieldKeeps(c, p, x, last);
      } else {
        YieldEnds(c, p, x, last);
      }
    case _ => ForwardKeeps(c, p, x, last);
  }

  lemma InnerIsQuiet(c: Config, p: Rank, x: Rank, last: bool)
    requires ShapedRank(c, p) && ShapedRank(c, x) && ReceiverEnabled(c, p, x, last) && !x.pc.Recv? && !x.pc.Signal?
    ensures var r := ReceiverNext(c, p, x, last); r.pred == p && r.rank.idx == x.idx && Taken(r.rank) == Taken(x)
  {
  }

  lemma QuietLink(c: Config, p: Rank, x: Rank, x': Rank, first: bool)
    requires LinkOk(c, p, x, first) && x'.idx == x.idx && Taken(x') == Taken(x)
    ensures LinkOk(c, p, x', first)
  {
  }

  lemma ReceiverKeepsIn(c: Config, p: Rank, x: Rank, first: bool, last: bool)
    requires StepInPre(c, p, x, first, last)
    ensures StepInOk(c, p, x, first, last)
  {
    if x.pc.Recv? {
      RecvKeeps(c, p, x, first, last);
    } else if x.pc.Signal? {
      SignalKeeps(c, p, x, first, last);
    } else {
      InnerKeeps(c, p, x, first, last);
      InnerIsQuiet(c, p, x, last);
      QuietLink(c, p, x, ReceiverNext(c, p, x, last).rank, first);
    }
  }

  ghost predicate StepOutPre(c: Config, p: Rank, x: Rank, y: Rank) {
    && ValidConfig(c) && ReceiverOk(c, x) && ShapedRank(c, p) && LinkOk(c, x, y, false)
    && ReceiverEnabled(c, p, x, false)
  }

  lemma ReadKeepsOut(c: Config, p: Rank, x: Rank, y: Rank)
    requires StepOutPre(c, p, x, y) && x.pc.Read?
    ensures LinkOk(c, ReceiverNext(c, p, x, false).rank, y, false)
  {
    var h := x.idx % 2;
    OtherHalf(c, x.halves, y.idx, x.idx, h, ReceiverNext(c, p, x, false).rank.halves[h]);
  }

  lemma AwaitKeepsOut(c: Config, p: Rank, x: Rank, y: Rank)
    requires StepOutPre(c, p, x, y) && x.pc.Await?
    ensures LinkOk(c, ReceiverNext(c, p, x, false).rank, y, false)
  {
    if x.idx >= 2 {
      SlotTake(x.slots, x.idx - 2, y.idx);
    }
  }

  lemma ForwardKeepsOut(c: Config, p: Rank, x: Rank, y: Rank)
    requires StepOutPre(c, p, x, y) && x.pc.Forward?
    ensures LinkOk(c, ReceiverNext(c, p, x, false).rank, y, false)
  {
    QueuePush(c, x.queue, Taken(y), x.idx);
  }

  lemma ReceiverKeepsOut(c: Config, p: Rank, x: Rank, y: Rank)
    requires StepOutPre(c, p, x, y)
    ensures LinkOk(c, ReceiverNext(c, p, x, false).rank, y, false)
  {
    match x.pc
    case Await => AwaitKeepsOut(c, p, x, y);
    case Read(_) => ReadKeepsOut(c, p, x, y);
    case Forward => ForwardKeepsOut(c, p, x, y);
    case _ =>
  }

  /** Replacing rank r, and its predecessor's queue and slots, needs only the two links at r. */
  lemma ReplaceKeepsInv(c: Config, s: State, r: nat, p: Rank, x: Rank)
    requires Inv(c, s) && 0 < r <= c.n
    requires SameButQueueAndSlots(s[r - 1], p)
    requires RankOk(c, p, r == 1) && RankOk(c, x, false) && LinkOk(c, p, x, r == 1)
    requires r < c.n ==> LinkOk(c, x, s[r + 1], false)
    ensures Inv(c, s[r - 1 := p][r := x])
  {
    var s' := s[r - 1 := p][r := x];
    forall i | 0 <= i <= c.n ensures RankAt(c, s', i) {
      assert RankAt(c, s, i);
    }
    forall i | 0 <= i < c.n ensures LinkAt(c, s', i) {
      ReplaceKeepsLink(c, s, r, p, x, i);
    }
  }

  lemma ReplaceKeepsLink(c: Config, s: State, r: nat, p: Rank, x: Rank, i: nat)
    requires Inv(c, s) && 0 < r <= c.n && i < c.n
    requires SameButQueueAndSlots(s[r - 1], p) && LinkOk(c, p, x, r == 1)
    requires r < c.n ==> LinkOk(c, x, s[r + 1], false)
    ensures LinkAt(c, s[r - 1 := p][r := x], i)
  {
    assert LinkAt(c, s, i);
    if i == r - 2 {
      LinkQueueAndSlotsFree(c, s[i], s[i + 1], p, i == 0);
    }
  }

  lemma ReplaceSenderKeepsInv(c: Config, s: State, x: Rank)
    requires Inv(c, s) && SenderOk(c, x) && LinkOk(c, x, s[1], true)
    ensures Inv(c, s[0 := x])
  {
    var s' := s[0 := x];
    forall i | 0 <= i <= c.n ensures RankAt(c, s', i) {
      assert RankAt(c, s, i);
    }
    forall i | 0 <= i < c.n ensures LinkAt(c, s', i) {
      assert i > 0 ==> LinkAt(c, s, i);
    }
  }

  lemma StepKeepsInv(c: Config, s: State, r: nat)
    requires Inv(c, s) && Enabled(c, s, r)
    ensures Inv(c, Next(c, s, r))
  {
    assert RankAt(c, s, r);
    if r == 0 {
      assert LinkAt(c, s, 0) && RankAt(c, s, 1);
      SenderKeeps(c, s[0], s[1]);
      ReplaceSenderKeepsInv(c, s, SenderNext(c, s[0]));
    } else {
      assert RankAt(c, s, r - 1) && LinkAt(c, s, r - 1);
      var Hop(p, x) := ReceiverNext(c, s[r - 1], s[r], r == c.n);
      ReceiverKeepsIn(c, s[r - 1], s[r], r == 1, r == c.n);
      if r < c.n {
        assert LinkAt(c, s, r);
        ReceiverKeepsOut(c, s[r - 1], s[r], s[r + 1]);
      }
      ReplaceKeepsInv(c, s, r, p, x);
    }
  }

  lemma {:induction false} RunInv(c: Config, s0: State, schedule: seq<nat>)
    requires Inv(c, s0)
    ensures Exec(c, s0, schedule).Some? ==> Inv(c, Exec(c, s0, schedule).value)
  {
    if schedule != [] {
      var n := |schedule| - 1;
      RunInv(c, s0, schedule[..n]);
      var e := Exec(c, s0, schedule[..n]);
      if e.Some? && Enabled(c, e.value, schedule[n]) {
        StepKeepsInv(c, e.value, schedule[n]);
      }
    }
  }

  // ----- what every run keeps -----

  /**
   * A rank x that is writing a half has a successor y that finished reading
   * every earlier bucket of that half and is not reading that half now.
   */
  ghost predicate WriterClear(x: Rank, y: Rank) {
    && (forall j :: 0 <= j < x.idx && j % 2 == x.idx % 2 ==> j < ReadDone(y))
    && (y.pc.Read? ==> y.cur.half != x.idx % 2)
  }

  ghost predicate OverwritesNothingUnread(c: Config, s: State)
    requires |s| == c.n + 1
  {
    forall r :: 0 <= r < c.n && (s[r].pc.Fill? || s[r].pc.Read?) ==> WriterClear(s[r], s[r + 1])
  }

  /** A reachable state: one the ranks can step to, in some order, from clear slots. */
  ghost predicate Reached(c: Config, s0: State, schedule: seq<nat>, s: State) {
    ValidConfig(c) && Init(c, s0) && Exec(c, s0, schedule) == Some(s)
  }

  lemma ReachedInv(c: Config, s0: State, schedule: seq<nat>, s: State)
    requires Reached(c, s0, schedule, s)
    ensures Inv(c, s)
  {
    InitInv(c, s0);
    RunInv(c, s0, schedule);
  }

  lemma RelaySafety(c: Config, s0: State, schedule: seq<nat>, s: State)
    requires Reached(c, s0, schedule, s)
    ensures OverwritesNothingUnread(c, s)
  {
    ReachedInv(c, s0, schedule, s);
    forall r | 0 <= r < c.n && (s[r].pc.Fill? || s[r].pc.Read?)
      ensures WriterClear(s[r], s[r + 1])
    {
      assert RankAt(c, s, r) && RankAt(c, s, r + 1) && LinkAt(c, s, r);
      WriterIsClear(c, s[r], s[r + 1], r == 0);
    }
  }

  lemma WriterIsClear(c: Config, x: Rank, y: Rank, first: bool)
    requires RankOk(c, x, first) && ReceiverOk(c, y) && LinkOk(c, x, y, first) && (x.pc.Fill? || x.pc.Read?)
    ensures WriterClear(x, y)
  {
    assert x.idx - 1 <= y.idx <= Sent(x) == x.idx;
  }

  /** The bucket whose signal a waiting rank is waiting for. */
  ghost function AwaitedSignal(c: Config, s: State, r: nat): Option<nat>
    requires r < |s|
  {
    var x := s[r];
    match x.pc
    case SlotWait => if x.idx >= 1 then Some(x.idx - 1) else None
    case FinalWait => Some(x.idx)
    case Await => if x.idx >= 2 && r < c.n then Some(x.idx - 2) else None
    case _ => None
  }

  /**
   * At rank r, with successor y: the slots hold exactly the signals y has
   * written and r has not consumed, at most one in each; a waiting rank can
   * only find the signal it waits for; a signal is only written into an empty slot.
   */
  ghost predicate SignalsExact(c: Config, s: State, r: nat)
    requires WellShaped(c, s) && r < c.n
  {
    var x, y := s[r], s[r + 1];
    && (forall h, j :: 0 <= h < 2 && x.slots[h] == Some(j) ==>
          j % 2 == h && Consumed(x) <= j < Signalled(x, y, r == 0))
    && (forall j: nat :: Consumed(x) <= j < Signalled(x, y, r == 0) ==> x.slots[j % 2] == Some(j))
    && (AwaitedSignal(c, s, r).Some? ==>
          var j := AwaitedSignal(c, s, r).value; x.slots[j % 2].Some? ==> x.slots[j % 2] == Some(j))
    && (y.pc.Signal? ==> y.cur.slot < 2 && x.slots[y.cur.slot].None?)
  }

  lemma RelaySignals(c: Config, s0: State, schedule: seq<nat>, s: State, r: nat)
    requires Reached(c, s0, schedule, s) && r < c.n
    ensures SignalsExact(c, s, r)
  {
    ReachedInv(c, s0, schedule, s);
    LinkSignals(c, s, r);
  }

  lemma SlotsExact(slots: seq<Option<nat>>, lo: nat, hi: nat)
    requires SlotsHold(slots, lo, hi)
    ensures forall h, j :: 0 <= h < 2 && slots[h] == Some(j) ==> j % 2 == h && lo <= j < hi
    ensures forall j: nat :: lo <= j < hi ==> slots[j % 2] == Some(j)
  {
  }

  lemma LinkSignals(c: Config, s: State, r: nat)
    requires Inv(c, s) && r < c.n
    ensures SignalsExact(c, s, r)
  {
    var x, y, first := s[r], s[r + 1], r == 0;
    assert LinkAt(c, s, r) && RankAt(c, s, r) && RankAt(c, s, r + 1);
    SlotsExact(x.slots, Consumed(x), Signalled(x, y, first));
    if y.pc.Signal? {
      SignalKeepsLink(c, x, y, first);
    }
    if AwaitedSignal(c, s, r).Some? {
      AwaitedIsNext(c, x, y, first, AwaitedSignal(c, s, r).value);
    }
  }

  /** The awaited signal is the oldest one not consumed, or the newest one in the sender's final wait. */
  lemma AwaitedIsNext(c: Config, x: Rank, y: Rank, first: bool, j: nat)
    requires RankOk(c, x, first) && LinkOk(c, x, y, first)
    requires (x.pc.SlotWait? && j == x.idx - 1) || (x.pc.FinalWait? && j == x.idx)
             || (x.pc.Await? && j == x.idx - 2)
    ensures x.slots[j % 2].Some? ==> x.slots[j % 2] == Some(j)
  {
    SlotsExact(x.slots, Consumed(x), Signalled(x, y, first));
  }

  // ----- delivery -----

  lemma {:induction false} FlattenTake<T>(parts: seq<seq<T>>, k: nat)
    requires k <= |parts|
    ensures Flatten(parts[..k]) <= Flatten(parts)
  {
    assert parts[..k] + parts[k..] == parts;
    FlattenAppend(parts[..k], parts[k..]);
  }

  /** Whole parts and the beginning of the next one. */
  lemma PartTaken<T>(parts: seq<seq<T>>, k: nat, y: nat)
    requires k < |parts| && y <= |parts[k]|
    ensures Flatten(parts[..k]) + parts[k][..y] <= Flatten(parts)
  {
    FlattenStep(parts, k);
    FlattenTake(parts, k + 1);
    assert Flatten(parts[..k]) + parts[k] == (Flatten(parts[..k]) + parts[k][..y]) + parts[k][y..];
  }

  lemma OutIsPrefix(c: Config, x: Rank)
    requires ReceiverOk(c, x)
    ensures x.out <= Flatten(Handed(c))
  {
    match x.pc
    case Yield(y) => PartTaken(Handed(c), x.idx, y);
    case Signal => FlattenTake(Handed(c), x.idx + 1);
    case _ => FlattenTake(Handed(c), x.idx);
  }

  /**
   * Receivers only ever hand out a prefix of the weights that the records of
   * the sender's buckets describe, and all of them once finished.
   */
  lemma RelayDelivery(c: Config, s0: State, schedule: seq<nat>, s: State, r: nat)
    requires Reached(c, s0, schedule, s) && 1 <= r <= c.n
    ensures s[r].out <= Flatten(Handed(c))
    ensures s[r].pc.Finished? ==> s[r].out == Flatten(Handed(c))
  {
    ReachedInv(c, s0, schedule, s);
    assert RankAt(c, s, r);
    OutIsPrefix(c, s[r]);
  }

  // ----- progress -----

  ghost predicate AllFinished(s: State) {
    forall r :: 0 <= r < |s| ==> s[r].pc.Finished?
  }

  /** Record y of bucket j can be viewed in the half the bucket is read into. */
  ghost predicate ViewAt(c: Config, j: nat, y: nat)
    requires j < |c.buckets| && y < |Metas(c.buckets[j])|
  {
    var m := Metas(c.buckets[j])[y];
    ((if j % 2 == 0 then 0 else c.size) + m.offset) % m.item == 0
  }

  /** No view of the sync raises. */
  ghost predicate AllViewable(c: Config) {
    forall j, y :: 0 <= j < |c.buckets| && 0 <= y < |Metas(c.buckets[j])| ==> ViewAt(c, j, y)
  }

  lemma BlockedSender(c: Config, s: State)
    requires Inv(c, s) && !s[0].pc.Finished? && !Enabled(c, s, 0)
    ensures AwaitedSignal(c, s, 0).Some? && s[0].slots[AwaitedSignal(c, s, 0).value % 2].None?
    ensures s[0].pc.SlotWait? || s[0].pc.FinalWait?
  {
    var x := s[0];
    assert RankAt(c, s, 0);
    if x.pc.Fill? && x.pc.filled < |c.buckets[x.idx]| {
      MetaLocates(c.buckets[x.idx], x.pc.filled);
    }
  }

  lemma BlockedReceiver(c: Config, s: State, r: nat)
    requires AllViewable(c) && Inv(c, s) && 0 < r <= c.n && !s[r].pc.Finished? && !Enabled(c, s, r)
    ensures (s[r].pc.Recv? && s[r - 1].queue == [])
            || (s[r].pc.Await? && AwaitedSignal(c, s, r).Some?
                && s[r].slots[AwaitedSignal(c, s, r).value % 2].None?)
  {
    assert RankAt(c, s, r) && RankAt(c, s, r - 1);
    if s[r].pc.Yield? && s[r].pc.yielded < |s[r].cur.meta| {
      YieldEnabled(c, s[r - 1], s[r], r == c.n);
    }
  }

  /** Nothing stops a receiver from yielding a weight. */
  lemma YieldEnabled(c: Config, p: Rank, x: Rank, last: bool)
    requires AllViewable(c) && ReceiverOk(c, x) && x.pc.Yield? && x.pc.yielded < |x.cur.meta|
    ensures ShapedRank(c, x) && ReceiverEnabled(c, p, x, last)
  {
    assert ViewAt(c, x.idx, x.pc.yielded);
    CutOut(c.buckets[x.idx], x.halves[x.idx % 2], x.pc.yielded);
  }

  /** A rank that waits for a signal is ahead of its successor, which is unfinished. */
  lemma WaiterIsAhead(c: Config, x: Rank, y: Rank, first: bool, j: nat)
    requires RankOk(c, x, first) && ReceiverOk(c, y) && LinkOk(c, x, y, first)
    requires (x.pc.SlotWait? && j == x.idx - 1) || (x.pc.FinalWait? && j == x.idx)
             || (x.pc.Await? && j == x.idx - 2)
    requires x.slots[j % 2].None?
    ensures !y.pc.Finished? && (Sent(y) < Sent(x) || y.pc.Yield? || y.pc.Signal?)
  {
    SlotsExact(x.slots, Consumed(x), Signalled(x, y, first));
    assert y.idx <= j;
  }

  lemma StarvedIsBehind(c: Config, p: Rank, x: Rank, first: bool)
    requires RankOk(c, p, first) && ReceiverOk(c, x) && LinkOk(c, p, x, first) && x.pc.Recv? && p.queue == []
    ensures Sent(p) == Sent(x) && !p.pc.Finished?
  {
  }

  /** A receiver starved of records waits for a predecessor that is behind it in the chain. */
  lemma BlameBack(c: Config, s: State, r: nat)
    requires Inv(c, s) && 0 < r <= c.n && s[r].pc.Recv? && s[r - 1].queue == []
    ensures !s[r - 1].pc.Finished? && Sent(s[r - 1]) == Sent(s[r])
  {
    assert LinkAt(c, s, r - 1) && RankAt(c, s, r - 1) && RankAt(c, s, r);
    StarvedIsBehind(c, s[r - 1], s[r], r == 1);
  }

  /** A rank waiting for a signal waits for a successor that has sent less, or can step. */
  lemma BlameAhead(c: Config, s: State, r: nat)
    requires AllViewable(c) && Inv(c, s) && r < c.n
    requires AwaitedSignal(c, s, r).Some? && s[r].slots[AwaitedSignal(c, s, r).value % 2].None?
    ensures !s[r + 1].pc.Finished? && (Enabled(c, s, r + 1) || Sent(s[r + 1]) < Sent(s[r]))
  {
    assert LinkAt(c, s, r) && RankAt(c, s, r) && RankAt(c, s, r + 1);
    WaiterIsAhead(c, s[r], s[r + 1], r == 0, AwaitedSignal(c, s, r).value);
    if !Enabled(c, s, r + 1) {
      BlockedReceiver(c, s, r + 1);
    }
  }

  /** The rank a blocked rank waits for can step, or is further behind. */
  lemma Blame(c: Config, s: State, r: nat) returns (q: nat)
    requires AllViewable(c) && Inv(c, s) && r <= c.n && !s[r].pc.Finished? && !Enabled(c, s, r)
    ensures q <= c.n && !s[q].pc.Finished?
    ensures Enabled(c, s, q) || Sent(s[q]) < Sent(s[r]) || (Sent(s[q]) == Sent(s[r]) && q < r)
  {
    if r == 0 {
      BlockedSender(c, s);
      BlameAhead(c, s, r);
      q := 1;
    } else {
      BlockedReceiver(c, s, r);
      if s[r].pc.Recv? {
        BlameBack(c, s, r);
        q := r - 1;
      } else {
        BlameAhead(c, s, r);
        q := r + 1;
      }
    }
  }

  /** From any unfinished rank, following who it waits for leads to a rank that can step. */
  lemma FindEnabled(c: Config, s: State, r: nat) returns (q: nat)
    requires AllViewable(c) && Inv(c, s) && r <= c.n && !s[r].pc.Finished?
    ensures Enabled(c, s, q)
    decreases Sent(s[r]), r
  {
    q := r;
    if !Enabled(c, s, r) {
      q := Blame(c, s, r);
      if !Enabled(c, s, q) {
        q := FindEnabled(c, s, q);
      }
    }
  }

  /** A sync of which no view raises can always take a step until it has finished. */
  lemma RelayProgress(c: Config, s0: State, schedule: seq<nat>, s: State)
    requires AllViewable(c) && Reached(c, s0, schedule, s) && !AllFinished(s)
    ensures exists r :: Enabled(c, s, r)
  {
    ReachedInv(c, s0, schedule, s);
    var r :| 0 <= r < |s| && !s[r].pc.Finished?;
    var q := FindEnabled(c, s, r);
  }
}
