/**
 * The NCCL engine: chunks are packed into buckets that are broadcast from one
 * buffer while the other one is filled, and received into one buffer while the
 * other one is read.
 */
module Broadcast {
  import Blocks
  import opened Common
  import opened Chunks

  /** A chunk's record in a bucket: everything but its bytes, and where those are. */
  datatype Entry = Entry(name: string, item: ItemSize, nbytes: nat, at: nat, size: nat, offset: nat)

  /** One broadcast: a whole buffer, and the records of the bucket in it. */
  datatype Message = Message(content: seq<byte>, entries: seq<Entry>, isLast: bool)

  // ----- packing -----

  type Bucket = seq<Chunk>

  function Fill(b: Bucket): (r: seq<byte>) {
    if b == [] then [] else Fill(b[..|b| - 1]) + b[|b| - 1].bytes
  }

  function Entries(b: Bucket): (r: seq<Entry>)
    ensures |r| == |b|
  {
    if b == [] then []
    else
      var n := |b| - 1;
      Entries(b[..n]) + [Entry(b[n].name, b[n].item, b[n].nbytes, b[n].at, |b[n].bytes|, |Fill(b[..n])|)]
  }

  /** The buckets broadcast, and the one being filled, once the first k chunks are placed. */
  function Place(cs: seq<Chunk>, size: nat, k: nat): (r: (seq<Bucket>, Bucket))
    requires k <= |cs|
  {
    if k == 0 then ([], [])
    else
      var (sent, current) := Place(cs, size, k - 1);
      var c := cs[k - 1];
      if |Fill(current)| + |c.bytes| > size then (sent + [current], [c]) else (sent, current + [c])
  }

  function Pack(cs: seq<Chunk>, size: nat): (r: seq<Bucket>) {
    var (sent, current) := Place(cs, size, |cs|);
    sent + [current]
  }

  lemma FillAppend(b: Bucket, c: Chunk)
    ensures Fill([]) == [] && Entries([]) == []
    ensures Fill(b + [c]) == Fill(b) + c.bytes
    ensures Entries(b + [c]) == Entries(b) + [Entry(c.name, c.item, c.nbytes, c.at, |c.bytes|, |Fill(b)|)]
  {
    assert (b + [c])[..|b|] == b;
  }

  lemma {:induction false} EntryLocates(b: Bucket, y: nat)
    requires y < |b|
    ensures Entries(b)[y] == Entry(b[y].name, b[y].item, b[y].nbytes, b[y].at, |b[y].bytes|, |Fill(b[..y])|)
    ensures |Fill(b[..y])| + |b[y].bytes| <= |Fill(b)|
    ensures Fill(b)[|Fill(b[..y])|..|Fill(b[..y])| + |b[y].bytes|] == b[y].bytes
  {
    if y < |b| - 1 {
      EntryLocates(b[..|b| - 1], y);
      assert b[..|b| - 1][..y] == b[..y];
    }
  }

  /** What splitting guarantees: no chunk is empty or over the size, and all chunks of a weight but its last are full. */
  ghost predicate WellSplit(cs: seq<Chunk>, size: nat) {
    forall k :: 0 <= k < |cs| ==> ChunkOk(cs, size, k)
  }

  ghost predicate ChunkOk(cs: seq<Chunk>, size: nat, k: nat)
    requires k < |cs|
  {
    && 0 < |cs[k].bytes| <= size
    && forall j :: 0 <= j < k && cs[j].name == cs[k].name ==> |cs[j].bytes| == size
  }

  lemma {:induction false} SplitFromFull(w: Weight, size: nat, at: nat)
    requires size > 0
    ensures WellSplit(SplitFrom(w, size, at), size)
    ensures forall j :: 0 <= j < |SplitFrom(w, size, at)| ==> SplitFrom(w, size, at)[j].name == w.name
    decreases |w.bytes| - at
  {
    if at < |w.bytes| {
      var n := if size <= |w.bytes| - at then size else |w.bytes| - at;
      var cs, rest := SplitFrom(w, size, at), SplitFrom(w, size, at + n);
      SplitFromFull(w, size, at + n);
      assert n < size ==> rest == [];
      forall k | 0 <= k < |cs| ensures ChunkOk(cs, size, k) {
        assert k > 0 ==> ChunkOk(rest, size, k - 1);
      }
    }
  }

  ghost predicate NamesFrom(cs: seq<Chunk>, ws: seq<Weight>) {
    forall j :: 0 <= j < |cs| ==> exists i :: 0 <= i < |ws| && ws[i].name == cs[j].name
  }

  lemma {:induction false} SplitNames(ws: seq<Weight>, size: nat)
    requires size > 0
    ensures NamesFrom(Split(ws, size), ws)
  {
    if ws != [] {
      var n := |ws| - 1;
      SplitNames(ws[..n], size);
      SplitFromFull(ws[n], size, 0);
      var a, cs := Split(ws[..n], size), Split(ws, size);
      forall j | 0 <= j < |cs| ensures exists i :: 0 <= i < |ws| && ws[i].name == cs[j].name {
        if j < |a| {
          var i :| 0 <= i < n && ws[..n][i].name == a[j].name;
          assert ws[i].name == cs[j].name;
        } else {
          assert ws[n].name == cs[j].name;
        }
      }
    }
  }

  lemma {:induction false} SplitIsWellSplit(ws: seq<Weight>, size: nat)
    requires size > 0 && DistinctNames(ws)
    ensures WellSplit(Split(ws, size), size)
  {
    if ws != [] {
      var n := |ws| - 1;
      SplitIsWellSplit(ws[..n], size);
      SplitNames(ws[..n], size);
      SplitFromFull(ws[n], size, 0);
      var a, b, cs := Split(ws[..n], size), SplitFrom(ws[n], size, 0), Split(ws, size);
      forall k | 0 <= k < |cs| ensures ChunkOk(cs, size, k) {
        if k < |a| {
          assert ChunkOk(a, size, k);
        } else {
          assert ChunkOk(b, size, k - |a|);
          forall j | 0 <= j < k && cs[j].name == cs[k].name ensures |cs[j].bytes| == size {
            if j < |a| {
              assert false;
            } else {
              assert cs[j] == b[j - |a|];
            }
          }
        }
      }
    }
  }

  /**
   * The bucket being filled: within the size, no two chunks of one weight, and
   * nonempty once there is a chunk; the buckets sent are nonempty and hold the
   * earlier chunks.
   */
  ghost predicate BucketOk(b: Bucket, size: nat) {
    && |Fill(b)| <= size
    && forall j, k :: 0 <= j < k < |b| ==> b[j].name != b[k].name
  }

  lemma {:induction false} FillAtLeast(b: Bucket, j: nat)
    requires j < |b|
    ensures |Fill(b)| >= |b[j].bytes|
  {
    if j < |b| - 1 {
      FillAtLeast(b[..|b| - 1], j);
    }
  }

  /** A chunk that fits beside the current bucket is of a weight that is not yet in it. */
  lemma FitsIsFresh(cs: seq<Chunk>, size: nat, k: nat, current: Bucket)
    requires WellSplit(cs, size) && k < |cs| && |current| <= k && current == cs[k - |current|..k]
    requires |Fill(current)| + |cs[k].bytes| <= size
    ensures forall j :: 0 <= j < |current| ==> current[j].name != cs[k].name
  {
    assert ChunkOk(cs, size, k);
    forall j | 0 <= j < |current| ensures current[j].name != cs[k].name {
      assert current[j] == cs[k - |current| + j];
      FillAtLeast(current, j);
    }
  }

  lemma {:induction false} PlaceJoins(cs: seq<Chunk>, size: nat, k: nat)
    requires k <= |cs|
    ensures Flatten(Place(cs, size, k).0) + Place(cs, size, k).1 == cs[..k]
  {
    if k > 0 {
      PlaceJoins(cs, size, k - 1);
      var before := Place(cs, size, k - 1);
      FlattenMore(before.0, before.1, cs[k - 1], cs[..k - 1]);
      assert cs[..k] == cs[..k - 1] + [cs[k - 1]];
    }
  }

  lemma PlaceFlattens(cs: seq<Chunk>, size: nat, k: nat)
    requires k <= |cs|
    ensures var (sent, current) := Place(cs, size, k); Flatten(sent) + current == cs[..k]
    ensures var (sent, current) := Place(cs, size, k); |current| <= k && current == cs[k - |current|..k]
  {
    PlaceJoins(cs, size, k);
    TailOf(Flatten(Place(cs, size, k).0), Place(cs, size, k).1, cs, k);
  }

  lemma BucketAppend(b: Bucket, c: Chunk, size: nat)
    requires BucketOk(b, size) && |Fill(b)| + |c.bytes| <= size
    requires forall j :: 0 <= j < |b| ==> b[j].name != c.name
    ensures BucketOk(b + [c], size)
  {
    FillAppend(b, c);
  }

  ghost predicate AllOk(bs: seq<Bucket>, size: nat) {
    forall b :: 0 <= b < |bs| ==> BucketOk(bs[b], size) && bs[b] != []
  }

  lemma AllOkMore(bs: seq<Bucket>, b: Bucket, size: nat)
    requires AllOk(bs, size) && BucketOk(b, size) && b != []
    ensures AllOk(bs + [b], size)
  {
  }

  lemma OverfullIsFilled(b: Bucket, c: Chunk, size: nat)
    requires |Fill(b)| + |c.bytes| > size && |c.bytes| <= size
    ensures b != []
  {
  }

  /** The buckets that were sent keep to their size, and so does the current one. */
  ghost predicate PlacedOk(sent: seq<Bucket>, current: Bucket, size: nat) {
    AllOk(sent, size) && BucketOk(current, size)
  }

  lemma StartsBucket(sent: seq<Bucket>, current: Bucket, c: Chunk, size: nat)
    requires PlacedOk(sent, current, size) && |Fill(current)| + |c.bytes| > size && |c.bytes| <= size
    ensures PlacedOk(sent + [current], [c], size)
  {
    BucketAppend([], c, size);
    assert [] + [c] == [c];
    OverfullIsFilled(current, c, size);
    AllOkMore(sent, current, size);
  }

  lemma PlaceOne(cs: seq<Chunk>, size: nat, k: nat, sent: seq<Bucket>, current: Bucket)
    requires k < |cs| && WellSplit(cs, size) && PlacedOk(sent, current, size)
    requires |current| <= k && current == cs[k - |current|..k]
    ensures if |Fill(current)| + |cs[k].bytes| > size then PlacedOk(sent + [current], [cs[k]], size)
            else PlacedOk(sent, current + [cs[k]], size)
  {
    assert ChunkOk(cs, size, k);
    if |Fill(current)| + |cs[k].bytes| > size {
      StartsBucket(sent, current, cs[k], size);
    } else {
      FitsIsFresh(cs, size, k, current);
      BucketAppend(current, cs[k], size);
    }
  }

  /** After k chunks, the buckets that were sent and the current one are as Place has them. */
  lemma PlaceKeeps(cs: seq<Chunk>, size: nat, k: nat)
    requires k <= |cs| && WellSplit(cs, size)
    ensures PlacedOk(Place(cs, size, k).0, Place(cs, size, k).1, size)
  {
    var sent: seq<Bucket>, current: Bucket := [], [];
    for i := 0 to k
      invariant Place(cs, size, i) == (sent, current) && PlacedOk(sent, current, size)
    {
      PlaceFlattens(cs, size, i);
      PlaceOne(cs, size, i, sent, current);
      if |Fill(current)| + |cs[i].bytes| > size {
        sent, current := sent + [current], [cs[i]];
      } else {
        current := current + [cs[i]];
      }
    }
  }

  /** The bucket was only sent because the first chunk of the next one did not fit in it. */
  ghost predicate ClosedFor(b: Bucket, next: Bucket, size: nat) {
    next != [] && |Fill(b)| + |next[0].bytes| > size
  }

  ghost predicate Greedy(bs: seq<Bucket>, size: nat) {
    forall j, k :: 0 <= j && k == j + 1 && k < |bs| ==> ClosedFor(bs[j], bs[k], size)
  }

  lemma {:induction false} PlaceGreedy(cs: seq<Chunk>, size: nat, k: nat)
    requires k <= |cs|
    ensures var (sent, current) := Place(cs, size, k); Greedy(sent + [current], size)
    ensures k > 0 ==> Place(cs, size, k).1 != []
  {
    if k > 0 {
      PlaceGreedy(cs, size, k - 1);
      var (sent, current) := Place(cs, size, k - 1);
      var (sent', current') := Place(cs, size, k);
      var was: seq<Bucket>, now: seq<Bucket> := sent + [current], sent' + [current'];
      forall j, k | 0 <= j && k == j + 1 && k < |now| ensures ClosedFor(now[j], now[k], size) {
        if k < |was| {
          assert ClosedFor(was[j], was[k], size);
        }
      }
    }
  }

  /**
   * Every bucket is within the size and holds at most one chunk of a weight,
   * and the next chunk did not fit in it; only without chunks is one empty;
   * together they hold the chunks in order.
   */
  lemma PackKeeps(cs: seq<Chunk>, size: nat)
    requires WellSplit(cs, size)
    ensures Flatten(Pack(cs, size)) == cs
    ensures forall b :: 0 <= b < |Pack(cs, size)| ==> BucketOk(Pack(cs, size)[b], size)
    ensures forall b :: 0 <= b < |Pack(cs, size)| - 1 ==> Pack(cs, size)[b] != []
    ensures Greedy(Pack(cs, size), size) && (cs != [] ==> Pack(cs, size)[|Pack(cs, size)| - 1] != [])
  {
    PlaceFlattens(cs, size, |cs|);
    PlaceGreedy(cs, size, |cs|);
    PlaceKeeps(cs, size, |cs|);
    var (sent, current) := Place(cs, size, |cs|);
    assert (sent + [current])[..|sent|] == sent;
    assert cs[..|cs|] == cs;
  }

  /** What the loop does with chunk k, and why it may. */
  lemma NextChunk(cs: seq<Chunk>, size: nat, k: nat)
    requires k < |cs| && WellSplit(cs, size)
    ensures |cs[k].bytes| <= size
    ensures var (sent, current) := Place(cs, size, k);
            if |Fill(current)| + |cs[k].bytes| > size then
              Place(cs, size, k + 1) == (sent + [current], [] + [cs[k]])
            else
              Place(cs, size, k + 1) == (sent, current + [cs[k]])
              && forall j :: 0 <= j < |current| ==> current[j].name != cs[k].name
  {
    assert ChunkOk(cs, size, k);
    var (sent, current) := Place(cs, size, k);
    if |Fill(current)| + |cs[k].bytes| <= size {
      PlaceFlattens(cs, size, k);
      FitsIsFresh(cs, size, k, current);
    } else {
      assert [] + [cs[k]] == [cs[k]];
    }
  }

  // ----- sending -----

  /** A broadcast that was started and may be reading its buffer until it is awaited. */
  class BroadcastOperation {
    const bucket: array<byte>
    const entries: seq<Entry>
    const isLast: bool
    ghost const started: seq<byte>
    var awaited: bool

    constructor (bucket: array<byte>, entries: seq<Entry>, isLast: bool)
      ensures this.bucket == bucket && this.entries == entries && this.isLast == isLast
      ensures started == bucket[..] && !awaited
    {
      this.bucket, this.entries, this.isLast := bucket, entries, isLast;
      started, awaited := bucket[..], false;
    }

    /** The buffer must not have changed since the start; then what arrives is what it held. */
    method WaitForComplete() returns (m: Message)
      requires !awaited && bucket[..] == started
      modifies this
      ensures awaited && m == Message(started, entries, isLast)
    {
      m := Message(bucket[..], entries, isLast);
      awaited := true;
    }
  }

  /** The message broadcasts this bucket; what follows the chunks in its buffer does not matter. */
  ghost predicate Carries(m: Message, b: Bucket, isLast: bool, size: nat) {
    && m.entries == Entries(b) && m.isLast == isLast && |m.content| == size
    && |Fill(b)| <= size && m.content[..|Fill(b)|] == Fill(b)
  }

  /** One message per bucket, in order, and only the last bucket's is marked. */
  ghost predicate Broadcasts(wire: seq<Message>, bs: seq<Bucket>, done: bool, size: nat) {
    && |wire| == |bs|
    && forall j :: 0 <= j < |bs| ==> Carries(wire[j], bs[j], done && j == |bs| - 1, size)
  }

  /** The state of the loop once k chunks are placed: at most the last bucket sent is still in flight. */
  ghost predicate InFlight(op: BroadcastOperation?, wire: seq<Message>, sent: seq<Bucket>, size: nat)
    reads op, if op == null then {} else {op.bucket}
  {
    if op == null then sent == [] && wire == []
    else
      var n := |sent| - 1;
      && n >= 0
      && !op.awaited && op.bucket[..] == op.started
      && Broadcasts(wire, sent[..n], false, size)
      && Carries(Message(op.started, op.entries, op.isLast), sent[n], false, size)
  }

  lemma BroadcastsOneMore(wire: seq<Message>, bs: seq<Bucket>, m: Message, b: Bucket, isLast: bool, size: nat)
    requires Broadcasts(wire, bs, false, size) && Carries(m, b, isLast, size)
    ensures Broadcasts(wire + [m], bs + [b], isLast, size)
  {
  }

  /** Waits for the broadcast in flight, if there is one. */
  method AwaitPrevious(op: BroadcastOperation?, wire: seq<Message>, ghost sent: seq<Bucket>, ghost size: nat)
    returns (wire': seq<Message>)
    requires InFlight(op, wire, sent, size)
    modifies op
    ensures Broadcasts(wire', sent, false, size)
  {
    wire' := wire;
    if op != null {
      var m := op.WaitForComplete();
      wire' := wire + [m];
      BroadcastsOneMore(wire, sent[..|sent| - 1], m, sent[|sent| - 1], false, size);
      assert sent[..|sent| - 1] + [sent[|sent| - 1]] == sent;
    }
  }

  /** Starts the broadcast of the current bucket, once the one before is on the wire. */
  method StartBroadcast(buf: array<byte>, entries: seq<Entry>, ghost wire: seq<Message>, ghost sent: seq<Bucket>,
                        ghost current: Bucket, ghost size: nat)
    returns (op: BroadcastOperation)
    requires buf.Length == size && Broadcasts(wire, sent, false, size) && entries == Entries(current)
    requires |Fill(current)| <= size && buf[0..|Fill(current)|] == Fill(current)
    ensures fresh(op) && op.bucket == buf && InFlight(op, wire, sent + [current], size)
  {
    op := new BroadcastOperation(buf, entries, false);
    assert op.started[..|Fill(current)|] == buf[0..|Fill(current)|];
    ButLast(sent, current);
  }

  /**
   * The sending loop's variables. Two buffers take turns: sendBuf is filled
   * while recvBuf may still be read by the broadcast in flight.
   */
  class BucketSender {
    const size: nat
    var sendBuf: array<byte>
    var recvBuf: array<byte>
    var op: BroadcastOperation?
    var entries: seq<Entry>
    var offset: nat
    var wire: seq<Message>
    ghost var sent: seq<Bucket>
    ghost var current: Bucket

    ghost predicate Valid()
      reads this, sendBuf, recvBuf, op, if op == null then {} else {op.bucket}
    {
      && sendBuf != recvBuf && sendBuf.Length == recvBuf.Length == size
      && (op != null ==> op.bucket == recvBuf)
      && InFlight(op, wire, sent, size)
      && entries == Entries(current) && offset == |Fill(current)| <= size
      && sendBuf[0..offset] == Fill(current)
    }

    constructor (size: nat, buffer0: array<byte>, buffer1: array<byte>)
      requires buffer0 != buffer1 && buffer0.Length == buffer1.Length == size
      ensures Valid() && sent == [] && current == [] && op == null
      ensures this.size == size && sendBuf == buffer0 && recvBuf == buffer1
    {
      this.size, sendBuf, recvBuf, op := size, buffer0, buffer1, null;
      entries, offset, wire, sent, current := [], 0, [], [], [];
    }

    /** Awaits the broadcast in flight, starts one of the current bucket, and swaps the buffers. */
    method Flush()
      requires Valid()
      modifies this, op
      ensures Valid() && fresh(op)
      ensures sent == old(sent) + [old(current)] && current == []
      ensures sendBuf == old(recvBuf) && recvBuf == old(sendBuf)
    {
      wire := AwaitPrevious(op, wire, sent, size);
      op := StartBroadcast(sendBuf, entries, wire, sent, current, size);
      sent, current := sent + [current], [];
      sendBuf, recvBuf := recvBuf, sendBuf;
      entries, offset := [], 0;
    }

    /** Copies a chunk into the current bucket, whose buffer no broadcast is reading. */
    method Put(c: Chunk)
      requires Valid() && offset + |c.bytes| <= size
      requires forall j :: 0 <= j < |current| ==> current[j].name != c.name
      modifies this, sendBuf
      ensures Valid() && sent == old(sent) && current == old(current) + [c]
      ensures sendBuf == old(sendBuf) && recvBuf == old(recvBuf) && op == old(op)
    {
      assert op == null || op.bucket != sendBuf;
      FillAppend(current, c);
      entries := entries + [Entry(c.name, c.item, c.nbytes, c.at, |c.bytes|, offset)];
      CopyInto(sendBuf, 0, offset, c.bytes);
      offset, current := offset + |c.bytes|, current + [c];
    }

    /** One turn of the loop. */
    method Add(cs: seq<Chunk>, k: nat)
      requires Valid() && k < |cs| && WellSplit(cs, size)
      requires sent == Place(cs, size, k).0 && current == Place(cs, size, k).1
      modifies this, op, sendBuf, recvBuf
      ensures Valid() && (op == old(op) || fresh(op))
      ensures sent == Place(cs, size, k + 1).0 && current == Place(cs, size, k + 1).1
      ensures (sendBuf == old(sendBuf) && recvBuf == old(recvBuf)) || (sendBuf == old(recvBuf) && recvBuf == old(sendBuf))
    {
      NextChunk(cs, size, k);
      if offset + |cs[k].bytes| > size {
        Flush();
      }
      Put(cs[k]);
    }

    /** Broadcasts the last bucket and awaits it. */
    method Finish() returns (r: seq<Message>)
      requires Valid()
      modifies this, op
      ensures Broadcasts(r, old(sent) + [old(current)], true, size)
    {
      wire := AwaitPrevious(op, wire, sent, size);
      op := new BroadcastOperation(sendBuf, entries, true);
      assert op.started[..offset] == sendBuf[0..offset];
      var m := op.WaitForComplete();
      BroadcastsOneMore(wire, sent, m, current, true, size);
      r := wire + [m];
    }
  }

  /** Sends the weights; the two buffers are the engine's. */
  method SendWeights(ws: seq<Weight>, size: nat, buffer0: array<byte>, buffer1: array<byte>)
    returns (wire: seq<Message>)
    requires size > 0 && DistinctNames(ws)
    requires buffer0 != buffer1 && buffer0.Length == buffer1.Length == size
    modifies buffer0, buffer1
    ensures Broadcasts(wire, Pack(Split(ws, size), size), true, size)
  {
    var cs := SplitWeightChunks(ws, size);
    SplitIsWellSplit(ws, size);
    var s := new BucketSender(size, buffer0, buffer1);
    for k := 0 to |cs|
      invariant s.Valid() && fresh(s) && (s.op != null ==> fresh(s.op)) && s.size == size
      invariant (s.sendBuf == buffer0 && s.recvBuf == buffer1) || (s.sendBuf == buffer1 && s.recvBuf == buffer0)
      invariant s.sent == Place(cs, size, k).0 && s.current == Place(cs, size, k).1
    {
      s.Add(cs, k);
    }
    wire := s.Finish();
  }

  // ----- receiving -----

  /** A broadcast being received: it may write its buffer at any time until it is awaited. */
  class ReceiveOperation {
    const bucket: array<byte>
    var awaited: bool

    constructor (bucket: array<byte>)
      modifies bucket
      ensures this.bucket == bucket && !awaited
    {
      this.bucket, awaited := bucket, false;
    }

    method WaitForComplete(m: Message)
      requires !awaited && |m.content| == bucket.Length
      modifies this, bucket
      ensures awaited && bucket[..] == m.content
    {
      awaited := true;
      CopyInto(bucket, 0, 0, m.content);
      assert bucket[..] == bucket[0..|m.content|];
    }
  }

  lemma CutPrefix(s: seq<byte>, data: seq<byte>, lo: nat, hi: nat)
    requires lo <= hi <= |data| <= |s| && s[..|data|] == data
    ensures s[lo..hi] == data[lo..hi]
  {
    forall k | 0 <= k < hi - lo ensures s[lo..hi][k] == data[lo..hi][k] {
      assert s[lo + k] == s[..|data|][lo + k];
    }
  }

  /** The chunks of a bucket, each with its place in the buffer. */
  function Located(b: Bucket): (r: seq<Chunk>)
    ensures |r| == |b| && forall k :: 0 <= k < |b| ==> r[k] == b[k].(offset := |Fill(b[..k])|)
  {
    seq(|b|, k requires 0 <= k < |b| => b[k].(offset := |Fill(b[..k])|))
  }

  function LocatedAll(bs: seq<Bucket>): (r: seq<seq<Chunk>>)
    ensures |r| == |bs| && forall j :: 0 <= j < |bs| ==> r[j] == Located(bs[j])
  {
    seq(|bs|, j requires 0 <= j < |bs| => Located(bs[j]))
  }

  /** Cutting a buffer that holds a bucket by an entry gives the entry's chunk, in its place. */
  lemma CutChunk(s: seq<byte>, b: Bucket, k: nat)
    requires k < |b| && |Fill(b)| <= |s| && s[..|Fill(b)|] == Fill(b)
    ensures var e := Entries(b)[k];
            && e.offset + e.size <= |s|
            && Chunk(e.name, e.item, e.nbytes, e.at, e.offset, s[e.offset..e.offset + e.size]) == Located(b)[k]
  {
    EntryLocates(b, k);
    var e := Entries(b)[k];
    CutPrefix(s, Fill(b), e.offset, e.offset + e.size);
  }

  /** Yields the chunks of a bucket from a buffer that no pending broadcast writes. */
  method YieldChunks(buf: array<byte>, entries: seq<Entry>, pending: ReceiveOperation?, ghost b: Bucket)
    returns (cs: seq<Chunk>)
    requires pending == null || pending.awaited || pending.bucket != buf
    requires entries == Entries(b) && |Fill(b)| <= buf.Length && buf[..|Fill(b)|] == Fill(b)
    ensures cs == Located(b)
  {
    cs := [];
    for k := 0 to |entries|
      invariant cs == Located(b)[..k]
    {
      var e := entries[k];
      CutChunk(buf[..], b, k);
      assert buf[e.offset..e.offset + e.size] == buf[..][e.offset..e.offset + e.size];
      cs := cs + [Chunk(e.name, e.item, e.nbytes, e.at, e.offset, buf[e.offset..e.offset + e.size])];
    }
  }

  /** Receives one message after the other until the one marked last, reading one buffer while the other is written. */
  method ReceiveWeightChunks(wire: seq<Message>, size: nat, buffer0: array<byte>, buffer1: array<byte>,
                             ghost bs: seq<Bucket>)
    returns (cs: seq<Chunk>)
    requires bs != [] && Broadcasts(wire, bs, true, size)
    requires buffer0 != buffer1 && buffer0.Length == buffer1.Length == size
    modifies buffer0, buffer1
    ensures cs == Flatten(LocatedAll(bs))
  {
    var sendBuf, recvBuf := buffer0, buffer1;
    var op := new ReceiveOperation(recvBuf);
    op.WaitForComplete(wire[0]);
    var metadata, k := wire[0], 0;
    sendBuf, recvBuf := recvBuf, sendBuf;
    cs := [];
    assert Carries(wire[0], bs[0], |bs| == 1, size);
    while !metadata.isLast
      invariant (sendBuf == buffer0 && recvBuf == buffer1) || (sendBuf == buffer1 && recvBuf == buffer0)
      invariant k < |bs| && metadata == wire[k] && sendBuf[..] == metadata.content
      invariant Carries(metadata, bs[k], k == |bs| - 1, size)
      invariant cs == Flatten(LocatedAll(bs)[..k])
      decreases |bs| - k
    {
      op := new ReceiveOperation(recvBuf);
      var part := YieldChunks(sendBuf, metadata.entries, op, bs[k]);
      cs := cs + part;
      FlattenStep(LocatedAll(bs), k);
      k := k + 1;
      assert Carries(wire[k], bs[k], k == |bs| - 1, size);
      op.WaitForComplete(wire[k]);
      metadata := wire[k];
      sendBuf, recvBuf := recvBuf, sendBuf;
    }
    var part := YieldChunks(sendBuf, metadata.entries, null, bs[k]);
    cs := cs + part;
    FlattenStep(LocatedAll(bs), k);
    assert LocatedAll(bs)[..k + 1] == LocatedAll(bs);
  }

  // ----- which syncs succeed -----

  /** Chunk k of the bucket lies where a view of it may start, or is merged and not viewed. */
  ghost predicate LiesAligned(b: Bucket, k: nat, size: nat)
    requires k < |b|
  {
    b[k].nbytes <= size ==> |Fill(b[..k])| % b[k].item == 0
  }

  /** Every chunk of a weight that fits in a bucket lies in its bucket at a multiple of its item size. */
  ghost predicate BucketAligned(b: Bucket, size: nat) {
    forall k :: 0 <= k < |b| ==> LiesAligned(b, k, size)
  }

  ghost predicate BucketsAligned(bs: seq<Bucket>, size: nat) {
    forall j :: 0 <= j < |bs| ==> BucketAligned(bs[j], size)
  }

  lemma AlignedJoin(a: seq<Chunk>, b: seq<Chunk>, size: nat)
    ensures AllAligned(a + b, size) <==> AllAligned(a, size) && AllAligned(b, size)
  {
    assert forall k :: 0 <= k < |a| ==> (a + b)[k] == a[k];
    assert forall k :: 0 <= k < |b| ==> (a + b)[|a| + k] == b[k];
  }

  lemma LocatedAligned(b: Bucket, size: nat)
    ensures AllAligned(Located(b), size) <==> BucketAligned(b, size)
  {
    forall k | 0 <= k < |b| ensures Aligned(Located(b)[k], size) <==> LiesAligned(b, k, size) {
    }
  }

  lemma {:induction false} LocatedAllAligned(bs: seq<Bucket>, size: nat)
    ensures AllAligned(Flatten(LocatedAll(bs)), size) <==> BucketsAligned(bs, size)
  {
    if bs != [] {
      var n := |bs| - 1;
      LocatedAllAligned(bs[..n], size);
      LocatedAligned(bs[n], size);
      assert LocatedAll(bs)[..n] == LocatedAll(bs[..n]);
      AlignedJoin(Flatten(LocatedAll(bs[..n])), Located(bs[n]), size);
      assert BucketsAligned(bs, size) <==> BucketsAligned(bs[..n], size) && BucketAligned(bs[n], size);
    }
  }

  lemma {:induction false} SplitUnplaced(ws: seq<Weight>, size: nat)
    requires size > 0
    ensures Unplaced(Split(ws, size)) == Split(ws, size)
  {
    if ws != [] {
      SplitUnplaced(ws[..|ws| - 1], size);
      SplitFromUnplaced(ws[|ws| - 1], size, 0);
    }
  }

  lemma {:induction false} SplitFromUnplaced(w: Weight, size: nat, at: nat)
    requires size > 0
    ensures Unplaced(SplitFrom(w, size, at)) == SplitFrom(w, size, at)
    decreases |w.bytes| - at
  {
    if at < |w.bytes| {
      SplitFromUnplaced(w, size, at + if size <= |w.bytes| - at then size else |w.bytes| - at);
    }
  }

  /** Putting chunks into buckets changes nothing but their offsets. */
  lemma {:induction false} LocatedUnplaced(bs: seq<Bucket>)
    ensures Unplaced(Flatten(LocatedAll(bs))) == Unplaced(Flatten(bs))
  {
    if bs != [] {
      var n := |bs| - 1;
      LocatedUnplaced(bs[..n]);
      assert LocatedAll(bs)[..n] == LocatedAll(bs[..n]);
      UnplacedJoin(Flatten(LocatedAll(bs[..n])), Located(bs[n]));
      UnplacedJoin(Flatten(bs[..n]), bs[n]);
      assert Unplaced(Located(bs[n])) == Unplaced(bs[n]);
    }
  }

  lemma UnplacedJoin(a: seq<Chunk>, b: seq<Chunk>)
    ensures Unplaced(a + b) == Unplaced(a) + Unplaced(b)
  {
  }

  /** What merging the chunks of the received buckets comes to. */
  lemma MergeReceived(ws: seq<Weight>, size: nat)
    requires size > 0 && DistinctNames(ws)
    ensures var bs := Pack(Split(ws, size), size);
            Merge(Flatten(LocatedAll(bs)), size) == if BucketsAligned(bs, size) then Ok(NonEmpty(ws)) else Err(BadView)
  {
    var bs := Pack(Split(ws, size), size);
    SplitIsWellSplit(ws, size);
    PackKeeps(Split(ws, size), size);
    LocatedUnplaced(bs);
    SplitUnplaced(ws, size);
    MergeSplitState(ws, size);
    MergePlaced(MergeState([], Idle), Flatten(LocatedAll(bs)), size);
    LocatedAllAligned(bs, size);
  }

  /**
   * The whole transport, for every positive bucket size and all distinctly
   * named weights: the receiver gets exactly the weights that have bytes if
   * every one that fits in a bucket lies in its bucket at a multiple of its item
   * size, and otherwise the view of one that does not raises.
   */
  method Transport(ws: seq<Weight>, size: nat, s0: array<byte>, s1: array<byte>, r0: array<byte>, r1: array<byte>)
    returns (r: Result<seq<Weight>, MergeError>)
    requires size > 0 && DistinctNames(ws)
    requires s0 != s1 && s0.Length == s1.Length == size
    requires r0 != r1 && r0.Length == r1.Length == size
    modifies s0, s1, r0, r1
    ensures r == Ok(NonEmpty(ws)) <==> BucketsAligned(Pack(Split(ws, size), size), size)
    ensures r == Err(BadView) <==> !BucketsAligned(Pack(Split(ws, size), size), size)
  {
    var wire := SendWeights(ws, size, s0, s1);
    SplitIsWellSplit(ws, size);
    PackKeeps(Split(ws, size), size);
    var cs := ReceiveWeightChunks(wire, size, r0, r1, Pack(Split(ws, size), size));
    r := MergeWeightChunks(cs, size);
    MergeReceived(ws, size);
  }

  // ----- one dtype, and a bucket of whole elements -----

  ghost predicate OneItem(cs: seq<Chunk>, item: ItemSize) {
    forall k :: 0 <= k < |cs| ==> cs[k].item == item && |cs[k].bytes| % item == 0
  }

  lemma {:induction false} SplitFromOneItem(w: Weight, size: nat, at: nat, item: ItemSize)
    requires size > 0 && size % item == 0 && w.item == item && |w.bytes| % item == 0 && at % item == 0
    ensures OneItem(SplitFrom(w, size, at), item)
    decreases |w.bytes| - at
  {
    if at < |w.bytes| {
      var n := if size <= |w.bytes| - at then size else |w.bytes| - at;
      Blocks.Multiples(|w.bytes|, at, item);
      Blocks.Multiples(at, n, item);
      SplitFromOneItem(w, size, at + n, item);
    }
  }

  lemma {:induction false} SplitOneItem(ws: seq<Weight>, size: nat, item: ItemSize)
    requires size > 0 && size % item == 0
    requires forall i :: 0 <= i < |ws| ==> ws[i].item == item && |ws[i].bytes| % item == 0
    ensures OneItem(Split(ws, size), item)
  {
    if ws != [] {
      SplitOneItem(ws[..|ws| - 1], size, item);
      SplitFromOneItem(ws[|ws| - 1], size, 0, item);
    }
  }

  lemma {:induction false} FillMultiple(b: Bucket, item: ItemSize)
    requires OneItem(b, item)
    ensures |Fill(b)| % item == 0
  {
    if b != [] {
      FillMultiple(b[..|b| - 1], item);
      Blocks.Multiples(|Fill(b[..|b| - 1])|, |b[|b| - 1].bytes|, item);
    }
  }

  /** Weights of one item size, whole elements each, always arrive if the bucket size is a multiple of it. */
  lemma OneItemAligned(ws: seq<Weight>, size: nat, item: ItemSize)
    requires size > 0 && size % item == 0 && DistinctNames(ws)
    requires forall i :: 0 <= i < |ws| ==> ws[i].item == item && |ws[i].bytes| % item == 0
    ensures BucketsAligned(Pack(Split(ws, size), size), size)
  {
    var cs := Split(ws, size);
    var bs := Pack(cs, size);
    SplitIsWellSplit(ws, size);
    SplitOneItem(ws, size, item);
    PackKeeps(cs, size);
    forall j | 0 <= j < |bs| ensures BucketAligned(bs[j], size) {
      forall m | 0 <= m < |bs[j]| ensures bs[j][m].item == item && |bs[j][m].bytes| % item == 0 {
        FlattenPosition(bs, j, m);
      }
      forall k | 0 <= k < |bs[j]| ensures LiesAligned(bs[j], k, size) {
        FillMultiple(bs[j][..k], item);
      }
    }
  }

  /** Two chunks that fit in one bucket together. */
  lemma PackTwo(a: Chunk, b: Chunk, size: nat)
    requires |a.bytes| + |b.bytes| <= size
    ensures Pack([a, b], size) == [[a, b]]
  {
    FillAppend([], a);
    assert [] + [a] == [a];
    assert Place([a, b], size, 1) == ([], [a]);
    assert Place([a, b], size, 2) == ([], [a] + [b]);
    assert [a] + [b] == [a, b];
  }

  lemma SplitTwo(v: Weight, w: Weight, size: nat)
    requires 0 < |v.bytes| <= size && 0 < |w.bytes| <= size
    ensures Split([v, w], size)
            == [Chunk(v.name, v.item, |v.bytes|, 0, 0, v.bytes), Chunk(w.name, w.item, |w.bytes|, 0, 0, w.bytes)]
  {
    assert [v, w][..1] == [v] && [v][..0] == [];
    SplitSmall(v, size);
    SplitSmall(w, size);
    assert Split([v], size) == SplitFrom(v, size, 0);
    assert Split([v, w], size) == Split([v], size) + SplitFrom(w, size, 0);
  }

  /** But a single byte before a weight of two-byte elements makes the receiver raise. */
  lemma OddOffset(x: byte, w: Weight, size: nat)
    requires w.item == 2 && 0 < |w.bytes| < size && w.name != "x"
    ensures DistinctNames([Weight("x", 1, [x]), w])
    ensures !BucketsAligned(Pack(Split([Weight("x", 1, [x]), w], size), size), size)
  {
    var a, b := Chunk("x", 1, 1, 0, 0, [x]), Chunk(w.name, 2, |w.bytes|, 0, 0, w.bytes);
    SplitTwo(Weight("x", 1, [x]), w, size);
    PackTwo(a, b, size);
    FillAppend([], a);
    assert [] + [a] == [a] && [a, b][..1] == [a];
    assert !LiesAligned([a, b], 1, size);
    assert [[a, b]][0] == [a, b];
  }
}
