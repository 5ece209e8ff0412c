/** One sync's stream of flushes: bucketing, slicing, one flush of lookahead, and the receiving loop. */
module DeltaStream {
  import opened Common
  import opened DeltaWire

  function Count(items: seq<Item>): (r: nat) {
    if items == [] then 0 else Count(items[..|items| - 1]) + |items[|items| - 1].changes|
  }

  lemma CountAppend(items: seq<Item>, it: Item)
    ensures Count(items + [it]) == Count(items) + |it.changes|
  {
    assert (items + [it])[..|items|] == items;
  }

  /** The slices of at most max changes that a long entry is cut into. */
  function Slices(name: string, numel: nat, changes: seq<Change>, max: nat): (r: seq<Item>)
    requires max > 0
    decreases |changes|
  {
    if changes == [] then []
    else
      var e := if max <= |changes| then max else |changes|;
      [Item(name, numel, changes[..e])] + Slices(name, numel, changes[e..], max)
  }

  function ChangesOf(items: seq<Item>): (r: seq<seq<Change>>)
    ensures |r| == |items| && forall k :: 0 <= k < |r| ==> r[k] == items[k].changes
  {
    seq(|items|, k requires 0 <= k < |items| => items[k].changes)
  }

  /** Entries of between 1 and max changes. */
  ghost predicate EntriesWithin(items: seq<Item>, max: nat) {
    forall k :: 0 <= k < |items| ==> 1 <= |items[k].changes| <= max
  }

  lemma {:induction false} SlicesJoin(name: string, numel: nat, changes: seq<Change>, max: nat)
    requires max > 0
    ensures Flatten(ChangesOf(Slices(name, numel, changes, max))) == changes
    decreases |changes|
  {
    if changes != [] {
      var e := if max <= |changes| then max else |changes|;
      var first, rest := Item(name, numel, changes[..e]), Slices(name, numel, changes[e..], max);
      SlicesJoin(name, numel, changes[e..], max);
      assert ChangesOf([first] + rest) == [changes[..e]] + ChangesOf(rest);
      FlattenAppend([changes[..e]], ChangesOf(rest));
      FlattenOne(changes[..e]);
    }
  }

  /** The changes in order and none left out, in full entries of max changes, only the last of which may have fewer; no changes give no entries. */
  lemma {:induction false} SlicesExact(name: string, numel: nat, changes: seq<Change>, max: nat)
    requires max > 0
    ensures var r := Slices(name, numel, changes, max);
            && EntriesWithin(r, max)
            && (forall k :: 0 <= k < |r| ==> r[k].name == name && r[k].numel == numel)
            && (forall k :: 0 <= k < |r| - 1 ==> |r[k].changes| == max)
            && Flatten(ChangesOf(r)) == changes
            && (r == [] <==> changes == [])
    decreases |changes|
  {
    if changes != [] {
      var e := if max <= |changes| then max else |changes|;
      SlicesExact(name, numel, changes[e..], max);
    }
    SlicesJoin(name, numel, changes, max);
  }

  /** The bytes of n elements of size bytes each; written as a sum so that proofs stay linear. */
  function Scale(n: nat, size: nat): (r: nat) {
    if n == 0 then 0 else Scale(n - 1, size) + size
  }

  lemma {:induction false} ScaleIsProduct(n: nat, size: nat)
    ensures Scale(n, size) == n * size
  {
    if n > 0 {
      ScaleIsProduct(n - 1, size);
      assert (n - 1) * size + size == n * size;
    }
  }

  lemma {:induction false} ScaleAdd(m: nat, n: nat, size: nat)
    ensures Scale(m + n, size) == Scale(m, size) + Scale(n, size)
  {
    if n > 0 {
      ScaleAdd(m, n - 1, size);
    }
  }

  lemma {:induction false} ScaleSum(n: nat, a: nat, b: nat)
    ensures Scale(n, a + b) == Scale(n, a) + Scale(n, b)
  {
    if n > 0 {
      ScaleSum(n - 1, a, b);
    }
  }

  lemma {:induction false} ScaleFour(n: nat)
    ensures Scale(n, 4) == 4 * n
  {
    if n > 0 {
      ScaleFour(n - 1);
    }
  }

  /** Bytes a flush puts on the wire, for elements of esz bytes. */
  function Payload(f: Flush, esz: nat): nat {
    |f.positions| + Scale(|f.values|, esz)
  }

  function WirePayload(wire: seq<Msg>, esz: nat): (r: nat) {
    if wire == [] then 0
    else WirePayload(wire[..|wire| - 1], esz) + MsgPayload(wire[|wire| - 1], esz)
  }

  function MsgPayload(m: Msg, esz: nat): nat {
    match m
    case TerminalEmpty => 0
    case FlushMsg(f, _) => Payload(f, esz)
  }

  lemma WirePayloadAppend(wire: seq<Msg>, m: Msg, esz: nat)
    ensures WirePayload(wire + [m], esz) == WirePayload(wire, esz) + MsgPayload(m, esz)
  {
    assert (wire + [m])[..|wire|] == wire;
  }

  lemma {:induction false} AssembleSizes(bucket: seq<Item>, dense: bool)
    requires Packable(bucket, dense)
    ensures |Assemble(bucket, dense).values| == Count(bucket)
    ensures |Assemble(bucket, dense).positions| == if dense then 0 else 4 * Count(bucket)
  {
    if bucket != [] {
      AssembleSizes(bucket[..|bucket| - 1], dense);
      assert PackableItem(bucket[|bucket| - 1], dense);
    }
  }

  /**
   * The wire carries these groups of items: a flush per group, in order, of
   * which exactly the last is marked; or the terminal message when there is none.
   */
  ghost predicate StreamOf(wire: seq<Msg>, groups: seq<seq<Item>>, dense: bool) {
    && (forall k :: 0 <= k < |groups| ==> Packable(groups[k], dense) && groups[k] != [])
    && if groups == [] then wire == [TerminalEmpty]
       else
         && |wire| == |groups|
         && forall k :: 0 <= k < |groups| ==> wire[k] == FlushMsg(Assemble(groups[k], dense), k == |groups| - 1)
  }

  /** Its last entry takes the bucket to the size. */
  ghost predicate FilledByLast(g: seq<Item>, size: nat, itemBytes: nat) {
    && Scale(Count(g), itemBytes) >= size
    && (|g| > 1 ==> Scale(Count(g[..|g| - 1]), itemBytes) < size)
  }

  ghost predicate AllFilled(groups: seq<seq<Item>>, size: nat, itemBytes: nat) {
    forall k :: 0 <= k < |groups| ==> FilledAt(groups, k, size, itemBytes)
  }

  ghost predicate FilledAt(groups: seq<seq<Item>>, k: nat, size: nat, itemBytes: nat)
    requires k < |groups|
  {
    FilledByLast(groups[k], size, itemBytes)
  }

  lemma FilledMore(groups: seq<seq<Item>>, bucket: seq<Item>, it: Item, size: nat, itemBytes: nat)
    requires AllFilled(groups, size, itemBytes)
    requires bucket != [] ==> Scale(Count(bucket), itemBytes) < size
    requires Scale(Count(bucket + [it]), itemBytes) >= size
    ensures AllFilled(groups + [bucket + [it]], size, itemBytes)
  {
    assert (bucket + [it])[..|bucket|] == bucket;
    forall k | 0 <= k <= |groups| ensures FilledAt(groups + [bucket + [it]], k, size, itemBytes) {
      assert k < |groups| ==> FilledAt(groups, k, size, itemBytes);
    }
  }

  lemma SlicesWithin(name: string, numel: nat, changes: seq<Change>, max: nat)
    requires max > 0
    ensures EntriesWithin(Slices(name, numel, changes, max), max)
  {
    SlicesExact(name, numel, changes, max);
  }

  /** Every group was sealed as soon as it was full, and only the last may not have been full. */
  ghost predicate SealedWhenFull(groups: seq<seq<Item>>, size: nat, itemBytes: nat) {
    forall k :: 0 <= k < |groups| ==>
      FilledByLast(groups[k], size, itemBytes) || (k == |groups| - 1 && Scale(Count(groups[k]), itemBytes) < size)
  }

  lemma LastSealed(groups: seq<seq<Item>>, bucket: seq<Item>, size: nat, itemBytes: nat)
    requires AllFilled(groups, size, itemBytes)
    requires bucket != [] ==> Scale(Count(bucket), itemBytes) < size
    ensures SealedWhenFull(groups + if bucket == [] then [] else [bucket], size, itemBytes)
  {
    forall k | 0 <= k < |groups| ensures FilledByLast(groups[k], size, itemBytes) {
      assert FilledAt(groups, k, size, itemBytes);
    }
  }

  class FlushStream {
    const dense: bool
    const bucketSize: nat
    const maxEntry: nat
    const esz: nat
    var bucket: seq<Item>
    var bucketBytes: nat
    var pending: Option<Flush>
    var wire: seq<Msg>
    var flushes: nat
    var wireBytes: nat
    ghost var groups: seq<seq<Item>>   // the sealed buckets; the last one is pending

    ghost predicate Valid()
      reads this
    {
      Open() && AllFilled(groups, bucketSize, ItemBytes())
    }

    /** Valid, except that the last group may have been sealed before it was full. */
    ghost predicate Open()
      reads this
    {
      Valid0() && (bucket != [] ==> bucketBytes < bucketSize)
    }

    /** Open, except that the bucket may be full. */
    ghost predicate Valid0()
      reads this
    {
      && maxEntry > 0
      && Packable(bucket, dense)
      && bucketBytes == Scale(Count(bucket), ItemBytes())
      && SealedOk(groups, pending, wire, dense)
      && flushes == |wire|
      && wireBytes == Reported(wire, groups, bucket, dense, esz)
    }

    function ItemBytes(): nat
      reads this
    {
      if dense then esz else 8 + esz
    }

    /** Everything put into the stream so far, in order. */
    ghost function Items(): seq<Item>
      reads this
    {
      Flatten(groups) + bucket
    }

    constructor (dense: bool, bucketSize: nat, maxEntry: nat, esz: nat)
      requires maxEntry > 0
      ensures Valid() && Items() == []
      ensures this.dense == dense && this.bucketSize == bucketSize && this.maxEntry == maxEntry && this.esz == esz
    {
      this.dense, this.bucketSize, this.maxEntry, this.esz := dense, bucketSize, maxEntry, esz;
      bucket, bucketBytes, pending, wire, flushes, wireBytes := [], 0, None, [], 0, 0;
      groups := [];
    }

    /** Publishes the pending flush, if any. */
    method Emit(isLast: bool)
      requires SealedOk(groups, pending, wire, dense) && flushes == |wire|
      modifies this`pending, this`wire, this`flushes, this`wireBytes
      ensures pending == None && flushes == |wire|
      ensures wire == Published(old(pending), old(wire), isLast)
      ensures wireBytes == old(wireBytes) + if dense then Scale(PendingCount(groups), esz) else 0
    {
      match pending
      case None =>
      case Some(f) =>
        wire := wire + [FlushMsg(f, isLast)];
        flushes := flushes + 1;
        if dense {
          AssembleSizes(groups[|groups| - 1], dense);
          wireBytes := wireBytes + Scale(|f.values|, esz);
        }
        pending := None;
    }

    /** Turns the bucket into the pending flush and publishes the one that was pending. */
    method Seal()
      requires Valid0()
      modifies this
      ensures Open() && Items() == old(Items()) && bucket == []
      ensures groups == old(groups) + if old(bucket) == [] then [] else [old(bucket)]
    {
      if bucket == [] {
        return;
      }
      SealNext(wire, groups, pending, dense, bucket);
      SealReported(wire, groups, pending, dense, bucket, esz);
      Emit(false);
      var f := AssembleFlush(bucket, dense);
      pending := Some(f);
      groups := groups + [bucket];
      bucket, bucketBytes := [], 0;
    }

    /** Puts one entry in the bucket. */
    method Add(it: Item)
      requires Valid() && PackableItem(it, dense)
      modifies this`bucket, this`bucketBytes, this`wireBytes
      ensures Valid0() && Items() == old(Items()) + [it] && bucket == old(bucket) + [it]
    {
      AppendReported(wire, groups, dense, bucket, it, esz);
      ScaleAdd(Count(bucket), |it.changes|, ItemBytes());
      CountAppend(bucket, it);
      bucket := bucket + [it];
      bucketBytes := bucketBytes + Scale(|it.changes|, ItemBytes());
      if !dense {
        wireBytes := wireBytes + Scale(|it.changes|, 4 + esz);
      }
      Regroup(Flatten(groups), old(bucket), [it]);
    }

    /** Puts one entry in the bucket, and seals the bucket once it is full. */
    method Append(it: Item)
      requires Valid() && PackableItem(it, dense)
      modifies this
      ensures Valid() && Items() == old(Items()) + [it]
    {
      Add(it);
      if bucketBytes >= bucketSize {
        FilledMore(groups, old(bucket), it, bucketSize, ItemBytes());
        Seal();
      }
    }

    /** The changes of one parameter, cut into entries of at most maxEntry changes. */
    method Consume(name: string, numel: nat, changes: seq<Change>)
      requires Valid() && !dense && PackableItem(Item(name, numel, changes), false)
      modifies this
      ensures Valid() && Items() == old(Items()) + Slices(name, numel, changes, maxEntry)
      ensures EntriesWithin(Slices(name, numel, changes, maxEntry), maxEntry)
    {
      SlicesWithin(name, numel, changes, maxEntry);
      var s := 0;
      while s < |changes|
        invariant s <= |changes| && Valid()
        invariant Items() + Slices(name, numel, changes[s..], maxEntry) == old(Items()) + Slices(name, numel, changes, maxEntry)
      {
        var e := if s + maxEntry <= |changes| then s + maxEntry else |changes|;
        SliceStep(name, numel, changes, s, e, maxEntry);
        Append(Item(name, numel, changes[s..e]));
        s := e;
      }
    }

    /** One whole parameter of a dense flush. */
    method AddDense(name: string, flat: seq<Elem>)
      requires Valid() && dense
      modifies this
      ensures Valid() && Items() == old(Items()) + [Item(name, |flat|, DenseChanges(flat))]
    {
      Append(Item(name, |flat|, DenseChanges(flat)));
    }

    /** Publishes what is pending, marked last, or the terminal message if there was no bucket. */
    method PublishLast()
      requires Open() && bucket == []
      modifies this
      ensures StreamOf(wire, groups, dense) && groups == old(groups)
      ensures wireBytes == WirePayload(wire, esz) && flushes == |groups|
    {
      FinishReported(wire, groups, pending, dense, esz);
      FinishStream(wire, groups, pending, dense);
      if pending.Some? {
        Emit(true);
      } else {
        wire := wire + [TerminalEmpty];
      }
    }

    /** Seals the last bucket and publishes it. */
    method Finish()
      requires Valid()
      modifies this
      ensures StreamOf(wire, groups, dense) && Flatten(groups) == old(Items())
      ensures SealedWhenFull(groups, bucketSize, if dense then esz else 8 + esz)
      ensures wireBytes == WirePayload(wire, esz) && flushes == |groups|
    {
      LastSealed(groups, bucket, bucketSize, ItemBytes());
      Seal();
      PublishLast();
    }
  }

  lemma PendingPayload(wire: seq<Msg>, groups: seq<seq<Item>>, pending: Option<Flush>, dense: bool, esz: nat)
    requires SealedOk(groups, pending, wire, dense) && pending.Some?
    ensures Payload(pending.value, esz) == Scale(PendingCount(groups), if dense then esz else 4 + esz)
  {
    AssembleSizes(groups[|groups| - 1], dense);
    ScaleSum(PendingCount(groups), 4, esz);
    ScaleFour(PendingCount(groups));
  }

  /** The wire after publishing what is pending. */
  function Published(pending: Option<Flush>, wire: seq<Msg>, isLast: bool): seq<Msg> {
    match pending
    case None => wire
    case Some(f) => wire + [FlushMsg(f, isLast)]
  }

  /** The bytes reported so far: those on the wire, and for a sparse stream also those still to be published. */
  ghost function Reported(wire: seq<Msg>, groups: seq<seq<Item>>, bucket: seq<Item>, dense: bool, esz: nat): nat {
    WirePayload(wire, esz) + if dense then 0 else Scale(PendingCount(groups) + Count(bucket), 4 + esz)
  }

  lemma PublishPayload(wire: seq<Msg>, pending: Option<Flush>, esz: nat, isLast: bool)
    ensures WirePayload(Published(pending, wire, isLast), esz)
            == WirePayload(wire, esz) + if pending.None? then 0 else Payload(pending.value, esz)
  {
    if pending.Some? {
      WirePayloadAppend(wire, FlushMsg(pending.value, isLast), esz);
    }
  }

  lemma PublishReported(wire: seq<Msg>, groups: seq<seq<Item>>, pending: Option<Flush>, dense: bool, esz: nat, isLast: bool)
    requires SealedOk(groups, pending, wire, dense)
    ensures WirePayload(Published(pending, wire, isLast), esz)
            == WirePayload(wire, esz) + Scale(PendingCount(groups), if dense then esz else 4 + esz)
  {
    PublishPayload(wire, pending, esz, isLast);
    if pending.Some? {
      PendingPayload(wire, groups, pending, dense, esz);
    } else {
      assert PendingCount(groups) == 0;
    }
  }

  lemma SealReported(wire: seq<Msg>, groups: seq<seq<Item>>, pending: Option<Flush>, dense: bool, bucket: seq<Item>, esz: nat)
    requires SealedOk(groups, pending, wire, dense)
    ensures Reported(Published(pending, wire, false), groups + [bucket], [], dense, esz)
            == Reported(wire, groups, bucket, dense, esz) + if dense then Scale(PendingCount(groups), esz) else 0
  {
    PublishReported(wire, groups, pending, dense, esz, false);
    ScaleAdd(PendingCount(groups), Count(bucket), 4 + esz);
  }

  lemma AppendReported(wire: seq<Msg>, groups: seq<seq<Item>>, dense: bool, bucket: seq<Item>, it: Item, esz: nat)
    ensures Reported(wire, groups, bucket + [it], dense, esz)
            == Reported(wire, groups, bucket, dense, esz) + if dense then 0 else Scale(|it.changes|, 4 + esz)
  {
    CountAppend(bucket, it);
    ScaleAdd(PendingCount(groups) + Count(bucket), |it.changes|, 4 + esz);
  }

  /** Sealing a bucket: the flush that was pending goes out unmarked, and the bucket's becomes pending. */
  lemma SealNext(wire: seq<Msg>, groups: seq<seq<Item>>, pending: Option<Flush>, dense: bool, bucket: seq<Item>)
    requires SealedOk(groups, pending, wire, dense) && Packable(bucket, dense) && bucket != []
    ensures SealedOk(groups + [bucket], Some(Assemble(bucket, dense)), Published(pending, wire, false), dense)
    ensures Flatten(groups + [bucket]) == Flatten(groups) + bucket && PendingCount(groups + [bucket]) == Count(bucket)
  {
    var groups', wire' := groups + [bucket], Published(pending, wire, false);
    assert groups'[..|groups|] == groups;
    forall k | 0 <= k < |groups'| ensures GroupAt(groups', dense, k) {
      assert k < |groups| ==> GroupAt(groups, dense, k);
    }
    forall k | 0 <= k < |wire'| ensures MsgAt(groups', wire', dense, k) {
      assert k < |wire| ==> MsgAt(groups, wire, dense, k);
    }
  }

  lemma FinishReported(wire: seq<Msg>, groups: seq<seq<Item>>, pending: Option<Flush>, dense: bool, esz: nat)
    requires SealedOk(groups, pending, wire, dense)
    ensures WirePayload(if pending.None? then wire + [TerminalEmpty] else Published(pending, wire, true), esz)
            == Reported(wire, groups, [], dense, esz) + if dense then Scale(PendingCount(groups), esz) else 0
  {
    PublishReported(wire, groups, pending, dense, esz, true);
    WirePayloadAppend(wire, TerminalEmpty, esz);
  }

  lemma FinishStream(wire: seq<Msg>, groups: seq<seq<Item>>, pending: Option<Flush>, dense: bool)
    requires SealedOk(groups, pending, wire, dense)
    ensures StreamOf(if pending.None? then wire + [TerminalEmpty] else Published(pending, wire, true), groups, dense)
  {
    forall k | 0 <= k < |groups| ensures Packable(groups[k], dense) && groups[k] != [] {
      assert GroupAt(groups, dense, k);
    }
    forall k | 0 <= k < |wire| ensures wire[k] == FlushMsg(Assemble(groups[k], dense), false) {
      assert MsgAt(groups, wire, dense, k);
    }
  }

  lemma SliceStep(name: string, numel: nat, changes: seq<Change>, s: nat, e: nat, max: nat)
    requires s < |changes| && max > 0 && e == (if s + max <= |changes| then s + max else |changes|)
    requires PackableItem(Item(name, numel, changes), false)
    ensures Slices(name, numel, changes[s..], max)
            == [Item(name, numel, changes[s..e])] + Slices(name, numel, changes[e..], max)
    ensures PackableItem(Item(name, numel, changes[s..e]), false)
  {
    assert changes[s..][..e - s] == changes[s..e];
    assert changes[s..][e - s..] == changes[e..];
  }

  ghost predicate SealedOk(groups: seq<seq<Item>>, pending: Option<Flush>, wire: seq<Msg>, dense: bool) {
    && (forall k :: 0 <= k < |groups| ==> GroupAt(groups, dense, k))
    && (pending.Some? <==> groups != [])
    && |wire| == (if groups == [] then 0 else |groups| - 1)
    && (forall k :: 0 <= k < |wire| ==> MsgAt(groups, wire, dense, k))
    && (groups != [] ==> GroupAt(groups, dense, |groups| - 1) && pending == Some(Assemble(groups[|groups| - 1], dense)))
  }

  ghost predicate GroupAt(groups: seq<seq<Item>>, dense: bool, k: nat)
    requires k < |groups|
  {
    Packable(groups[k], dense) && groups[k] != []
  }

  /** Message k on the wire is the flush of group k, not marked. */
  ghost predicate MsgAt(groups: seq<seq<Item>>, wire: seq<Msg>, dense: bool, k: nat)
    requires k < |groups| && k < |wire|
  {
    GroupAt(groups, dense, k) && wire[k] == FlushMsg(Assemble(groups[k], dense), false)
  }

  ghost function PendingCount(groups: seq<seq<Item>>): nat {
    if groups == [] then 0 else Count(groups[|groups| - 1])
  }

  // ----- receiving -----

  /** The flush decodes to the group, entry by entry, and nothing in it is left over. */
  ghost predicate Received(f: Flush, dense: bool, group: seq<Item>) {
    Decodes(f, dense, group) && Tiles(f)
  }

  /** Message k of a stream: the flush of group k, marked if it is the last, or the terminal message of a stream without groups. */
  lemma NextMessage(wire: seq<Msg>, groups: seq<seq<Item>>, dense: bool, k: nat)
    requires StreamOf(wire, groups, dense) && k < |wire|
    ensures wire[k].TerminalEmpty? ==> groups == [] && |wire| == 1
    ensures wire[k].FlushMsg? ==> k < |groups| == |wire| && Received(wire[k].flush, dense, groups[k])
    ensures wire[k].FlushMsg? ==> (wire[k].isLast <==> k == |groups| - 1)
  {
    if groups != [] {
      FlushRoundTrip(groups[k], dense);
    }
  }

  /** Reads messages until the terminal one or the one marked last; every message before that is a flush. */
  method ReceiveFlushes(wire: seq<Msg>, ghost groups: seq<seq<Item>>, dense: bool)
    returns (flushes: seq<Flush>, consumed: nat)
    requires StreamOf(wire, groups, dense)
    ensures consumed == |wire|
    ensures |flushes| == |groups|
    ensures forall k :: 0 <= k < |groups| ==> Received(flushes[k], dense, groups[k])
  {
    flushes, consumed := [], 0;
    while true
      invariant consumed == |flushes| <= |groups| && consumed < |wire|
      invariant forall k :: 0 <= k < |flushes| ==> Received(flushes[k], dense, groups[k])
      decreases |wire| - consumed
    {
      NextMessage(wire, groups, dense, consumed);
      var m := wire[consumed];
      consumed := consumed + 1;
      match m
      case TerminalEmpty => return;
      case FlushMsg(f, isLast) =>
        flushes := flushes + [f];
        if isLast {
          return;
        }
    }
  }
}
