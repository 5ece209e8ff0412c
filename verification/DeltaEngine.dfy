/** Whole syncs of the delta engine, and runs of them. */
module DeltaEngine {
  import opened Common
  import opened DeltaWire
  import opened DeltaStream
  import opened DeltaReplay
  import opened DeltaSync

  type Weights = seq<Locals>

  ghost predicate ShapedAll(ps: seq<Param>, ws: Weights) {
    |ws| == |ps| && forall i :: 0 <= i < |ps| ==> Shaped(ps[i], ws[i])
  }

  ghost predicate NameAt(ps: seq<Param>, nm: string, i: nat, k: nat) {
    i < |ps| && k < |OutputNames(ps[i])| && OutputNames(ps[i])[k] == nm
  }

  /** The parameters are placed as their specs say, and no two of the tensors they stand for share a name. */
  ghost predicate WellFormed(ps: seq<Param>) {
    && (forall i :: 0 <= i < |ps| ==> WellPlaced(ps[i]))
    && (forall nm, i, k, i', k' :: NameAt(ps, nm, i, k) && NameAt(ps, nm, i', k') ==> i == i' && k == k')
  }

  /** Every position fits in the int32 the wire uses. */
  ghost predicate Int32Positions(ps: seq<Param>) {
    forall i :: 0 <= i < |ps| ==>
      match ps[i].layout
      case Placed(numel) => numel < MAX_POS
      case Converted(outputs) => forall k :: 0 <= k < |outputs| ==> |outputs[k].sources| < MAX_POS
  }

  // ----- one sync's items -----

  function SliceItems(items: seq<Item>, max: nat): (r: seq<Item>)
    requires max > 0
  {
    if items == [] then []
    else
      var n := |items| - 1;
      SliceItems(items[..n], max) + Slices(items[n].name, items[n].numel, items[n].changes, max)
  }

  /** Each parameter's entries, sliced. */
  function Parts(ps: seq<Param>, ws: Weights, snaps: Weights, max: nat): (r: seq<seq<Item>>)
    requires max > 0 && ShapedAll(ps, ws) && ShapedAll(ps, snaps) && WellFormed(ps)
    ensures |r| == |ps|
    ensures forall i :: 0 <= i < |ps| ==> r[i] == SliceItems(ParamItems(ps[i], ws[i], snaps[i]), max)
  {
    seq(|ps|, i requires 0 <= i < |ps| => SliceItems(ParamItems(ps[i], ws[i], snaps[i]), max))
  }

  function Pick(parts: seq<seq<Item>>, order: seq<nat>): (r: seq<Item>)
    requires OrderInRange(parts, order)
  {
    if order == [] then []
    else Pick(parts, order[..|order| - 1]) + parts[order[|order| - 1]]
  }

  predicate OrderInRange<T>(parts: seq<T>, order: seq<nat>) {
    forall j :: 0 <= j < |order| ==> order[j] < |parts|
  }

  /** The entries of a delta sync that takes the parameters in this order. */
  function SyncItems(ps: seq<Param>, ws: Weights, snaps: Weights, order: seq<nat>, max: nat): (r: seq<Item>)
    requires max > 0 && ShapedAll(ps, ws) && ShapedAll(ps, snaps) && WellFormed(ps) && OrderInRange(ps, order)
  {
    Pick(Parts(ps, ws, snaps, max), order)
  }

  lemma HasAppend(a: seq<Item>, b: seq<Item>, nm: string, c: Change)
    ensures Has(a + b, nm, c) <==> Has(a, nm, c) || Has(b, nm, c)
  {
    if Has(a, nm, c) {
      var k :| 0 <= k < |a| && a[k].name == nm && c in a[k].changes;
      assert (a + b)[k] == a[k];
    }
    if Has(b, nm, c) {
      var k :| 0 <= k < |b| && b[k].name == nm && c in b[k].changes;
      assert (a + b)[|a| + k] == b[k];
    }
  }

  lemma HasOne(it: Item, nm: string, c: Change)
    ensures Has([it], nm, c) <==> it.name == nm && c in it.changes
  {
    assert [it][0] == it;
  }

  /** Slicing an entry keeps its changes. */
  lemma {:induction false} HasSlices(name: string, numel: nat, changes: seq<Change>, max: nat, nm: string, c: Change)
    requires max > 0
    ensures Has(Slices(name, numel, changes, max), nm, c) <==> name == nm && c in changes
    decreases |changes|
  {
    if changes != [] {
      var e := if max <= |changes| then max else |changes|;
      var rest := Slices(name, numel, changes[e..], max);
      HasSlices(name, numel, changes[e..], max, nm, c);
      HasAppend([Item(name, numel, changes[..e])], rest, nm, c);
      HasOne(Item(name, numel, changes[..e]), nm, c);
      assert changes == changes[..e] + changes[e..];
    }
  }

  lemma {:induction false} HasSliceItems(items: seq<Item>, max: nat, nm: string, c: Change)
    requires max > 0
    ensures Has(SliceItems(items, max), nm, c) <==> Has(items, nm, c)
  {
    if items != [] {
      var n := |items| - 1;
      HasSliceItems(items[..n], max, nm, c);
      HasSlices(items[n].name, items[n].numel, items[n].changes, max, nm, c);
      HasAppend(SliceItems(items[..n], max), Slices(items[n].name, items[n].numel, items[n].changes, max), nm, c);
      HasLast(items, nm, c);
    }
  }

  lemma {:induction false} HasPick(parts: seq<seq<Item>>, order: seq<nat>, nm: string, c: Change)
    requires OrderInRange(parts, order)
    ensures Has(Pick(parts, order), nm, c) <==> exists i :: i in order && Has(parts[i], nm, c)
  {
    if order != [] {
      var n := |order| - 1;
      HasPick(parts, order[..n], nm, c);
      HasAppend(Pick(parts, order[..n]), parts[order[n]], nm, c);
      assert order == order[..n] + [order[n]];
    }
  }

  /** The changes a sync sends for the tensor nm of parameter i are those of that tensor, in whatever order the parameters come. */
  lemma HasSyncItems(ps: seq<Param>, ws: Weights, snaps: Weights, order: seq<nat>, max: nat,
                     nm: string, i: nat, k: nat, c: Change)
    requires max > 0 && ShapedAll(ps, ws) && ShapedAll(ps, snaps) && WellFormed(ps)
    requires OrderInRange(ps, order)
    requires NameAt(ps, nm, i, k)
    ensures Has(SyncItems(ps, ws, snaps, order, max), nm, c)
            <==> i in order && c in ParamItems(ps[i], ws[i], snaps[i])[k].changes
  {
    var parts := Parts(ps, ws, snaps, max);
    HasPick(parts, order, nm, c);
    forall i' | 0 <= i' < |ps|
      ensures Has(parts[i'], nm, c) <==> i' == i && c in ParamItems(ps[i], ws[i], snaps[i])[k].changes
    {
      HasSliceItems(ParamItems(ps[i'], ws[i'], snaps[i']), max, nm, c);
      HasParamItem(ps, ws, snaps, nm, i, k, i', c);
    }
  }

  lemma HasParamItem(ps: seq<Param>, ws: Weights, snaps: Weights, nm: string, i: nat, k: nat, i': nat, c: Change)
    requires ShapedAll(ps, ws) && ShapedAll(ps, snaps) && WellFormed(ps) && i' < |ps| && NameAt(ps, nm, i, k)
    ensures Has(ParamItems(ps[i'], ws[i'], snaps[i']), nm, c)
            <==> i' == i && c in ParamItems(ps[i], ws[i], snaps[i])[k].changes
  {
    var items := ParamItems(ps[i'], ws[i'], snaps[i']);
    if Has(items, nm, c) {
      var k' :| 0 <= k' < |items| && items[k'].name == nm && c in items[k'].changes;
      assert NameAt(ps, nm, i', k');
    }
    if i' == i {
      assert items[k].name == nm;
    }
  }

  // ----- what a sync sends -----

  /** The changes in the entries named nm, one after the other. */
  function ChangesFor(items: seq<Item>, nm: string): (r: seq<Change>) {
    if items == [] then []
    else
      var n := |items| - 1;
      ChangesFor(items[..n], nm) + if items[n].name == nm then items[n].changes else []
  }

  lemma {:induction false} ChangesForAppend(a: seq<Item>, b: seq<Item>, nm: string)
    ensures ChangesFor(a + b, nm) == ChangesFor(a, nm) + ChangesFor(b, nm)
  {
    if b == [] {
      assert a + b == a;
    } else {
      var n := |b| - 1;
      ChangesForAppend(a, b[..n], nm);
      assert (a + b)[..|a + b| - 1] == a + b[..n];
    }
  }

  lemma ChangesForFirst(it: Item, rest: seq<Item>, nm: string)
    ensures ChangesFor([it] + rest, nm) == (if it.name == nm then it.changes else []) + ChangesFor(rest, nm)
  {
    ChangesForAppend([it], rest, nm);
    assert [it][..0] == [];
  }

  lemma {:induction false} ChangesForSlices(name: string, numel: nat, changes: seq<Change>, max: nat, nm: string)
    requires max > 0
    ensures ChangesFor(Slices(name, numel, changes, max), nm) == if name == nm then changes else []
    decreases |changes|
  {
    if changes != [] {
      var e := if max <= |changes| then max else |changes|;
      ChangesForSlices(name, numel, changes[e..], max, nm);
      ChangesForFirst(Item(name, numel, changes[..e]), Slices(name, numel, changes[e..], max), nm);
      assert changes == changes[..e] + changes[e..];
    }
  }

  lemma {:induction false} ChangesForSliceItems(items: seq<Item>, max: nat, nm: string)
    requires max > 0
    ensures ChangesFor(SliceItems(items, max), nm) == ChangesFor(items, nm)
  {
    if items != [] {
      var n := |items| - 1;
      ChangesForSliceItems(items[..n], max, nm);
      ChangesForSlices(items[n].name, items[n].numel, items[n].changes, max, nm);
      ChangesForAppend(SliceItems(items[..n], max), Slices(items[n].name, items[n].numel, items[n].changes, max), nm);
    }
  }

  /** Of entries of which only the one at k, if any, has the name. */
  lemma {:induction false} ChangesForOne(items: seq<Item>, nm: string, k: int)
    requires forall j :: 0 <= j < |items| && items[j].name == nm ==> j == k
    ensures ChangesFor(items, nm) == if 0 <= k < |items| && items[k].name == nm then items[k].changes else []
  {
    if items != [] {
      ChangesForOne(items[..|items| - 1], nm, k);
    }
  }

  /** Of parts of which only part i has entries of the name, taken once or not at all. */
  lemma {:induction false} ChangesForPick(parts: seq<seq<Item>>, order: seq<nat>, nm: string, i: nat)
    requires OrderInRange(parts, order) && i < |parts| && multiset(order)[i] <= 1
    requires forall i' :: 0 <= i' < |parts| && i' != i ==> ChangesFor(parts[i'], nm) == []
    ensures ChangesFor(Pick(parts, order), nm) == if i in order then ChangesFor(parts[i], nm) else []
  {
    if order != [] {
      var n := |order| - 1;
      assert order == order[..n] + [order[n]];
      ChangesForPick(parts, order[..n], nm, i);
      ChangesForAppend(Pick(parts, order[..n]), parts[order[n]], nm);
    }
  }

  lemma ChangesForParam(ps: seq<Param>, ws: Weights, snaps: Weights, max: nat, nm: string, i: nat, k: nat, i': nat)
    requires max > 0 && ShapedAll(ps, ws) && ShapedAll(ps, snaps) && WellFormed(ps) && i' < |ps| && NameAt(ps, nm, i, k)
    ensures ChangesFor(Parts(ps, ws, snaps, max)[i'], nm)
            == if i' == i then ParamItems(ps[i], ws[i], snaps[i])[k].changes else []
  {
    var items := ParamItems(ps[i'], ws[i'], snaps[i']);
    ChangesForSliceItems(items, max, nm);
    forall j | 0 <= j < |items| && items[j].name == nm ensures i' == i && j == k {
      assert NameAt(ps, nm, i', j);
    }
    ChangesForOne(items, nm, k);
  }

  /** The entries of a tensor, put together again, are its changes, each once and in order, if every parameter is taken once. */
  lemma SentOnceInOrder(ps: seq<Param>, ws: Weights, snaps: Weights, order: seq<nat>, max: nat, nm: string, i: nat, k: nat)
    requires max > 0 && ShapedAll(ps, ws) && ShapedAll(ps, snaps) && WellFormed(ps)
    requires OrderInRange(ps, order) && OnceEach(multiset(order), |ps|) && NameAt(ps, nm, i, k)
    ensures ChangesFor(SyncItems(ps, ws, snaps, order, max), nm) == ParamItems(ps[i], ws[i], snaps[i])[k].changes
    ensures DistinctPositions(ParamItems(ps[i], ws[i], snaps[i])[k].changes)
  {
    var parts := Parts(ps, ws, snaps, max);
    forall i' | 0 <= i' < |ps|
      ensures ChangesFor(parts[i'], nm) == if i' == i then ParamItems(ps[i], ws[i], snaps[i])[k].changes else []
    {
      ChangesForParam(ps, ws, snaps, max, nm, i, k, i');
    }
    assert multiset(order)[i] == 1;
    ChangesForPick(parts, order, nm, i);
    ChangesOnce(ps[i], ws[i], snaps[i], k);
  }

  /** An element of the k-th tensor of parameter i changed; in a converted tensor, to a number. */
  ghost predicate TensorChanged(ps: seq<Param>, ws: Weights, snaps: Weights, i: nat, k: nat)
    requires ShapedAll(ps, ws) && ShapedAll(ps, snaps) && WellFormed(ps) && i < |ps| && k < |OutputNames(ps[i])|
  {
    var old_, new_ := View(ps[i], snaps[i])[k].flat, View(ps[i], ws[i])[k].flat;
    exists j :: 0 <= j < |old_| && j < |new_| && old_[j] != new_[j] && (ps[i].layout.Converted? ==> !new_[j].NaN?)
  }

  lemma ChangedIsSent(ps: seq<Param>, ws: Weights, snaps: Weights, i: nat, k: nat)
    requires ShapedAll(ps, ws) && ShapedAll(ps, snaps) && WellFormed(ps) && i < |ps| && k < |OutputNames(ps[i])|
    requires TensorChanged(ps, ws, snaps, i, k)
    ensures ParamItems(ps[i], ws[i], snaps[i])[k].changes != []
  {
    var old_, new_ := View(ps[i], snaps[i])[k].flat, View(ps[i], ws[i])[k].flat;
    var j :| 0 <= j < |old_| && j < |new_| && old_[j] != new_[j] && (ps[i].layout.Converted? ==> !new_[j].NaN?);
    ChangesExact(ps[i], ws[i], snaps[i], k, Change(j, new_[j]));
  }

  lemma SendsNothing(ps: seq<Param>, ws: Weights, snaps: Weights, i: nat, k: nat)
    requires ShapedAll(ps, ws) && ShapedAll(ps, snaps) && WellFormed(ps) && i < |ps| && k < |OutputNames(ps[i])|
    ensures ParamItems(ps[i], ws[i], snaps[i])[k].changes == [] <==> !TensorChanged(ps, ws, snaps, i, k)
  {
    var cs := ParamItems(ps[i], ws[i], snaps[i])[k].changes;
    if TensorChanged(ps, ws, snaps, i, k) {
      ChangedIsSent(ps, ws, snaps, i, k);
    } else if cs != [] {
      ChangesExact(ps[i], ws[i], snaps[i], k, cs[0]);
    }
  }

  /** None of the entries has a change. */
  ghost predicate NoChanges(items: seq<Item>) {
    forall k :: 0 <= k < |items| ==> items[k].changes == []
  }

  lemma {:induction false} SliceItemsWithin(items: seq<Item>, max: nat)
    requires max > 0
    ensures EntriesWithin(SliceItems(items, max), max)
  {
    if items != [] {
      var n := |items| - 1;
      SliceItemsWithin(items[..n], max);
      SlicesWithin(items[n].name, items[n].numel, items[n].changes, max);
    }
  }

  lemma {:induction false} SliceItemsNone(items: seq<Item>, max: nat)
    requires max > 0
    ensures SliceItems(items, max) == [] <==> NoChanges(items)
  {
    if items != [] {
      var n := |items| - 1;
      SliceItemsNone(items[..n], max);
      SlicesExact(items[n].name, items[n].numel, items[n].changes, max);
      NoChangesStep(items);
    }
  }

  lemma NoChangesStep(items: seq<Item>)
    requires items != []
    ensures NoChanges(items) <==> NoChanges(items[..|items| - 1]) && items[|items| - 1].changes == []
  {
  }

  lemma {:induction false} PickWithin(parts: seq<seq<Item>>, order: seq<nat>, max: nat)
    requires OrderInRange(parts, order) && forall i :: 0 <= i < |parts| ==> EntriesWithin(parts[i], max)
    ensures EntriesWithin(Pick(parts, order), max)
  {
    if order != [] {
      PickWithin(parts, order[..|order| - 1], max);
    }
  }

  lemma {:induction false} PickNone(parts: seq<seq<Item>>, order: seq<nat>)
    requires OrderInRange(parts, order)
    ensures Pick(parts, order) == [] <==> forall j :: 0 <= j < |order| ==> parts[order[j]] == []
  {
    if order != [] {
      PickNone(parts, order[..|order| - 1]);
    }
  }

  lemma PickEmpty(parts: seq<seq<Item>>, order: seq<nat>)
    requires OrderInRange(parts, order) && forall i :: 0 <= i < |parts| ==> i in order
    ensures Pick(parts, order) == [] <==> forall i :: 0 <= i < |parts| ==> parts[i] == []
  {
    PickNone(parts, order);
    if i :| 0 <= i < |parts| && parts[i] != [] {
      assert i in order;
      var j :| 0 <= j < |order| && order[j] == i;
      assert parts[order[j]] != [];
    }
  }

  ghost predicate ParamUnchanged(ps: seq<Param>, ws: Weights, snaps: Weights, i: nat)
    requires ShapedAll(ps, ws) && ShapedAll(ps, snaps) && WellFormed(ps) && i < |ps|
  {
    forall k :: 0 <= k < |OutputNames(ps[i])| ==> !TensorChanged(ps, ws, snaps, i, k)
  }

  lemma PartEntries(ps: seq<Param>, ws: Weights, snaps: Weights, i: nat, max: nat)
    requires max > 0 && ShapedAll(ps, ws) && ShapedAll(ps, snaps) && WellFormed(ps) && i < |ps|
    ensures EntriesWithin(Parts(ps, ws, snaps, max)[i], max)
    ensures Parts(ps, ws, snaps, max)[i] == [] <==> ParamUnchanged(ps, ws, snaps, i)
  {
    var items := ParamItems(ps[i], ws[i], snaps[i]);
    SliceItemsWithin(items, max);
    SliceItemsNone(items, max);
    forall k | 0 <= k < |items| ensures items[k].changes == [] <==> !TensorChanged(ps, ws, snaps, i, k) {
      SendsNothing(ps, ws, snaps, i, k);
    }
  }

  /** No tensor has changed. */
  ghost predicate NothingChanged(ps: seq<Param>, ws: Weights, snaps: Weights)
    requires ShapedAll(ps, ws) && ShapedAll(ps, snaps) && WellFormed(ps)
  {
    forall i :: 0 <= i < |ps| ==> ParamUnchanged(ps, ws, snaps, i)
  }

  /** A sync has no entries exactly if no tensor has changed, and never an entry without changes or with more than the limit. */
  lemma SyncEntries(ps: seq<Param>, ws: Weights, snaps: Weights, order: seq<nat>, max: nat)
    requires max > 0 && ShapedAll(ps, ws) && ShapedAll(ps, snaps) && WellFormed(ps) && TakesAll(ps, order)
    ensures EntriesWithin(SyncItems(ps, ws, snaps, order, max), max)
    ensures SyncItems(ps, ws, snaps, order, max) == [] <==> NothingChanged(ps, ws, snaps)
  {
    var parts := Parts(ps, ws, snaps, max);
    forall i | 0 <= i < |ps|
      ensures EntriesWithin(parts[i], max)
      ensures parts[i] == [] <==> ParamUnchanged(ps, ws, snaps, i)
    {
      PartEntries(ps, ws, snaps, i, max);
    }
    PickWithin(parts, order, max);
    PickEmpty(parts, order);
  }

  // ----- what one sync does to the replica -----

  /** The tensor that parameter i's shards stand for, by its name. */
  ghost predicate HoldsTensor(ps: seq<Param>, ws: Weights, r: Replica, i: nat, k: nat)
    requires ShapedAll(ps, ws) && WellFormed(ps) && i < |ps| && k < |OutputNames(ps[i])|
  {
    var v := View(ps[i], ws[i])[k];
    v.name in r && r[v.name] == v.flat
  }

  /** The replica equals the trainer's full tensors. */
  ghost predicate InStep(ps: seq<Param>, ws: Weights, r: Replica)
    requires ShapedAll(ps, ws) && WellFormed(ps)
  {
    forall i, k :: 0 <= i < |ps| && 0 <= k < |OutputNames(ps[i])| ==> HoldsTensor(ps, ws, r, i, k)
  }

  /** The replica has every tensor, in its size. */
  ghost predicate Sized(ps: seq<Param>, r: Replica) {
    forall i, k :: 0 <= i < |ps| && 0 <= k < |OutputNames(ps[i])| ==> SizedTensor(ps, r, i, k)
  }

  ghost predicate SizedTensor(ps: seq<Param>, r: Replica, i: nat, k: nat)
    requires i < |ps| && k < |OutputNames(ps[i])|
  {
    OutputNames(ps[i])[k] in r && |r[OutputNames(ps[i])[k]]| == TensorSize(ps[i], k)
  }

  // ----- what the replica holds after any number of syncs -----

  /** The weights at each sync so far. */
  ghost predicate History(ps: seq<Param>, hist: seq<Weights>) {
    WellFormed(ps) && hist != [] && forall t :: 0 <= t < |hist| ==> ShapedAll(ps, hist[t])
  }

  /** The k-th tensor of parameter i at sync t. */
  function TensorAt(ps: seq<Param>, hist: seq<Weights>, t: nat, i: nat, k: nat): (r: seq<Elem>)
    requires History(ps, hist) && t < |hist| && i < |ps| && k < |OutputNames(ps[i])|
    ensures |r| == TensorSize(ps[i], k)
  {
    View(ps[i], hist[t][i])[k].flat
  }

  /** The elements of the first sync, each later one copied over them where it is a number. */
  function LastNumbers(ps: seq<Param>, hist: seq<Weights>, i: nat, k: nat): (r: seq<Elem>)
    requires History(ps, hist) && i < |ps| && k < |OutputNames(ps[i])|
    ensures |r| == TensorSize(ps[i], k)
  {
    var n := |hist| - 1;
    if n == 0 then TensorAt(ps, hist, 0, i, k)
    else MaskedCopy(LastNumbers(ps, hist[..n], i, k), TensorAt(ps, hist, n, i, k))
  }

  /** Sync t is the last one at which element j was a number. */
  ghost predicate LastNumberAt(ps: seq<Param>, hist: seq<Weights>, i: nat, k: nat, j: nat, t: nat)
    requires History(ps, hist) && t < |hist| && i < |ps| && k < |OutputNames(ps[i])| && j < TensorSize(ps[i], k)
  {
    && !TensorAt(ps, hist, t, i, k)[j].NaN?
    && forall u :: t < u < |hist| ==> TensorAt(ps, hist, u, i, k)[j].NaN?
  }

  ghost predicate NeverNumber(ps: seq<Param>, hist: seq<Weights>, i: nat, k: nat, j: nat)
    requires History(ps, hist) && i < |ps| && k < |OutputNames(ps[i])| && j < TensorSize(ps[i], k)
  {
    forall t :: 0 <= t < |hist| ==> TensorAt(ps, hist, t, i, k)[j].NaN?
  }

  lemma {:induction false} LastNumberIs(ps: seq<Param>, hist: seq<Weights>, i: nat, k: nat, j: nat, t: nat)
    requires History(ps, hist) && i < |ps| && k < |OutputNames(ps[i])| && j < TensorSize(ps[i], k)
    requires t < |hist| && LastNumberAt(ps, hist, i, k, j, t)
    ensures LastNumbers(ps, hist, i, k)[j] == TensorAt(ps, hist, t, i, k)[j]
  {
    var n := |hist| - 1;
    if t < n {
      forall u | t < u < n ensures TensorAt(ps, hist[..n], u, i, k)[j].NaN? {
        assert TensorAt(ps, hist[..n], u, i, k) == TensorAt(ps, hist, u, i, k);
      }
      LastNumberIs(ps, hist[..n], i, k, j, t);
    }
  }

  lemma {:induction false} NeverNumberIff(ps: seq<Param>, hist: seq<Weights>, i: nat, k: nat, j: nat)
    requires History(ps, hist) && i < |ps| && k < |OutputNames(ps[i])| && j < TensorSize(ps[i], k)
    ensures LastNumbers(ps, hist, i, k)[j].NaN? <==> NeverNumber(ps, hist, i, k, j)
  {
    var n := |hist| - 1;
    if n > 0 {
      NeverNumberIff(ps, hist[..n], i, k, j);
      NeverNumberStep(ps, hist, i, k, j);
    }
  }

  lemma NeverNumberStep(ps: seq<Param>, hist: seq<Weights>, i: nat, k: nat, j: nat)
    requires History(ps, hist) && |hist| > 1 && i < |ps| && k < |OutputNames(ps[i])| && j < TensorSize(ps[i], k)
    ensures var n := |hist| - 1;
            History(ps, hist[..n])
            && (NeverNumber(ps, hist, i, k, j) <==>
                NeverNumber(ps, hist[..n], i, k, j) && TensorAt(ps, hist, n, i, k)[j].NaN?)
  {
    var n := |hist| - 1;
    forall t | 0 <= t < n ensures TensorAt(ps, hist[..n], t, i, k) == TensorAt(ps, hist, t, i, k) {
    }
  }

  /** Every element is what it last was as a number, or NaN if it never was one. */
  lemma LastNumbersAt(ps: seq<Param>, hist: seq<Weights>, i: nat, k: nat, j: nat)
    requires History(ps, hist) && i < |ps| && k < |OutputNames(ps[i])| && j < TensorSize(ps[i], k)
    ensures forall t :: 0 <= t < |hist| && LastNumberAt(ps, hist, i, k, j, t)
                        ==> LastNumbers(ps, hist, i, k)[j] == TensorAt(ps, hist, t, i, k)[j]
    ensures LastNumbers(ps, hist, i, k)[j].NaN? <==> NeverNumber(ps, hist, i, k, j)
  {
    NeverNumberIff(ps, hist, i, k, j);
    forall t | 0 <= t < |hist| && LastNumberAt(ps, hist, i, k, j, t)
      ensures LastNumbers(ps, hist, i, k)[j] == TensorAt(ps, hist, t, i, k)[j]
    {
      LastNumberIs(ps, hist, i, k, j, t);
    }
  }

  ghost predicate HoldsLast(ps: seq<Param>, hist: seq<Weights>, r: Replica, i: nat, k: nat)
    requires History(ps, hist) && i < |ps| && k < |OutputNames(ps[i])|
  {
    var nm := OutputNames(ps[i])[k];
    nm in r && r[nm] == LastNumbers(ps, hist, i, k)
  }

  /** The replica after the syncs of this history. */
  ghost predicate Synced(ps: seq<Param>, hist: seq<Weights>, r: Replica)
    requires History(ps, hist)
  {
    forall i, k :: 0 <= i < |ps| && 0 <= k < |OutputNames(ps[i])| ==> HoldsLast(ps, hist, r, i, k)
  }

  /** An element that is NaN now was a number at an earlier sync. */
  ghost predicate LostNumber(ps: seq<Param>, hist: seq<Weights>, i: nat, k: nat, j: nat)
    requires History(ps, hist) && i < |ps| && k < |OutputNames(ps[i])| && j < TensorSize(ps[i], k)
  {
    TensorAt(ps, hist, |hist| - 1, i, k)[j].NaN? && !NeverNumber(ps, hist, i, k, j)
  }

  /** Whatever is NaN now has been NaN since the first sync. */
  ghost predicate NaNsFromStart(ps: seq<Param>, hist: seq<Weights>)
    requires History(ps, hist)
  {
    forall i, k, j ::
      0 <= i < |ps| && 0 <= k < |OutputNames(ps[i])| && 0 <= j < TensorSize(ps[i], k) ==> !LostNumber(ps, hist, i, k, j)
  }

  lemma LastIsNow(ps: seq<Param>, hist: seq<Weights>, i: nat, k: nat, j: nat)
    requires History(ps, hist) && i < |ps| && k < |OutputNames(ps[i])| && j < TensorSize(ps[i], k)
    ensures LastNumbers(ps, hist, i, k)[j] == TensorAt(ps, hist, |hist| - 1, i, k)[j] <==> !LostNumber(ps, hist, i, k, j)
  {
    LastNumbersAt(ps, hist, i, k, j);
    if !TensorAt(ps, hist, |hist| - 1, i, k)[j].NaN? {
      assert LastNumberAt(ps, hist, i, k, j, |hist| - 1);
    }
  }

  /** After any syncs at all, the replica equals the trainer exactly when whatever is NaN now has been NaN since the first. */
  lemma SyncedInStep(ps: seq<Param>, hist: seq<Weights>, r: Replica)
    requires History(ps, hist) && Synced(ps, hist, r)
    ensures InStep(ps, hist[|hist| - 1], r) <==> NaNsFromStart(ps, hist)
  {
    var now := hist[|hist| - 1];
    forall i, k | 0 <= i < |ps| && 0 <= k < |OutputNames(ps[i])|
      ensures HoldsTensor(ps, now, r, i, k)
              <==> forall j :: 0 <= j < TensorSize(ps[i], k) ==> !LostNumber(ps, hist, i, k, j)
    {
      assert HoldsLast(ps, hist, r, i, k);
      forall j | 0 <= j < TensorSize(ps[i], k)
        ensures LastNumbers(ps, hist, i, k)[j] == TensorAt(ps, hist, |hist| - 1, i, k)[j] <==> !LostNumber(ps, hist, i, k, j)
      {
        LastIsNow(ps, hist, i, k, j);
      }
    }
    if InStep(ps, now, r) {
      forall i, k, j | 0 <= i < |ps| && 0 <= k < |OutputNames(ps[i])| && 0 <= j < TensorSize(ps[i], k)
        ensures !LostNumber(ps, hist, i, k, j)
      {
        assert HoldsTensor(ps, now, r, i, k);
      }
    }
  }

  /** Sync t is the last one at which element a of rank q's shard of parameter i was a number. */
  ghost predicate ShardNumberAt(ps: seq<Param>, hist: seq<Weights>, i: nat, q: nat, a: nat, t: nat)
    requires History(ps, hist) && i < |ps| && q < |ps[i].shards| && a < ps[i].shards[q].len
  {
    && t < |hist| && !ShardElem(ps, hist, i, q, a, t).NaN?
    && forall u :: t < u < |hist| ==> ShardElem(ps, hist, i, q, a, u).NaN?
  }

  ghost function ShardElem(ps: seq<Param>, hist: seq<Weights>, i: nat, q: nat, a: nat, t: nat): Elem
    requires History(ps, hist) && t < |hist| && i < |ps| && q < |ps[i].shards| && a < ps[i].shards[q].len
  {
    assert Shaped(ps[i], hist[t][i]);
    hist[t][i][q][a]
  }

  /** Element j of the replica's k-th tensor of parameter i is what element a of rank q's shard last was as a number, or NaN. */
  ghost predicate FromShard(ps: seq<Param>, hist: seq<Weights>, r: Replica, i: nat, k: nat, j: nat, q: nat, a: nat)
    requires History(ps, hist) && i < |ps| && k < |OutputNames(ps[i])|
  {
    var nm := OutputNames(ps[i])[k];
    && nm in r && j < |r[nm]| && q < |ps[i].shards| && a < ps[i].shards[q].len
    && (forall t: nat :: ShardNumberAt(ps, hist, i, q, a, t) ==> r[nm][j] == ShardElem(ps, hist, i, q, a, t))
    && (r[nm][j].NaN? <==> forall t: nat :: t < |hist| ==> ShardElem(ps, hist, i, q, a, t).NaN?)
  }

  /** So the replica's elements are the shards' own, each from the place the layout says. */
  lemma SyncedFromShards(ps: seq<Param>, hist: seq<Weights>, r: Replica, i: nat, k: nat, j: nat, q: nat, a: nat)
    requires History(ps, hist) && Synced(ps, hist, r) && i < |ps| && k < |OutputNames(ps[i])| && Origin(ps[i], k, j, q, a)
    ensures FromShard(ps, hist, r, i, k, j, q, a)
  {
    assert HoldsLast(ps, hist, r, i, k);
    ViewFromShards(ps[i], hist[0][i], k, j, q, a);
    forall t: nat | t < |hist| ensures TensorAt(ps, hist, t, i, k)[j] == ShardElem(ps, hist, i, q, a, t) {
      ViewFromShards(ps[i], hist[t][i], k, j, q, a);
    }
    LastNumbersAt(ps, hist, i, k, j);
    forall t: nat | ShardNumberAt(ps, hist, i, q, a, t) ensures LastNumberAt(ps, hist, i, k, j, t) {
    }
  }

  /** Every element of every tensor of the replica is one of the shards'. */
  ghost predicate AllFromShards(ps: seq<Param>, hist: seq<Weights>, r: Replica)
    requires History(ps, hist)
  {
    forall i, k, j, q, a ::
      0 <= i < |ps| && 0 <= k < |OutputNames(ps[i])| && Origin(ps[i], k, j, q, a) ==> FromShard(ps, hist, r, i, k, j, q, a)
  }

  lemma SyncedAllFromShards(ps: seq<Param>, hist: seq<Weights>, r: Replica)
    requires History(ps, hist) && Synced(ps, hist, r)
    ensures AllFromShards(ps, hist, r)
  {
    forall i, k, j, q, a | 0 <= i < |ps| && 0 <= k < |OutputNames(ps[i])| && Origin(ps[i], k, j, q, a)
      ensures FromShard(ps, hist, r, i, k, j, q, a)
    {
      SyncedFromShards(ps, hist, r, i, k, j, q, a);
    }
  }

  ghost predicate TensorBecameNaN(ps: seq<Param>, snaps: Weights, ws: Weights, i: nat, k: nat)
    requires ShapedAll(ps, ws) && ShapedAll(ps, snaps) && WellFormed(ps) && i < |ps| && k < |OutputNames(ps[i])|
  {
    var old_, new_ := View(ps[i], snaps[i])[k].flat, View(ps[i], ws[i])[k].flat;
    exists j :: 0 <= j < |old_| && j < |new_| && new_[j].NaN? && !old_[j].NaN?
  }

  /** No element of a full tensor turned into NaN since the snapshots were taken. */
  ghost predicate NoneBecameNaN(ps: seq<Param>, snaps: Weights, ws: Weights)
    requires ShapedAll(ps, ws) && ShapedAll(ps, snaps) && WellFormed(ps)
  {
    forall i, k :: 0 <= i < |ps| && 0 <= k < |OutputNames(ps[i])| ==> !TensorBecameNaN(ps, snaps, ws, i, k)
  }

  /** The order takes every parameter. */
  ghost predicate TakesAll(ps: seq<Param>, order: seq<nat>) {
    && OrderInRange(ps, order)
    && (forall i :: 0 <= i < |ps| ==> i in order)
  }

  lemma {:induction false} PickLoadable(parts: seq<seq<Item>>, order: seq<nat>, r: Replica)
    requires OrderInRange(parts, order)
    requires forall i :: 0 <= i < |parts| ==> AllLoadable(parts[i], r)
    ensures AllLoadable(Pick(parts, order), r)
  {
    if order != [] {
      PickLoadable(parts, order[..|order| - 1], r);
    }
  }

  lemma SyncLoadable(ps: seq<Param>, ws: Weights, snaps: Weights, order: seq<nat>, max: nat, r: Replica)
    requires max > 0 && ShapedAll(ps, ws) && ShapedAll(ps, snaps) && WellFormed(ps) && Sized(ps, r)
    requires OrderInRange(ps, order)
    ensures AllLoadable(SyncItems(ps, ws, snaps, order, max), r)
  {
    var parts := Parts(ps, ws, snaps, max);
    forall i | 0 <= i < |ps| ensures AllLoadable(parts[i], r) {
      ParamLoadable(ps, ws, snaps, i, r);
      SliceLoadable(ParamItems(ps[i], ws[i], snaps[i]), max, r);
    }
    PickLoadable(parts, order, r);
  }

  lemma ParamLoadable(ps: seq<Param>, ws: Weights, snaps: Weights, i: nat, r: Replica)
    requires ShapedAll(ps, ws) && ShapedAll(ps, snaps) && WellFormed(ps) && Sized(ps, r) && i < |ps|
    ensures AllLoadable(ParamItems(ps[i], ws[i], snaps[i]), r)
  {
    var items := ParamItems(ps[i], ws[i], snaps[i]);
    forall k | 0 <= k < |items| ensures Loadable(items[k], r) {
      assert SizedTensor(ps, r, i, k);
      ParamIsDelta(ps[i], ws[i], snaps[i], k);
    }
  }

  lemma {:induction false} SlicesLoadable(it: Item, max: nat, r: Replica)
    requires max > 0 && Loadable(it, r)
    ensures AllLoadable(Slices(it.name, it.numel, it.changes, max), r)
    decreases |it.changes|
  {
    if it.changes != [] {
      var e := if max <= |it.changes| then max else |it.changes|;
      SlicesLoadable(Item(it.name, it.numel, it.changes[e..]), max, r);
    }
  }

  lemma {:induction false} SliceLoadable(items: seq<Item>, max: nat, r: Replica)
    requires max > 0 && AllLoadable(items, r)
    ensures AllLoadable(SliceItems(items, max), r)
  {
    if items != [] {
      var n := |items| - 1;
      SliceLoadable(items[..n], max, r);
      assert Loadable(items[n], r);
      SlicesLoadable(items[n], max, r);
    }
  }

  /** One tensor after a delta sync: the sync's numbers are copied over it. */
  lemma TensorMasked(ps: seq<Param>, hist: seq<Weights>, ws: Weights, order: seq<nat>, max: nat, r: Replica, i: nat, k: nat)
    requires max > 0 && History(ps, hist) && ShapedAll(ps, ws) && Synced(ps, hist, r)
    requires TakesAll(ps, order) && i < |ps| && k < |OutputNames(ps[i])|
    requires AllLoadable(SyncItems(ps, ws, hist[|hist| - 1], order, max), r)
    ensures HoldsLast(ps, hist + [ws], Replay(SyncItems(ps, ws, hist[|hist| - 1], order, max), r), i, k)
  {
    var snaps := hist[|hist| - 1];
    var items := SyncItems(ps, ws, snaps, order, max);
    var nm, old_, target := OutputNames(ps[i])[k], View(ps[i], snaps[i])[k].flat, View(ps[i], ws[i])[k].flat;
    assert HoldsLast(ps, hist, r, i, k);
    assert NameAt(ps, nm, i, k);
    ParamIsDelta(ps[i], ws[i], snaps[i], k);
    forall c ensures Has(items, nm, c) <==> c in ParamItems(ps[i], ws[i], snaps[i])[k].changes {
      HasSyncItems(ps, ws, snaps, order, max, nm, i, k, c);
    }
    assert Covers(items, nm, old_, target);
    forall j | 0 <= j < |old_| && !old_[j].NaN? ensures r[nm][j] == old_[j] {
      LastIsNow(ps, hist, i, k, j);
    }
    ReplayMasks(items, r, nm, old_, target);
    assert (hist + [ws])[..|hist|] == hist;
  }

  /**
   * A delta sync extends the history by one, whatever the order of the
   * parameters and the slicing, and whichever elements became NaN or ceased to
   * be NaN.
   */
  lemma DeltaSyncMasks(ps: seq<Param>, hist: seq<Weights>, ws: Weights, order: seq<nat>, max: nat, r: Replica)
    requires max > 0 && History(ps, hist) && ShapedAll(ps, ws) && Synced(ps, hist, r) && TakesAll(ps, order)
    ensures History(ps, hist + [ws])
    ensures AllLoadable(SyncItems(ps, ws, hist[|hist| - 1], order, max), r)
    ensures Synced(ps, hist + [ws], Replay(SyncItems(ps, ws, hist[|hist| - 1], order, max), r))
  {
    SyncedSized(ps, hist, r);
    SyncLoadable(ps, ws, hist[|hist| - 1], order, max, r);
    var longer, r' := hist + [ws], Replay(SyncItems(ps, ws, hist[|hist| - 1], order, max), r);
    forall i, k | 0 <= i < |ps| && 0 <= k < |OutputNames(ps[i])| ensures HoldsLast(ps, longer, r', i, k) {
      TensorMasked(ps, hist, ws, order, max, r, i, k);
    }
  }

  lemma SyncedSized(ps: seq<Param>, hist: seq<Weights>, r: Replica)
    requires History(ps, hist) && Synced(ps, hist, r)
    ensures Sized(ps, r)
  {
    forall i, k | 0 <= i < |ps| && 0 <= k < |OutputNames(ps[i])| ensures SizedTensor(ps, r, i, k) {
      assert HoldsLast(ps, hist, r, i, k);
    }
  }

  /** Being in step is having been synced once. */
  lemma InStepSynced(ps: seq<Param>, ws: Weights, r: Replica)
    requires WellFormed(ps) && ShapedAll(ps, ws)
    ensures InStep(ps, ws, r) <==> Synced(ps, [ws], r)
  {
    forall i, k | 0 <= i < |ps| && 0 <= k < |OutputNames(ps[i])|
      ensures HoldsTensor(ps, ws, r, i, k) <==> HoldsLast(ps, [ws], r, i, k)
    {
      assert TensorAt(ps, [ws], 0, i, k) == View(ps[i], ws[i])[k].flat;
    }
  }

  /** In particular, a delta sync from a replica in step leaves it in step exactly when no element became NaN. */
  lemma DeltaSyncExact(ps: seq<Param>, ws: Weights, snaps: Weights, order: seq<nat>, max: nat, r: Replica)
    requires max > 0 && ShapedAll(ps, ws) && ShapedAll(ps, snaps) && WellFormed(ps) && InStep(ps, snaps, r)
    requires TakesAll(ps, order)
    ensures AllLoadable(SyncItems(ps, ws, snaps, order, max), r)
    ensures InStep(ps, ws, Replay(SyncItems(ps, ws, snaps, order, max), r)) <==> NoneBecameNaN(ps, snaps, ws)
  {
    InStepSynced(ps, snaps, r);
    DeltaSyncMasks(ps, [snaps], ws, order, max, r);
    assert [snaps] + [ws] == [snaps, ws];
    SyncedInStep(ps, [snaps, ws], Replay(SyncItems(ps, ws, snaps, order, max), r));
    TwoSyncs(ps, snaps, ws);
  }

  /** After two syncs, the elements that lost their number are those that became NaN. */
  lemma LostIsBecame(ps: seq<Param>, snaps: Weights, ws: Weights, i: nat, k: nat, j: nat)
    requires WellFormed(ps) && ShapedAll(ps, ws) && ShapedAll(ps, snaps) && i < |ps| && k < |OutputNames(ps[i])| && j < TensorSize(ps[i], k)
    ensures LostNumber(ps, [snaps, ws], i, k, j)
            <==> View(ps[i], ws[i])[k].flat[j].NaN? && !View(ps[i], snaps[i])[k].flat[j].NaN?
  {
    assert TensorAt(ps, [snaps, ws], 0, i, k) == View(ps[i], snaps[i])[k].flat;
    assert TensorAt(ps, [snaps, ws], 1, i, k) == View(ps[i], ws[i])[k].flat;
  }

  lemma TwoSyncs(ps: seq<Param>, snaps: Weights, ws: Weights)
    requires WellFormed(ps) && ShapedAll(ps, ws) && ShapedAll(ps, snaps)
    ensures NaNsFromStart(ps, [snaps, ws]) <==> NoneBecameNaN(ps, snaps, ws)
  {
    if !NoneBecameNaN(ps, snaps, ws) {
      var i, k :| 0 <= i < |ps| && 0 <= k < |OutputNames(ps[i])| && TensorBecameNaN(ps, snaps, ws, i, k);
      var j :| 0 <= j < TensorSize(ps[i], k) && View(ps[i], ws[i])[k].flat[j].NaN? && !View(ps[i], snaps[i])[k].flat[j].NaN?;
      LostIsBecame(ps, snaps, ws, i, k, j);
    }
    if !NaNsFromStart(ps, [snaps, ws]) {
      var i, k, j :| 0 <= i < |ps| && 0 <= k < |OutputNames(ps[i])| && 0 <= j < TensorSize(ps[i], k)
        && LostNumber(ps, [snaps, ws], i, k, j);
      LostIsBecame(ps, snaps, ws, i, k, j);
      assert TensorBecameNaN(ps, snaps, ws, i, k);
    }
  }

  /** A parameter of one element, on one rank. */
  const ONE_PARAM := Param("w", [Shard(0, 1, true)], Placed(1), 0)

  function OneElement(e: Elem): (ws: Weights)
    ensures ShapedAll([ONE_PARAM], ws)
  {
    [[[e]]]
  }

  lemma OneParam(e: Elem)
    ensures WellFormed([ONE_PARAM]) && View(ONE_PARAM, OneElement(e)[0]) == [Tensor("w", [e])]
  {
    assert Owns(ONE_PARAM, 0, 0);
    assert OutputNames(ONE_PARAM) == ["w"];
    assert PlaceShards(ONE_PARAM, [[e]], 0) == [Num(0)];
    assert PlaceShards(ONE_PARAM, [[e]], 1) == [e];
  }

  /** What a delta sync of the one parameter sends. */
  function OneSync(now: Elem, before: Elem, max: nat): seq<Item>
    requires max > 0 && WellFormed([ONE_PARAM])
  {
    SyncItems([ONE_PARAM], OneElement(now), OneElement(before), [0], max)
  }

  /** It does happen: when the one element turns from a number into NaN, the sync leaves the replica out of step. */
  lemma NaNBreaksStep(x: int, r: Replica, max: nat)
    requires max > 0 && WellFormed([ONE_PARAM]) && InStep([ONE_PARAM], OneElement(Num(x)), r)
    ensures AllLoadable(OneSync(NaN, Num(x), max), r)
    ensures !InStep([ONE_PARAM], OneElement(NaN), Replay(OneSync(NaN, Num(x), max), r))
  {
    OneParam(Num(x));
    OneParam(NaN);
    DeltaSyncExact([ONE_PARAM], OneElement(NaN), OneElement(Num(x)), [0], max, r);
    assert TensorBecameNaN([ONE_PARAM], OneElement(Num(x)), OneElement(NaN), 0, 0);
  }

  lemma NumberNotLost(hist: seq<Weights>, y: int)
    requires WellFormed([ONE_PARAM]) && History([ONE_PARAM], hist + [OneElement(Num(y))])
    ensures NaNsFromStart([ONE_PARAM], hist + [OneElement(Num(y))])
  {
    OneParam(Num(y));
    assert TensorAt([ONE_PARAM], hist + [OneElement(Num(y))], |hist|, 0, 0) == [Num(y)];
  }

  /** And when it turns back into a number, any number, the replica is in step again. */
  lemma NumberHeals(x: int, y: int, r: Replica, max: nat)
    requires max > 0 && History([ONE_PARAM], [OneElement(Num(x)), OneElement(NaN)])
    requires Synced([ONE_PARAM], [OneElement(Num(x)), OneElement(NaN)], r)
    ensures AllLoadable(OneSync(Num(y), NaN, max), r)
    ensures InStep([ONE_PARAM], OneElement(Num(y)), Replay(OneSync(Num(y), NaN, max), r))
  {
    var hist := [OneElement(Num(x)), OneElement(NaN)];
    OneParam(Num(y));
    DeltaSyncMasks([ONE_PARAM], hist, OneElement(Num(y)), [0], max, r);
    NumberNotLost(hist, y);
    SyncedInStep([ONE_PARAM], hist + [OneElement(Num(y))], Replay(OneSync(Num(y), NaN, max), r));
  }

  // ----- the dense first sync -----

  function DenseItem(v: Tensor): Item {
    Item(v.name, |v.flat|, DenseChanges(v.flat))
  }

  function DenseItems(vs: seq<Tensor>): (r: seq<Item>)
    ensures |r| == |vs| && forall k :: 0 <= k < |vs| ==> r[k] == DenseItem(vs[k])
  {
    seq(|vs|, k requires 0 <= k < |vs| => DenseItem(vs[k]))
  }

  /** The tensors of the first n parameters. */
  function Views(ps: seq<Param>, ws: Weights, n: nat): (r: seq<Tensor>)
    requires ShapedAll(ps, ws) && WellFormed(ps) && n <= |ps|
  {
    if n == 0 then [] else Views(ps, ws, n - 1) + View(ps[n - 1], ws[n - 1])
  }

  lemma OneMoreView(ps: seq<Param>, ws: Weights, n: nat, v: Tensor)
    requires ShapedAll(ps, ws) && WellFormed(ps) && 0 < n <= |ps|
    ensures v in Views(ps, ws, n) <==> v in Views(ps, ws, n - 1) || InView(ps, ws, n - 1, v)
  {
    InAppend(Views(ps, ws, n - 1), View(ps[n - 1], ws[n - 1]), v);
  }

  lemma {:induction false} ViewsContain(ps: seq<Param>, ws: Weights, n: nat, v: Tensor)
    requires ShapedAll(ps, ws) && WellFormed(ps) && n <= |ps|
    ensures v in Views(ps, ws, n) <==> exists i :: 0 <= i < n && InView(ps, ws, i, v)
  {
    if n > 0 {
      ViewsContain(ps, ws, n - 1, v);
      OneMoreView(ps, ws, n, v);
      if v in Views(ps, ws, n - 1) {
        var i :| 0 <= i < n - 1 && InView(ps, ws, i, v);
      } else if i :| 0 <= i < n && InView(ps, ws, i, v) {
        assert i == n - 1;
      }
    }
  }

  ghost function TensorNames(ps: seq<Param>): set<string> {
    set i, nm | 0 <= i < |ps| && nm in OutputNames(ps[i]) :: nm
  }

  ghost predicate InView(ps: seq<Param>, ws: Weights, i: nat, v: Tensor)
    requires ShapedAll(ps, ws) && WellFormed(ps) && i < |ps|
  {
    v in View(ps[i], ws[i])
  }

  lemma InAppend<T>(a: seq<T>, b: seq<T>, x: T)
    ensures x in a + b <==> x in a || x in b
  {
  }

  lemma {:induction false} OverwritePoint(vs: seq<Tensor>, r: Replica, v: Tensor)
    requires v in vs && forall v' :: v' in vs && v'.name == v.name ==> v' == v
    ensures var r' := Overwrite(DenseItems(vs), r); v.name in r' && r'[v.name] == v.flat
  {
    var n := |vs| - 1;
    assert DenseItems(vs)[..n] == DenseItems(vs[..n]);
    assert Values(DenseChanges(v.flat)) == v.flat;
    assert vs[n] in vs;
    if vs[n].name != v.name {
      assert v in vs[..n];
      OverwritePoint(vs[..n], r, v);
    }
  }

  lemma ViewsUnique(ps: seq<Param>, ws: Weights, v: Tensor, v': Tensor)
    requires ShapedAll(ps, ws) && WellFormed(ps)
    requires v in Views(ps, ws, |ps|) && v' in Views(ps, ws, |ps|) && v.name == v'.name
    ensures v == v'
  {
    ViewsContain(ps, ws, |ps|, v);
    ViewsContain(ps, ws, |ps|, v');
    var i :| 0 <= i < |ps| && InView(ps, ws, i, v);
    var i' :| 0 <= i' < |ps| && InView(ps, ws, i', v');
    var k :| 0 <= k < |View(ps[i], ws[i])| && View(ps[i], ws[i])[k] == v;
    var k' :| 0 <= k' < |View(ps[i'], ws[i'])| && View(ps[i'], ws[i'])[k'] == v';
    assert NameAt(ps, v.name, i, k) && NameAt(ps, v.name, i', k');
  }

  /** The dense seed sends every tensor once. */
  lemma {:induction false} SeedOnce(ps: seq<Param>, ws: Weights, n: nat)
    requires ShapedAll(ps, ws) && WellFormed(ps) && n <= |ps|
    ensures forall a, b :: 0 <= a < b < |Views(ps, ws, n)| ==> Views(ps, ws, n)[a].name != Views(ps, ws, n)[b].name
  {
    if n > 0 {
      SeedOnce(ps, ws, n - 1);
      var before, last := Views(ps, ws, n - 1), View(ps[n - 1], ws[n - 1]);
      forall a, b | 0 <= a < |before| && 0 <= b < |last| ensures before[a].name != last[b].name {
        ViewsContain(ps, ws, n - 1, before[a]);
        var i :| 0 <= i < n - 1 && InView(ps, ws, i, before[a]);
        var k :| 0 <= k < |View(ps[i], ws[i])| && View(ps[i], ws[i])[k] == before[a];
        assert before[a].name == last[b].name ==> NameAt(ps, last[b].name, i, k) && NameAt(ps, last[b].name, n - 1, b);
      }
      forall a, b | 0 <= a < b < |last| ensures last[a].name != last[b].name {
        assert last[a].name == last[b].name ==> NameAt(ps, last[b].name, n - 1, a) && NameAt(ps, last[b].name, n - 1, b);
      }
    }
  }

  lemma {:induction false} OverwriteOther(vs: seq<Tensor>, r: Replica, nm: string)
    requires forall v :: v in vs ==> v.name != nm
    ensures nm in Overwrite(DenseItems(vs), r) <==> nm in r
    ensures nm in r ==> Overwrite(DenseItems(vs), r)[nm] == r[nm]
  {
    if vs != [] {
      var n := |vs| - 1;
      assert DenseItems(vs)[..n] == DenseItems(vs[..n]);
      assert vs[n] in vs;
      OverwriteOther(vs[..n], r, nm);
    }
  }

  /** The dense first sync puts any replica in step, and leaves tensors it does not know of alone. */
  lemma DenseSeedInStep(ps: seq<Param>, ws: Weights, r: Replica)
    requires ShapedAll(ps, ws) && WellFormed(ps)
    ensures InStep(ps, ws, Overwrite(DenseItems(Views(ps, ws, |ps|)), r))
    ensures forall nm :: nm !in TensorNames(ps) ==>
              var r' := Overwrite(DenseItems(Views(ps, ws, |ps|)), r);
              (nm in r' <==> nm in r) && (nm in r ==> r'[nm] == r[nm])
  {
    forall nm | nm !in TensorNames(ps)
      ensures var r' := Overwrite(DenseItems(Views(ps, ws, |ps|)), r);
              (nm in r' <==> nm in r) && (nm in r ==> r'[nm] == r[nm])
    {
      forall v | v in Views(ps, ws, |ps|) ensures v.name != nm {
        ViewsContain(ps, ws, |ps|, v);
        var i :| 0 <= i < |ps| && InView(ps, ws, i, v);
        assert v.name in OutputNames(ps[i]);
      }
      OverwriteOther(Views(ps, ws, |ps|), r, nm);
    }
    var vs := Views(ps, ws, |ps|);
    forall i, k | 0 <= i < |ps| && 0 <= k < |OutputNames(ps[i])|
      ensures HoldsTensor(ps, ws, Overwrite(DenseItems(vs), r), i, k)
    {
      var v := View(ps[i], ws[i])[k];
      ViewsContain(ps, ws, |ps|, v);
      assert InView(ps, ws, i, v);
      forall v' | v' in vs && v'.name == v.name ensures v' == v {
        ViewsUnique(ps, ws, v, v');
      }
      OverwritePoint(vs, r, v);
    }
  }

  // ----- runs -----

  /**
   * A run: the weights at each sync, the replica after each sync, and for each
   * delta sync the order in which the parameters were taken.
   */
  ghost predicate IsRun(ps: seq<Param>, weights: seq<Weights>, orders: seq<seq<nat>>, replicas: seq<Replica>,
                        start: Replica, max: nat)
  {
    && max > 0 && WellFormed(ps) && |weights| == |replicas| == |orders| && |weights| > 0
    && (forall t :: 0 <= t < |weights| ==> ShapedAll(ps, weights[t]) && TakesAll(ps, orders[t]))
    && replicas[0] == Overwrite(DenseItems(Views(ps, weights[0], |ps|)), start)
    && forall t :: 1 <= t < |weights| ==> SyncedFrom(ps, weights, orders, replicas, max, t)
  }

  ghost predicate SyncedFrom(ps: seq<Param>, weights: seq<Weights>, orders: seq<seq<nat>>, replicas: seq<Replica>,
                             max: nat, t: nat)
    requires 1 <= t < |weights| == |replicas| == |orders| && max > 0 && WellFormed(ps)
    requires ShapedAll(ps, weights[t]) && ShapedAll(ps, weights[t - 1]) && TakesAll(ps, orders[t])
  {
    var items := SyncItems(ps, weights[t], weights[t - 1], orders[t], max);
    AllLoadable(items, replicas[t - 1]) ==> replicas[t] == Replay(items, replicas[t - 1])
  }

  lemma RunStart(ps: seq<Param>, weights: seq<Weights>, orders: seq<seq<nat>>, replicas: seq<Replica>,
                 start: Replica, max: nat)
    requires IsRun(ps, weights, orders, replicas, start, max)
    ensures History(ps, weights[..1]) && Synced(ps, weights[..1], replicas[0])
  {
    DenseSeedInStep(ps, weights[0], start);
    InStepSynced(ps, weights[0], replicas[0]);
    assert weights[..1] == [weights[0]];
  }

  /** One more sync of a run. */
  lemma RunOn(ps: seq<Param>, weights: seq<Weights>, orders: seq<seq<nat>>, replicas: seq<Replica>,
              start: Replica, max: nat, t: nat)
    requires IsRun(ps, weights, orders, replicas, start, max) && 0 < t < |weights|
    requires History(ps, weights[..t]) && Synced(ps, weights[..t], replicas[t - 1])
    ensures History(ps, weights[..t] + [weights[t]]) && Synced(ps, weights[..t] + [weights[t]], replicas[t])
  {
    var hist := weights[..t];
    assert hist[|hist| - 1] == weights[t - 1];
    DeltaSyncMasks(ps, hist, weights[t], orders[t], max, replicas[t - 1]);
    assert SyncedFrom(ps, weights, orders, replicas, max, t);
  }

  lemma {:induction false} RunSynced(ps: seq<Param>, weights: seq<Weights>, orders: seq<seq<nat>>, replicas: seq<Replica>,
                                     start: Replica, max: nat, t: nat)
    requires IsRun(ps, weights, orders, replicas, start, max) && t < |weights|
    ensures History(ps, weights[..t + 1])
    ensures Synced(ps, weights[..t + 1], replicas[t])
  {
    if t == 0 {
      RunStart(ps, weights, orders, replicas, start, max);
    } else {
      RunSynced(ps, weights, orders, replicas, start, max, t - 1);
      RunOn(ps, weights, orders, replicas, start, max, t);
      TakeNext(weights, t);
    }
  }

  /**
   * After a dense seed and any number of delta syncs with arbitrary weight
   * changes, every element of the replica is what it last was as a number, or
   * NaN if it never was one; so the replica equals the trainer exactly when
   * whatever is NaN at that sync has been NaN since the seed.
   */
  lemma RunInStep(ps: seq<Param>, weights: seq<Weights>, orders: seq<seq<nat>>, replicas: seq<Replica>,
                  start: Replica, max: nat, t: nat)
    requires IsRun(ps, weights, orders, replicas, start, max) && t < |weights|
    ensures History(ps, weights[..t + 1]) && Synced(ps, weights[..t + 1], replicas[t])
    ensures AllFromShards(ps, weights[..t + 1], replicas[t])
    ensures InStep(ps, weights[t], replicas[t]) <==> NaNsFromStart(ps, weights[..t + 1])
  {
    RunSynced(ps, weights, orders, replicas, start, max, t);
    SyncedInStep(ps, weights[..t + 1], replicas[t]);
    SyncedAllFromShards(ps, weights[..t + 1], replicas[t]);
  }
}
