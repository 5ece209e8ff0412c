/** The loader's side of a delta sync: masked writes into the live weights, and what a stream of them amounts to. */
module DeltaReplay {
  import opened Common
  import opened DeltaWire
  import opened DeltaStream

  type Replica = map<string, seq<Elem>>

  /** An all-NaN tensor with the changes copied in, in order. */
  function Densify(numel: nat, changes: seq<Change>): (r: seq<Elem>)
    requires InBounds(changes, numel)
    ensures |r| == numel
  {
    if changes == [] then seq(numel, _ => NaN)
    else
      var n := |changes| - 1;
      Densify(numel, changes[..n])[changes[n].pos := changes[n].val]
  }

  predicate InBounds(changes: seq<Change>, numel: nat) {
    forall k :: 0 <= k < |changes| ==> changes[k].pos < numel
  }

  /** Copies src over t, skipping NaN positions. */
  function MaskedCopy(t: seq<Elem>, src: seq<Elem>): (r: seq<Elem>)
    requires |t| == |src|
    ensures |r| == |t|
  {
    seq(|t|, i requires 0 <= i < |t| => if src[i].NaN? then t[i] else src[i])
  }

  predicate Loadable(it: Item, r: Replica) {
    it.name in r && |r[it.name]| == it.numel && InBounds(it.changes, it.numel)
  }

  predicate AllLoadable(items: seq<Item>, r: Replica) {
    forall k :: 0 <= k < |items| ==> Loadable(items[k], r)
  }

  function ApplyItem(it: Item, r: Replica): (r': Replica)
    requires Loadable(it, r)
    ensures SameShape(r, r')
  {
    r[it.name := MaskedCopy(r[it.name], Densify(it.numel, it.changes))]
  }

  predicate SameShape(r: Replica, r': Replica) {
    r'.Keys == r.Keys && forall nm :: nm in r ==> |r'[nm]| == |r[nm]|
  }

  function Replay(items: seq<Item>, r: Replica): (r': Replica)
    requires AllLoadable(items, r)
    ensures SameShape(r, r')
  {
    if items == [] then r
    else
      var n := |items| - 1;
      assert Loadable(items[n], r);
      ApplyItem(items[n], Replay(items[..n], r))
  }

  /** Decodes one flush and applies it, entry by entry. */
  method ApplyDelta(f: Flush, ghost items: seq<Item>, r: Replica) returns (r': Replica)
    requires Decodes(f, false, items) && AllLoadable(items, r)
    ensures r' == Replay(items, r)
  {
    r' := r;
    for k := 0 to |f.params|
      invariant r' == Replay(items[..k], r)
    {
      var it := DecodeEntry(f, f.params[k], false);
      assert Loadable(items[k], r);
      assert items[..k + 1][..k] == items[..k];
      r' := r'[it.name := MaskedCopy(r'[it.name], Densify(it.numel, it.changes))];
    }
    assert items[..|items|] == items;
  }

  /** Decodes one dense flush and overwrites every parameter in it. */
  method ApplyDense(f: Flush, ghost items: seq<Item>, r: Replica) returns (r': Replica)
    requires Decodes(f, true, items) && Packable(items, true)
    ensures r' == Overwrite(items, r)
  {
    r' := r;
    for k := 0 to |f.params|
      invariant r' == Overwrite(items[..k], r)
    {
      assert PackableItem(items[k], true);
      OverwriteStep(items, k, r);
      var p := f.params[k];
      DenseEntryValues(f, p, items[k]);
      r' := r'[p.name := f.values[p.valStart..p.valEnd]];
    }
    assert items[..|items|] == items;
  }

  lemma OverwriteStep(items: seq<Item>, k: nat, r: Replica)
    requires k < |items|
    ensures Overwrite(items[..k + 1], r) == Overwrite(items[..k], r)[items[k].name := Values(items[k].changes)]
  {
    assert items[..k + 1][..k] == items[..k];
  }

  lemma DenseEntryValues(f: Flush, p: DeltaParam, it: Item)
    requires InRange(f, p, true) && DecodeEntry(f, p, true) == it
    ensures f.values[p.valStart..p.valEnd] == Values(it.changes) && p.name == it.name
  {
  }

  function Overwrite(items: seq<Item>, r: Replica): (r': Replica) {
    if items == [] then r
    else
      var n := |items| - 1;
      Overwrite(items[..n], r)[items[n].name := Values(items[n].changes)]
  }

  // ----- what replaying amounts to -----

  ghost predicate Has(items: seq<Item>, nm: string, c: Change) {
    exists k :: 0 <= k < |items| && items[k].name == nm && c in items[k].changes
  }

  /** Every change for nm carries the element of the target at its position. */
  ghost predicate Toward(items: seq<Item>, nm: string, target: seq<Elem>) {
    forall c :: Has(items, nm, c) ==> c.pos < |target| && c.val == target[c.pos]
  }

  lemma {:induction false} DensifyPoint(numel: nat, changes: seq<Change>, target: seq<Elem>, i: nat)
    requires InBounds(changes, numel) && |target| == numel && i < numel
    requires forall c :: c in changes ==> c.pos < |target| && c.val == target[c.pos]
    ensures Densify(numel, changes)[i] == if Change(i, target[i]) in changes then target[i] else NaN
  {
    if changes != [] {
      var n := |changes| - 1;
      DensifyPoint(numel, changes[..n], target, i);
      assert changes == changes[..n] + [changes[n]];
      assert changes[n] in changes;
    }
  }

  lemma {:induction false} ReplayPoint(items: seq<Item>, r: Replica, nm: string, target: seq<Elem>, i: nat)
    requires AllLoadable(items, r) && nm in r && |r[nm]| == |target| && i < |target|
    requires Toward(items, nm, target)
    ensures Replay(items, r)[nm][i]
            == if Has(items, nm, Change(i, target[i])) && !target[i].NaN? then target[i] else r[nm][i]
  {
    if items != [] {
      var n := |items| - 1;
      var c := Change(i, target[i]);
      assert Loadable(items[n], r);
      forall d | Has(items[..n], nm, d) ensures Has(items, nm, d) {
        var k :| 0 <= k < n && items[..n][k].name == nm && d in items[..n][k].changes;
        assert items[k].name == nm && d in items[k].changes;
      }
      ReplayPoint(items[..n], r, nm, target, i);
      HasLast(items, nm, c);
      if items[n].name == nm {
        forall d | d in items[n].changes ensures d.pos < |target| && d.val == target[d.pos] {
          assert Has(items, nm, d);
        }
        DensifyPoint(items[n].numel, items[n].changes, target, i);
      }
    }
  }

  lemma HasLast(items: seq<Item>, nm: string, c: Change)
    requires items != []
    ensures var n := |items| - 1;
            Has(items, nm, c) <==> Has(items[..n], nm, c) || (items[n].name == nm && c in items[n].changes)
  {
    var n := |items| - 1;
    if Has(items[..n], nm, c) {
      var k :| 0 <= k < n && items[..n][k].name == nm && c in items[..n][k].changes;
      assert items[k].name == nm && c in items[k].changes;
    }
    if Has(items, nm, c) {
      var k :| 0 <= k < |items| && items[k].name == nm && c in items[k].changes;
      assert k < n ==> items[..n][k].name == nm && c in items[..n][k].changes;
    }
  }

  /** The changes for nm are changes from old to target, and none that is not NaN is missing. */
  ghost predicate Covers(items: seq<Item>, nm: string, old_: seq<Elem>, target: seq<Elem>) {
    && |old_| == |target|
    && Toward(items, nm, target)
    && (forall c :: Has(items, nm, c) ==> old_[c.pos] != target[c.pos])
    && (forall i :: 0 <= i < |target| && old_[i] != target[i] && !target[i].NaN? ==> Has(items, nm, Change(i, target[i])))
  }

  ghost predicate BecameNaN(old_: seq<Elem>, target: seq<Elem>)
    requires |old_| == |target|
  {
    exists i :: 0 <= i < |target| && target[i].NaN? && !old_[i].NaN?
  }

  /** Where the old elements are numbers, these are they. */
  ghost predicate Keeps(cur: seq<Elem>, old_: seq<Elem>) {
    |cur| == |old_| && forall i :: 0 <= i < |cur| && !old_[i].NaN? ==> cur[i] == old_[i]
  }

  /**
   * A replica that has the numbers among the old elements has the numbers
   * among the new ones after the replay. Where the new element is NaN it keeps
   * what it had: the loader reads a NaN as "unchanged".
   */
  lemma ReplayMasks(items: seq<Item>, r: Replica, nm: string, old_: seq<Elem>, target: seq<Elem>)
    requires AllLoadable(items, r) && nm in r && Covers(items, nm, old_, target) && Keeps(r[nm], old_)
    ensures Replay(items, r)[nm] == MaskedCopy(r[nm], target)
  {
    forall i | 0 <= i < |target| ensures Replay(items, r)[nm][i] == MaskedCopy(r[nm], target)[i] {
      ReplayPoint(items, r, nm, target, i);
    }
  }

  /**
   * A replica that held the old elements holds the new ones after the replay
   * exactly when no element became NaN.
   */
  lemma ReplayExact(items: seq<Item>, r: Replica, nm: string, target: seq<Elem>)
    requires AllLoadable(items, r) && nm in r && Covers(items, nm, r[nm], target)
    ensures Replay(items, r)[nm] == target <==> !BecameNaN(r[nm], target)
  {
    ReplayMasks(items, r, nm, r[nm], target);
    var masked := MaskedCopy(r[nm], target);
    if BecameNaN(r[nm], target) {
      var i :| 0 <= i < |target| && target[i].NaN? && !r[nm][i].NaN?;
      assert masked[i] != target[i];
    } else {
      forall i | 0 <= i < |target| ensures masked[i] == target[i] {
        assert target[i].NaN? ==> r[nm][i].NaN?;
      }
    }
  }
}
