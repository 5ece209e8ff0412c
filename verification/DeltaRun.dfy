/** Trainer and rollout side together: whole syncs over the wire, and runs of them. */
module DeltaRun {
  import opened Common
  import opened DeltaWire
  import opened DeltaStream
  import opened DeltaReplay
  import opened DeltaSync
  import opened DeltaEngine
  import opened DeltaSender

  lemma LoadableJoin(a: seq<Item>, b: seq<Item>, r: Replica)
    requires AllLoadable(a, r) && AllLoadable(b, r)
    ensures AllLoadable(a + b, r)
  {
  }

  lemma LoadableAfter(items: seq<Item>, r: Replica, r': Replica)
    requires AllLoadable(items, r) && SameShape(r, r')
    ensures AllLoadable(items, r')
  {
    forall k | 0 <= k < |items| ensures Loadable(items[k], r') {
      assert Loadable(items[k], r);
    }
  }

  lemma ReplayStep(items: seq<Item>, it: Item, r: Replica)
    requires AllLoadable(items, r) && Loadable(it, r)
    ensures AllLoadable(items + [it], r) && Replay(items + [it], r) == ApplyItem(it, Replay(items, r))
  {
    assert (items + [it])[..|items|] == items;
  }

  lemma {:induction false} ReplayAppend(a: seq<Item>, b: seq<Item>, r: Replica)
    requires AllLoadable(a, r) && AllLoadable(b, r)
    ensures AllLoadable(a + b, r) && AllLoadable(b, Replay(a, r))
    ensures Replay(a + b, r) == Replay(b, Replay(a, r))
  {
    LoadableJoin(a, b, r);
    LoadableAfter(b, r, Replay(a, r));
    if b == [] {
      assert a + b == a;
    } else {
      var n := |b| - 1;
      assert Loadable(b[n], r);
      ReplayAppend(a, b[..n], r);
      ReplayStep(a + b[..n], b[n], r);
      assert b == b[..n] + [b[n]];
      Regroup(a, b[..n], [b[n]]);
    }
  }

  lemma {:induction false} OverwriteAppend(a: seq<Item>, b: seq<Item>, r: Replica)
    ensures Overwrite(a + b, r) == Overwrite(b, Overwrite(a, r))
  {
    if b == [] {
      assert a + b == a;
    } else {
      var n := |b| - 1;
      OverwriteAppend(a, b[..n], r);
      assert (a + b)[..|a| + n] == a + b[..n];
    }
  }

  lemma {:induction false} GroupLoadable(groups: seq<seq<Item>>, k: nat, r: Replica)
    requires k < |groups| && AllLoadable(Flatten(groups), r)
    ensures AllLoadable(groups[k], r) && AllLoadable(Flatten(groups[..k]), r)
  {
    var n := |groups| - 1;
    var a, b := Flatten(groups[..n]), groups[n];
    forall j | 0 <= j < |a| ensures Loadable(a[j], r) {
      assert Flatten(groups)[j] == a[j];
    }
    forall j | 0 <= j < |b| ensures Loadable(b[j], r) {
      assert Flatten(groups)[|a| + j] == b[j];
    }
    if k < n {
      GroupLoadable(groups[..n], k, r);
      assert groups[..n][..k] == groups[..k];
    }
  }

  /** Applies the flushes of a delta sync one after the other. */
  method LoadDelta(flushes: seq<Flush>, ghost groups: seq<seq<Item>>, r: Replica) returns (r': Replica)
    requires |flushes| == |groups| && AllLoadable(Flatten(groups), r)
    requires forall k :: 0 <= k < |groups| ==> Decodes(flushes[k], false, groups[k])
    ensures r' == Replay(Flatten(groups), r)
  {
    r' := r;
    for k := 0 to |flushes|
      invariant AllLoadable(Flatten(groups[..k]), r) && r' == Replay(Flatten(groups[..k]), r)
    {
      GroupLoadable(groups, k, r);
      ReplayAppend(Flatten(groups[..k]), groups[k], r);
      FlattenStep(groups, k);
      r' := ApplyDelta(flushes[k], groups[k], r');
    }
    assert groups[..|groups|] == groups;
  }

  /** Overwrites every parameter with what the dense flushes hold. */
  method LoadDense(flushes: seq<Flush>, ghost groups: seq<seq<Item>>, r: Replica) returns (r': Replica)
    requires |flushes| == |groups|
    requires forall k :: 0 <= k < |groups| ==> Decodes(flushes[k], true, groups[k]) && Packable(groups[k], true)
    ensures r' == Overwrite(Flatten(groups), r)
  {
    r' := r;
    for k := 0 to |flushes|
      invariant r' == Overwrite(Flatten(groups[..k]), r)
    {
      OverwriteAppend(Flatten(groups[..k]), groups[k], r);
      FlattenStep(groups, k);
      r' := ApplyDense(flushes[k], groups[k], r');
    }
    assert groups[..|groups|] == groups;
  }

  /** The replica has been synced with this history, of which the sender's snapshots are the last. */
  ghost predicate UpTo(params: seq<Param>, snaps: Weights, hist: seq<Weights>, r: Replica) {
    History(params, hist) && hist[|hist| - 1] == snaps && Synced(params, hist, r)
  }

  /** A sync of changes: it extends the history of the replica. */
  method SyncChanges(sender: ShardedSender, ws: Weights, r: Replica, ghost hist: seq<Weights>) returns (r': Replica)
    requires sender.Valid() && ShapedAll(sender.params, ws)
    requires sender.seeded && UpTo(sender.params, sender.snaps, hist, r)
    modifies sender
    ensures sender.Valid() && sender.seeded && sender.snaps == ws
    ensures UpTo(sender.params, ws, hist + [ws], r')
  {
    var wire, _, groups, order := sender.SendDelta(ws);
    var flushes, _ := ReceiveFlushes(wire, groups, false);
    DeltaSyncMasks(sender.params, hist, ws, order, sender.maxEntry, r);
    r' := LoadDelta(flushes, groups, r);
  }

  /** The dense first sync: it starts the history. */
  method SyncSeed(sender: ShardedSender, ws: Weights, r: Replica) returns (r': Replica)
    requires sender.Valid() && ShapedAll(sender.params, ws)
    modifies sender
    ensures sender.Valid() && sender.seeded && sender.snaps == ws
    ensures UpTo(sender.params, ws, [ws], r')
  {
    var wire, _, groups := sender.SendDenseSeed(ws);
    var flushes, _ := ReceiveFlushes(wire, groups, true);
    r' := LoadDense(flushes, groups, r);
    DenseSeedInStep(sender.params, ws, r);
    InStepSynced(sender.params, ws, r');
  }

  /**
   * One sync from end to end: it adds its weights to the history of the
   * replica, or starts that history. The replica is then in step exactly when
   * whatever is NaN now has been NaN since the start.
   */
  method Sync(sender: ShardedSender, ws: Weights, r: Replica, ghost hist: seq<Weights>) returns (r': Replica)
    requires sender.Valid() && ShapedAll(sender.params, ws)
    requires if sender.seeded then UpTo(sender.params, sender.snaps, hist, r) else hist == []
    modifies sender
    ensures sender.Valid() && sender.seeded && sender.snaps == ws
    ensures UpTo(sender.params, ws, hist + [ws], r')
    ensures InStep(sender.params, ws, r') <==> NaNsFromStart(sender.params, hist + [ws])
  {
    if sender.seeded {
      r' := SyncChanges(sender, ws, r, hist);
    } else {
      r' := SyncSeed(sender, ws, r);
      assert hist + [ws] == [ws];
    }
    SyncedInStep(sender.params, hist + [ws], r');
  }

  /**
   * Any number of syncs, the first of them dense, with any weights: every
   * element of the replica is what it last was as a number, or NaN if it never
   * was one, and the replica is in step with the last weights exactly when
   * whatever is NaN in them has always been.
   */
  method RunSyncs(params: seq<Param>, weights: seq<Weights>, bucketSize: nat, batchGather: int, maxEntry: nat, esz: nat,
                  start: Replica)
    returns (r: Replica)
    requires maxEntry > 0 && WellFormed(params) && Int32Positions(params) && |weights| > 0
    requires forall t :: 0 <= t < |weights| ==> ShapedAll(params, weights[t])
    ensures History(params, weights) && Synced(params, weights, r) && AllFromShards(params, weights, r)
    ensures InStep(params, weights[|weights| - 1], r) <==> NaNsFromStart(params, weights)
  {
    var sender := new ShardedSender(params, bucketSize, batchGather, maxEntry, esz);
    r := start;
    assert weights[..0] == [];
    for t := 0 to |weights|
      invariant sender.Valid() && sender.params == params && sender.seeded == (t > 0)
      invariant if t > 0 then UpTo(params, sender.snaps, weights[..t], r) else weights[..t] == []
    {
      r := Sync(sender, weights[t], r, weights[..t]);
      TakeNext(weights, t);
    }
    assert weights[..|weights|] == weights;
    SyncedInStep(params, weights, r);
    SyncedAllFromShards(params, weights, r);
  }
}
