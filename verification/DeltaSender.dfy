/** The sending loops of the delta engine: staging, batched gathers, and the stream they feed. */
module DeltaSender {
  import opened Common
  import opened DeltaWire
  import opened DeltaStream
  import opened DeltaReplay
  import opened DeltaSync
  import opened DeltaEngine

  /** A parameter waiting in a batch, with what each rank will put into the gather. */
  datatype Stage = Stage(param: nat, perRank: seq<seq<Change>>)

  function Indices(batch: seq<Stage>): (r: seq<nat>)
    ensures |r| == |batch| && forall k :: 0 <= k < |r| ==> r[k] == batch[k].param
  {
    seq(|batch|, k requires 0 <= k < |batch| => batch[k].param)
  }

  lemma IndicesStep(batch: seq<Stage>, k: nat)
    requires k < |batch|
    ensures Indices(batch)[..k + 1] == Indices(batch)[..k] + [batch[k].param]
  {
  }

  /** Rank 0 can gather this stage, and its changes cut into entries of at most max are part. */
  ghost predicate Yields(p: Param, st: Stage, max: nat, part: seq<Item>)
    requires max > 0
  {
    && Gatherable(p, st.perRank)
    && (forall k :: 0 <= k < |OutputNames(p)| ==> PackableItem(Gathered(p, st.perRank)[k], false))
    && SliceItems(Gathered(p, st.perRank), max) == part
  }

  ghost predicate Gatherable(p: Param, perRank: seq<seq<Change>>) {
    && WellPlaced(p) && |perRank| == |p.shards|
    && (p.layout.Converted? ==> forall r :: 0 <= r < |perRank| ==> InBounds(perRank[r], p.shards[r].len))
  }

  /** Every stage of the batch yields its parameter's part of the sync, and one process group gathers them all. */
  ghost predicate BatchOk(ps: seq<Param>, batch: seq<Stage>, max: nat, parts: seq<seq<Item>>) {
    && max > 0 && |parts| == |ps|
    && (forall k :: 0 <= k < |batch| ==> StageOk(ps, batch[k], max, parts))
    && (forall k :: 0 <= k < |batch| ==> SameGroup(ps, batch[k], batch[0]))
  }

  ghost predicate StageOk(ps: seq<Param>, st: Stage, max: nat, parts: seq<seq<Item>>)
    requires max > 0 && |parts| == |ps|
  {
    st.param < |ps| && Yields(ps[st.param], st, max, parts[st.param])
  }

  ghost predicate SameGroup(ps: seq<Param>, a: Stage, b: Stage) {
    a.param < |ps| && b.param < |ps| && ps[a.param].group == ps[b.param].group
  }

  lemma StagedYields(ps: seq<Param>, ws: Weights, snaps: Weights, i: nat, max: nat)
    requires ShapedAll(ps, ws) && ShapedAll(ps, snaps) && WellFormed(ps) && Int32Positions(ps)
    requires i < |ps| && max > 0
    ensures Shaped(ps[i], ws[i]) && Shaped(ps[i], snaps[i])
    ensures Yields(ps[i], Stage(i, Staged(ps[i], ws[i], snaps[i], |ws[i]|)), max, Parts(ps, ws, snaps, max)[i])
  {
    StagedInBounds(ps[i], ws[i], snaps[i]);
    forall k | 0 <= k < |OutputNames(ps[i])| ensures PackableItem(ParamItems(ps[i], ws[i], snaps[i])[k], false) {
      ParamPackable(ps, ws, snaps, i, k);
    }
  }

  lemma {:induction false} PickAppend(parts: seq<seq<Item>>, a: seq<nat>, b: seq<nat>)
    requires OrderInRange(parts, a) && OrderInRange(parts, b)
    ensures Pick(parts, a + b) == Pick(parts, a) + Pick(parts, b)
  {
    if b == [] {
      assert a + b == a;
    } else {
      assert (a + b)[..|a + b| - 1] == a + b[..|b| - 1];
      PickAppend(parts, a, b[..|b| - 1]);
    }
  }

  lemma PickOne(parts: seq<seq<Item>>, a: seq<nat>, i: nat)
    requires OrderInRange(parts, a) && i < |parts|
    ensures Pick(parts, a + [i]) == Pick(parts, a) + parts[i]
  {
    assert (a + [i])[..|a|] == a;
  }

  lemma ParamPackable(ps: seq<Param>, ws: Weights, snaps: Weights, i: nat, k: nat)
    requires ShapedAll(ps, ws) && ShapedAll(ps, snaps) && WellFormed(ps) && Int32Positions(ps)
    requires i < |ps| && k < |OutputNames(ps[i])|
    ensures PackableItem(ParamItems(ps[i], ws[i], snaps[i])[k], false)
  {
    ParamIsDelta(ps[i], ws[i], snaps[i], k);
  }

  lemma SliceItemsStep(items: seq<Item>, k: nat, max: nat)
    requires k < |items| && max > 0
    ensures SliceItems(items[..k + 1], max)
            == SliceItems(items[..k], max) + Slices(items[k].name, items[k].numel, items[k].changes, max)
  {
    assert items[..k + 1][..k] == items[..k];
  }

  /** Puts the changes of one parameter's tensors into the stream. */
  method ConsumeAll(stream: FlushStream, items: seq<Item>)
    requires stream.Valid() && !stream.dense
    requires forall k :: 0 <= k < |items| ==> PackableItem(items[k], false)
    modifies stream
    ensures stream.Valid()
    ensures stream.Items() == old(stream.Items()) + SliceItems(items, stream.maxEntry)
  {
    for k := 0 to |items|
      invariant stream.Valid()
      invariant stream.Items() == old(stream.Items()) + SliceItems(items[..k], stream.maxEntry)
    {
      stream.Consume(items[k].name, items[k].numel, items[k].changes);
      SliceItemsStep(items, k, stream.maxEntry);
      Regroup(old(stream.Items()), SliceItems(items[..k], stream.maxEntry),
              Slices(items[k].name, items[k].numel, items[k].changes, stream.maxEntry));
    }
    assert items[..|items|] == items;
  }

  /** What rank 0 makes of one parameter's staged changes goes into the stream. */
  method GatherOne(stream: FlushStream, p: Param, st: Stage, ghost part: seq<Item>)
    requires stream.Valid() && !stream.dense && Yields(p, st, stream.maxEntry, part)
    modifies stream
    ensures stream.Valid()
    ensures stream.Items() == old(stream.Items()) + part
  {
    var items := Gathered(p, st.perRank);
    ConsumeAll(stream, items);
  }

  /** Gathers a batch, parameter by parameter, into the stream. */
  method FlushBatch(stream: FlushStream, ps: seq<Param>, batch: seq<Stage>, ghost parts: seq<seq<Item>>)
    requires stream.Valid() && !stream.dense && BatchOk(ps, batch, stream.maxEntry, parts)
    modifies stream
    ensures stream.Valid()
    ensures stream.Items() == old(stream.Items()) + Pick(parts, Indices(batch))
  {
    for k := 0 to |batch|
      invariant stream.Valid()
      invariant stream.Items() == old(stream.Items()) + Pick(parts, Indices(batch)[..k])
    {
      assert StageOk(ps, batch[k], stream.maxEntry, parts);
      ghost var taken := Indices(batch)[..k];
      GatherOne(stream, ps[batch[k].param], batch[k], parts[batch[k].param]);
      IndicesStep(batch, k);
      PickOne(parts, taken, batch[k].param);
      Regroup(old(stream.Items()), Pick(parts, taken), parts[batch[k].param]);
    }
    assert Indices(batch)[..|batch|] == Indices(batch);
  }

  lemma OnceEachTakesAll(ps: seq<Param>, order: seq<nat>)
    requires OnceEach(multiset(order), |ps|)
    ensures TakesAll(ps, order)
  {
    forall j | 0 <= j < |order| ensures order[j] < |ps| {
      assert order[j] in multiset(order);
    }
    forall i | 0 <= i < |ps| ensures i in order {
      assert multiset(order)[i] == 1;
    }
  }

  lemma PushStage(ps: seq<Param>, batch: seq<Stage>, st: Stage, max: nat, parts: seq<seq<Item>>)
    requires BatchOk(ps, batch, max, parts) && StageOk(ps, st, max, parts)
    requires batch == [] || SameGroup(ps, batch[0], st)
    ensures BatchOk(ps, batch + [st], max, parts) && Indices(batch + [st]) == Indices(batch) + [st.param]
  {
  }

  /** What the stream has been given are the parameters taken so far, and the batch can be gathered next. */
  ghost predicate Ready(stream: FlushStream, ps: seq<Param>, batch: seq<Stage>, parts: seq<seq<Item>>, taken: seq<nat>)
    reads stream
  {
    && stream.Valid() && !stream.dense && BatchOk(ps, batch, stream.maxEntry, parts)
    && OrderInRange(parts, taken) && stream.Items() == Pick(parts, taken)
  }

  /** Gathers the whole batch, after the parameters taken before it. */
  method Drain(stream: FlushStream, ps: seq<Param>, batch: seq<Stage>, ghost parts: seq<seq<Item>>, ghost taken: seq<nat>)
    requires Ready(stream, ps, batch, parts, taken)
    modifies stream
    ensures Ready(stream, ps, [], parts, taken + Indices(batch))
  {
    forall k | 0 <= k < |batch| ensures Indices(batch)[k] < |parts| {
      assert StageOk(ps, batch[k], stream.maxEntry, parts);
    }
    FlushBatch(stream, ps, batch, parts);
    PickAppend(parts, taken, Indices(batch));
  }

  /** Adds a stage to a batch of its own process group, and gathers the batch once it is full. */
  method Push(stream: FlushStream, ps: seq<Param>, batch: seq<Stage>, st: Stage, batchGather: int,
              ghost parts: seq<seq<Item>>, ghost taken: seq<nat>)
    returns (batch': seq<Stage>, ghost taken': seq<nat>)
    requires Ready(stream, ps, batch, parts, taken)
    requires StageOk(ps, st, stream.maxEntry, parts) && (batch == [] || SameGroup(ps, batch[0], st))
    modifies stream
    ensures Ready(stream, ps, batch', parts, taken')
    ensures Both(taken', batch') == Both(taken, batch) + multiset{st.param}
    ensures |batch'| < batchGather || batch' == []
  {
    PushStage(ps, batch, st, stream.maxEntry, parts);
    batch', taken' := batch + [st], taken;
    if |batch'| >= if batchGather > 1 then batchGather else 1 {
      Drain(stream, ps, batch', parts, taken);
      batch', taken' := [], taken + Indices(batch');
    }
  }

  /** Adds a stage to a batch, which is gathered first if the stage belongs to another process group. */
  method Enqueue(stream: FlushStream, ps: seq<Param>, batch: seq<Stage>, st: Stage, batchGather: int,
                 ghost parts: seq<seq<Item>>, ghost taken: seq<nat>)
    returns (batch': seq<Stage>, ghost taken': seq<nat>)
    requires Ready(stream, ps, batch, parts, taken)
    requires StageOk(ps, st, stream.maxEntry, parts)
    modifies stream
    ensures Ready(stream, ps, batch', parts, taken')
    ensures Both(taken', batch') == Both(taken, batch) + multiset{st.param}
    ensures |batch'| < batchGather || batch' == []
  {
    batch', taken' := batch, taken;
    if batch != [] && ps[batch[0].param].group != ps[st.param].group {
      Drain(stream, ps, batch, parts, taken);
      batch', taken' := [], taken + Indices(batch);
    }
    batch', taken' := Push(stream, ps, batch', st, batchGather, parts, taken');
  }

  ghost function Both(taken: seq<nat>, batch: seq<Stage>): multiset<nat> {
    multiset(taken) + multiset(Indices(batch))
  }

  lemma SnapStep<T>(now: seq<T>, before: seq<T>, i: nat)
    requires i < |now| == |before|
    ensures (now[..i] + before[i..])[i] == before[i]
    ensures (now[..i] + before[i..])[i := now[i]] == now[..i + 1] + before[i + 1..]
  {
  }

  lemma SnapDone<T>(now: seq<T>, before: seq<T>)
    requires |now| == |before|
    ensures now[..|now|] + before[|now|..] == now
  {
  }

  /** The parameters taken so far, or waiting in either batch, are the first n. */
  ghost predicate Reached(taken: seq<nat>, group: seq<Stage>, nanGroup: seq<Stage>, n: nat) {
    OnceEach(Both(taken, group) + multiset(Indices(nanGroup)), n)
  }

  lemma ReachedStep(taken: seq<nat>, group: seq<Stage>, nanGroup: seq<Stage>,
                    taken': seq<nat>, group': seq<Stage>, nanGroup': seq<Stage>, n: nat)
    requires Reached(taken, group, nanGroup, n)
    requires || (Both(taken', group') == Both(taken, group) + multiset{n} && nanGroup' == nanGroup)
             || (Both(taken', nanGroup') == Both(taken, nanGroup) + multiset{n} && group' == group)
    ensures Reached(taken', group', nanGroup', n + 1)
  {
    var m, m' := Both(taken, group) + multiset(Indices(nanGroup)), Both(taken', group') + multiset(Indices(nanGroup'));
    assert m' == Both(taken', nanGroup') + multiset(Indices(group'));
    assert m == Both(taken, nanGroup) + multiset(Indices(group));
    assert m' == m + multiset{n};
  }

  /** Parameters with a converter wait in a batch of their own. */
  method StageOne(stream: FlushStream, ps: seq<Param>, group: seq<Stage>, nanGroup: seq<Stage>, st: Stage, batchGather: int,
                  ghost parts: seq<seq<Item>>, ghost taken: seq<nat>)
    returns (group': seq<Stage>, nanGroup': seq<Stage>, ghost taken': seq<nat>)
    requires Ready(stream, ps, group, parts, taken) && BatchOk(ps, nanGroup, stream.maxEntry, parts)
    requires StageOk(ps, st, stream.maxEntry, parts) && Reached(taken, group, nanGroup, st.param)
    modifies stream
    ensures Ready(stream, ps, group', parts, taken') && BatchOk(ps, nanGroup', stream.maxEntry, parts)
    ensures Reached(taken', group', nanGroup', st.param + 1)
  {
    group', nanGroup' := group, nanGroup;
    if ps[st.param].layout.Converted? {
      nanGroup', taken' := Enqueue(stream, ps, nanGroup, st, batchGather, parts, taken);
    } else {
      group', taken' := Enqueue(stream, ps, group, st, batchGather, parts, taken);
    }
    ReachedStep(taken, group, nanGroup, taken', group', nanGroup', st.param);
  }

  /** Gathers what is left in the two batches. */
  method DrainBoth(stream: FlushStream, ps: seq<Param>, group: seq<Stage>, nanGroup: seq<Stage>,
                   ghost parts: seq<seq<Item>>, ghost taken: seq<nat>)
    returns (ghost order: seq<nat>)
    requires Ready(stream, ps, group, parts, taken) && BatchOk(ps, nanGroup, stream.maxEntry, parts)
    requires Reached(taken, group, nanGroup, |ps|)
    modifies stream
    ensures Ready(stream, ps, [], parts, order) && OnceEach(multiset(order), |ps|) && TakesAll(ps, order)
  {
    Drain(stream, ps, group, parts, taken);
    order := taken + Indices(group);
    Drain(stream, ps, nanGroup, parts, order);
    order := order + Indices(nanGroup);
    OnceEachTakesAll(ps, order);
  }

  /** The entries are those of the whole tensors. */
  ghost predicate AreTensors(items: seq<Item>, vs: seq<Tensor>) {
    items == DenseItems(vs)
  }

  lemma ViewsStep(ps: seq<Param>, ws: Weights, i: nat)
    requires ShapedAll(ps, ws) && WellFormed(ps) && i < |ps|
    ensures Shaped(ps[i], ws[i]) && WellPlaced(ps[i])
    ensures Views(ps, ws, i + 1) == Views(ps, ws, i) + View(ps[i], ws[i])
  {
  }

  ghost predicate IsView(ps: seq<Param>, ws: Weights, views: seq<seq<Tensor>>, i: nat)
    requires |ps| == |ws| == |views| && i < |ps|
  {
    Shaped(ps[i], ws[i]) && WellPlaced(ps[i]) && views[i] == View(ps[i], ws[i])
  }

  /** The full tensors, parameter by parameter. */
  ghost predicate AreViews(ps: seq<Param>, ws: Weights, views: seq<seq<Tensor>>) {
    |ps| == |ws| == |views| && forall i :: 0 <= i < |ps| ==> IsView(ps, ws, views, i)
  }

  lemma {:induction false} FlattenViews(ps: seq<Param>, ws: Weights, views: seq<seq<Tensor>>, n: nat)
    requires ShapedAll(ps, ws) && WellFormed(ps) && AreViews(ps, ws, views) && n <= |ps|
    ensures Flatten(views[..n]) == Views(ps, ws, n)
  {
    if n > 0 {
      FlattenViews(ps, ws, views, n - 1);
      FlattenStep(views, n - 1);
      ViewsStep(ps, ws, n - 1);
      assert IsView(ps, ws, views, n - 1);
    }
  }

  lemma ViewParts(ps: seq<Param>, ws: Weights) returns (views: seq<seq<Tensor>>)
    requires ShapedAll(ps, ws) && WellFormed(ps)
    ensures AreViews(ps, ws, views) && Flatten(views[..|ps|]) == Views(ps, ws, |ps|)
  {
    views := seq(|ps|, i requires 0 <= i < |ps| => View(ps[i], ws[i]));
    forall i | 0 <= i < |ps| ensures IsView(ps, ws, views, i) {
      ViewsStep(ps, ws, i);
    }
    FlattenViews(ps, ws, views, |ps|);
  }

  lemma TakeStep<T>(xs: seq<T>, k: nat)
    requires k < |xs|
    ensures xs[..k + 1] == xs[..k] + [xs[k]]
  {
  }

  ghost predicate IsStart<T>(start: seq<T>, xs: seq<T>, n: nat) {
    |start| == n <= |xs| && forall j :: 0 <= j < n ==> start[j] == xs[j]
  }

  lemma StartIsAll<T>(start: seq<T>, xs: seq<T>)
    requires IsStart(start, xs, |xs|)
    ensures start == xs
  {
  }

  lemma DenseItemsStep(vs: seq<Tensor>, v: Tensor)
    ensures DenseItems(vs + [v]) == DenseItems(vs) + [DenseItem(v)]
  {
  }

  /** The tensors of one parameter, after those in before. */
  method AddTensors(stream: FlushStream, vs: seq<Tensor>, ghost before: seq<Tensor>)
    requires stream.Valid() && stream.dense && stream.Items() == DenseItems(before)
    modifies stream
    ensures stream.Valid() && stream.Items() == DenseItems(before + vs)
  {
    assert before + vs[..0] == before;
    for k := 0 to |vs|
      invariant stream.Valid() && stream.Items() == DenseItems(before + vs[..k])
    {
      stream.AddDense(vs[k].name, vs[k].flat);
      DenseItemsStep(before + vs[..k], vs[k]);
      TakeStep(vs, k);
      Regroup(before, vs[..k], [vs[k]]);
    }
    assert vs[..|vs|] == vs;
  }

  /** Only a stream without entries ends with the terminal message. */
  lemma TerminalIff(wire: seq<Msg>, groups: seq<seq<Item>>, dense: bool)
    requires StreamOf(wire, groups, dense)
    ensures wire == [TerminalEmpty] <==> Flatten(groups) == []
  {
    if groups != [] {
      assert groups[|groups| - 1] != [];
    }
  }

  lemma {:induction false} FlattenWithin(groups: seq<seq<Item>>, max: nat)
    requires EntriesWithin(Flatten(groups), max)
    ensures forall k :: 0 <= k < |groups| ==> EntriesWithin(groups[k], max)
  {
    if groups != [] {
      var n := |groups| - 1;
      var before := Flatten(groups[..n]);
      forall k | 0 <= k < |before| ensures 1 <= |before[k].changes| <= max {
        assert Flatten(groups)[k] == before[k];
      }
      forall k | 0 <= k < |groups[n]| ensures 1 <= |groups[n][k].changes| <= max {
        assert Flatten(groups)[|before| + k] == groups[n][k];
      }
      FlattenWithin(groups[..n], max);
    }
  }

  /** Every entry on the wire has a change and keeps to the limit, and the terminal message is sent exactly when no tensor has changed. */
  ghost predicate SentEntries(ps: seq<Param>, ws: Weights, snaps: Weights, max: nat, wire: seq<Msg>, groups: seq<seq<Item>>)
    requires ShapedAll(ps, ws) && ShapedAll(ps, snaps) && WellFormed(ps)
  {
    && (forall k :: 0 <= k < |groups| ==> EntriesWithin(groups[k], max))
    && (wire == [TerminalEmpty] <==> NothingChanged(ps, ws, snaps))
  }

  lemma EntriesSent(ps: seq<Param>, ws: Weights, snaps: Weights, order: seq<nat>, max: nat,
                    wire: seq<Msg>, groups: seq<seq<Item>>)
    requires max > 0 && ShapedAll(ps, ws) && ShapedAll(ps, snaps) && WellFormed(ps) && TakesAll(ps, order)
    requires StreamOf(wire, groups, false) && Flatten(groups) == SyncItems(ps, ws, snaps, order, max)
    ensures SentEntries(ps, ws, snaps, max, wire, groups)
  {
    SyncEntries(ps, ws, snaps, order, max);
    FlattenWithin(groups, max);
    TerminalIff(wire, groups, false);
  }

  class ShardedSender {
    const params: seq<Param>
    const bucketSize: nat
    const batchGather: int
    const maxEntry: nat
    const esz: nat
    var snaps: Weights
    var seeded: bool

    ghost predicate Valid()
      reads this
    {
      && maxEntry > 0 && WellFormed(params) && Int32Positions(params)
      && (seeded ==> ShapedAll(params, snaps))
    }

    constructor (params: seq<Param>, bucketSize: nat, batchGather: int, maxEntry: nat, esz: nat)
      requires maxEntry > 0 && WellFormed(params) && Int32Positions(params)
      ensures Valid() && !seeded && this.params == params && this.bucketSize == bucketSize
      ensures this.maxEntry == maxEntry && this.esz == esz
    {
      this.params, this.bucketSize, this.batchGather, this.maxEntry, this.esz := params, bucketSize, batchGather, maxEntry, esz;
      snaps, seeded := [], false;
    }

    /** Diffs every parameter against its snapshot, updates the snapshot, and gathers in batches. */
    method StageAll(stream: FlushStream, ws: Weights, ghost parts: seq<seq<Item>>) returns (ghost order: seq<nat>)
      requires Valid() && seeded && ShapedAll(params, ws)
      requires stream.maxEntry == maxEntry && parts == Parts(params, ws, snaps, maxEntry)
      requires Ready(stream, params, [], parts, [])
      modifies this`snaps, stream
      ensures Ready(stream, params, [], parts, order)
      ensures OnceEach(multiset(order), |params|) && TakesAll(params, order)
      ensures snaps == ws
    {
      var group: seq<Stage>, nanGroup: seq<Stage> := [], [];
      order := [];
      for i := 0 to |params|
        invariant Ready(stream, params, group, parts, order) && BatchOk(params, nanGroup, maxEntry, parts)
        invariant Reached(order, group, nanGroup, i)
        invariant snaps == ws[..i] + old(snaps)[i..]
      {
        SnapStep(ws, old(snaps), i);
        StagedYields(params, ws, old(snaps), i, maxEntry);
        var st := Stage(i, Staged(params[i], ws[i], snaps[i], |ws[i]|));
        snaps := snaps[i := ws[i]];
        group, nanGroup, order := StageOne(stream, params, group, nanGroup, st, batchGather, parts, order);
      }
      SnapDone(ws, old(snaps));
      order := DrainBoth(stream, params, group, nanGroup, parts, order);
    }

    /** One delta sync: the changes of every parameter since its snapshot, streamed in flushes. */
    method SendDelta(ws: Weights) returns (wire: seq<Msg>, payload: nat, ghost groups: seq<seq<Item>>, ghost order: seq<nat>)
      requires Valid() && seeded && ShapedAll(params, ws)
      modifies this
      ensures Valid() && seeded && snaps == ws
      ensures OnceEach(multiset(order), |params|) && TakesAll(params, order)
      ensures StreamOf(wire, groups, false)
      ensures Flatten(groups) == SyncItems(params, ws, old(snaps), order, maxEntry)
      ensures SentEntries(params, ws, old(snaps), maxEntry, wire, groups)
      ensures payload == WirePayload(wire, esz)
    {
      ghost var parts := Parts(params, ws, snaps, maxEntry);
      var stream := new FlushStream(false, bucketSize, maxEntry, esz);
      order := StageAll(stream, ws, parts);
      stream.Finish();
      wire, payload, groups := stream.wire, stream.wireBytes, stream.groups;
      EntriesSent(params, ws, old(snaps), order, maxEntry, wire, groups);
    }

    /** One parameter: its snapshot, and its full tensors. */
    method SeedOne(stream: FlushStream, p: Param, local: Locals, ghost added: seq<Tensor>)
      requires Shaped(p, local) && WellPlaced(p)
      requires stream.Valid() && stream.dense && AreTensors(stream.Items(), added)
      modifies this`snaps, stream
      ensures stream.Valid() && AreTensors(stream.Items(), added + View(p, local))
      ensures snaps == old(snaps) + [local]
    {
      snaps := snaps + [local];
      AddTensors(stream, View(p, local), added);
    }

    /** Feeds every parameter's full tensors, and takes the snapshots. */
    method SeedAll(stream: FlushStream, ws: Weights, ghost views: seq<seq<Tensor>>)
      requires AreViews(params, ws, views)
      requires stream.Valid() && stream.dense && stream.Items() == []
      modifies this`snaps, stream
      ensures stream.Valid() && AreTensors(stream.Items(), Flatten(views[..|params|]))
      ensures snaps == ws
    {
      snaps := [];
      for i := 0 to |params|
        invariant stream.Valid() && AreTensors(stream.Items(), Flatten(views[..i]))
        invariant IsStart(snaps, ws, i)
      {
        assert IsView(params, ws, views, i);
        SeedOne(stream, params[i], ws[i], Flatten(views[..i]));
        FlattenStep(views, i);
      }
      StartIsAll(snaps, ws);
    }

    /** The first sync: whole tensors, and snapshots for the syncs to come. */
    method SendDenseSeed(ws: Weights) returns (wire: seq<Msg>, payload: nat, ghost groups: seq<seq<Item>>)
      requires Valid() && ShapedAll(params, ws)
      modifies this
      ensures Valid() && seeded && snaps == ws
      ensures StreamOf(wire, groups, true)
      ensures Flatten(groups) == DenseItems(Views(params, ws, |params|))
      ensures wire == [TerminalEmpty] <==> Views(params, ws, |params|) == []
      ensures payload == WirePayload(wire, esz)
    {
      var stream := new FlushStream(true, bucketSize, maxEntry, esz);
      ghost var views := ViewParts(params, ws);
      SeedAll(stream, ws, views);
      seeded := true;
      stream.Finish();
      wire, payload, groups := stream.wire, stream.wireBytes, stream.groups;
      TerminalIff(wire, groups, true);
    }
  }
}
