/**
 * The trainer's side of a delta sync: every rank diffs its shard against its
 * own snapshot, the changes are gathered, and the stream replayed on the
 * rollout side brings the replica up to the trainer's weights.
 */
module DeltaSync {
  import opened Common
  import opened DeltaWire
  import opened DeltaStream
  import opened DeltaReplay

  /** One rank's part of a parameter: len elements, starting at offset of the flattened full tensor. */
  datatype Shard = Shard(offset: nat, len: nat, contributes: bool)

  datatype Source = Source(rank: nat, at: nat)

  /** A tensor built from the shards by rearranging elements. */
  datatype Output = Output(name: string, sources: seq<Source>)

  /** Placed: the shards are pieces of the tensor. Converted: a converter builds the tensors from the shards. */
  datatype Layout = Placed(numel: nat) | Converted(outputs: seq<Output>)

  /** A parameter, with one shard per rank of the process group that gathers it. */
  datatype Param = Param(name: string, shards: seq<Shard>, layout: Layout, group: nat)

  type Locals = seq<seq<Elem>>

  datatype Tensor = Tensor(name: string, flat: seq<Elem>)

  ghost predicate Shaped(p: Param, locals: Locals) {
    |locals| == |p.shards| && forall r :: 0 <= r < |locals| ==> |locals[r]| == p.shards[r].len
  }

  ghost predicate Owns(p: Param, r: nat, i: nat) {
    r < |p.shards| && p.shards[r].contributes && p.shards[r].offset <= i < p.shards[r].offset + p.shards[r].len
  }

  ghost predicate OwnedOnce(p: Param, i: nat) {
    && (exists r: nat :: Owns(p, r, i))
    && (forall r: nat, r': nat :: Owns(p, r, i) && Owns(p, r', i) ==> r == r')
  }

  /** The contributing shards tile the tensor; a converter reads contributing shards only. */
  ghost predicate WellPlaced(p: Param) {
    match p.layout
    case Placed(numel) =>
      && (forall r: nat, i: nat :: Owns(p, r, i) ==> i < numel)
      && (forall i: nat :: i < numel ==> OwnedOnce(p, i))
    case Converted(outputs) =>
      forall o, k :: 0 <= o < |outputs| && 0 <= k < |outputs[o].sources| ==> SourceOk(p, outputs[o].sources[k])
  }

  ghost predicate SourceOk(p: Param, s: Source) {
    s.rank < |p.shards| && p.shards[s.rank].contributes && s.at < p.shards[s.rank].len
  }

  // ----- the full tensors -----

  /** Rank 0 copies the contributing shards of the first k ranks to their offsets; the rest is unspecified memory. */
  function PlaceShards(p: Param, locals: Locals, k: nat): (r: seq<Elem>)
    requires p.layout.Placed? && Shaped(p, locals) && WellPlaced(p) && k <= |locals|
    ensures |r| == p.layout.numel
  {
    if k == 0 then seq(p.layout.numel, _ => Num(0))
    else
      var full, s := PlaceShards(p, locals, k - 1), p.shards[k - 1];
      if s.contributes && s.len > 0 then
        assert Owns(p, k - 1, s.offset + s.len - 1);
        full[..s.offset] + locals[k - 1] + full[s.offset + s.len..]
      else full
  }

  lemma {:induction false} PlacedAt(p: Param, locals: Locals, k: nat, r: nat, i: nat)
    requires p.layout.Placed? && Shaped(p, locals) && WellPlaced(p) && r < k <= |locals| && Owns(p, r, i)
    ensures i < p.layout.numel && PlaceShards(p, locals, k)[i] == locals[r][i - p.shards[r].offset]
  {
    var s := p.shards[k - 1];
    if s.contributes && s.len > 0 {
      assert Owns(p, k - 1, s.offset + s.len - 1);
    }
    if r < k - 1 {
      PlacedAt(p, locals, k - 1, r, i);
      assert OwnedOnce(p, i);
      assert !Owns(p, k - 1, i);
    }
  }

  function Rearrange(sources: seq<Source>, locals: Locals): (r: seq<Elem>)
    requires forall k :: 0 <= k < |sources| ==> sources[k].rank < |locals| && sources[k].at < |locals[sources[k].rank]|
    ensures |r| == |sources|
  {
    seq(|sources|, k requires 0 <= k < |sources| => locals[sources[k].rank][sources[k].at])
  }

  /** Elements of the k-th tensor of a parameter. */
  function TensorSize(p: Param, k: nat): nat
    requires k < |OutputNames(p)|
  {
    match p.layout
    case Placed(numel) => numel
    case Converted(outputs) => |outputs[k].sources|
  }

  /** The tensors the trainer's shards stand for. */
  function View(p: Param, locals: Locals): (r: seq<Tensor>)
    requires Shaped(p, locals) && WellPlaced(p)
    ensures |r| == |OutputNames(p)|
    ensures forall k :: 0 <= k < |r| ==> r[k].name == OutputNames(p)[k] && |r[k].flat| == TensorSize(p, k)
  {
    match p.layout
    case Placed(_) => [Tensor(p.name, PlaceShards(p, locals, |locals|))]
    case Converted(outputs) =>
      seq(|outputs|, k requires 0 <= k < |outputs| =>
        Tensor(outputs[k].name, RearrangeOutput(p, locals, k)))
  }

  function RearrangeOutput(p: Param, locals: Locals, k: nat): (r: seq<Elem>)
    requires p.layout.Converted? && k < |p.layout.outputs| && WellPlaced(p) && CoversSources(p, locals)
    ensures |r| == |p.layout.outputs[k].sources|
  {
    assert forall j :: 0 <= j < |p.layout.outputs[k].sources| ==> SourceOk(p, p.layout.outputs[k].sources[j]);
    Rearrange(p.layout.outputs[k].sources, locals)
  }

  /** Element j of the k-th tensor is element a of rank q's shard: by its offset, or because the converter puts it there. */
  ghost predicate Origin(p: Param, k: nat, j: nat, q: nat, a: nat) {
    match p.layout
    case Placed(_) => k == 0 && Owns(p, q, j) && j == p.shards[q].offset + a
    case Converted(outputs) => k < |outputs| && j < |outputs[k].sources| && outputs[k].sources[j] == Source(q, a)
  }

  /** The tensors are named and sized by the layout, and hold at every place the shard element that belongs there. */
  lemma ViewFromShards(p: Param, locals: Locals, k: nat, j: nat, q: nat, a: nat)
    requires Shaped(p, locals) && WellPlaced(p) && Origin(p, k, j, q, a)
    ensures k < |View(p, locals)| && j < |View(p, locals)[k].flat| && q < |locals| && a < |locals[q]|
    ensures View(p, locals)[k].flat[j] == locals[q][a]
  {
    match p.layout
    case Placed(_) => PlacedAt(p, locals, |locals|, q, j);
    case Converted(outputs) => assert SourceOk(p, outputs[k].sources[j]);
  }

  lemma ViewShape(p: Param, locals: Locals)
    requires Shaped(p, locals) && WellPlaced(p)
    ensures p.layout.Placed? ==> |View(p, locals)| == 1 && View(p, locals)[0].name == p.name
                                 && |View(p, locals)[0].flat| == p.layout.numel
    ensures p.layout.Converted? ==> |View(p, locals)| == |p.layout.outputs|
    ensures p.layout.Converted? ==> forall k :: 0 <= k < |p.layout.outputs| ==>
              View(p, locals)[k].name == p.layout.outputs[k].name && |View(p, locals)[k].flat| == |p.layout.outputs[k].sources|
  {
  }

  /** Every element of every tensor comes from some shard. */
  lemma HasOrigin(p: Param, locals: Locals, k: nat, j: nat) returns (q: nat, a: nat)
    requires Shaped(p, locals) && WellPlaced(p) && k < |View(p, locals)| && j < |View(p, locals)[k].flat|
    ensures Origin(p, k, j, q, a)
  {
    match p.layout
    case Placed(_) =>
      q := OwnerOf(p, j);
      a := j - p.shards[q].offset;
    case Converted(outputs) =>
      q, a := outputs[k].sources[j].rank, outputs[k].sources[j].at;
  }

  ghost predicate CoversSources(p: Param, locals: Locals) {
    |locals| == |p.shards| && forall r :: 0 <= r < |locals| && p.shards[r].contributes ==> |locals[r]| == p.shards[r].len
  }

  function OutputNames(p: Param): (r: seq<string>) {
    match p.layout
    case Placed(_) => [p.name]
    case Converted(outputs) => seq(|outputs|, k requires 0 <= k < |outputs| => outputs[k].name)
  }

  // ----- diffing and gathering -----

  /** The positions below n at which the shard differs from its snapshot, in order. */
  function Diff(shard: seq<Elem>, snap: seq<Elem>, n: nat): (r: seq<Change>)
    requires n <= |shard| == |snap|
  {
    if n == 0 then []
    else Diff(shard, snap, n - 1) + if shard[n - 1] != snap[n - 1] then [Change(n - 1, shard[n - 1])] else []
  }

  lemma {:induction false} DiffExact(shard: seq<Elem>, snap: seq<Elem>, n: nat, c: Change)
    requires n <= |shard| == |snap|
    ensures c in Diff(shard, snap, n) <==> c.pos < n && shard[c.pos] != snap[c.pos] && c.val == shard[c.pos]
  {
    if n > 0 {
      DiffExact(shard, snap, n - 1, c);
    }
  }

  ghost predicate DistinctPositions(cs: seq<Change>) {
    forall a, b :: 0 <= a < b < |cs| ==> cs[a].pos != cs[b].pos
  }

  ghost predicate Ascending(cs: seq<Change>) {
    forall a, b :: 0 <= a < b < |cs| ==> cs[a].pos < cs[b].pos
  }

  /** The positions follow each other upwards, so none comes twice. */
  lemma {:induction false} DiffAscends(shard: seq<Elem>, snap: seq<Elem>, n: nat)
    requires n <= |shard| == |snap|
    ensures Ascending(Diff(shard, snap, n))
  {
    if n > 0 {
      DiffAscends(shard, snap, n - 1);
      forall c | c in Diff(shard, snap, n - 1) ensures c.pos < n - 1 {
        DiffExact(shard, snap, n - 1, c);
      }
    }
  }

  /** Within-parameter positions: the shard's offset is added to each. */
  function Shift(cs: seq<Change>, offset: nat): (r: seq<Change>)
    ensures |r| == |cs|
    ensures forall k :: 0 <= k < |cs| ==> r[k] == Change(cs[k].pos + offset, cs[k].val)
  {
    seq(|cs|, k requires 0 <= k < |cs| => Change(cs[k].pos + offset, cs[k].val))
  }

  /** What rank r puts into the gather: nothing if it does not contribute. */
  function RankChanges(p: Param, r: nat, locals: Locals, snaps: Locals): (cs: seq<Change>)
    requires r < |locals| == |snaps| == |p.shards| && |locals[r]| == |snaps[r]|
  {
    var cs := if p.shards[r].contributes then Diff(locals[r], snaps[r], |locals[r]|) else [];
    if p.layout.Placed? then Shift(cs, p.shards[r].offset) else cs
  }

  /** What each of the first k ranks puts in. */
  function Staged(p: Param, locals: Locals, snaps: Locals, k: nat): (r: seq<seq<Change>>)
    requires Shaped(p, locals) && Shaped(p, snaps) && k <= |locals|
    ensures |r| == k && forall q :: 0 <= q < k ==> r[q] == RankChanges(p, q, locals, snaps)
  {
    if k == 0 then [] else Staged(p, locals, snaps, k - 1) + [RankChanges(p, k - 1, locals, snaps)]
  }

  /** Rank 0 rebuilds the gathered shards with NaN wherever nothing changed. */
  function RebuildShards(p: Param, perRank: seq<seq<Change>>): (r: Locals)
    requires |perRank| == |p.shards|
    requires forall r :: 0 <= r < |perRank| ==> InBounds(perRank[r], p.shards[r].len)
    ensures Shaped(p, r)
  {
    seq(|perRank|, r requires 0 <= r < |perRank| => Densify(p.shards[r].len, perRank[r]))
  }

  /** The changes of the tensors of p that rank 0 derives from the gathered ones. */
  function Gathered(p: Param, perRank: seq<seq<Change>>): (r: seq<Item>)
    requires WellPlaced(p) && |perRank| == |p.shards|
    requires p.layout.Converted? ==> forall r :: 0 <= r < |perRank| ==> InBounds(perRank[r], p.shards[r].len)
    ensures |r| == |OutputNames(p)| && forall k :: 0 <= k < |r| ==> r[k].name == OutputNames(p)[k]
  {
    match p.layout
    case Placed(numel) => [Item(p.name, numel, Flatten(perRank))]
    case Converted(outputs) =>
      var shards := RebuildShards(p, perRank);
      seq(|outputs|, k requires 0 <= k < |outputs| =>
        var fl := RearrangeOutput(p, shards, k);
        Item(outputs[k].name, |fl|, Diff(fl, seq(|fl|, _ => NaN), |fl|)))
  }

  lemma StagedInBounds(p: Param, locals: Locals, snaps: Locals)
    requires Shaped(p, locals) && Shaped(p, snaps)
    ensures p.layout.Converted? ==>
              forall r :: 0 <= r < |locals| ==> InBounds(Staged(p, locals, snaps, |locals|)[r], p.shards[r].len)
  {
    forall r | 0 <= r < |locals| && p.layout.Converted? ensures InBounds(RankChanges(p, r, locals, snaps), p.shards[r].len) {
      forall c | c in RankChanges(p, r, locals, snaps) ensures c.pos < p.shards[r].len {
        DiffExact(locals[r], snaps[r], |locals[r]|, c);
      }
    }
  }

  function ParamItems(p: Param, locals: Locals, snaps: Locals): (r: seq<Item>)
    requires Shaped(p, locals) && Shaped(p, snaps) && WellPlaced(p)
    ensures |r| == |OutputNames(p)| && forall k :: 0 <= k < |r| ==> r[k].name == OutputNames(p)[k]
  {
    StagedInBounds(p, locals, snaps);
    Gathered(p, Staged(p, locals, snaps, |locals|))
  }

  // ----- the gathered changes are exactly the changes of the tensors -----

  /** All of these are changes from old_ to new_, and none that is not NaN is missing. */
  ghost predicate IsDelta(changes: seq<Change>, old_: seq<Elem>, new_: seq<Elem>) {
    && |old_| == |new_|
    && (forall c :: c in changes ==> c.pos < |new_| && c.val == new_[c.pos] && old_[c.pos] != new_[c.pos])
    && (forall i :: 0 <= i < |new_| && old_[i] != new_[i] && !new_[i].NaN? ==> Change(i, new_[i]) in changes)
  }

  lemma {:induction false} InFlatten<T>(parts: seq<seq<T>>, x: T)
    ensures x in Flatten(parts) <==> exists k :: 0 <= k < |parts| && x in parts[k]
  {
    if parts != [] {
      var n := |parts| - 1;
      InFlatten(parts[..n], x);
      if x in Flatten(parts[..n]) {
        var k :| 0 <= k < n && x in parts[..n][k];
        assert x in parts[k];
      } else if x in Flatten(parts) {
        assert x in parts[n];
      }
      if k :| 0 <= k < |parts| && x in parts[k] {
        assert k < n ==> x in parts[..n][k];
      }
    }
  }

  /** Rank r owns the element c is about, and c is what it changed to. */
  ghost predicate OwnChange(p: Param, locals: Locals, snaps: Locals, r: nat, c: Change)
    requires Shaped(p, locals) && Shaped(p, snaps)
  {
    Owns(p, r, c.pos) && var j := c.pos - p.shards[r].offset; c.val == locals[r][j] && locals[r][j] != snaps[r][j]
  }

  /** A change gathered from rank r is one of the elements it owns. */
  lemma PlacedChange(p: Param, locals: Locals, snaps: Locals, r: nat, c: Change)
    requires Shaped(p, locals) && Shaped(p, snaps) && p.layout.Placed? && r < |locals|
    ensures c in RankChanges(p, r, locals, snaps) <==>
            Owns(p, r, c.pos) && var j := c.pos - p.shards[r].offset; c.val == locals[r][j] && locals[r][j] != snaps[r][j]
  {
    var s := p.shards[r];
    if s.contributes {
      var d := Diff(locals[r], snaps[r], |locals[r]|);
      if c.pos >= s.offset {
        DiffExact(locals[r], snaps[r], |locals[r]|, Change(c.pos - s.offset, c.val));
        if k :| 0 <= k < |d| && d[k] == Change(c.pos - s.offset, c.val) {
          assert Shift(d, s.offset)[k] == c;
        }
      }
      if k :| 0 <= k < |d| && Shift(d, s.offset)[k] == c {
        assert d[k] in d;
      }
    }
  }

  lemma OwnerOf(p: Param, i: nat) returns (r: nat)
    requires WellPlaced(p) && p.layout.Placed? && i < p.layout.numel
    ensures Owns(p, r, i)
  {
    assert OwnedOnce(p, i);
    r :| Owns(p, r, i);
  }

  ghost predicate FromRank(p: Param, locals: Locals, snaps: Locals, r: nat, c: Change)
    requires Shaped(p, locals) && Shaped(p, snaps)
  {
    r < |locals| && c in RankChanges(p, r, locals, snaps)
  }

  lemma GatheredFrom(p: Param, locals: Locals, snaps: Locals, c: Change)
    requires Shaped(p, locals) && Shaped(p, snaps)
    ensures c in Flatten(Staged(p, locals, snaps, |locals|))
            <==> exists r: nat :: FromRank(p, locals, snaps, r, c)
  {
    var parts := Staged(p, locals, snaps, |locals|);
    InFlatten(parts, c);
    if c in Flatten(parts) {
      var r: nat :| r < |parts| && c in parts[r];
      assert FromRank(p, locals, snaps, r, c);
    }
    if r: nat :| FromRank(p, locals, snaps, r, c) {
      assert c in parts[r];
    }
  }

  /** Every rank's shard lies in the tensor at its offset. */
  ghost predicate IsFull(p: Param, locals: Locals, full: seq<Elem>)
    requires Shaped(p, locals) && p.layout.Placed?
  {
    && |full| == p.layout.numel
    && forall r: nat, i: nat {:trigger Owns(p, r, i)} :: Owns(p, r, i) ==> i < |full| && full[i] == locals[r][i - p.shards[r].offset]
  }

  lemma PlaceShardsIsFull(p: Param, locals: Locals)
    requires p.layout.Placed? && Shaped(p, locals) && WellPlaced(p)
    ensures IsFull(p, locals, PlaceShards(p, locals, |locals|))
  {
    forall r: nat, i: nat | Owns(p, r, i)
      ensures i < p.layout.numel && PlaceShards(p, locals, |locals|)[i] == locals[r][i - p.shards[r].offset]
    {
      PlacedAt(p, locals, |locals|, r, i);
    }
  }

  /** Some rank's own change. */
  ghost predicate SomeonesChange(p: Param, locals: Locals, snaps: Locals, c: Change)
    requires Shaped(p, locals) && Shaped(p, snaps)
  {
    exists r: nat :: OwnChange(p, locals, snaps, r, c)
  }

  lemma GatheredIsOwn(p: Param, locals: Locals, snaps: Locals, c: Change)
    requires Shaped(p, locals) && Shaped(p, snaps) && p.layout.Placed?
    requires c in Flatten(Staged(p, locals, snaps, |locals|))
    ensures SomeonesChange(p, locals, snaps, c)
  {
    GatheredFrom(p, locals, snaps, c);
    var r: nat :| FromRank(p, locals, snaps, r, c);
    PlacedChange(p, locals, snaps, r, c);
    assert OwnChange(p, locals, snaps, r, c);
  }

  lemma OwnIsGathered(p: Param, locals: Locals, snaps: Locals, r: nat, c: Change)
    requires Shaped(p, locals) && Shaped(p, snaps) && p.layout.Placed? && OwnChange(p, locals, snaps, r, c)
    ensures c in Flatten(Staged(p, locals, snaps, |locals|))
  {
    PlacedChange(p, locals, snaps, r, c);
    assert FromRank(p, locals, snaps, r, c);
    GatheredFrom(p, locals, snaps, c);
  }

  lemma PlacedSound(p: Param, locals: Locals, snaps: Locals, old_: seq<Elem>, new_: seq<Elem>, r: nat, c: Change)
    requires Shaped(p, locals) && Shaped(p, snaps) && p.layout.Placed?
    requires IsFull(p, snaps, old_) && IsFull(p, locals, new_) && OwnChange(p, locals, snaps, r, c)
    ensures c.pos < |new_| && c.val == new_[c.pos] && old_[c.pos] != new_[c.pos]
  {
    assert Owns(p, r, c.pos);
  }

  lemma PlacedComplete(p: Param, locals: Locals, snaps: Locals, old_: seq<Elem>, new_: seq<Elem>, i: nat)
    requires Shaped(p, locals) && Shaped(p, snaps) && WellPlaced(p) && p.layout.Placed?
    requires IsFull(p, snaps, old_) && IsFull(p, locals, new_) && i < |new_| && old_[i] != new_[i]
    ensures SomeonesChange(p, locals, snaps, Change(i, new_[i]))
  {
    var r := OwnerOf(p, i);
    assert OwnChange(p, locals, snaps, r, Change(i, new_[i]));
  }

  /** A rebuilt shard holds the new element where it changed, and NaN elsewhere. */
  lemma RebuiltAt(p: Param, locals: Locals, snaps: Locals, s: Source)
    requires Shaped(p, locals) && Shaped(p, snaps) && p.layout.Converted? && SourceOk(p, s)
    ensures InBounds(RankChanges(p, s.rank, locals, snaps), p.shards[s.rank].len)
    ensures Densify(p.shards[s.rank].len, RankChanges(p, s.rank, locals, snaps))[s.at]
            == if locals[s.rank][s.at] != snaps[s.rank][s.at] then locals[s.rank][s.at] else NaN
  {
    var target := locals[s.rank];
    StagedInBounds(p, locals, snaps);
    assert Staged(p, locals, snaps, |locals|)[s.rank] == RankChanges(p, s.rank, locals, snaps);
    forall c | c in RankChanges(p, s.rank, locals, snaps) ensures c.pos < |target| && c.val == target[c.pos] {
      DiffExact(target, snaps[s.rank], |target|, c);
    }
    DiffExact(target, snaps[s.rank], |target|, Change(s.at, target[s.at]));
    DensifyPoint(p.shards[s.rank].len, RankChanges(p, s.rank, locals, snaps), target, s.at);
  }

  /** The elements of a converted tensor that are numbers and changed, and no others, are sent. */
  lemma ConvertedChanges(p: Param, locals: Locals, snaps: Locals, k: nat, c: Change)
    requires Shaped(p, locals) && Shaped(p, snaps) && WellPlaced(p) && p.layout.Converted?
    requires k < |p.layout.outputs|
    ensures c in ParamItems(p, locals, snaps)[k].changes <==>
            var old_, new_ := View(p, snaps)[k].flat, View(p, locals)[k].flat;
            c.pos < |new_| && old_[c.pos] != new_[c.pos] && c.val == new_[c.pos] && !c.val.NaN?
  {
    StagedInBounds(p, locals, snaps);
    var sources := p.layout.outputs[k].sources;
    var fl := RearrangeOutput(p, RebuildShards(p, Staged(p, locals, snaps, |locals|)), k);
    DiffExact(fl, seq(|fl|, _ => NaN), |fl|, c);
    if c.pos < |fl| {
      assert SourceOk(p, sources[c.pos]);
      RebuiltAt(p, locals, snaps, sources[c.pos]);
    }
  }

  /** The changed elements of a placed tensor, and no others, are sent. */
  lemma PlacedChanges(p: Param, locals: Locals, snaps: Locals, c: Change)
    requires Shaped(p, locals) && Shaped(p, snaps) && WellPlaced(p) && p.layout.Placed?
    ensures c in ParamItems(p, locals, snaps)[0].changes <==>
            var old_, new_ := View(p, snaps)[0].flat, View(p, locals)[0].flat;
            c.pos < |new_| && old_[c.pos] != new_[c.pos] && c.val == new_[c.pos]
  {
    var old_, new_ := View(p, snaps)[0].flat, View(p, locals)[0].flat;
    PlaceShardsIsFull(p, locals);
    PlaceShardsIsFull(p, snaps);
    if c in ParamItems(p, locals, snaps)[0].changes {
      GatheredIsOwn(p, locals, snaps, c);
      var r: nat :| OwnChange(p, locals, snaps, r, c);
      PlacedSound(p, locals, snaps, old_, new_, r, c);
    }
    if c.pos < |new_| && old_[c.pos] != new_[c.pos] && c.val == new_[c.pos] {
      PlacedComplete(p, locals, snaps, old_, new_, c.pos);
      var r: nat :| OwnChange(p, locals, snaps, r, Change(c.pos, new_[c.pos]));
      OwnIsGathered(p, locals, snaps, r, c);
    }
  }

  /** Exactly what a sync sends for a tensor: its changed elements, of a converted one those that are numbers. */
  lemma ChangesExact(p: Param, locals: Locals, snaps: Locals, k: nat, c: Change)
    requires Shaped(p, locals) && Shaped(p, snaps) && WellPlaced(p) && k < |OutputNames(p)|
    ensures c in ParamItems(p, locals, snaps)[k].changes <==>
            var old_, new_ := View(p, snaps)[k].flat, View(p, locals)[k].flat;
            && c.pos < |new_| && old_[c.pos] != new_[c.pos] && c.val == new_[c.pos]
            && (p.layout.Converted? ==> !c.val.NaN?)
  {
    match p.layout
    case Placed(_) => PlacedChanges(p, locals, snaps, c);
    case Converted(_) => ConvertedChanges(p, locals, snaps, k, c);
  }

  ghost predicate OwnedBelow(p: Param, k: nat, i: nat) {
    exists q: nat :: q < k && Owns(p, q, i)
  }

  /** Different elements, all owned by ranks below k. */
  ghost predicate DistinctBelow(p: Param, k: nat, cs: seq<Change>) {
    DistinctPositions(cs) && forall c :: c in cs ==> OwnedBelow(p, k, c.pos)
  }

  /** What rank k owns, those before it do not. */
  lemma Separate(p: Param, k: nat, a: seq<Change>, b: seq<Change>)
    requires WellPlaced(p) && p.layout.Placed? && DistinctBelow(p, k, a) && DistinctPositions(b)
    requires forall c :: c in b ==> Owns(p, k, c.pos)
    ensures DistinctBelow(p, k + 1, a + b)
  {
    forall x, y | 0 <= x < |a| && 0 <= y < |b| ensures a[x].pos != b[y].pos {
      assert a[x] in a && b[y] in b;
      var q: nat :| q < k && Owns(p, q, a[x].pos);
      assert Owns(p, k, b[y].pos);
      assert b[y].pos < p.layout.numel;
      assert OwnedOnce(p, b[y].pos);
    }
    forall c | c in a + b ensures OwnedBelow(p, k + 1, c.pos) {
      if c in a {
        var q: nat :| q < k && Owns(p, q, c.pos);
        assert q < k + 1;
      }
    }
  }

  lemma RankDistinct(p: Param, locals: Locals, snaps: Locals, q: nat)
    requires Shaped(p, locals) && Shaped(p, snaps) && p.layout.Placed? && q < |locals|
    ensures DistinctPositions(RankChanges(p, q, locals, snaps))
    ensures forall c :: c in RankChanges(p, q, locals, snaps) ==> Owns(p, q, c.pos)
  {
    DiffAscends(locals[q], snaps[q], |locals[q]|);
    forall c | c in RankChanges(p, q, locals, snaps) ensures Owns(p, q, c.pos) {
      PlacedChange(p, locals, snaps, q, c);
    }
  }

  lemma StagedStep(p: Param, locals: Locals, snaps: Locals, k: nat)
    requires Shaped(p, locals) && Shaped(p, snaps) && 0 < k <= |locals|
    ensures Flatten(Staged(p, locals, snaps, k))
            == Flatten(Staged(p, locals, snaps, k - 1)) + RankChanges(p, k - 1, locals, snaps)
  {
    assert Staged(p, locals, snaps, k)[..k - 1] == Staged(p, locals, snaps, k - 1);
  }

  /** The ranks' changes are about different elements, since every element has one owner. */
  lemma {:induction false} StagedDistinct(p: Param, locals: Locals, snaps: Locals, k: nat)
    requires Shaped(p, locals) && Shaped(p, snaps) && WellPlaced(p) && p.layout.Placed? && k <= |locals|
    ensures DistinctBelow(p, k, Flatten(Staged(p, locals, snaps, k)))
  {
    if k > 0 {
      StagedDistinct(p, locals, snaps, k - 1);
      StagedStep(p, locals, snaps, k);
      RankDistinct(p, locals, snaps, k - 1);
      Separate(p, k - 1, Flatten(Staged(p, locals, snaps, k - 1)), RankChanges(p, k - 1, locals, snaps));
    }
  }

  /** No element of a tensor is sent twice. */
  lemma ChangesOnce(p: Param, locals: Locals, snaps: Locals, k: nat)
    requires Shaped(p, locals) && Shaped(p, snaps) && WellPlaced(p) && k < |OutputNames(p)|
    ensures DistinctPositions(ParamItems(p, locals, snaps)[k].changes)
  {
    match p.layout
    case Placed(_) => StagedDistinct(p, locals, snaps, |locals|);
    case Converted(_) =>
      StagedInBounds(p, locals, snaps);
      var fl := RearrangeOutput(p, RebuildShards(p, Staged(p, locals, snaps, |locals|)), k);
      DiffAscends(fl, seq(|fl|, _ => NaN), |fl|);
  }

  lemma ParamIsDelta(p: Param, locals: Locals, snaps: Locals, k: nat)
    requires Shaped(p, locals) && Shaped(p, snaps) && WellPlaced(p) && k < |OutputNames(p)|
    ensures IsDelta(ParamItems(p, locals, snaps)[k].changes, View(p, snaps)[k].flat, View(p, locals)[k].flat)
    ensures ParamItems(p, locals, snaps)[k].numel == |View(p, locals)[k].flat|
  {
    forall c: Change
      ensures c in ParamItems(p, locals, snaps)[k].changes <==>
              var old_, new_ := View(p, snaps)[k].flat, View(p, locals)[k].flat;
              && c.pos < |new_| && old_[c.pos] != new_[c.pos] && c.val == new_[c.pos]
              && (p.layout.Converted? ==> !c.val.NaN?)
    {
      ChangesExact(p, locals, snaps, k, c);
    }
  }
}
