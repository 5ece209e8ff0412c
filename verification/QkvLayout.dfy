/** The grouped query-key-value layout: built when a model is converted, taken apart when its shards are merged. */
module QkvLayout {
  import opened Blocks
  import opened Common

  /** The rows of one query group. */
  datatype Group<T> = Group(q: seq<T>, k: seq<T>, v: seq<T>)

  // ----- cutting rows -----

  /** torch.chunk along the rows: pieces of the length rounded up. */
  function Chunk<T>(rows: seq<T>, n: nat): seq<seq<T>>
    requires n > 0
  {
    if |rows| == 0 then seq(n, _ => []) else Cut(rows, (|rows| + n - 1) / n)
  }

  /** The chunks are the rows in order, all but the last of the length rounded up; without rows there are n empty ones. */
  lemma ChunkExact<T>(rows: seq<T>, n: nat, size: nat)
    requires n > 0 && size == |rows| / n + if |rows| % n == 0 then 0 else 1
    ensures rows != [] ==> Flatten(Chunk(rows, n)) == rows
    ensures rows != [] ==> forall i :: 0 <= i < |Chunk(rows, n)| - 1 ==> |Chunk(rows, n)[i]| == size
    ensures rows != [] ==> forall i :: 0 <= i < |Chunk(rows, n)| ==> 0 < |Chunk(rows, n)[i]| <= size
    ensures rows == [] ==> |Chunk(rows, n)| == n && Uniform(Chunk(rows, n), 0)
  {
    if rows != [] {
      RoundedUp(|rows|, n);
      CutPieces(rows, size);
    }
  }

  lemma RoundedUp(a: nat, n: nat)
    requires n > 0 && a > 0
    ensures (a + n - 1) / n == a / n + if a % n == 0 then 0 else 1
    ensures (a + n - 1) / n > 0
  {
    var q, r := a / n, a % n;
    assert a == n * q + r;
    if r == 0 {
      Quotient(n, q, n - 1);
    } else {
      Quotient(n, q + 1, r - 1);
      Times(n, q, q);
    }
  }

  lemma ChunkIsCut<T>(rows: seq<T>, n: nat, size: nat)
    requires n > 0 && size > 0 && |rows| == n * size
    ensures Chunk(rows, n) == Cut(rows, size)
  {
    assert (n * size + n - 1) / n == size by { Quotient(n, size, n - 1); }
    assert n * size > 0;
  }

  // ----- the converter -----

  /** The rows of q, k and v, group by group. */
  function Interleave<T>(qs: seq<seq<T>>, ks: seq<seq<T>>, vs: seq<seq<T>>): (r: seq<seq<T>>)
    requires |qs| == |ks| == |vs|
    ensures |r| == |qs| && forall g :: 0 <= g < |r| ==> r[g] == qs[g] + ks[g] + vs[g]
  {
    seq(|qs|, g requires 0 <= g < |qs| => qs[g] + ks[g] + vs[g])
  }

  /** The fused weight: the rows are viewed as one block per key-value head, and the blocks concatenated. */
  function Fuse<T>(q: seq<T>, k: seq<T>, v: seq<T>, heads: nat, kvHeads: nat, headDim: nat): Option<seq<T>>
    requires kvHeads > 0 && headDim > 0
  {
    var qSize := headDim * heads / kvHeads;
    if qSize > 0 && |q| == kvHeads * qSize && |k| == kvHeads * headDim && |v| == kvHeads * headDim then
      FlattenCut(q, qSize, kvHeads);
      FlattenCut(k, headDim, kvHeads);
      FlattenCut(v, headDim, kvHeads);
      Some(Flatten(Interleave(Cut(q, qSize), Cut(k, headDim), Cut(v, headDim))))
    else None
  }

  /**
   * Fusing succeeds exactly if the rows are a block per key-value head, and
   * block g of the fused rows is block g of q, then that of k, then that of v.
   */
  lemma FusedBlocks<T>(q: seq<T>, k: seq<T>, v: seq<T>, heads: nat, kvHeads: nat, headDim: nat, g: nat)
    requires kvHeads > 0 && headDim > 0 && g < kvHeads
    ensures var qSize := headDim * heads / kvHeads;
            && (Fuse(q, k, v, heads, kvHeads, headDim).Some? <==>
                qSize > 0 && |q| == kvHeads * qSize && |k| == |v| == kvHeads * headDim)
            && (Fuse(q, k, v, heads, kvHeads, headDim).Some? ==>
                && g * qSize + qSize <= |q| && g * headDim + headDim <= |k| && |k| == |v|
                && BlockIs(Fuse(q, k, v, heads, kvHeads, headDim).value, qSize + 2 * headDim, g,
                           q[g * qSize..g * qSize + qSize] + k[g * headDim..g * headDim + headDim]
                           + v[g * headDim..g * headDim + headDim]))
  {
    var qSize := headDim * heads / kvHeads;
    if Fuse(q, k, v, heads, kvHeads, headDim).Some? {
      CutAt(q, qSize, kvHeads, g);
      CutAt(k, headDim, kvHeads, g);
      CutAt(v, headDim, kvHeads, g);
      FlattenCut(q, qSize, kvHeads);
      FlattenCut(k, headDim, kvHeads);
      FlattenCut(v, headDim, kvHeads);
      BlockOf(Interleave(Cut(q, qSize), Cut(k, headDim), Cut(v, headDim)), qSize + 2 * headDim, g);
    }
  }

  /** Block g of the rows, counting in blocks of the size. */
  ghost predicate BlockIs<T>(rows: seq<T>, size: nat, g: nat, block: seq<T>) {
    g * size + size <= |rows| && rows[g * size..g * size + size] == block
  }

  lemma BlockOf<T>(blocks: seq<seq<T>>, size: nat, g: nat)
    requires size > 0 && Uniform(blocks, size) && g < |blocks|
    ensures BlockIs(Flatten(blocks), size, g, blocks[g])
  {
    CutFlatten(blocks, size);
    FlattenLength(blocks, size);
    CutAt(Flatten(blocks), size, |blocks|, g);
  }

  // ----- the merger -----

  function SplitGroup<T>(chunk: seq<T>, qSize: nat, kvSize: nat): Option<Group<T>> {
    if |chunk| == qSize + 2 * kvSize
    then Some(Group(chunk[..qSize], chunk[qSize..qSize + kvSize], chunk[qSize + kvSize..]))
    else None
  }

  /** Takes the chunks apart in order; None if one does not have the size split expects. */
  function SplitAll<T>(chunks: seq<seq<T>>, qSize: nat, kvSize: nat): (r: Option<seq<Group<T>>>)
    ensures r.Some? ==> |r.value| == |chunks|
  {
    if chunks == [] then Some([])
    else
      var n := |chunks| - 1;
      match (SplitAll(chunks[..n], qSize, kvSize), SplitGroup(chunks[n], qSize, kvSize))
      case (Some(gs), Some(g)) => Some(gs + [g])
      case _ => None
  }

  function SplitShards<T>(shards: seq<seq<T>>, perShard: nat, qSize: nat, kvSize: nat): Option<seq<Group<T>>>
    requires perShard > 0
  {
    if shards == [] then Some([])
    else
      var n := |shards| - 1;
      match (SplitShards(shards[..n], perShard, qSize, kvSize), SplitAll(Chunk(shards[n], perShard), qSize, kvSize))
      case (Some(gs), Some(more)) => Some(gs + more)
      case _ => None
  }

  function Qs<T>(gs: seq<Group<T>>): (r: seq<seq<T>>)
    ensures |r| == |gs| && forall g :: 0 <= g < |r| ==> r[g] == gs[g].q
  {
    seq(|gs|, g requires 0 <= g < |gs| => gs[g].q)
  }

  function Ks<T>(gs: seq<Group<T>>): (r: seq<seq<T>>)
    ensures |r| == |gs| && forall g :: 0 <= g < |r| ==> r[g] == gs[g].k
  {
    seq(|gs|, g requires 0 <= g < |gs| => gs[g].k)
  }

  function Vs<T>(gs: seq<Group<T>>): (r: seq<seq<T>>)
    ensures |r| == |gs| && forall g :: 0 <= g < |r| ==> r[g] == gs[g].v
  {
    seq(|gs|, g requires 0 <= g < |gs| => gs[g].v)
  }

  function Joined<T>(gs: seq<Group<T>>): Group<T> {
    Group(Flatten(Qs(gs)), Flatten(Ks(gs)), Flatten(Vs(gs)))
  }

  /** The sizes that the merger derives from the first shard; None where one of its assertions or torch's fails. */
  function Sizes<T>(shards: seq<seq<T>>, heads: nat, kvHeads: nat): Option<(nat, nat, nat)>
    requires kvHeads > 0 && |shards| > 0
  {
    var qPerKv, perShard := heads / kvHeads, kvHeads / |shards|;
    if heads % kvHeads != 0 || |shards[0]| % (qPerKv + 2) != 0 || perShard == 0 then None
    else
      var kvRows: nat := |shards[0]| / (qPerKv + 2);
      var qRows: nat := kvRows * qPerKv;
      Some((perShard, qRows / perShard, kvRows / perShard))
  }

  function Merged<T>(shards: seq<seq<T>>, heads: nat, kvHeads: nat): Option<Group<T>>
    requires kvHeads > 0 && |shards| > 0
  {
    match Sizes(shards, heads, kvHeads)
    case None => None
    case Some((perShard, qSize, kvSize)) =>
      if perShard == 0 then None
      else
        match SplitShards(shards, perShard, qSize, kvSize)
        case None => None
        case Some(gs) => Some(Joined(gs))
  }

  lemma SplitAllStep<T>(chunks: seq<seq<T>>, n: nat, qSize: nat, kvSize: nat)
    requires n < |chunks|
    ensures SplitAll(chunks[..n + 1], qSize, kvSize)
            == match (SplitAll(chunks[..n], qSize, kvSize), SplitGroup(chunks[n], qSize, kvSize))
               case (Some(gs), Some(g)) => Some(gs + [g])
               case _ => None
  {
    assert chunks[..n + 1][..n] == chunks[..n];
  }

  lemma {:induction false} SplitAllFails<T>(chunks: seq<seq<T>>, n: nat, qSize: nat, kvSize: nat)
    requires n <= |chunks| && SplitAll(chunks[..n], qSize, kvSize).None?
    ensures SplitAll(chunks, qSize, kvSize).None?
  {
    if n < |chunks| {
      SplitAllFails(chunks[..|chunks| - 1], n, qSize, kvSize) by { assert chunks[..|chunks| - 1][..n] == chunks[..n]; }
    } else {
      assert chunks[..n] == chunks;
    }
  }

  lemma SplitShardsStep<T>(shards: seq<seq<T>>, n: nat, perShard: nat, qSize: nat, kvSize: nat)
    requires n < |shards| && perShard > 0
    ensures SplitShards(shards[..n + 1], perShard, qSize, kvSize)
            == match (SplitShards(shards[..n], perShard, qSize, kvSize), SplitAll(Chunk(shards[n], perShard), qSize, kvSize))
               case (Some(gs), Some(more)) => Some(gs + more)
               case _ => None
  {
    assert shards[..n + 1][..n] == shards[..n];
  }

  lemma {:induction false} SplitShardsFails<T>(shards: seq<seq<T>>, n: nat, perShard: nat, qSize: nat, kvSize: nat)
    requires n <= |shards| && perShard > 0 && SplitShards(shards[..n], perShard, qSize, kvSize).None?
    ensures SplitShards(shards, perShard, qSize, kvSize).None?
  {
    if n < |shards| {
      assert shards[..|shards| - 1][..n] == shards[..n];
      SplitShardsFails(shards[..|shards| - 1], n, perShard, qSize, kvSize);
    } else {
      assert shards[..n] == shards;
    }
  }

  // ----- what the merger does with any shards -----

  /** The q, k and v rows of a chunk, one after the other. */
  ghost predicate IsSplit<T>(chunk: seq<T>, g: Group<T>, qSize: nat, kvSize: nat) {
    chunk == g.q + g.k + g.v && |g.q| == qSize && |g.k| == |g.v| == kvSize
  }

  lemma SplitGroupExact<T>(chunk: seq<T>, qSize: nat, kvSize: nat)
    ensures SplitGroup(chunk, qSize, kvSize).Some? <==> |chunk| == qSize + 2 * kvSize
    ensures SplitGroup(chunk, qSize, kvSize).Some? ==> IsSplit(chunk, SplitGroup(chunk, qSize, kvSize).value, qSize, kvSize)
  {
  }

  /** Splitting succeeds exactly if all chunks have the size expected, and then takes each apart in its place. */
  lemma {:induction false} SplitAllExact<T>(chunks: seq<seq<T>>, qSize: nat, kvSize: nat)
    ensures SplitAll(chunks, qSize, kvSize).Some? <==> Uniform(chunks, qSize + 2 * kvSize)
    ensures SplitAll(chunks, qSize, kvSize).Some? ==>
              forall c :: 0 <= c < |chunks| ==> IsSplit(chunks[c], SplitAll(chunks, qSize, kvSize).value[c], qSize, kvSize)
  {
    if chunks != [] {
      var n := |chunks| - 1;
      SplitAllExact(chunks[..n], qSize, kvSize);
      SplitGroupExact(chunks[n], qSize, kvSize);
      assert Uniform(chunks, qSize + 2 * kvSize) <==>
             Uniform(chunks[..n], qSize + 2 * kvSize) && |chunks[n]| == qSize + 2 * kvSize;
    }
  }

  /** The chunks of all shards, in order. */
  ghost function AllChunks<T>(shards: seq<seq<T>>, perShard: nat): seq<seq<T>>
    requires perShard > 0
  {
    Flatten(seq(|shards|, s requires 0 <= s < |shards| => Chunk(shards[s], perShard)))
  }

  lemma AllChunksStep<T>(shards: seq<seq<T>>, perShard: nat)
    requires perShard > 0 && |shards| > 0
    ensures var n := |shards| - 1;
            AllChunks(shards, perShard) == AllChunks(shards[..n], perShard) + Chunk(shards[n], perShard)
  {
    var n := |shards| - 1;
    var parts := seq(|shards|, s requires 0 <= s < |shards| => Chunk(shards[s], perShard));
    assert parts[..n] == seq(n, s requires 0 <= s < n => Chunk(shards[..n][s], perShard));
  }

  lemma {:induction false} ShardsAreChunks<T>(shards: seq<seq<T>>, perShard: nat, qSize: nat, kvSize: nat)
    requires perShard > 0
    ensures SplitShards(shards, perShard, qSize, kvSize) == SplitAll(AllChunks(shards, perShard), qSize, kvSize)
  {
    if shards != [] {
      var n := |shards| - 1;
      var a, b := AllChunks(shards[..n], perShard), Chunk(shards[n], perShard);
      AllChunksStep(shards, perShard);
      ShardsAreChunks(shards[..n], perShard, qSize, kvSize);
      SplitAllExact(a, qSize, kvSize);
      SplitAllExact(b, qSize, kvSize);
      SplitAllExact(a + b, qSize, kvSize);
      UniformJoin(a, b, qSize + 2 * kvSize);
      if SplitAll(a + b, qSize, kvSize).Some? {
        SplitAllAppend(a, b, qSize, kvSize);
      }
    }
  }

  lemma MergedSplits<T>(shards: seq<seq<T>>, heads: nat, kvHeads: nat, perShard: nat, qSize: nat, kvSize: nat)
    requires kvHeads > 0 && |shards| > 0 && perShard > 0
    requires Sizes(shards, heads, kvHeads) == Some((perShard, qSize, kvSize))
    ensures Merged(shards, heads, kvHeads) ==
            match SplitAll(AllChunks(shards, perShard), qSize, kvSize)
            case None => None
            case Some(gs) => Some(Joined(gs))
  {
    ShardsAreChunks(shards, perShard, qSize, kvSize);
  }

  lemma UniformJoin<T>(a: seq<seq<T>>, b: seq<seq<T>>, size: nat)
    ensures Uniform(a + b, size) <==> Uniform(a, size) && Uniform(b, size)
  {
    assert forall i :: 0 <= i < |a| ==> (a + b)[i] == a[i];
    assert forall i :: 0 <= i < |b| ==> (a + b)[|a| + i] == b[i];
  }

  lemma SizesAre<T>(shards: seq<seq<T>>, heads: nat, kvHeads: nat, qPerKv: nat, perShard: nat, kvRows: nat)
    requires kvHeads > 0 && |shards| > 0
    requires qPerKv == heads / kvHeads && perShard == kvHeads / |shards| && kvRows == |shards[0]| / (qPerKv + 2)
    ensures Sizes(shards, heads, kvHeads)
            == if heads % kvHeads == 0 && |shards[0]| % (qPerKv + 2) == 0 && perShard > 0
               then Some((perShard, kvRows * qPerKv / perShard, kvRows / perShard))
               else None
  {
  }

  /**
   * The merger succeeds exactly if the heads divide evenly, the first shard
   * into parts of the group, every shard gets a group and every chunk of every
   * shard has the size derived from the first shard. Each chunk is then a q, a
   * k and a v part, and the results are the parts of each kind in order.
   */
  lemma MergedExact<T>(shards: seq<seq<T>>, heads: nat, kvHeads: nat, qPerKv: nat, perShard: nat, kvRows: nat, qSize: nat,
                       kvSize: nat)
    returns (qs: seq<seq<T>>, ks: seq<seq<T>>, vs: seq<seq<T>>)
    requires kvHeads > 0 && |shards| > 0
    requires qPerKv == heads / kvHeads && perShard == kvHeads / |shards| && kvRows == |shards[0]| / (qPerKv + 2)
    requires perShard > 0 ==> qSize == kvRows * qPerKv / perShard && kvSize == kvRows / perShard
    ensures Merged(shards, heads, kvHeads).Some? <==>
              && heads % kvHeads == 0 && |shards[0]| % (qPerKv + 2) == 0 && perShard > 0
              && Uniform(AllChunks(shards, perShard), qSize + 2 * kvSize)
    ensures Merged(shards, heads, kvHeads).Some? ==>
              && Merged(shards, heads, kvHeads).value == Group(Flatten(qs), Flatten(ks), Flatten(vs))
              && |qs| == |ks| == |vs| == |AllChunks(shards, perShard)|
              && forall c :: 0 <= c < |qs| ==>
                   IsSplit(AllChunks(shards, perShard)[c], Group(qs[c], ks[c], vs[c]), qSize, kvSize)
  {
    qs, ks, vs := [], [], [];
    SizesAre(shards, heads, kvHeads, qPerKv, perShard, kvRows);
    if Sizes(shards, heads, kvHeads).Some? {
      MergedSplits(shards, heads, kvHeads, perShard, qSize, kvSize);
      SplitAllExact(AllChunks(shards, perShard), qSize, kvSize);
      var split := SplitAll(AllChunks(shards, perShard), qSize, kvSize);
      if split.Some? {
        qs, ks, vs := Qs(split.value), Ks(split.value), Vs(split.value);
      }
    }
  }

  /** Splits the chunks of one shard and appends the parts to the three lists. */
  method AppendChunks<T>(chunks: seq<seq<T>>, qSize: nat, kvSize: nat, qs: seq<seq<T>>, ks: seq<seq<T>>, vs: seq<seq<T>>,
                         ghost before: seq<Group<T>>)
    returns (r: Option<(seq<seq<T>>, seq<seq<T>>, seq<seq<T>>)>)
    requires qs == Qs(before) && ks == Ks(before) && vs == Vs(before)
    ensures match SplitAll(chunks, qSize, kvSize)
            case None => r == None
            case Some(gs) => r == Some((Qs(before + gs), Ks(before + gs), Vs(before + gs)))
  {
    var qList, kList, vList := qs, ks, vs;
    ghost var gs: seq<Group<T>> := [];
    for c := 0 to |chunks|
      invariant SplitAll(chunks[..c], qSize, kvSize) == Some(gs)
      invariant qList == Qs(before + gs) && kList == Ks(before + gs) && vList == Vs(before + gs)
    {
      SplitAllStep(chunks, c, qSize, kvSize);
      var chunk := chunks[c];
      if |chunk| != qSize + 2 * kvSize {
        SplitAllFails(chunks, c + 1, qSize, kvSize);
        return None;
      }
      qList := qList + [chunk[..qSize]];
      kList := kList + [chunk[qSize..qSize + kvSize]];
      vList := vList + [chunk[qSize + kvSize..]];
      gs := gs + [SplitGroup(chunk, qSize, kvSize).value];
    }
    assert chunks[..|chunks|] == chunks;
    r := Some((qList, kList, vList));
  }

  /** The merger: every shard is chunked by query group, every chunk split in three, and each kind concatenated. */
  method MergeQkvAcrossTp<T>(shards: seq<seq<T>>, heads: nat, kvHeads: nat) returns (r: Option<Group<T>>)
    requires kvHeads > 0 && |shards| > 0
    ensures r == Merged(shards, heads, kvHeads)
  {
    var sizes := Sizes(shards, heads, kvHeads);
    if sizes.None? || sizes.value.0 == 0 {
      return None;
    }
    var (perShard, qSize, kvSize) := sizes.value;
    var qs: seq<seq<T>>, ks: seq<seq<T>>, vs: seq<seq<T>> := [], [], [];
    ghost var gs: seq<Group<T>> := [];
    for s := 0 to |shards|
      invariant SplitShards(shards[..s], perShard, qSize, kvSize) == Some(gs)
      invariant qs == Qs(gs) && ks == Ks(gs) && vs == Vs(gs)
    {
      SplitShardsStep(shards, s, perShard, qSize, kvSize);
      var appended := AppendChunks(Chunk(shards[s], perShard), qSize, kvSize, qs, ks, vs, gs);
      if appended.None? {
        SplitShardsFails(shards, s + 1, perShard, qSize, kvSize);
        return None;
      }
      qs, ks, vs := appended.value.0, appended.value.1, appended.value.2;
      gs := gs + SplitAll(Chunk(shards[s], perShard), qSize, kvSize).value;
    }
    assert shards[..|shards|] == shards;
    r := Some(Group(Flatten(qs), Flatten(ks), Flatten(vs)));
  }

  // ----- the round trip -----

  /** Groups of one size, laid end to end, are taken apart again. */
  lemma {:induction false} SplitUndoesJoin<T>(gs: seq<Group<T>>, qSize: nat, kvSize: nat)
    requires forall g :: 0 <= g < |gs| ==> |gs[g].q| == qSize && |gs[g].k| == kvSize && |gs[g].v| == kvSize
    ensures SplitAll(Interleave(Qs(gs), Ks(gs), Vs(gs)), qSize, kvSize) == Some(gs)
  {
    if gs != [] {
      var n := |gs| - 1;
      var all := Interleave(Qs(gs), Ks(gs), Vs(gs));
      SplitUndoesJoin(gs[..n], qSize, kvSize);
      assert all[..n] == Interleave(Qs(gs[..n]), Ks(gs[..n]), Vs(gs[..n]));
      assert all[n][..qSize] == gs[n].q && all[n][qSize..qSize + kvSize] == gs[n].k && all[n][qSize + kvSize..] == gs[n].v;
      assert SplitGroup(all[n], qSize, kvSize) == Some(gs[n]);
      assert gs == gs[..n] + [gs[n]];
    }
  }

  lemma {:induction false} SplitAllAppend<T>(a: seq<seq<T>>, b: seq<seq<T>>, qSize: nat, kvSize: nat)
    requires SplitAll(a + b, qSize, kvSize).Some?
    ensures SplitAll(a, qSize, kvSize).Some? && SplitAll(b, qSize, kvSize).Some?
    ensures SplitAll(a + b, qSize, kvSize).value == SplitAll(a, qSize, kvSize).value + SplitAll(b, qSize, kvSize).value
  {
    if b == [] {
      assert a + b == a;
    } else {
      assert (a + b)[..|a + b| - 1] == a + b[..|b| - 1];
      SplitAllAppend(a, b[..|b| - 1], qSize, kvSize);
    }
  }

  lemma {:induction false} ShardsSplit<T>(shares: seq<seq<seq<T>>>, perShard: nat, size: nat, qSize: nat, kvSize: nat)
    requires perShard > 0 && size > 0
    requires forall s :: 0 <= s < |shares| ==> |shares[s]| == perShard && Uniform(shares[s], size)
    requires SplitAll(Flatten(shares), qSize, kvSize).Some?
    ensures SplitShards(Ends(shares), perShard, qSize, kvSize) == SplitAll(Flatten(shares), qSize, kvSize)
  {
    if shares != [] {
      var n := |shares| - 1;
      SplitAllAppend(Flatten(shares[..n]), shares[n], qSize, kvSize);
      ShardsSplit(shares[..n], perShard, size, qSize, kvSize);
      assert Ends(shares)[..n] == Ends(shares[..n]);
      FlattenLength(shares[n], size);
      ChunkIsCut(Flatten(shares[n]), perShard, size);
      CutFlatten(shares[n], size);
    }
  }

  /** The sizes that the merger derives are those the converter used. */
  lemma SizesAgree<T>(shards: seq<seq<T>>, heads: nat, kvHeads: nat, headDim: nat, qPerKv: nat, perShard: nat)
    requires |shards| > 0 && perShard > 0 && headDim > 0
    requires kvHeads == |shards| * perShard && kvHeads > 0 && heads == kvHeads * qPerKv
    requires |shards[0]| == perShard * (headDim * qPerKv + 2 * headDim)
    ensures Sizes(shards, heads, kvHeads) == Some((perShard, headDim * qPerKv, headDim))
  {
    Quotient(kvHeads, qPerKv, 0);
    Quotient(|shards|, perShard, 0);
    var kvRows := perShard * headDim;
    assert |shards[0]| == (qPerKv + 2) * kvRows by {
      assert perShard * (headDim * qPerKv + 2 * headDim) == perShard * (headDim * (qPerKv + 2));
      assert perShard * (headDim * (qPerKv + 2)) == perShard * headDim * (qPerKv + 2);
    }
    Quotient(qPerKv + 2, kvRows, 0);
    assert kvRows * qPerKv == perShard * (headDim * qPerKv);
    Quotient(perShard, headDim * qPerKv, 0);
    Quotient(perShard, headDim, 0);
  }

  /** Equal shards of the fused rows hold whole blocks, in order. */
  lemma ShardsHoldBlocks<T>(blocks: seq<seq<T>>, size: nat, tp: nat, perShard: nat) returns (shares: seq<seq<seq<T>>>)
    requires size > 0 && tp > 0 && perShard > 0 && |blocks| == tp * perShard && Uniform(blocks, size)
    ensures |shares| == tp && Flatten(shares) == blocks
    ensures forall s :: 0 <= s < |shares| ==> |shares[s]| == perShard && Uniform(shares[s], size)
    ensures Chunk(Flatten(blocks), tp) == Ends(shares) && Uniform(Ends(shares), perShard * size)
  {
    shares := Cut(blocks, perShard);
    FlattenCut(blocks, perShard, tp);
    forall s, i | 0 <= s < |shares| && 0 <= i < |shares[s]| ensures |shares[s][i]| == size {
      PartOf(shares, s, i);
    }
    forall s | 0 <= s < |shares| ensures |Ends(shares)[s]| == perShard * size {
      FlattenLength(shares[s], size);
    }
    FlattenEnds(shares);
    FlattenLength(Ends(shares), perShard * size);
    assert perShard * size > 0;
    ChunkIsCut(Flatten(blocks), tp, perShard * size);
    CutFlatten(Ends(shares), perShard * size);
  }

  /** Merging equal shards of fused groups gives the groups' rows. */
  lemma GroupsRoundTrip<T>(gs: seq<Group<T>>, heads: nat, qPerKv: nat, headDim: nat, tp: nat, perShard: nat)
    requires qPerKv > 0 && headDim > 0 && tp > 0 && perShard > 0 && |gs| == tp * perShard && |gs| > 0
    requires heads == |gs| * qPerKv
    requires forall g :: 0 <= g < |gs| ==> |gs[g].q| == headDim * qPerKv && |gs[g].k| == headDim && |gs[g].v| == headDim
    ensures Merged(Chunk(Flatten(Interleave(Qs(gs), Ks(gs), Vs(gs))), tp), heads, |gs|) == Some(Joined(gs))
  {
    var qSize := headDim * qPerKv;
    var blocks, size := Interleave(Qs(gs), Ks(gs), Vs(gs)), qSize + 2 * headDim;
    var shares := ShardsHoldBlocks(blocks, size, tp, perShard);
    SplitUndoesJoin(gs, qSize, headDim);
    ShardsSplit(shares, perShard, size, qSize, headDim);
    SizesAgree(Ends(shares), heads, |gs|, headDim, qPerKv, perShard);
  }

  function Zip<T>(qs: seq<seq<T>>, ks: seq<seq<T>>, vs: seq<seq<T>>): (r: seq<Group<T>>)
    requires |qs| == |ks| == |vs|
    ensures |r| == |qs| && Qs(r) == qs && Ks(r) == ks && Vs(r) == vs
    ensures forall g :: 0 <= g < |r| ==> r[g] == Group(qs[g], ks[g], vs[g])
  {
    seq(|qs|, g requires 0 <= g < |qs| => Group(qs[g], ks[g], vs[g]))
  }

  lemma HeadsDivide(heads: nat, kvHeads: nat, headDim: nat) returns (qPerKv: nat)
    requires kvHeads > 0 && heads % kvHeads == 0 && heads > 0
    ensures qPerKv > 0 && heads == kvHeads * qPerKv && headDim * heads / kvHeads == headDim * qPerKv
    ensures kvHeads * (headDim * qPerKv) == headDim * heads
  {
    qPerKv := Exact(heads, kvHeads);
    assert headDim * heads == kvHeads * (headDim * qPerKv);
    Quotient(kvHeads, headDim * qPerKv, 0);
  }

  /**
   * Interleaving q, k and v by query group, cutting the rows into tp equal
   * shards and merging the shards gives q, k and v back, whenever the
   * key-value heads divide the heads and the shards divide the key-value heads.
   */
  lemma QkvRoundTrip<T>(q: seq<T>, k: seq<T>, v: seq<T>, heads: nat, kvHeads: nat, headDim: nat, tp: nat)
    requires heads > 0 && headDim > 0 && tp > 0 && kvHeads > 0 && heads % kvHeads == 0 && kvHeads % tp == 0
    requires |q| == headDim * heads && |k| == |v| == kvHeads * headDim
    ensures var fused := Fuse(q, k, v, heads, kvHeads, headDim);
            fused.Some? && Merged(Chunk(fused.value, tp), heads, kvHeads) == Some(Group(q, k, v))
  {
    var qPerKv := HeadsDivide(heads, kvHeads, headDim);
    var perShard := Exact(kvHeads, tp);
    var qSize := headDim * qPerKv;
    FlattenCut(q, qSize, kvHeads);
    FlattenCut(k, headDim, kvHeads);
    FlattenCut(v, headDim, kvHeads);
    var gs := Zip(Cut(q, qSize), Cut(k, headDim), Cut(v, headDim));
    GroupsRoundTrip(gs, heads, qPerKv, headDim, tp, perShard);
  }
}
