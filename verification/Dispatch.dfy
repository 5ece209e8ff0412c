/** Dispatching rollout groups to workers, and putting their outputs together again. */
module Dispatch {
  import opened Common

  datatype DispatchError = NoWorkers

  // ----- groups -----

  /** lo, lo + 1, ..., hi - 1. */
  function Range(lo: nat, hi: nat): (r: seq<nat>)
    requires lo <= hi
    ensures |r| == hi - lo && forall k :: 0 <= k < |r| ==> r[k] == lo + k
  {
    seq(hi - lo, k requires 0 <= k => lo + k)
  }

  lemma RangeJoin(a: nat, b: nat, c: nat)
    requires a <= b <= c
    ensures Range(a, b) + Range(b, c) == Range(a, c)
  {
  }

  /** Row r begins a group: its index differs from the one before. */
  ghost predicate Begins<I>(indices: seq<I>, r: nat) {
    0 < r < |indices| && indices[r] != indices[r - 1]
  }

  ghost predicate Rising(bounds: seq<nat>, g: nat)
    requires 0 < g < |bounds|
  {
    bounds[g - 1] < bounds[g]
  }

  /** 0, the rows that begin a group, and the number of rows; for no rows at all, one group without rows. */
  ghost predicate IsBoundaries<I>(indices: seq<I>, bounds: seq<nat>) {
    if indices == [] then bounds == [0, 0]
    else
      && |bounds| >= 2 && bounds[0] == 0 && bounds[|bounds| - 1] == |indices|
      && (forall g :: 0 < g < |bounds| - 1 ==> Begins(indices, bounds[g]))
      && (forall r :: Begins(indices, r) ==> r in bounds)
      && (forall g :: 0 < g < |bounds| ==> Rising(bounds, g))
  }

  method GroupBoundaries<I(==)>(indices: seq<I>) returns (bounds: seq<nat>)
    ensures IsBoundaries(indices, bounds)
  {
    var n := |indices|;
    bounds := [0];
    if n > 1 {
      for r := 1 to n
        invariant |bounds| >= 1 && bounds[0] == 0 && bounds[|bounds| - 1] < r
        invariant forall g :: 0 < g < |bounds| ==> Begins(indices, bounds[g])
        invariant forall i :: 0 <= i < r && Begins(indices, i) ==> i in bounds
        invariant forall g :: 0 < g < |bounds| ==> Rising(bounds, g)
      {
        if indices[r] != indices[r - 1] {
          Rises(bounds, r);
          bounds := bounds + [r];
        }
      }
    }
    if n > 0 {
      Rises(bounds, n);
    }
    bounds := bounds + [n];
  }

  lemma Rises(bounds: seq<nat>, r: nat)
    requires |bounds| >= 1 && bounds[|bounds| - 1] < r && forall g :: 0 < g < |bounds| ==> Rising(bounds, g)
    ensures forall g :: 0 < g < |bounds| + 1 ==> Rising(bounds + [r], g)
  {
    forall g | 0 < g < |bounds| + 1 ensures Rising(bounds + [r], g) {
      assert g < |bounds| ==> Rising(bounds, g);
    }
  }

  // ----- sharing groups out -----

  /** numpy.array_split of n items into parts: the first n mod parts get one more. */
  function PartStart(n: nat, parts: nat, w: nat): nat
    requires parts > 0
  {
    w * (n / parts) + if w < n % parts then w else n % parts
  }

  lemma PartSizes(n: nat, parts: nat, w: nat)
    requires 0 < parts && w < parts
    ensures PartStart(n, parts, w + 1) - PartStart(n, parts, w) == n / parts + if w < n % parts then 1 else 0
    ensures PartStart(n, parts, 0) == 0 && PartStart(n, parts, parts) == n
  {
    assert (w + 1) * (n / parts) == w * (n / parts) + n / parts;
    assert parts * (n / parts) + n % parts == n;
  }

  lemma {:induction false} PartOrder(n: nat, parts: nat, v: nat, w: nat)
    requires 0 < parts && v <= w <= parts
    ensures PartStart(n, parts, v) <= PartStart(n, parts, w) <= n
    decreases parts - v
  {
    if v < w {
      PartSizes(n, parts, v);
      PartOrder(n, parts, v + 1, w);
    } else if w < parts {
      PartSizes(n, parts, w);
      PartOrder(n, parts, w + 1, parts);
    } else {
      PartSizes(n, parts, 0);
    }
  }

  lemma {:induction false} BoundsOrder<I>(indices: seq<I>, bounds: seq<nat>, g: nat, h: nat)
    requires IsBoundaries(indices, bounds) && g <= h < |bounds|
    ensures bounds[g] <= bounds[h] <= |indices|
    ensures indices != [] && g < h ==> bounds[g] < bounds[h]
    decreases |bounds| - g
  {
    if g < h {
      BoundsOrder(indices, bounds, g + 1, h);
      assert indices != [] ==> Rising(bounds, g + 1);
    } else if g < |bounds| - 1 {
      BoundsOrder(indices, bounds, g + 1, |bounds| - 1);
      assert indices != [] ==> Rising(bounds, g + 1);
    }
  }

  /** The rows of groups g up to h, one group after the other. */
  function GroupRows<I>(indices: seq<I>, bounds: seq<nat>, g: nat, h: nat): seq<nat>
    requires IsBoundaries(indices, bounds) && g <= h < |bounds|
  {
    if g == h then []
    else
      BoundsOrder(indices, bounds, h - 1, h);
      GroupRows(indices, bounds, g, h - 1) + Range(bounds[h - 1], bounds[h])
  }

  lemma {:induction false} GroupRowsRange<I>(indices: seq<I>, bounds: seq<nat>, g: nat, h: nat)
    requires IsBoundaries(indices, bounds) && g <= h < |bounds|
    ensures bounds[g] <= bounds[h] && GroupRows(indices, bounds, g, h) == Range(bounds[g], bounds[h])
  {
    BoundsOrder(indices, bounds, g, h);
    if g < h {
      GroupRowsRange(indices, bounds, g, h - 1);
      BoundsOrder(indices, bounds, h - 1, h);
      RangeJoin(bounds[g], bounds[h - 1], bounds[h]);
    }
  }

  function Used(groups: nat, workers: nat): nat {
    if groups < workers then groups else workers
  }

  /** The rows for each worker in use. */
  function IndexChunks<I>(indices: seq<I>, bounds: seq<nat>, workers: nat): (r: seq<seq<nat>>)
    requires IsBoundaries(indices, bounds) && workers > 0
    ensures |r| == Used(|bounds| - 1, workers)
  {
    var groups := |bounds| - 1;
    var parts := Used(groups, workers);
    seq(parts, w requires 0 <= w < parts =>
      PartOrder(groups, parts, w, w + 1);
      GroupRows(indices, bounds, PartStart(groups, parts, w), PartStart(groups, parts, w + 1)))
  }

  /** Where worker w's rows begin. */
  function RowStart<I>(indices: seq<I>, bounds: seq<nat>, workers: nat, w: nat): nat
    requires IsBoundaries(indices, bounds) && workers > 0 && w <= Used(|bounds| - 1, workers)
  {
    PartOrder(|bounds| - 1, Used(|bounds| - 1, workers), w, w);
    bounds[PartStart(|bounds| - 1, Used(|bounds| - 1, workers), w)]
  }

  lemma ChunkIsRange<I>(indices: seq<I>, bounds: seq<nat>, workers: nat, w: nat)
    requires IsBoundaries(indices, bounds) && workers > 0 && w < Used(|bounds| - 1, workers)
    ensures var lo, hi := RowStart(indices, bounds, workers, w), RowStart(indices, bounds, workers, w + 1);
            && lo <= hi <= |indices| && (indices != [] ==> lo < hi)
            && IndexChunks(indices, bounds, workers)[w] == Range(lo, hi)
  {
    var groups, parts := |bounds| - 1, Used(|bounds| - 1, workers);
    var g, h := PartStart(groups, parts, w), PartStart(groups, parts, w + 1);
    PartOrder(groups, parts, w, w + 1);
    PartSizes(groups, parts, w);
    GroupRowsRange(indices, bounds, g, h);
    BoundsOrder(indices, bounds, g, h);
    assert groups / parts >= 1 by {
      assert parts <= groups;
    }
  }

  /** The first w chunks end to end are the rows before the w-th. */
  lemma {:induction false} ChunksJoin<I>(indices: seq<I>, bounds: seq<nat>, workers: nat, w: nat)
    requires IsBoundaries(indices, bounds) && workers > 0 && w <= Used(|bounds| - 1, workers)
    ensures Flatten(IndexChunks(indices, bounds, workers)[..w]) == Range(0, RowStart(indices, bounds, workers, w))
  {
    PartSizes(|bounds| - 1, Used(|bounds| - 1, workers), 0);
    if w > 0 {
      ChunksJoin(indices, bounds, workers, w - 1);
      ChunkIsRange(indices, bounds, workers, w - 1);
      RangeJoin(0, RowStart(indices, bounds, workers, w - 1), RowStart(indices, bounds, workers, w));
      FlattenStep(IndexChunks(indices, bounds, workers), w - 1);
    }
  }

  /** Every row goes to exactly one worker, in order: the chunks concatenate to 0..n-1. */
  lemma ChunksCover<I>(indices: seq<I>, bounds: seq<nat>, workers: nat)
    requires IsBoundaries(indices, bounds) && workers > 0
    ensures Flatten(IndexChunks(indices, bounds, workers)) == Range(0, |indices|)
  {
    var chunks, parts := IndexChunks(indices, bounds, workers), Used(|bounds| - 1, workers);
    ChunksJoin(indices, bounds, workers, parts);
    assert chunks[..parts] == chunks;
    PartSizes(|bounds| - 1, parts, 0);
  }

  /** The worker that row r goes to. */
  lemma {:induction false} WorkerOf<I>(indices: seq<I>, bounds: seq<nat>, workers: nat, w: nat, r: nat) returns (at: nat)
    requires IsBoundaries(indices, bounds) && workers > 0 && w <= Used(|bounds| - 1, workers)
    requires r < RowStart(indices, bounds, workers, w)
    ensures at < w && RowStart(indices, bounds, workers, at) <= r < RowStart(indices, bounds, workers, at + 1)
  {
    PartSizes(|bounds| - 1, Used(|bounds| - 1, workers), 0);
    if r < RowStart(indices, bounds, workers, w - 1) {
      at := WorkerOf(indices, bounds, workers, w - 1, r);
    } else {
      at := w - 1;
    }
  }

  /** No run of equal prompt indices is split: neighbours with one index go to one worker. */
  lemma GroupsStayTogether<I>(indices: seq<I>, bounds: seq<nat>, workers: nat, r: nat) returns (w: nat)
    requires IsBoundaries(indices, bounds) && workers > 0
    requires 0 < r < |indices| && indices[r] == indices[r - 1]
    ensures w < |IndexChunks(indices, bounds, workers)|
    ensures r - 1 in IndexChunks(indices, bounds, workers)[w] && r in IndexChunks(indices, bounds, workers)[w]
  {
    var groups, parts := |bounds| - 1, Used(|bounds| - 1, workers);
    PartSizes(groups, parts, 0);
    w := WorkerOf(indices, bounds, workers, parts, r);
    ChunkIsRange(indices, bounds, workers, w);
    var lo := RowStart(indices, bounds, workers, w);
    var g := PartStart(groups, parts, w);
    PartOrder(groups, parts, w, w + 1);
    PartSizes(groups, parts, w);
    assert g > 0 ==> Begins(indices, bounds[g]);
    assert lo < r;
    var chunk := IndexChunks(indices, bounds, workers)[w];
    assert chunk[r - lo] == r && chunk[r - 1 - lo] == r - 1;
  }

  /** Each worker in use gets at least one group, and their counts differ by at most one, the larger ones first. */
  lemma Balanced(groups: nat, workers: nat, v: nat, w: nat)
    requires groups > 0 && workers > 0 && v < Used(groups, workers) && w < Used(groups, workers)
    ensures var parts := Used(groups, workers);
            var a, b := PartStart(groups, parts, v + 1) - PartStart(groups, parts, v),
                        PartStart(groups, parts, w + 1) - PartStart(groups, parts, w);
            a >= 1 && b >= 1 && a - b <= 1 && b - a <= 1 && (v <= w ==> a >= b)
  {
    PartSizes(groups, Used(groups, workers), v);
    PartSizes(groups, Used(groups, workers), w);
    assert groups / Used(groups, workers) >= 1;
  }

  /** Rows that are the first of a group. */
  ghost function Groups<I>(indices: seq<I>, rows: seq<nat>): (n: nat) {
    if rows == [] then 0
    else
      var r := rows[|rows| - 1];
      Groups(indices, rows[..|rows| - 1]) + if r == 0 || Begins(indices, r) then 1 else 0
  }

  lemma {:induction false} GroupsJoin<I>(indices: seq<I>, a: seq<nat>, b: seq<nat>)
    ensures Groups(indices, a + b) == Groups(indices, a) + Groups(indices, b)
  {
    if b == [] {
      assert a + b == a;
    } else {
      assert (a + b)[..|a + b| - 1] == a + b[..|b| - 1];
      GroupsJoin(indices, a, b[..|b| - 1]);
    }
  }

  /** The rows from one boundary up to one no further than the next are one group. */
  lemma {:induction false} OneGroup<I>(indices: seq<I>, bounds: seq<nat>, g: nat, hi: nat)
    requires IsBoundaries(indices, bounds) && indices != [] && g + 1 < |bounds| && bounds[g] < hi <= bounds[g + 1]
    ensures Groups(indices, Range(bounds[g], hi)) == 1
  {
    var rows := Range(bounds[g], hi);
    assert rows[..|rows| - 1] == Range(bounds[g], hi - 1);
    if hi - 1 > bounds[g] {
      OneGroup(indices, bounds, g, hi - 1);
      InsideGroup(indices, bounds, g, hi - 1);
    } else {
      assert g > 0 ==> Begins(indices, bounds[g]);
    }
  }

  lemma InsideGroup<I>(indices: seq<I>, bounds: seq<nat>, g: nat, r: nat)
    requires IsBoundaries(indices, bounds) && indices != [] && g + 1 < |bounds| && bounds[g] < r < bounds[g + 1]
    ensures !Begins(indices, r)
  {
    if Begins(indices, r) {
      var h :| 0 <= h < |bounds| && bounds[h] == r;
      if h <= g {
        BoundsOrder(indices, bounds, h, g);
      } else {
        BoundsOrder(indices, bounds, g + 1, h);
      }
      assert false;
    }
  }

  /** A worker's rows are as many groups as it was given. */
  lemma {:induction false} GroupsOfRows<I>(indices: seq<I>, bounds: seq<nat>, g: nat, h: nat)
    requires IsBoundaries(indices, bounds) && indices != [] && g <= h < |bounds|
    ensures Groups(indices, GroupRows(indices, bounds, g, h)) == h - g
  {
    if g < h {
      GroupsOfRows(indices, bounds, g, h - 1);
      BoundsOrder(indices, bounds, h - 1, h);
      GroupsJoin(indices, GroupRows(indices, bounds, g, h - 1), Range(bounds[h - 1], bounds[h]));
      OneGroup(indices, bounds, h - 1, bounds[h]);
    }
  }

  lemma ChunkGroups<I>(indices: seq<I>, bounds: seq<nat>, workers: nat, w: nat)
    requires IsBoundaries(indices, bounds) && indices != [] && workers > 0 && w < Used(|bounds| - 1, workers)
    ensures var parts := Used(|bounds| - 1, workers);
            Groups(indices, IndexChunks(indices, bounds, workers)[w])
            == PartStart(|bounds| - 1, parts, w + 1) - PartStart(|bounds| - 1, parts, w)
  {
    var groups, parts := |bounds| - 1, Used(|bounds| - 1, workers);
    PartOrder(groups, parts, w, w + 1);
    GroupsOfRows(indices, bounds, PartStart(groups, parts, w), PartStart(groups, parts, w + 1));
  }

  /** Every chunk holds at least one group, no two differ by more than one, and the larger ones come first. */
  ghost predicate Even<I>(indices: seq<I>, chunks: seq<seq<nat>>) {
    forall v, w :: 0 <= v < |chunks| && 0 <= w < |chunks| ==>
      && Groups(indices, chunks[v]) >= 1 && Groups(indices, chunks[v]) <= Groups(indices, chunks[w]) + 1
      && (v <= w ==> Groups(indices, chunks[v]) >= Groups(indices, chunks[w]))
  }

  lemma ChunksEven<I>(indices: seq<I>, bounds: seq<nat>, workers: nat)
    requires IsBoundaries(indices, bounds) && indices != [] && workers > 0
    ensures Even(indices, IndexChunks(indices, bounds, workers))
    ensures |bounds| - 1 == Groups(indices, Range(0, |indices|))
  {
    var chunks := IndexChunks(indices, bounds, workers);
    forall v, w | 0 <= v < |chunks| && 0 <= w < |chunks|
      ensures Groups(indices, chunks[v]) >= 1 && Groups(indices, chunks[v]) <= Groups(indices, chunks[w]) + 1
      ensures v <= w ==> Groups(indices, chunks[v]) >= Groups(indices, chunks[w])
    {
      ChunkGroups(indices, bounds, workers, v);
      ChunkGroups(indices, bounds, workers, w);
      Balanced(|bounds| - 1, workers, v, w);
    }
    GroupsOfRows(indices, bounds, 0, |bounds| - 1);
    GroupRowsRange(indices, bounds, 0, |bounds| - 1);
  }

  /** The dispatch fails only for want of workers: a batch without rows is dispatched, as one group without rows. */
  method Dispatch<I(==)>(indices: seq<I>, workers: nat) returns (r: Result<seq<seq<nat>>, DispatchError>)
    ensures r.Err? <==> workers == 0
    ensures r.Ok? ==> Flatten(r.value) == Range(0, |indices|) && 1 <= |r.value| <= workers
    ensures r.Ok? && indices == [] ==> r.value == [[]]
    ensures r.Ok? && indices != [] ==>
              var groups := Groups(indices, Range(0, |indices|));
              |r.value| == (if groups < workers then groups else workers) && Even(indices, r.value)
    ensures r.Ok? ==> forall row :: 0 < row < |indices| && indices[row] == indices[row - 1] ==> Together(r.value, row)
  {
    var bounds := GroupBoundaries(indices);
    if workers == 0 {
      return Err(NoWorkers);
    }
    var chunks := IndexChunks(indices, bounds, workers);
    ChunksCover(indices, bounds, workers);
    if indices != [] {
      ChunksEven(indices, bounds, workers);
    }
    forall row | 0 < row < |indices| && indices[row] == indices[row - 1] ensures Together(chunks, row) {
      var w := GroupsStayTogether(indices, bounds, workers, row);
    }
    r := Ok(chunks);
  }

  ghost predicate Together(chunks: seq<seq<nat>>, row: nat) {
    exists w :: 0 <= w < |chunks| && row - 1 in chunks[w] && row in chunks[w]
  }
}
