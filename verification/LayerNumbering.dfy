/** Global layer numbers for the layers that pipeline stages number from zero. */
module LayerNumbering {
  import opened Common

  /** The local layer numbers of a stage's keys, in the order the keys come; several keys belong to one layer. */
  type Stage = seq<nat>

  function MaxOf(xs: seq<nat>): (r: nat) {
    if xs == [] then 0
    else
      var m := MaxOf(xs[..|xs| - 1]);
      if xs[|xs| - 1] > m then xs[|xs| - 1] else m
  }

  /** What the stages before the n-th add: each its largest number plus one, even if it has no layer. */
  function Offset(stages: seq<Stage>, n: nat): nat
    requires n <= |stages|
  {
    if n == 0 then 0 else Offset(stages, n - 1) + MaxOf(stages[n - 1]) + 1
  }

  function Shifted(stage: Stage, offset: nat): (r: seq<nat>)
    ensures |r| == |stage| && forall k :: 0 <= k < |r| ==> r[k] == stage[k] + offset
  {
    seq(|stage|, k requires 0 <= k < |stage| => stage[k] + offset)
  }

  /** The global numbers, stage by stage. */
  ghost predicate IsNumbered(stages: seq<Stage>, global: seq<seq<nat>>) {
    |global| == |stages| && forall s :: 0 <= s < |global| ==> NumberedAt(stages, global, s)
  }

  ghost predicate NumberedAt(stages: seq<Stage>, global: seq<seq<nat>>, s: nat)
    requires s < |global| == |stages|
  {
    global[s] == Shifted(stages[s], Offset(stages, s))
  }

  ghost predicate Rectangular(model: seq<seq<Stage>>, vppSize: nat) {
    forall p :: 0 <= p < |model| ==> |model[p]| == vppSize
  }

  /** The stages in visiting order: virtual chunk by virtual chunk, and within one rank by rank. */
  ghost function Visited(model: seq<seq<Stage>>, vppSize: nat, v: nat, p: nat): (r: seq<Stage>)
    requires Rectangular(model, vppSize) && p <= |model| && (v < vppSize || (v == vppSize && p == 0))
    decreases v, p
  {
    if p > 0 then Visited(model, vppSize, v, p - 1) + [model[p - 1][v]]
    else if v > 0 then Visited(model, vppSize, v - 1, |model|)
    else []
  }

  lemma {:induction false} VisitedSize(model: seq<seq<Stage>>, vppSize: nat, v: nat, p: nat)
    requires Rectangular(model, vppSize) && p <= |model| && (v < vppSize || (v == vppSize && p == 0))
    ensures |Visited(model, vppSize, v, p)| == v * |model| + p
    decreases v, p
  {
    if p > 0 {
      VisitedSize(model, vppSize, v, p - 1);
    } else if v > 0 {
      VisitedSize(model, vppSize, v - 1, |model|);
      assert v * |model| == (v - 1) * |model| + |model|;
    }
  }

  lemma {:induction false} VisitedGrows(model: seq<seq<Stage>>, vppSize: nat, v: nat, p: nat, v': nat, p': nat)
    requires Rectangular(model, vppSize) && p <= |model| && v < vppSize
    requires p' <= |model| && (v' < vppSize || (v' == vppSize && p' == 0)) && (v < v' || (v == v' && p <= p'))
    ensures Visited(model, vppSize, v, p) <= Visited(model, vppSize, v', p')
    decreases v', p'
  {
    if p' > 0 && (v < v' || p < p') {
      VisitedGrows(model, vppSize, v, p, v', p' - 1);
    } else if p' == 0 && v < v' {
      VisitedGrows(model, vppSize, v, p, v' - 1, |model|);
    }
  }

  /** The place of the stage of rank p and virtual chunk v: all ranks of the chunks before it come first, then the ranks below p. */
  lemma VisitedAt(model: seq<seq<Stage>>, vppSize: nat, v: nat, p: nat)
    requires Rectangular(model, vppSize) && p < |model| && v < vppSize
    ensures var stages := Visited(model, vppSize, vppSize, 0);
            |stages| == vppSize * |model| && v * |model| + p < |stages| && stages[v * |model| + p] == model[p][v]
  {
    VisitedSize(model, vppSize, vppSize, 0);
    VisitedSize(model, vppSize, v, p);
    VisitedGrows(model, vppSize, v, p + 1, vppSize, 0);
  }

  /** Numbers the keys of one stage; handled is the largest local number. */
  method NumberStage(stage: Stage, layersCum: nat) returns (numbers: seq<nat>, handled: nat)
    ensures numbers == Shifted(stage, layersCum) && handled == MaxOf(stage)
  {
    numbers, handled := [], 0;
    for k := 0 to |stage|
      invariant handled == MaxOf(stage[..k]) && numbers == Shifted(stage[..k], layersCum)
    {
      assert stage[..k + 1][..k] == stage[..k];
      handled := if stage[k] > handled then stage[k] else handled;
      numbers := numbers + [stage[k] + layersCum];
    }
    assert stage[..|stage|] == stage;
  }

  lemma OneMoreStage(stages: seq<Stage>, stage: Stage, global: seq<seq<nat>>)
    requires IsNumbered(stages, global)
    ensures IsNumbered(stages + [stage], global + [Shifted(stage, Offset(stages, |stages|))])
    ensures Offset(stages + [stage], |stages| + 1) == Offset(stages, |stages|) + MaxOf(stage) + 1
  {
    var stages', global' := stages + [stage], global + [Shifted(stage, Offset(stages, |stages|))];
    OffsetPrefix(stages, stage, |stages|);
    forall s | 0 <= s < |global'| ensures NumberedAt(stages', global', s) {
      OffsetPrefix(stages, stage, s);
      assert s < |stages| ==> NumberedAt(stages, global, s);
    }
  }

  lemma {:induction false} OffsetPrefix(stages: seq<Stage>, stage: Stage, s: nat)
    requires s <= |stages|
    ensures Offset(stages + [stage], s) == Offset(stages, s)
  {
    if s > 0 {
      OffsetPrefix(stages, stage, s - 1);
    }
  }

  /** The nested accumulation over virtual chunks and pipeline ranks. */
  method NumberLayers(model: seq<seq<Stage>>, vppSize: nat) returns (global: seq<seq<nat>>)
    requires Rectangular(model, vppSize)
    ensures IsNumbered(Visited(model, vppSize, vppSize, 0), global)
  {
    global := [];
    var layersCum := 0;
    ghost var stages: seq<Stage> := [];
    for v := 0 to vppSize
      invariant stages == Visited(model, vppSize, v, 0)
      invariant IsNumbered(stages, global) && layersCum == Offset(stages, |stages|)
    {
      for p := 0 to |model|
        invariant stages == Visited(model, vppSize, v, p)
        invariant IsNumbered(stages, global) && layersCum == Offset(stages, |stages|)
      {
        var numbers, handled := NumberStage(model[p][v], layersCum);
        OneMoreStage(stages, model[p][v], global);
        global := global + [numbers];
        stages := stages + [model[p][v]];
        layersCum := layersCum + handled + 1;
      }
    }
  }

  // ----- what the numbers are -----

  /** The stage's keys belong to layers 0..k-1, all of them. */
  ghost predicate HasLayers(stage: Stage, k: nat) {
    forall x: nat :: x in stage <==> x < k
  }

  ghost predicate AllHaveLayers(stages: seq<Stage>, ks: seq<nat>) {
    |ks| == |stages| && forall s :: 0 <= s < |ks| ==> HasLayers(stages[s], ks[s])
  }

  function Sum(ks: seq<nat>, n: nat): nat
    requires n <= |ks|
  {
    if n == 0 then 0 else Sum(ks, n - 1) + ks[n - 1]
  }

  /** Stage s gives the number g to a layer of its own. */
  ghost predicate Gives(global: seq<seq<nat>>, s: nat, g: nat) {
    s < |global| && g in global[s]
  }

  ghost predicate Given(global: seq<seq<nat>>, g: nat) {
    exists s: nat :: Gives(global, s, g)
  }

  /** The layers' numbers are exactly 0..total-1. */
  ghost predicate Contiguous(global: seq<seq<nat>>, total: nat) {
    forall g: nat :: Given(global, g) <==> g < total
  }

  /** A stage without layers comes before one with layers. */
  ghost predicate GapBefore(ks: seq<nat>, s: nat) {
    s < |ks| && ks[s] > 0 && exists t :: 0 <= t < s && ks[t] == 0
  }

  lemma {:induction false} MaxBounds(xs: seq<nat>)
    ensures forall x :: x in xs ==> x <= MaxOf(xs)
    ensures xs != [] ==> MaxOf(xs) in xs
  {
    if xs != [] {
      MaxBounds(xs[..|xs| - 1]);
      assert xs == xs[..|xs| - 1] + [xs[|xs| - 1]];
    }
  }

  /** A stage with k layers adds k, and an empty one adds 1. */
  lemma StageAdds(stage: Stage, k: nat)
    requires HasLayers(stage, k)
    ensures MaxOf(stage) + 1 == if k == 0 then 1 else k
  {
    MaxBounds(stage);
    if k > 0 {
      assert k - 1 in stage;
      assert MaxOf(stage) in stage;
    }
  }

  /** The offset exceeds the number of layers before it by the number of empty stages before it. */
  lemma {:induction false} OffsetIsSum(stages: seq<Stage>, ks: seq<nat>, n: nat)
    requires AllHaveLayers(stages, ks) && n <= |ks|
    ensures Offset(stages, n) >= Sum(ks, n)
    ensures Offset(stages, n) == Sum(ks, n) <==> forall t :: 0 <= t < n ==> ks[t] > 0
  {
    if n > 0 {
      OffsetIsSum(stages, ks, n - 1);
      StageAdds(stages[n - 1], ks[n - 1]);
    }
  }

  lemma {:induction false} SumMonotone(ks: seq<nat>, m: nat, n: nat)
    requires m <= n <= |ks|
    ensures Sum(ks, m) <= Sum(ks, n)
  {
    if m < n {
      SumMonotone(ks, m, n - 1);
    }
  }

  lemma {:induction false} OffsetMonotone(stages: seq<Stage>, ks: seq<nat>, m: nat, n: nat)
    requires AllHaveLayers(stages, ks) && m < n <= |ks|
    ensures Offset(stages, m) + ks[m] <= Offset(stages, n)
  {
    StageAdds(stages[n - 1], ks[n - 1]);
    if m < n - 1 {
      OffsetMonotone(stages, ks, m, n - 1);
    }
  }

  lemma GivesIff(stages: seq<Stage>, ks: seq<nat>, global: seq<seq<nat>>, s: nat, g: nat)
    requires AllHaveLayers(stages, ks) && IsNumbered(stages, global) && s < |ks|
    ensures Gives(global, s, g) <==> Offset(stages, s) <= g < Offset(stages, s) + ks[s]
  {
    var o := Offset(stages, s);
    assert NumberedAt(stages, global, s);
    if k :| 0 <= k < |global[s]| && global[s][k] == g {
      assert stages[s][k] in stages[s];
    }
    if o <= g < o + ks[s] {
      assert g - o in stages[s];
      var k :| 0 <= k < |stages[s]| && stages[s][k] == g - o;
      assert global[s][k] == g;
    }
  }

  /** No two stages share a number, and stage order is kept, whether or not there are empty stages. */
  lemma NumbersOrdered(stages: seq<Stage>, ks: seq<nat>, global: seq<seq<nat>>, s: nat, t: nat, g: nat, h: nat)
    requires AllHaveLayers(stages, ks) && IsNumbered(stages, global)
    requires s < t && Gives(global, s, g) && Gives(global, t, h)
    ensures g < h
  {
    GivesIff(stages, ks, global, s, g);
    GivesIff(stages, ks, global, t, h);
    OffsetMonotone(stages, ks, s, t);
  }

  /** The stages before place n without layers. */
  ghost function Empties(ks: seq<nat>, n: nat): set<nat>
    requires n <= |ks|
  {
    set t: nat | t < n && ks[t] == 0
  }

  lemma {:induction false} OffsetExact(stages: seq<Stage>, ks: seq<nat>, n: nat)
    requires AllHaveLayers(stages, ks) && n <= |ks|
    ensures Offset(stages, n) == Sum(ks, n) + |Empties(ks, n)|
  {
    if n > 0 {
      OffsetExact(stages, ks, n - 1);
      StageAdds(stages[n - 1], ks[n - 1]);
      assert Empties(ks, n) == Empties(ks, n - 1) + if ks[n - 1] == 0 then {n - 1} else {};
    } else {
      assert Empties(ks, n) == {};
    }
  }

  /** A key of local layer x gets x more than there are layers, and stages without layers, in the stages before. */
  lemma NumberExact(stages: seq<Stage>, ks: seq<nat>, global: seq<seq<nat>>, s: nat, k: nat)
    requires AllHaveLayers(stages, ks) && IsNumbered(stages, global) && s < |ks| && k < |stages[s]|
    ensures |global| == |stages| && |global[s]| == |stages[s]|
    ensures global[s][k] == stages[s][k] + Sum(ks, s) + |Empties(ks, s)|
  {
    assert NumberedAt(stages, global, s);
    OffsetExact(stages, ks, s);
  }

  /** Stages are visited chunk by chunk, and within a chunk by ascending rank. */
  ghost predicate Before(v: nat, p: nat, v': nat, p': nat) {
    v < v' || (v == v' && p < p')
  }

  lemma PlacesOrdered(n: nat, v: nat, p: nat, v': nat, p': nat)
    requires p < n && p' < n && Before(v, p, v', p')
    ensures v * n + p < v' * n + p'
  {
    if v < v' {
      assert v' * n == v * n + (v' - v) * n;
      assert (v' - v) * n >= n by { AtLeastOnce(v' - v, n); }
    }
  }

  lemma AtLeastOnce(a: nat, n: nat)
    requires a >= 1
    ensures a * n >= n
  {
    assert a * n == (a - 1) * n + n;
  }

  /** Stage (v, p) of the model gives the number g. */
  ghost predicate GivesAt(model: seq<seq<Stage>>, global: seq<seq<nat>>, v: nat, p: nat, g: nat) {
    p < |model| && Gives(global, v * |model| + p, g)
  }

  /** Every number of a stage is below every number of a stage of a later chunk, or of a higher rank in the same chunk. */
  lemma ChunksThenRanks(model: seq<seq<Stage>>, vppSize: nat, ks: seq<nat>, global: seq<seq<nat>>,
                        v: nat, p: nat, v': nat, p': nat, g: nat, h: nat)
    requires Rectangular(model, vppSize) && v < vppSize && v' < vppSize
    requires var stages := Visited(model, vppSize, vppSize, 0); AllHaveLayers(stages, ks) && IsNumbered(stages, global)
    requires GivesAt(model, global, v, p, g) && GivesAt(model, global, v', p', h) && Before(v, p, v', p')
    ensures g < h
    ensures exists k :: 0 <= k < |model[p][v]| && g == model[p][v][k] + Offset(Visited(model, vppSize, vppSize, 0), v * |model| + p)
  {
    var stages := Visited(model, vppSize, vppSize, 0);
    PlacesOrdered(|model|, v, p, v', p');
    VisitedAt(model, vppSize, v, p);
    NumbersOrdered(stages, ks, global, v * |model| + p, v' * |model| + p', g, h);
    var s := v * |model| + p;
    assert NumberedAt(stages, global, s);
    var k :| 0 <= k < |global[s]| && global[s][k] == g;
    assert g == model[p][v][k] + Offset(stages, s);
  }

  lemma {:induction false} StageOfNumber(ks: seq<nat>, n: nat, g: nat) returns (s: nat)
    requires n <= |ks| && g < Sum(ks, n)
    ensures s < n && Sum(ks, s) <= g < Sum(ks, s) + ks[s]
  {
    if g < Sum(ks, n - 1) {
      s := StageOfNumber(ks, n - 1, g);
    } else {
      s := n - 1;
    }
  }

  /** Without a gap, every number below the total is given, and no other. */
  lemma NoGapContiguous(stages: seq<Stage>, ks: seq<nat>, global: seq<seq<nat>>)
    requires AllHaveLayers(stages, ks) && IsNumbered(stages, global)
    requires forall s :: 0 <= s < |ks| ==> !GapBefore(ks, s)
    ensures Contiguous(global, Sum(ks, |ks|))
  {
    forall g: nat ensures Given(global, g) <==> g < Sum(ks, |ks|) {
      if g < Sum(ks, |ks|) {
        var s := StageOfNumber(ks, |ks|, g);
        NoGapGives(stages, ks, global, s, g);
      }
      if s: nat :| Gives(global, s, g) {
        NoGapGives(stages, ks, global, s, g);
        SumMonotone(ks, s + 1, |ks|);
      }
    }
  }

  lemma NoGapGives(stages: seq<Stage>, ks: seq<nat>, global: seq<seq<nat>>, s: nat, g: nat)
    requires AllHaveLayers(stages, ks) && IsNumbered(stages, global) && s < |ks| && !GapBefore(ks, s)
    ensures Gives(global, s, g) <==> Sum(ks, s) <= g < Sum(ks, s) + ks[s]
  {
    GivesIff(stages, ks, global, s, g);
    OffsetIsSum(stages, ks, s);
  }

  /** The last stage with layers. */
  lemma {:induction false} LastWithLayers(ks: seq<nat>, n: nat, s: nat) returns (last: nat)
    requires s < n <= |ks| && ks[s] > 0
    ensures s <= last < n && ks[last] > 0 && Sum(ks, n) == Sum(ks, last + 1)
  {
    if ks[n - 1] > 0 {
      last := n - 1;
    } else {
      last := LastWithLayers(ks, n - 1, s);
    }
  }

  /** An empty stage before one with layers pushes a number past the total. */
  lemma GapBreaks(stages: seq<Stage>, ks: seq<nat>, global: seq<seq<nat>>, s: nat)
    requires AllHaveLayers(stages, ks) && IsNumbered(stages, global) && GapBefore(ks, s)
    ensures !Contiguous(global, Sum(ks, |ks|))
  {
    var last := LastWithLayers(ks, |ks|, s);
    OffsetIsSum(stages, ks, last);
    var top := Offset(stages, last) + ks[last] - 1;
    GivesIff(stages, ks, global, last, top);
    assert Gives(global, last, top);
    assert Given(global, top) && top >= Sum(ks, |ks|);
  }

  /** The numbers are exactly 0..L-1 if and only if no stage without layers comes before one with layers. */
  lemma ContiguousIff(stages: seq<Stage>, ks: seq<nat>, global: seq<seq<nat>>)
    requires AllHaveLayers(stages, ks) && IsNumbered(stages, global)
    ensures Contiguous(global, Sum(ks, |ks|)) <==> forall s :: 0 <= s < |ks| ==> !GapBefore(ks, s)
  {
    if forall s :: 0 <= s < |ks| ==> !GapBefore(ks, s) {
      NoGapContiguous(stages, ks, global);
    } else {
      var s :| 0 <= s < |ks| && GapBefore(ks, s);
      GapBreaks(stages, ks, global, s);
    }
  }

  /** For example, with an empty stage before one of a single layer, that layer gets number 1 and none gets 0. */
  lemma EmptyStageLeavesGap()
    ensures var stages: seq<Stage>, ks: seq<nat>, global: seq<seq<nat>> := [[], [0]], [0, 1], [[], [1]];
            AllHaveLayers(stages, ks) && IsNumbered(stages, global) && GapBefore(ks, 1) && !Contiguous(global, Sum(ks, |ks|))
  {
    var stages: seq<Stage>, ks: seq<nat>, global: seq<seq<nat>> := [[], [0]], [0, 1], [[], [1]];
    assert MaxOf([]) == 0;
    assert Offset(stages, 1) == 1;
    assert NumberedAt(stages, global, 0) && NumberedAt(stages, global, 1);
    assert ks[0] == 0 && GapBefore(ks, 1);
    ContiguousIff(stages, ks, global);
  }
}
