/** Stacking the expert weights of mixture-of-experts layers, and unstacking them. */
module MoeStack {
  import opened Common

  /** A tensor as nested rows. */
  datatype Tensor = Scalar(bits: int) | Rows(rows: seq<Tensor>)

  datatype Proj = Gate | Up | Down

  /** The three forms of key: one expert's projection, a stacked projection, and every other. */
  datatype Key = Expert(layer: nat, expert: nat, proj: Proj) | Stacked(layer: nat, proj: Proj) | Other(name: string)

  type Dict = map<Key, Tensor>

  /** A missing key, tensors that torch cannot stack, and an index past the end. */
  datatype MoeError = MissingKey | CannotStack | BadIndex

  function Lookup(d: Dict, k: Key): Option<Tensor> {
    if k in d then Some(d[k]) else None
  }

  function Shape(t: Tensor): seq<nat> {
    match t
    case Scalar(_) => []
    case Rows(rows) => if rows == [] then [0] else [|rows|] + Shape(rows[0])
  }

  /** torch.stack wants at least one tensor, and all of one shape. */
  predicate CanStack(ts: seq<Tensor>) {
    ts != [] && forall i :: 0 <= i < |ts| ==> Shape(ts[i]) == Shape(ts[0])
  }

  /** The tensor has these dimensions throughout. */
  ghost predicate HasShape(t: Tensor, dims: seq<nat>)
    decreases |dims|
  {
    if dims == [] then t.Scalar?
    else t.Rows? && |t.rows| == dims[0] > 0 && forall r :: r in t.rows ==> HasShape(r, dims[1..])
  }

  lemma {:induction false} ShapeExact(t: Tensor, dims: seq<nat>)
    requires HasShape(t, dims)
    ensures Shape(t) == dims
    decreases |dims|
  {
    if dims != [] {
      ShapeExact(t.rows[0], dims[1..]);
    }
  }

  /** Tensors can be stacked exactly if there is one and their dimensions agree. */
  lemma StackIff(ts: seq<Tensor>, dims: seq<seq<nat>>)
    requires |dims| == |ts| && forall i :: 0 <= i < |ts| ==> HasShape(ts[i], dims[i])
    ensures CanStack(ts) <==> ts != [] && forall i :: 0 <= i < |dims| ==> dims[i] == dims[0]
  {
    forall i | 0 <= i < |ts| ensures Shape(ts[i]) == dims[i] {
      ShapeExact(ts[i], dims[i]);
    }
  }

  const PROJS: seq<Proj> := [Gate, Up, Down]

  function Index(p: Proj): nat {
    match p
    case Gate => 0
    case Up => 1
    case Down => 2
  }

  /** The projections handled from layer start on, before the p-th of layer i. */
  predicate Before(l: nat, q: Proj, start: nat, i: nat, p: nat) {
    start <= l && (l < i || (l == i && Index(q) < p))
  }

  // ----- merging -----

  ghost predicate HasExperts(d: Dict, l: nat, q: Proj, n: nat) {
    forall j :: 0 <= j < n ==> Expert(l, j, q) in d
  }

  function Experts(d: Dict, l: nat, q: Proj, n: nat): (r: seq<Tensor>)
    requires HasExperts(d, l, q, n)
    ensures |r| == n && forall j :: 0 <= j < n ==> r[j] == d[Expert(l, j, q)]
  {
    seq(n, j requires 0 <= j < n => d[Expert(l, j, q)])
  }

  ghost predicate Mergeable(d: Dict, l: nat, q: Proj, n: nat) {
    HasExperts(d, l, q, n) && CanStack(Experts(d, l, q, n))
  }

  /** What key k holds once the projections before (i, p) are stacked. */
  ghost function MergedAt(d: Dict, k: Key, start: nat, i: nat, p: nat, n: nat): Option<Tensor> {
    match k
    case Other(_) => Lookup(d, k)
    case Expert(l, j, q) => if j < n && Before(l, q, start, i, p) then None else Lookup(d, k)
    case Stacked(l, q) =>
      if Before(l, q, start, i, p) && HasExperts(d, l, q, n) then Some(Rows(Experts(d, l, q, n))) else Lookup(d, k)
  }

  ghost predicate IsMerged(d: Dict, m: Dict, start: nat, i: nat, p: nat, n: nat) {
    && (forall k :: Lookup(m, k) == MergedAt(d, k, start, i, p, n))
    && (forall l, q :: Before(l, q, start, i, p) ==> Mergeable(d, l, q, n))
  }

  /** Pops the n experts of one projection. */
  method PopExperts(d: Dict, l: nat, q: Proj, n: nat) returns (r: Result<(Dict, seq<Tensor>), MoeError>)
    ensures r.Ok? <==> HasExperts(d, l, q, n)
    ensures r.Err? ==> r.error == MissingKey
    ensures r.Ok? ==> r.value.1 == Experts(d, l, q, n)
    ensures r.Ok? ==> forall k :: Lookup(r.value.0, k) ==
                        if k.Expert? && k.layer == l && k.proj == q && k.expert < n then None else Lookup(d, k)
  {
    var m := d;
    var list: seq<Tensor> := [];
    for j := 0 to n
      invariant HasExperts(d, l, q, j) && list == Experts(d, l, q, j)
      invariant forall k :: Lookup(m, k) ==
                  if k.Expert? && k.layer == l && k.proj == q && k.expert < j then None else Lookup(d, k)
    {
      var key := Expert(l, j, q);
      assert Lookup(m, key) == Lookup(d, key);
      if key !in m {
        return Err(MissingKey);
      }
      list := list + [m[key]];
      m := m - {key};
    }
    r := Ok((m, list));
  }

  lemma MergeStep(d: Dict, m: Dict, popped: Dict, m': Dict, start: nat, i: nat, p: nat, n: nat)
    requires start <= i && p < 3 && IsMerged(d, m, start, i, p, n) && Mergeable(d, i, PROJS[p], n)
    requires forall k :: Lookup(popped, k) ==
               if k.Expert? && k.layer == i && k.proj == PROJS[p] && k.expert < n then None else Lookup(m, k)
    requires m' == popped[Stacked(i, PROJS[p]) := Rows(Experts(d, i, PROJS[p], n))]
    ensures IsMerged(d, m', start, i, p + 1, n)
  {
    forall k ensures Lookup(m', k) == MergedAt(d, k, start, i, p + 1, n) {
      assert Lookup(m, k) == MergedAt(d, k, start, i, p, n);
      assert Lookup(popped, k) == if k.Expert? && k.layer == i && k.proj == PROJS[p] && k.expert < n then None else Lookup(m, k);
    }
  }

  /** One projection's experts in m are still those of d. */
  lemma ExpertsUntouched(d: Dict, m: Dict, start: nat, i: nat, p: nat, n: nat)
    requires p < 3 && IsMerged(d, m, start, i, p, n)
    ensures HasExperts(m, i, PROJS[p], n) <==> HasExperts(d, i, PROJS[p], n)
    ensures HasExperts(m, i, PROJS[p], n) ==> Experts(m, i, PROJS[p], n) == Experts(d, i, PROJS[p], n)
  {
    forall j | 0 <= j < n ensures Lookup(m, Expert(i, j, PROJS[p])) == Lookup(d, Expert(i, j, PROJS[p])) {
    }
  }

  /** The first projection, in order, that cannot be stacked, and why. */
  ghost predicate FailsAt(d: Dict, start: nat, layers: nat, n: nat, l: nat, p: nat, error: MoeError) {
    && start <= l < layers && p < 3 && !Mergeable(d, l, PROJS[p], n)
    && (forall l', q' :: Before(l', q', start, l, p) ==> Mergeable(d, l', q', n))
    && error == if HasExperts(d, l, PROJS[p], n) then CannotStack else MissingKey
  }

  /** Stacks one projection of one layer. */
  method MergeProj(d: Dict, m: Dict, start: nat, i: nat, p: nat, n: nat) returns (r: Result<Dict, MoeError>)
    requires start <= i && p < 3 && IsMerged(d, m, start, i, p, n)
    ensures r.Ok? ==> IsMerged(d, r.value, start, i, p + 1, n)
    ensures r.Err? ==> FailsAt(d, start, i + 1, n, i, p, r.error)
  {
    ExpertsUntouched(d, m, start, i, p, n);
    var popped := PopExperts(m, i, PROJS[p], n);
    if popped.Err? {
      return Err(MissingKey);
    }
    var list := popped.value.1;
    if !CanStack(list) {
      return Err(CannotStack);
    }
    var m' := popped.value.0[Stacked(i, PROJS[p]) := Rows(list)];
    MergeStep(d, m, popped.value.0, m', start, i, p, n);
    r := Ok(m');
  }

  lemma NextLayer(d: Dict, m: Dict, start: nat, i: nat, n: nat)
    requires start <= i
    ensures IsMerged(d, m, start, i, 3, n) <==> IsMerged(d, m, start, i + 1, 0, n)
  {
    forall l, q ensures Before(l, q, start, i, 3) <==> Before(l, q, start, i + 1, 0) {
    }
    forall k ensures MergedAt(d, k, start, i, 3, n) == MergedAt(d, k, start, i + 1, 0, n) {
    }
  }

  /** Stacks the experts of the layers from start on; the dictionary changes as it goes. */
  method MergeExperts(d: Dict, start: nat, layers: nat, n: nat) returns (r: Result<Dict, MoeError>)
    ensures r.Ok? ==> IsMerged(d, r.value, start, layers, 0, n)
    ensures r.Err? ==> exists l: nat, p: nat :: FailsAt(d, start, layers, n, l, p, r.error)
  {
    var m := d;
    var i := start;
    while i < layers
      invariant if start <= layers then start <= i <= layers else i == start
      invariant IsMerged(d, m, start, i, 0, n)
    {
      for p := 0 to 3
        invariant IsMerged(d, m, start, i, p, n)
      {
        var stacked := MergeProj(d, m, start, i, p, n);
        if stacked.Err? {
          assert FailsAt(d, start, layers, n, i, p, stacked.error);
          return Err(stacked.error);
        }
        m := stacked.value;
      }
      NextLayer(d, m, start, i, n);
      i := i + 1;
    }
    r := Ok(m);
    if i > layers {
      NothingBefore(d, m, start, i, layers, n);
    }
  }

  /** When the dense layers are all there is, nothing changes. */
  lemma NothingBefore(d: Dict, m: Dict, start: nat, i: nat, layers: nat, n: nat)
    requires i == start > layers && IsMerged(d, m, start, i, 0, n)
    ensures IsMerged(d, m, start, layers, 0, n)
  {
    forall k ensures MergedAt(d, k, start, i, 0, n) == MergedAt(d, k, start, layers, 0, n) {
    }
  }

  /** The stack in m has one row per expert of d, in order, and the experts' own keys are gone. */
  ghost predicate Stacks(d: Dict, m: Dict, l: nat, q: Proj, n: nat) {
    && Stacked(l, q) in m && m[Stacked(l, q)].Rows? && |m[Stacked(l, q)].rows| == n > 0
    && forall j :: 0 <= j < n ==>
         && Expert(l, j, q) in d && Expert(l, j, q) !in m
         && m[Stacked(l, q)].rows[j] == d[Expert(l, j, q)]
  }

  /** The keys that belong to the first n experts of the layers from start on. */
  ghost predicate Concerned(k: Key, start: nat, layers: nat, n: nat) {
    match k
    case Other(_) => false
    case Stacked(l, _) => start <= l < layers
    case Expert(l, j, _) => start <= l < layers && j < n
  }

  /** What a merged dictionary holds: a stack for every projection of these layers, and every other key as before. */
  lemma MergedExact(d: Dict, m: Dict, start: nat, layers: nat, n: nat)
    requires IsMerged(d, m, start, layers, 0, n)
    ensures forall l, q :: start <= l < layers ==> Stacks(d, m, l, q, n)
    ensures forall k :: !Concerned(k, start, layers, n) ==> Lookup(m, k) == Lookup(d, k)
  {
    forall l, q | start <= l < layers ensures Stacks(d, m, l, q, n) {
      assert Before(l, q, start, layers, 0);
      assert Mergeable(d, l, q, n);
      assert Lookup(m, Stacked(l, q)) == MergedAt(d, Stacked(l, q), start, layers, 0, n);
      forall j | 0 <= j < n ensures Expert(l, j, q) !in m {
        assert Lookup(m, Expert(l, j, q)) == MergedAt(d, Expert(l, j, q), start, layers, 0, n);
      }
    }
    forall k | !Concerned(k, start, layers, n) ensures Lookup(m, k) == Lookup(d, k) {
      assert Lookup(m, k) == MergedAt(d, k, start, layers, 0, n);
    }
  }

  // ----- splitting -----

  predicate Splittable(m: Dict, l: nat, q: Proj, n: nat) {
    Stacked(l, q) in m ==> n == 0 || (m[Stacked(l, q)].Rows? && n <= |m[Stacked(l, q)].rows|)
  }

  /** What key k holds once the projections before (i, p) are unstacked. */
  ghost function SplitAt(m: Dict, k: Key, i: nat, p: nat, n: nat): Option<Tensor> {
    match k
    case Other(_) => Lookup(m, k)
    case Stacked(l, q) => if Before(l, q, 0, i, p) then None else Lookup(m, k)
    case Expert(l, j, q) =>
      if j < n && Before(l, q, 0, i, p) && Stacked(l, q) in m && Splittable(m, l, q, n)
      then Some(m[Stacked(l, q)].rows[j])
      else Lookup(m, k)
  }

  ghost predicate IsSplit(m: Dict, s: Dict, i: nat, p: nat, n: nat) {
    && (forall k :: Lookup(s, k) == SplitAt(m, k, i, p, n))
    && (forall l, q :: Before(l, q, 0, i, p) ==> Splittable(m, l, q, n))
  }

  /** Unstacks one projection of one layer, if it is there. */
  method SplitProj(m: Dict, s: Dict, i: nat, p: nat, n: nat) returns (r: Result<Dict, MoeError>)
    requires p < 3 && IsSplit(m, s, i, p, n)
    ensures r.Ok? ==> IsSplit(m, r.value, i, p + 1, n)
    ensures r.Err? ==> r.error == BadIndex && !Splittable(m, i, PROJS[p], n)
  {
    var key := Stacked(i, PROJS[p]);
    assert Lookup(s, key) == Lookup(m, key);
    if key !in s {
      SplitSkip(m, s, i, p, n);
      return Ok(s);
    }
    var stack := s[key];
    var t := s - {key};
    for j := 0 to n
      invariant j > 0 ==> stack.Rows? && j <= |stack.rows|
      invariant forall k :: Lookup(t, k) ==
                  if k == key then None
                  else if k.Expert? && k.layer == i && k.proj == PROJS[p] && k.expert < j then Some(stack.rows[k.expert])
                  else Lookup(s, k)
    {
      if !stack.Rows? || j >= |stack.rows| {
        return Err(BadIndex);
      }
      t := t[Expert(i, j, PROJS[p]) := stack.rows[j]];
    }
    r := Ok(t);
  }

  lemma SplitSkip(m: Dict, s: Dict, i: nat, p: nat, n: nat)
    requires p < 3 && IsSplit(m, s, i, p, n) && Stacked(i, PROJS[p]) !in m
    ensures IsSplit(m, s, i, p + 1, n)
  {
  }

  lemma NextSplit(m: Dict, s: Dict, i: nat, n: nat)
    ensures IsSplit(m, s, i, 3, n) <==> IsSplit(m, s, i + 1, 0, n)
  {
    forall l, q ensures Before(l, q, 0, i, 3) <==> Before(l, q, 0, i + 1, 0) {
    }
    forall k ensures SplitAt(m, k, i, 3, n) == SplitAt(m, k, i + 1, 0, n) {
    }
  }

  /** Unstacks every layer's projections. */
  method SplitExperts(m: Dict, layers: nat, n: nat) returns (r: Result<Dict, MoeError>)
    ensures r.Ok? ==> IsSplit(m, r.value, layers, 0, n)
    ensures r.Err? ==> r.error == BadIndex && exists l: nat, q :: l < layers && !Splittable(m, l, q, n)
  {
    var s := m;
    for i := 0 to layers
      invariant IsSplit(m, s, i, 0, n)
    {
      for p := 0 to 3
        invariant IsSplit(m, s, i, p, n)
      {
        var split := SplitProj(m, s, i, p, n);
        if split.Err? {
          return Err(split.error);
        }
        s := split.value;
      }
      NextSplit(m, s, i, n);
    }
    r := Ok(s);
  }

  /** Expert j in s is row j of the stack in m, and the stack is gone. */
  ghost predicate Unstacks(m: Dict, s: Dict, l: nat, q: Proj, n: nat) {
    && Stacked(l, q) in m && Stacked(l, q) !in s
    && forall j :: 0 <= j < n ==>
         && m[Stacked(l, q)].Rows? && j < |m[Stacked(l, q)].rows|
         && Expert(l, j, q) in s && s[Expert(l, j, q)] == m[Stacked(l, q)].rows[j]
  }

  /** What a split dictionary holds: the rows of every stack of these layers, and every other key as before. */
  lemma SplitExact(m: Dict, s: Dict, layers: nat, n: nat)
    requires IsSplit(m, s, layers, 0, n)
    ensures forall l: nat, q :: l < layers && Stacked(l, q) in m ==> Unstacks(m, s, l, q, n)
    ensures forall l: nat, j: nat, q :: Stacked(l, q) !in m ==> Lookup(s, Expert(l, j, q)) == Lookup(m, Expert(l, j, q))
    ensures forall k :: !Concerned(k, 0, layers, n) ==> Lookup(s, k) == Lookup(m, k)
  {
    forall l: nat, q | l < layers && Stacked(l, q) in m ensures Unstacks(m, s, l, q, n) {
      assert Before(l, q, 0, layers, 0);
      assert Splittable(m, l, q, n);
      assert Lookup(s, Stacked(l, q)) == SplitAt(m, Stacked(l, q), layers, 0, n);
      forall j | 0 <= j < n ensures Lookup(s, Expert(l, j, q)) == Some(m[Stacked(l, q)].rows[j]) {
        assert Lookup(s, Expert(l, j, q)) == SplitAt(m, Expert(l, j, q), layers, 0, n);
      }
    }
    forall l: nat, j: nat, q | Stacked(l, q) !in m ensures Lookup(s, Expert(l, j, q)) == Lookup(m, Expert(l, j, q)) {
      assert Lookup(s, Expert(l, j, q)) == SplitAt(m, Expert(l, j, q), layers, 0, n);
    }
    forall k | !Concerned(k, 0, layers, n) ensures Lookup(s, k) == Lookup(m, k) {
      assert Lookup(s, k) == SplitAt(m, k, layers, 0, n);
    }
  }

  // ----- splitting undoes merging -----

  /** A layer below the given number already has a stacked projection. */
  ghost predicate HasStacked(d: Dict, layers: nat) {
    exists l: nat, q :: l < layers && Stacked(l, q) in d
  }

  /** After a merge of a dictionary without stacked keys, every layer can be split. */
  lemma MergedSplittable(d: Dict, m: Dict, start: nat, layers: nat, n: nat, l: nat, q: Proj)
    requires IsMerged(d, m, start, layers, 0, n) && !HasStacked(d, layers) && l < layers
    ensures Splittable(m, l, q, n)
  {
    assert Lookup(m, Stacked(l, q)) == MergedAt(d, Stacked(l, q), start, layers, 0, n);
  }

  lemma RoundTripAt(d: Dict, m: Dict, s: Dict, start: nat, layers: nat, n: nat, k: Key)
    requires IsMerged(d, m, start, layers, 0, n) && IsSplit(m, s, layers, 0, n) && !HasStacked(d, layers)
    ensures Lookup(s, k) == Lookup(d, k)
  {
    assert Lookup(m, k) == MergedAt(d, k, start, layers, 0, n);
    assert Lookup(s, k) == SplitAt(m, k, layers, 0, n);
    match k
    case Other(_) =>
    case Stacked(l, q) =>
      assert l < layers ==> Stacked(l, q) !in d;
    case Expert(l, j, q) =>
      assert Lookup(m, Stacked(l, q)) == MergedAt(d, Stacked(l, q), start, layers, 0, n);
      if l < layers {
        MergedSplittable(d, m, start, layers, n, l, q);
        assert Stacked(l, q) !in d;
        if start <= l {
          assert Mergeable(d, l, q, n);
        }
      }
  }

  /**
   * Splitting what was merged, with the same number of experts, gives back
   * exactly the original dictionary if and only if none of its layers had a
   * stacked projection to begin with.
   */
  lemma SplitUndoesMerge(d: Dict, m: Dict, s: Dict, start: nat, layers: nat, n: nat)
    requires IsMerged(d, m, start, layers, 0, n) && IsSplit(m, s, layers, 0, n)
    ensures s == d <==> !HasStacked(d, layers)
  {
    if HasStacked(d, layers) {
      var l: nat, q :| l < layers && Stacked(l, q) in d;
      assert Lookup(s, Stacked(l, q)) == SplitAt(m, Stacked(l, q), layers, 0, n);
    } else {
      forall k ensures Lookup(s, k) == Lookup(d, k) {
        RoundTripAt(d, m, s, start, layers, n, k);
      }
      SameLookups(s, d);
    }
  }

  lemma SameLookups(a: Dict, b: Dict)
    requires forall k :: Lookup(a, k) == Lookup(b, k)
    ensures a == b
  {
    forall k ensures k in a <==> k in b {
      assert Lookup(a, k) == Lookup(b, k);
    }
    forall k | k in a ensures a[k] == b[k] {
      assert Lookup(a, k) == Lookup(b, k);
    }
  }

  /** Both programs in turn. */
  method MergeThenSplit(d: Dict, start: nat, layers: nat, n: nat) returns (r: Result<Dict, MoeError>)
    requires forall l, q :: start <= l < layers ==> Mergeable(d, l, q, n)
    ensures r == Ok(d) <==> !HasStacked(d, layers)
  {
    var merged := MergeExperts(d, start, layers, n);
    assert merged.Ok?;
    r := SplitExperts(merged.value, layers, n);
    if r.Ok? {
      SplitUndoesMerge(d, merged.value, r.value, start, layers, n);
    } else if !HasStacked(d, layers) {
      forall l: nat, q | l < layers ensures Splittable(merged.value, l, q, n) {
        MergedSplittable(d, merged.value, start, layers, n, l, q);
      }
    }
  }
}
