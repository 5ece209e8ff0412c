/** Batches of rows: padding, slicing, concatenation, repetition and unfolding. */
module RowAlgebra {
  import opened Blocks
  import opened Common

  type Cols<T> = map<string, seq<T>>

  /** A batch of rows: tensor columns and other columns, all of one height. */
  datatype Proto<T> = Proto(rows: nat, tensors: Cols<T>, others: Cols<T>)

  ghost predicate Height<T>(c: Cols<T>, n: nat) {
    forall k :: k in c ==> |c[k]| == n
  }

  ghost predicate Valid<T>(p: Proto<T>) {
    Height(p.tensors, p.rows) && Height(p.others, p.rows)
  }

  predicate SameKeys<T>(p: Proto<T>, q: Proto<T>) {
    p.tensors.Keys == q.tensors.Keys && p.others.Keys == q.others.Keys
  }

  // ----- slicing and concatenating -----

  function SliceCols<T>(c: Cols<T>, a: nat, b: nat): (r: Cols<T>)
    requires a <= b && forall k :: k in c ==> b <= |c[k]|
    ensures r.Keys == c.Keys && forall k :: k in c ==> r[k] == c[k][a..b]
  {
    map k | k in c :: c[k][a..b]
  }

  function Slice<T>(p: Proto<T>, a: nat, b: nat): (r: Proto<T>)
    requires Valid(p) && a <= b <= p.rows
    ensures Valid(r) && r.rows == b - a && SameKeys(p, r)
  {
    Proto(b - a, SliceCols(p.tensors, a, b), SliceCols(p.others, a, b))
  }

  function AppendCols<T>(c: Cols<T>, d: Cols<T>): (r: Cols<T>)
    requires c.Keys == d.Keys
    ensures r.Keys == c.Keys && forall k :: k in c ==> r[k] == c[k] + d[k]
  {
    map k | k in c :: c[k] + d[k]
  }

  function Append<T>(p: Proto<T>, q: Proto<T>): (r: Proto<T>)
    requires SameKeys(p, q)
    ensures SameKeys(p, r) && (Valid(p) && Valid(q) ==> Valid(r))
  {
    Proto(p.rows + q.rows, AppendCols(p.tensors, q.tensors), AppendCols(p.others, q.others))
  }

  /** None for an empty list, and for batches whose columns differ. */
  function Concat<T>(ps: seq<Proto<T>>): Option<Proto<T>> {
    if ps == [] then None
    else if |ps| == 1 then Some(ps[0])
    else
      match Concat(ps[..|ps| - 1])
      case None => None
      case Some(p) => if SameKeys(p, ps[|ps| - 1]) then Some(Append(p, ps[|ps| - 1])) else None
  }

  lemma ConcatStep<T>(ps: seq<Proto<T>>, p: Proto<T>)
    requires ps != []
    ensures Concat(ps + [p]) == match Concat(ps)
                                case None => None
                                case Some(q) => if SameKeys(q, p) then Some(Append(q, p)) else None
  {
    assert (ps + [p])[..|ps|] == ps;
  }

  lemma SliceColsJoin<T>(c: Cols<T>, n: nat, a: nat, b: nat, e: nat)
    requires Height(c, n) && a <= b <= e <= n
    ensures AppendCols(SliceCols(c, a, b), SliceCols(c, b, e)) == SliceCols(c, a, e)
  {
    forall k | k in c ensures c[k][a..b] + c[k][b..e] == c[k][a..e] {
    }
  }

  lemma SliceJoin<T>(p: Proto<T>, a: nat, b: nat, e: nat)
    requires Valid(p) && a <= b <= e <= p.rows
    ensures Append(Slice(p, a, b), Slice(p, b, e)) == Slice(p, a, e)
  {
    SliceColsJoin(p.tensors, p.rows, a, b, e);
    SliceColsJoin(p.others, p.rows, a, b, e);
  }

  lemma SliceColsAll<T>(c: Cols<T>, n: nat)
    requires Height(c, n)
    ensures SliceCols(c, 0, n) == c
  {
    forall k | k in c ensures c[k][0..n] == c[k] {
    }
  }

  lemma SliceAll<T>(p: Proto<T>)
    requires Valid(p)
    ensures Slice(p, 0, p.rows) == p
  {
    SliceColsAll(p.tensors, p.rows);
    SliceColsAll(p.others, p.rows);
  }

  /** Bounds of consecutive slices of n rows. */
  ghost predicate Bounds(bounds: seq<nat>, n: nat) {
    && |bounds| > 0 && bounds[0] == 0
    && (forall i :: 0 <= i < |bounds| ==> bounds[i] <= n)
    && (forall i :: 0 < i < |bounds| ==> bounds[i - 1] <= bounds[i])
  }

  function Slices<T>(p: Proto<T>, bounds: seq<nat>): (r: seq<Proto<T>>)
    requires Valid(p) && Bounds(bounds, p.rows)
    ensures |r| == |bounds| - 1
    ensures forall i :: 0 <= i < |r| ==> r[i] == Slice(p, bounds[i], bounds[i + 1])
  {
    seq(|bounds| - 1, i requires 0 <= i < |bounds| - 1 => Slice(p, bounds[i], bounds[i + 1]))
  }

  lemma {:induction false} ConcatSlices<T>(p: Proto<T>, bounds: seq<nat>)
    requires Valid(p) && Bounds(bounds, p.rows) && |bounds| > 1
    ensures Concat(Slices(p, bounds)) == Some(Slice(p, 0, bounds[|bounds| - 1]))
  {
    var n := |bounds| - 1;
    if n > 1 {
      ConcatSlices(p, bounds[..n]);
      assert Slices(p, bounds) == Slices(p, bounds[..n]) + [Slice(p, bounds[n - 1], bounds[n])];
      ConcatStep(Slices(p, bounds[..n]), Slice(p, bounds[n - 1], bounds[n]));
      SliceJoin(p, 0, bounds[n - 1], bounds[n]);
    }
  }

  /** i, then on in steps of size, and n in the end. */
  function Steps(i: nat, n: nat, size: nat): (r: seq<nat>)
    requires size > 0 && i <= n
    ensures |r| > 0 && r[0] == i && r[|r| - 1] == n && (i < n <==> |r| > 1)
    ensures forall k :: 0 <= k < |r| ==> r[k] <= n
    ensures forall k :: 0 < k < |r| ==>
              r[k - 1] < r[k] <= r[k - 1] + size && (k < |r| - 1 ==> r[k] == r[k - 1] + size)
    decreases n - i
  {
    if i == n then [n] else if i + size >= n then [i, n] else [i] + Steps(i + size, n, size)
  }

  function Split<T>(p: Proto<T>, size: nat): seq<Proto<T>>
    requires Valid(p) && size > 0
  {
    if p.rows == 0 then [] else Slices(p, Steps(0, p.rows, size))
  }

  /** Concatenation undoes splitting for every piece size, except that nothing can be made of no pieces. */
  lemma ConcatUndoesSplit<T>(p: Proto<T>, size: nat)
    requires Valid(p) && size > 0
    ensures Concat(Split(p, size)) == Some(p) <==> p.rows > 0
  {
    if p.rows > 0 {
      ConcatSlices(p, Steps(0, p.rows, size));
      SliceAll(p);
    }
  }

  /** All pieces but the last have the size, and no piece is empty or longer. */
  lemma PiecesSized<T>(p: Proto<T>, size: nat)
    requires Valid(p) && size > 0
    ensures Split(p, size) == [] <==> p.rows == 0
    ensures forall i :: 0 <= i < |Split(p, size)| ==> 0 < Split(p, size)[i].rows <= size
    ensures forall i :: 0 <= i < |Split(p, size)| - 1 ==> Split(p, size)[i].rows == size
  {
  }

  function Multiples(count: nat, size: nat): (r: seq<nat>)
    ensures |r| == count + 1 && forall i :: 0 <= i <= count ==> r[i] == i * size
  {
    seq(count + 1, i requires 0 <= i => i * size)
  }

  lemma MultiplesBounds(count: nat, size: nat)
    ensures Bounds(Multiples(count, size), count * size)
  {
    forall i | 0 <= i <= count ensures i * size <= count * size {
      Times(size, i, count);
    }
    forall i | 0 < i <= count ensures (i - 1) * size <= i * size {
      Times(size, i - 1, i);
    }
  }

  /** Equal chunks; None where the assertion fails. */
  function EqualChunks<T>(p: Proto<T>, chunks: nat): Option<seq<Proto<T>>>
    requires Valid(p) && chunks > 0
  {
    if p.rows % chunks != 0 then None
    else
      MultiplesBounds(chunks, p.rows / chunks);
      assert chunks * (p.rows / chunks) == p.rows;
      Some(Slices(p, Multiples(chunks, p.rows / chunks)))
  }

  lemma ConcatUndoesChunk<T>(p: Proto<T>, chunks: nat)
    requires Valid(p) && chunks > 0
    ensures var pieces := EqualChunks(p, chunks);
            && (pieces.Some? <==> p.rows % chunks == 0)
            && (pieces.Some? ==> Concat(pieces.value) == Some(p) && |pieces.value| == chunks)
            && (pieces.Some? ==> forall i :: 0 <= i < chunks ==> pieces.value[i].rows == p.rows / chunks)
  {
    if p.rows % chunks == 0 {
      MultiplesBounds(chunks, p.rows / chunks);
      assert chunks * (p.rows / chunks) == p.rows;
      ConcatSlices(p, Multiples(chunks, p.rows / chunks));
      SliceAll(p);
      forall i | 0 <= i < chunks ensures EqualChunks(p, chunks).value[i].rows == p.rows / chunks {
        NextMultiple(p.rows / chunks, i);
      }
    }
  }

  lemma NextMultiple(size: nat, i: nat)
    ensures (i + 1) * size == i * size + size
  {
  }

  // ----- padding -----

  /** Row i of c is row i mod n of the original. */
  ghost predicate Wraps<T>(c: seq<T>, original: seq<T>) {
    |original| <= |c| && forall i :: 0 <= i < |c| ==> WrapsAt(c, original, i)
  }

  ghost predicate WrapsAt<T>(c: seq<T>, original: seq<T>, i: nat)
    requires i < |c|
  {
    |original| > 0 && c[i] == original[i % |original|]
  }

  ghost predicate WrapsCols<T>(c: Cols<T>, original: Cols<T>) {
    c.Keys == original.Keys && forall k :: k in c ==> Wraps(c[k], original[k])
  }

  lemma WrapMore<T>(c: seq<T>, original: seq<T>, t: nat, m: nat)
    requires Wraps(c, original) && t <= |original| && |c| == m * |original|
    ensures Wraps(c + original[..t], original)
  {
    var d, n := c + original[..t], |original|;
    forall i | 0 <= i < |d| ensures WrapsAt(d, original, i) {
      if i < |c| {
        assert WrapsAt(c, original, i);
      } else {
        assert i == n * m + (i - |c|);
        Quotient(n, m, i - |c|);
      }
    }
  }

  lemma WrapMoreCols<T>(c: Cols<T>, original: Cols<T>, n: nat, t: nat, m: nat)
    requires WrapsCols(c, original) && Height(original, n) && Height(c, m * n) && t <= n
    ensures WrapsCols(AppendCols(c, SliceCols(original, 0, t)), original)
  {
    forall k | k in c ensures Wraps(c[k] + original[k][0..t], original[k]) {
      WrapMore(c[k], original[k], t, m);
      assert original[k][0..t] == original[k][..t];
    }
  }

  lemma WrapsSelf<T>(c: Cols<T>, n: nat)
    requires Height(c, n) && n > 0
    ensures WrapsCols(c, c)
  {
    forall k | k in c ensures Wraps(c[k], c[k]) {
      WrapsItself(c[k]);
    }
  }

  lemma WrapsItself<T>(c: seq<T>)
    requires |c| > 0
    ensures Wraps(c, c)
  {
    forall i | 0 <= i < |c| ensures WrapsAt(c, c, i) {
      Quotient(|c|, 0, i);
    }
  }

  /** q is p followed by rows of p, taken from the first on over and over. */
  ghost predicate Extends<T>(q: Proto<T>, p: Proto<T>) {
    && Valid(q) && Valid(p) && SameKeys(p, q) && p.rows <= q.rows && Slice(q, 0, p.rows) == p
    && WrapsCols(q.tensors, p.tensors) && WrapsCols(q.others, p.others)
  }

  lemma ExtendsSelf<T>(p: Proto<T>)
    requires Valid(p) && p.rows > 0
    ensures Extends(p, p)
  {
    WrapsSelf(p.tensors, p.rows);
    WrapsSelf(p.others, p.rows);
    SliceAll(p);
  }

  lemma ExtendMore<T>(q: Proto<T>, p: Proto<T>, take: nat, m: nat)
    requires Extends(q, p) && take <= p.rows && q.rows == m * p.rows
    ensures Extends(Append(q, Slice(p, 0, take)), p)
  {
    WrapMoreCols(q.tensors, p.tensors, p.rows, take, m);
    WrapMoreCols(q.others, p.others, p.rows, take, m);
    PrefixKept(q, Slice(p, 0, take), p.rows);
  }

  lemma ConcatPadding<T>(p: Proto<T>, padding: seq<Proto<T>>, q: Proto<T>, more: Proto<T>)
    requires Concat([p] + padding) == Some(q) && SameKeys(q, more)
    ensures Concat([p] + (padding + [more])) == Some(Append(q, more))
  {
    ConcatStep([p] + padding, more);
    assert [p] + (padding + [more]) == [p] + padding + [more];
  }

  /** As many slices from the first row on as it takes to have pad rows. */
  method Padding<T>(p: Proto<T>, pad: nat) returns (padding: seq<Proto<T>>, ghost q: Proto<T>)
    requires Valid(p) && p.rows > 0
    ensures Concat([p] + padding) == Some(q) && Extends(q, p) && q.rows == p.rows + pad
  {
    padding, q := [], p;
    var remaining := pad;
    ghost var m := 1;
    ExtendsSelf(p);
    while remaining > 0
      invariant 0 <= remaining <= pad && Concat([p] + padding) == Some(q)
      invariant Extends(q, p) && q.rows == p.rows + pad - remaining
      invariant remaining > 0 ==> q.rows == m * p.rows
    {
      var take := if remaining < p.rows then remaining else p.rows;
      ExtendMore(q, p, take, m);
      ConcatPadding(p, padding, q, Slice(p, 0, take));
      padding := padding + [Slice(p, 0, take)];
      q := Append(q, Slice(p, 0, take));
      remaining := remaining - take;
      m := m + 1;
    }
  }

  lemma PadSize(n: nat, divisor: nat)
    requires divisor > 0
    ensures n % divisor < divisor && (n + divisor - n % divisor) % divisor == 0
  {
    assert n + divisor - n % divisor == divisor * (n / divisor + 1);
    Quotient(divisor, n / divisor + 1, 0);
  }

  /** Pads with the batch's own rows to a multiple of the divisor; an empty batch stays empty. */
  method PadToDivisor<T>(p: Proto<T>, divisor: nat) returns (padded: Option<Proto<T>>, pad: nat)
    requires Valid(p) && divisor > 0
    ensures padded.Some? && pad < divisor && padded.value.rows == p.rows + pad && padded.value.rows % divisor == 0
    ensures if p.rows == 0 then padded.value == p else Extends(padded.value, p)
  {
    if p.rows % divisor == 0 {
      pad, padded := 0, Some(p);
      if p.rows > 0 {
        ExtendsSelf(p);
      }
    } else {
      PadSize(p.rows, divisor);
      pad := divisor - p.rows % divisor;
      var padding, _ := Padding(p, pad);
      padded := Concat([p] + padding);
    }
  }

  /** Unpadding a padded batch gives the original, and a row of it is original row i mod n. */
  lemma UnpadUndoesPad<T>(p: Proto<T>, padded: Proto<T>, pad: nat)
    requires Valid(p) && Valid(padded) && padded.rows == p.rows + pad
    requires if p.rows == 0 then padded == p else Extends(padded, p)
    ensures Unpad(padded, pad) == p
    ensures forall k, i :: k in p.tensors && 0 <= i < padded.rows ==> padded.tensors[k][i] == p.tensors[k][i % p.rows]
    ensures forall k, i :: k in p.others && 0 <= i < padded.rows ==> padded.others[k][i] == p.others[k][i % p.rows]
  {
    if p.rows > 0 {
      SliceAll(padded);
      forall k, i | k in p.tensors && 0 <= i < padded.rows ensures padded.tensors[k][i] == p.tensors[k][i % p.rows] {
        assert WrapsAt(padded.tensors[k], p.tensors[k], i);
      }
      forall k, i | k in p.others && 0 <= i < padded.rows ensures padded.others[k][i] == p.others[k][i % p.rows] {
        assert WrapsAt(padded.others[k], p.others[k], i);
      }
    }
  }

  lemma PrefixKept<T>(q: Proto<T>, more: Proto<T>, n: nat)
    requires Valid(q) && Valid(more) && SameKeys(q, more) && n <= q.rows
    ensures Slice(Append(q, more), 0, n) == Slice(q, 0, n)
  {
    PrefixKeptCols(q.tensors, more.tensors, q.rows, n);
    PrefixKeptCols(q.others, more.others, q.rows, n);
  }

  lemma PrefixKeptCols<T>(c: Cols<T>, more: Cols<T>, rows: nat, n: nat)
    requires Height(c, rows) && c.Keys == more.Keys && n <= rows
    ensures SliceCols(AppendCols(c, more), 0, n) == SliceCols(c, 0, n)
  {
    forall k | k in c ensures (c[k] + more[k])[0..n] == c[k][0..n] {
    }
  }

  /** All but the last pad rows. */
  function Unpad<T>(p: Proto<T>, pad: nat): Proto<T>
    requires Valid(p) && pad <= p.rows
  {
    if pad == 0 then p else Slice(p, 0, p.rows - pad)
  }

  // ----- repeating and unfolding -----

  function Copies<T>(x: T, n: nat): (r: seq<T>)
    ensures |r| == n && forall i :: 0 <= i < n ==> r[i] == x
  {
    seq(n, _ => x)
  }

  function EachCopied<T>(c: seq<T>, n: nat): (r: seq<seq<T>>)
    ensures |r| == |c| && forall i :: 0 <= i < |c| ==> r[i] == Copies(c[i], n)
  {
    seq(|c|, i requires 0 <= i < |c| => Copies(c[i], n))
  }

  /** Interleaved: every row n times in a row. Otherwise: the whole column n times over. */
  function RepeatColumn<T>(c: seq<T>, n: nat, interleave: bool): seq<T> {
    if interleave then Flatten(EachCopied(c, n)) else Flatten(Copies(c, n))
  }

  lemma InterleavedAt<T>(c: seq<T>, n: nat, i: nat)
    requires n > 0 && i < |c| * n
    ensures |RepeatColumn(c, n, true)| == |c| * n && i / n < |c| && RepeatColumn(c, n, true)[i] == c[i / n]
  {
    FlattenAt(EachCopied(c, n), n, i);
  }

  lemma TiledAt<T>(c: seq<T>, n: nat, i: nat)
    requires |c| > 0 && i < n * |c|
    ensures |RepeatColumn(c, n, false)| == n * |c| && RepeatColumn(c, n, false)[i] == c[i % |c|]
  {
    FlattenAt(Copies(c, n), |c|, i);
  }

  /** A row's entries along the second dimension. */
  type Row<T> = seq<T>

  ghost predicate Wide<T>(c: seq<Row<T>>, w: nat) {
    forall i :: 0 <= i < |c| ==> |c[i]| == w
  }

  /** Reshaping to rows of size entries: the entries in order, cut anew. */
  function Reshape<T>(c: seq<Row<T>>, size: nat): seq<Row<T>>
    requires size > 0
  {
    Cut(Flatten(c), size)
  }

  function CutEach<T>(c: seq<Row<T>>, size: nat): (r: seq<seq<Row<T>>>)
    requires size > 0
    ensures |r| == |c| && forall i :: 0 <= i < |c| ==> r[i] == Cut(c[i], size)
  {
    seq(|c|, i requires 0 <= i < |c| => Cut(c[i], size))
  }

  /** Row i of the reshaped column is piece i mod n of original row i / n. */
  lemma ReshapedAt<T>(c: seq<Row<T>>, size: nat, n: nat, i: nat)
    requires size > 0 && n > 0 && Wide(c, n * size) && i < |c| * n
    ensures |Reshape(c, size)| == |c| * n && i / n < |c| && (i % n) * size + size <= n * size
    ensures Reshape(c, size)[i] == c[i / n][(i % n) * size..(i % n) * size + size]
  {
    var pieces := CutEach(c, size);
    ReshapeIsPieces(c, size, n);
    FlattenAt(pieces, n, i);
    CutAt(c[i / n], size, n, i % n);
  }

  lemma ReshapeIsPieces<T>(c: seq<Row<T>>, size: nat, n: nat)
    requires size > 0 && n > 0 && Wide(c, n * size)
    ensures Reshape(c, size) == Flatten(CutEach(c, size)) && Uniform(CutEach(c, size), n)
  {
    var pieces := CutEach(c, size);
    forall i | 0 <= i < |c| ensures |pieces[i]| == n && Flatten(pieces[i]) == c[i] && Uniform(pieces[i], size) {
      FlattenCut(c[i], size, n);
    }
    assert Ends(pieces) == c;
    FlattenEnds(pieces);
    AllUniform(pieces, n, size);
    CutFlatten(Flatten(pieces), size);
  }

  lemma AllUniform<T>(parts: seq<seq<seq<T>>>, n: nat, size: nat)
    requires n > 0 && Uniform(parts, n) && forall i :: 0 <= i < |parts| ==> Uniform(parts[i], size)
    ensures Uniform(Flatten(parts), size)
  {
    FlattenLength(parts, n);
    forall i | 0 <= i < |Flatten(parts)| ensures |Flatten(parts)[i]| == size {
      FlattenAt(parts, n, i);
    }
  }

  datatype UnfoldError = NoSplitKeys

  /** Every column to be split has rows of one width that n divides. */
  ghost predicate Splits<T>(c: Cols<Row<T>>, keys: set<string>, n: nat, size: map<string, nat>) {
    forall k :: k in c && k in keys ==> k in size && size[k] > 0 && Wide(c[k], n * size[k])
  }

  function UnfoldCols<T>(c: Cols<Row<T>>, keys: set<string>, n: nat, size: map<string, nat>): (r: Cols<Row<T>>)
    requires SizesGiven(c, keys, size)
    ensures r.Keys == c.Keys
    ensures forall k :: k in c ==> r[k] == UnfoldColumn(c[k], k in keys, n, SizeOf(size, k))
  {
    map k | k in c :: UnfoldColumn(c[k], k in keys, n, SizeOf(size, k))
  }

  function UnfoldColumn<T>(c: seq<Row<T>>, split: bool, n: nat, size: nat): seq<Row<T>>
    requires split ==> size > 0
  {
    if split then Reshape(c, size) else RepeatColumn(c, n, true)
  }

  /** The columns that splitKeys names can be looked up in size. */
  ghost predicate SizesGiven<T>(c: Cols<Row<T>>, keys: set<string>, size: map<string, nat>) {
    forall k :: k in c && k in keys ==> SizeOf(size, k) > 0
  }

  function SizeOf(size: map<string, nat>, k: string): nat {
    if k in size then size[k] else 0
  }

  /** key in split_keys, which fails if split_keys is None. */
  function InKeys(k: string, splitKeys: Option<set<string>>): Result<bool, UnfoldError> {
    match splitKeys
    case None => Err(NoSplitKeys)
    case Some(keys) => Ok(k in keys)
  }

  function Given(splitKeys: Option<set<string>>): set<string> {
    if splitKeys.Some? then splitKeys.value else {}
  }

  /** The columns in done have been gone through, those named in todo have not. */
  ghost predicate Through<T>(c: Cols<Row<T>>, todo: set<string>, done: Cols<Row<T>>) {
    todo <= c.Keys && done.Keys == c.Keys - todo && forall k :: k in done ==> done[k] == c[k]
  }

  lemma OneThrough<T>(c: Cols<Row<T>>, todo: set<string>, done: Cols<Row<T>>, k: string, keys: set<string>,
                      size: map<string, nat>)
    requires SizesGiven(c, keys, size) && Through(c, todo, done) && k in todo
    ensures Through(c, todo - {k}, done[k := c[k]])
    ensures SizesGiven(done, keys, size) && SizesGiven(done[k := c[k]], keys, size)
  {
  }

  lemma UnfoldOne<T>(c: Cols<Row<T>>, done: Cols<Row<T>>, k: string, keys: set<string>, n: nat, size: map<string, nat>)
    requires k in c
    requires SizesGiven(done, keys, size) && SizesGiven(done[k := c[k]], keys, size)
    ensures UnfoldCols(done[k := c[k]], keys, n, size)
            == UnfoldCols(done, keys, n, size)[k := UnfoldColumn(c[k], k in keys, n, SizeOf(size, k))]
  {
    var a := UnfoldCols(done[k := c[k]], keys, n, size);
    var b := UnfoldCols(done, keys, n, size)[k := UnfoldColumn(c[k], k in keys, n, SizeOf(size, k))];
    assert a.Keys == b.Keys;
    forall j | j in a ensures a[j] == b[j] {
    }
  }

  lemma AllThrough<T>(c: Cols<Row<T>>, done: Cols<Row<T>>)
    requires Through(c, {}, done)
    ensures done == c
  {
  }

  /** The loop over the tensor columns: without splitKeys, no column is split. */
  method UnfoldTensors<T>(c: Cols<Row<T>>, n: nat, splitKeys: Option<set<string>>, size: map<string, nat>)
    returns (r: Cols<Row<T>>)
    requires SizesGiven(c, Given(splitKeys), size)
    ensures r == UnfoldCols(c, Given(splitKeys), n, size)
  {
    var todo: set<string>, done: Cols<Row<T>> := c.Keys, map[];
    r := map[];
    while todo != {}
      invariant Through(c, todo, done) && SizesGiven(done, Given(splitKeys), size)
      invariant r == UnfoldCols(done, Given(splitKeys), n, size)
      decreases |todo|
    {
      var k :| k in todo;
      OneThrough(c, todo, done, k, Given(splitKeys), size);
      UnfoldOne(c, done, k, Given(splitKeys), n, size);
      r := r[k := UnfoldColumn(c[k], if splitKeys.Some? then k in splitKeys.value else false, n, SizeOf(size, k))];
      done, todo := done[k := c[k]], todo - {k};
    }
    AllThrough(c, done);
  }

  /** The loop over the other columns, which looks every key up in splitKeys: without them it fails at the first column. */
  method UnfoldOthers<T>(c: Cols<Row<T>>, n: nat, splitKeys: Option<set<string>>, size: map<string, nat>)
    returns (r: Result<Cols<Row<T>>, UnfoldError>)
    requires SizesGiven(c, Given(splitKeys), size)
    ensures r.Err? <==> splitKeys.None? && c != map[]
    ensures r.Ok? ==> r.value == UnfoldCols(c, Given(splitKeys), n, size)
  {
    var todo: set<string>, done: Cols<Row<T>>, out: Cols<Row<T>> := c.Keys, map[], map[];
    while todo != {}
      invariant Through(c, todo, done) && SizesGiven(done, Given(splitKeys), size)
      invariant out == UnfoldCols(done, Given(splitKeys), n, size)
      invariant splitKeys.None? ==> todo == c.Keys
      decreases |todo|
    {
      var k :| k in todo;
      OneThrough(c, todo, done, k, Given(splitKeys), size);
      UnfoldOne(c, done, k, Given(splitKeys), n, size);
      match InKeys(k, splitKeys)
      case Err(e) => return Err(e);
      case Ok(split) =>
        out := out[k := UnfoldColumn(c[k], split, n, SizeOf(size, k))];
        done, todo := done[k := c[k]], todo - {k};
    }
    AllThrough(c, done);
    return Ok(out);
  }

  /**
   * Unfolds the columns named in splitKeys, whose pieces are size wide, and
   * repeats the others. Leaving splitKeys out works if and only if there are no
   * other columns than tensors, and then repeats them all.
   */
  method UnfoldColumnChunks<T>(p: Proto<Row<T>>, n: nat, splitKeys: Option<set<string>>, size: map<string, nat>)
    returns (r: Result<Proto<Row<T>>, UnfoldError>)
    requires SizesGiven(p.tensors, Given(splitKeys), size) && SizesGiven(p.others, Given(splitKeys), size)
    ensures r.Err? <==> splitKeys.None? && p.others != map[]
    ensures r.Ok? ==> r.value == Unfold(p, n, Given(splitKeys), size)
  {
    var tensors := UnfoldTensors(p.tensors, n, splitKeys, size);
    var others := UnfoldOthers(p.others, n, splitKeys, size);
    match others
    case Err(e) => return Err(e);
    case Ok(cols) => return Ok(Proto(p.rows * n, tensors, cols));
  }

  function Unfold<T>(p: Proto<Row<T>>, n: nat, keys: set<string>, size: map<string, nat>): Proto<Row<T>>
    requires SizesGiven(p.tensors, keys, size) && SizesGiven(p.others, keys, size)
  {
    Proto(p.rows * n, UnfoldCols(p.tensors, keys, n, size), UnfoldCols(p.others, keys, n, size))
  }

  /** Row i of an unfolded column: its piece i mod n of row i / n if it is split, and row i / n if not. */
  ghost predicate UnfoldedAt<T>(c: seq<Row<T>>, r: seq<Row<T>>, split: bool, n: nat, size: nat, i: nat)
    requires n > 0
  {
    && i < |r| && i / n < |c|
    && if split then (i % n) * size + size <= |c[i / n]| && r[i] == c[i / n][(i % n) * size..(i % n) * size + size]
       else r[i] == c[i / n]
  }

  ghost predicate ColumnUnfolded<T>(c: seq<Row<T>>, r: seq<Row<T>>, split: bool, n: nat, size: nat)
    requires n > 0
  {
    |r| == |c| * n && forall i :: 0 <= i < |r| ==> UnfoldedAt(c, r, split, n, size, i)
  }

  ghost predicate ColsUnfolded<T>(c: Cols<Row<T>>, r: Cols<Row<T>>, keys: set<string>, n: nat, size: map<string, nat>)
    requires n > 0
  {
    c.Keys == r.Keys && forall k :: k in c ==> ColumnUnfolded(c[k], r[k], k in keys, n, SizeOf(size, k))
  }

  lemma UnfoldedColumn<T>(c: seq<Row<T>>, split: bool, n: nat, size: nat)
    requires n > 0 && (split ==> size > 0 && Wide(c, n * size))
    ensures ColumnUnfolded(c, UnfoldColumn(c, split, n, size), split, n, size)
  {
    if split {
      ReshapeIsPieces(c, size, n);
      FlattenLength(CutEach(c, size), n);
      forall i | 0 <= i < |c| * n ensures UnfoldedAt(c, Reshape(c, size), true, n, size, i) {
        SplitRow(c, n, size, i);
      }
    } else {
      FlattenLength(EachCopied(c, n), n);
      forall i | 0 <= i < |c| * n ensures UnfoldedAt(c, RepeatColumn(c, n, true), false, n, size, i) {
        RepeatedRow(c, n, size, i);
      }
    }
  }

  lemma RowWidth<T>(c: seq<Row<T>>, width: nat, i: nat)
    requires Wide(c, width) && i < |c|
    ensures |c[i]| == width
  {
  }

  lemma SplitRow<T>(c: seq<Row<T>>, n: nat, size: nat, i: nat)
    requires n > 0 && size > 0 && Wide(c, n * size) && i < |c| * n
    ensures UnfoldedAt(c, Reshape(c, size), true, n, size, i)
  {
    ReshapedAt(c, size, n, i);
    RowWidth(c, n * size, i / n);
  }

  lemma RepeatedRow<T>(c: seq<Row<T>>, n: nat, size: nat, i: nat)
    requires n > 0 && i < |c| * n
    ensures UnfoldedAt(c, RepeatColumn(c, n, true), false, n, size, i)
  {
    InterleavedAt(c, n, i);
  }

  lemma UnfoldedCols<T>(c: Cols<Row<T>>, keys: set<string>, n: nat, size: map<string, nat>)
    requires n > 0 && Splits(c, keys, n, size)
    ensures ColsUnfolded(c, UnfoldCols(c, keys, n, size), keys, n, size)
  {
    forall k | k in c
      ensures ColumnUnfolded(c[k], UnfoldCols(c, keys, n, size)[k], k in keys, n, SizeOf(size, k))
    {
      UnfoldedColumn(c[k], k in keys, n, SizeOf(size, k));
    }
  }

  /**
   * After unfolding into n pieces there are n times as many rows, and in every
   * row the pieces of the split columns stand beside the repeats of the others,
   * all taken from the same original row.
   */
  lemma UnfoldKeepsRowsTogether<T>(p: Proto<Row<T>>, n: nat, keys: set<string>, size: map<string, nat>)
    requires Valid(p) && n > 0 && Splits(p.tensors, keys, n, size) && Splits(p.others, keys, n, size)
    ensures var r := Unfold(p, n, keys, size);
            && r.rows == p.rows * n
            && ColsUnfolded(p.tensors, r.tensors, keys, n, size)
            && ColsUnfolded(p.others, r.others, keys, n, size)
  {
    UnfoldedCols(p.tensors, keys, n, size);
    UnfoldedCols(p.others, keys, n, size);
  }
}
