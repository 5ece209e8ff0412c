/** Splitting weights into chunks of at most a bucket, and merging the chunks again. */
module Chunks {
  import opened Common

  /**
   * A piece of a weight: its place in the weight of nbytes bytes, and its
   * bytes. The offset is where it lies in the buffer of its bucket, and 0 until
   * it is put into one.
   */
  datatype Chunk = Chunk(name: string, item: ItemSize, nbytes: nat, at: nat, offset: nat, bytes: seq<byte>)

  // ----- split -----

  function SplitFrom(w: Weight, size: nat, at: nat): (r: seq<Chunk>)
    requires size > 0
    decreases |w.bytes| - at
  {
    if at >= |w.bytes| then []
    else
      var n := if size <= |w.bytes| - at then size else |w.bytes| - at;
      [Chunk(w.name, w.item, |w.bytes|, at, 0, w.bytes[at..at + n])] + SplitFrom(w, size, at + n)
  }

  function Split(ws: seq<Weight>, size: nat): (r: seq<Chunk>)
    requires size > 0
  {
    if ws == [] then [] else Split(ws[..|ws| - 1], size) + SplitFrom(ws[|ws| - 1], size, 0)
  }

  /** Chunk j starts where the one before it ended, holds the weight's bytes from there, and is full unless it is the last. */
  ghost predicate ChunkAt(w: Weight, size: nat, at: nat, cs: seq<Chunk>, j: nat)
    requires j < |cs|
  {
    var c, end := cs[j], cs[j].at + |cs[j].bytes|;
    && c.name == w.name && c.item == w.item && c.nbytes == |w.bytes| && c.offset == 0
    && c.at == (if j == 0 then at else cs[j - 1].at + |cs[j - 1].bytes|)
    && end <= |w.bytes| && c.bytes == w.bytes[c.at..end]
    && if j < |cs| - 1 then |c.bytes| == size else 0 < |c.bytes| <= size && end == |w.bytes|
  }

  /** The chunks of the weight's bytes from the given place on. */
  ghost predicate ChunksOf(w: Weight, size: nat, at: nat, cs: seq<Chunk>) {
    && (cs == [] <==> at >= |w.bytes|)
    && forall j :: 0 <= j < |cs| ==> ChunkAt(w, size, at, cs, j)
  }

  lemma {:induction false} SplitFromExact(w: Weight, size: nat, at: nat)
    requires size > 0
    ensures ChunksOf(w, size, at, SplitFrom(w, size, at))
    decreases |w.bytes| - at
  {
    if at < |w.bytes| {
      var n := if size <= |w.bytes| - at then size else |w.bytes| - at;
      var cs, rest := SplitFrom(w, size, at), SplitFrom(w, size, at + n);
      SplitFromExact(w, size, at + n);
      forall j | 0 <= j < |cs| ensures ChunkAt(w, size, at, cs, j) {
        if j > 0 {
          assert ChunkAt(w, size, at + n, rest, j - 1);
        }
      }
    }
  }

  /** Splitting gives the chunks of every weight, weight after weight. */
  lemma {:induction false} SplitExact(ws: seq<Weight>, size: nat) returns (parts: seq<seq<Chunk>>)
    requires size > 0
    ensures Split(ws, size) == Flatten(parts) && |parts| == |ws|
    ensures forall i :: 0 <= i < |ws| ==> ChunksOf(ws[i], size, 0, parts[i])
  {
    if ws == [] {
      parts := [];
    } else {
      var n := |ws| - 1;
      var before := SplitExact(ws[..n], size);
      SplitFromExact(ws[n], size, 0);
      parts := before + [SplitFrom(ws[n], size, 0)];
      ButLast(before, SplitFrom(ws[n], size, 0));
    }
  }

  method SplitWeightChunks(ws: seq<Weight>, size: nat) returns (chunks: seq<Chunk>)
    requires size > 0
    ensures chunks == Split(ws, size)
  {
    chunks := [];
    for i := 0 to |ws|
      invariant chunks == Split(ws[..i], size)
    {
      var w, at := ws[i], 0;
      ghost var before := chunks;
      while at < |w.bytes|
        invariant at <= |w.bytes|
        invariant before + SplitFrom(w, size, 0) == chunks + SplitFrom(w, size, at)
      {
        var n := if size <= |w.bytes| - at then size else |w.bytes| - at;
        chunks := chunks + [Chunk(w.name, w.item, |w.bytes|, at, 0, w.bytes[at..at + n])];
        at := at + n;
      }
      assert ws[..i + 1][..i] == ws[..i];
    }
    assert ws[..|ws|] == ws;
  }

  // ----- merge -----

  datatype MergeError = WeightUnfinished | BadView | FirstOffsetNotZero | OtherName | OffsetMismatch | ChunkTooLong

  /** The weight being merged: its first filled bytes have arrived. */
  datatype Merging = Idle | Merging(name: string, item: ItemSize, buffer: seq<byte>, filled: nat)

  datatype MergeState = MergeState(out: seq<Weight>, cur: Merging)

  /**
   * The chunk can be viewed as a tensor of its dtype: a view of wider elements
   * must start at a multiple of their size.
   */
  predicate Viewable(c: Chunk) {
    |c.bytes| == c.nbytes && c.offset % c.item == 0
  }

  /** One turn of the merge loop. The bytes of a fresh buffer are arbitrary; the model fills them with zeros. */
  function MergeStep(s: MergeState, c: Chunk, size: nat): (r: Result<MergeState, MergeError>) {
    if c.nbytes <= size then
      if s.cur.Merging? then Err(WeightUnfinished)
      else if !Viewable(c) then Err(BadView)
      else Ok(MergeState(s.out + [Weight(c.name, c.item, c.bytes)], Idle))
    else if s.cur.Idle? && c.at != 0 then Err(FirstOffsetNotZero)
    else
      var m := if s.cur.Idle? then Merging(c.name, c.item, seq(c.nbytes, _ => 0), 0) else s.cur;
      if c.name != m.name then Err(OtherName)
      else if m.filled != c.at then Err(OffsetMismatch)
      else if c.at + |c.bytes| > |m.buffer| then Err(ChunkTooLong)
      else
        var buffer := m.buffer[..c.at] + c.bytes + m.buffer[c.at + |c.bytes|..];
        if c.at + |c.bytes| == c.nbytes then Ok(MergeState(s.out + [Weight(m.name, m.item, buffer)], Idle))
        else Ok(MergeState(s.out, Merging(m.name, m.item, buffer, m.filled + |c.bytes|)))
  }

  /** Which chunks stop the loop, and with which assertion. */
  lemma StepFails(s: MergeState, c: Chunk, size: nat)
    ensures var r, large, name, filled, room :=
              MergeStep(s, c, size), c.nbytes > size, if s.cur.Idle? then c.name else s.cur.name,
              if s.cur.Idle? then 0 else s.cur.filled, if s.cur.Idle? then c.nbytes else |s.cur.buffer|;
            && (r == Err(WeightUnfinished) <==> !large && s.cur.Merging?)
            && (r == Err(BadView) <==> !large && s.cur.Idle? && (|c.bytes| != c.nbytes || c.offset % c.item != 0))
            && (r == Err(FirstOffsetNotZero) <==> large && s.cur.Idle? && c.at != 0)
            && (r == Err(OtherName) <==> large && s.cur.Merging? && c.name != name)
            && (r == Err(OffsetMismatch) <==> large && s.cur.Merging? && c.name == name && c.at != filled)
            && (r == Err(ChunkTooLong) <==> large && c.name == name && c.at == filled && c.at + |c.bytes| > room)
  {
  }

  function MergeFrom(s: MergeState, cs: seq<Chunk>, size: nat): (r: Result<MergeState, MergeError>)
    decreases |cs|
  {
    if cs == [] then Ok(s)
    else
      match MergeStep(s, cs[0], size)
      case Err(e) => Err(e)
      case Ok(t) => MergeFrom(t, cs[1..], size)
  }

  /** The weights yielded for the chunks, or the assertion that fails first. */
  function Merge(cs: seq<Chunk>, size: nat): (r: Result<seq<Weight>, MergeError>) {
    match MergeFrom(MergeState([], Idle), cs, size)
    case Err(e) => Err(e)
    case Ok(s) => Ok(s.out)
  }

  method MergeWeightChunks(cs: seq<Chunk>, size: nat) returns (r: Result<seq<Weight>, MergeError>)
    ensures r == Merge(cs, size)
  {
    var out: seq<Weight>, name: string, item: ItemSize, merging, filled: nat := [], "", 1, false, 0;
    var buffer: array<byte> := new byte[0];
    for i := 0 to |cs|
      invariant fresh(buffer)
      invariant MergeFrom(MergeState([], Idle), cs, size)
                == MergeFrom(MergeState(out, if merging then Merging(name, item, buffer[..], filled) else Idle), cs[i..], size)
    {
      var c := cs[i];
      assert cs[i..][1..] == cs[i + 1..];
      if c.nbytes <= size {
        if merging {
          return Err(WeightUnfinished);
        }
        if !Viewable(c) {
          return Err(BadView);
        }
        out := out + [Weight(c.name, c.item, c.bytes)];
        continue;
      }
      if !merging {
        if c.at != 0 {
          return Err(FirstOffsetNotZero);
        }
        name, item, merging, filled := c.name, c.item, true, 0;
        buffer := new byte[c.nbytes](_ => 0);
        assert buffer[..] == seq(c.nbytes, _ => 0);
      }
      if c.name != name {
        return Err(OtherName);
      }
      if filled != c.at {
        return Err(OffsetMismatch);
      }
      if c.at + |c.bytes| > buffer.Length {
        return Err(ChunkTooLong);
      }
      Overwrite(buffer, c.at, c.bytes);
      filled := filled + |c.bytes|;
      if c.at + |c.bytes| == c.nbytes {
        out := out + [Weight(name, item, buffer[..])];
        merging := false;
      }
    }
    return Ok(out);
  }

  /** buffer[at : at + |data|] = data */
  method Overwrite(buffer: array<byte>, at: nat, data: seq<byte>)
    requires at + |data| <= buffer.Length
    modifies buffer
    ensures buffer[..] == old(buffer[..at]) + data + old(buffer[at + |data|..])
  {
    ghost var was := buffer[..];
    CopyInto(buffer, 0, at, data);
    assert buffer[..] == buffer[0..at + |data|] + buffer[at + |data|..];
    assert was[..at] == was[0..at];
  }

  // ----- round trip -----

  /** The weights that have bytes. */
  function NonEmpty(ws: seq<Weight>): (r: seq<Weight>) {
    if ws == [] then []
    else NonEmpty(ws[..|ws| - 1]) + Kept(ws[|ws| - 1])
  }

  function Kept(w: Weight): (r: seq<Weight>) {
    if w.bytes == [] then [] else [w]
  }

  lemma {:induction false} NonEmptyJoin(a: seq<Weight>, b: seq<Weight>)
    ensures NonEmpty(a + b) == NonEmpty(a) + NonEmpty(b)
  {
    if b == [] {
      assert a + b == a;
    } else {
      assert (a + b)[..|a + b| - 1] == a + b[..|b| - 1];
      NonEmptyJoin(a, b[..|b| - 1]);
    }
  }

  /** If all weights have bytes, they are all there. */
  lemma {:induction false} AllKept(ws: seq<Weight>)
    requires forall i :: 0 <= i < |ws| ==> ws[i].bytes != []
    ensures NonEmpty(ws) == ws
  {
    if ws != [] {
      AllKept(ws[..|ws| - 1]);
    }
  }

  /** And a weight without bytes makes no difference, wherever it is. */
  lemma EmptyDropped(a: seq<Weight>, w: Weight, b: seq<Weight>)
    requires w.bytes == []
    ensures NonEmpty(a + [w] + b) == NonEmpty(a + b)
  {
    NonEmptyJoin(a + [w], b);
    NonEmptyJoin(a, b);
    ButLast(a, w);
  }

  lemma {:induction false} MergeAppend(s: MergeState, a: seq<Chunk>, b: seq<Chunk>, size: nat)
    requires MergeFrom(s, a, size).Ok?
    ensures MergeFrom(s, a + b, size) == MergeFrom(MergeFrom(s, a, size).value, b, size)
    decreases |a|
  {
    if a == [] {
      assert a + b == b;
    } else {
      assert (a + b)[1..] == a[1..] + b;
      MergeAppend(MergeStep(s, a[0], size).value, a[1..], b, size);
    }
  }

  /** The next chunk of a large weight extends the merged prefix, and completes the weight if it is the last. */
  lemma MergeNext(out: seq<Weight>, w: Weight, size: nat, m: Merging, n: nat)
    requires m.Merging? && m.name == w.name && m.item == w.item && |m.buffer| == |w.bytes| > size
    requires m.filled + n <= |w.bytes| && m.buffer[..m.filled] == w.bytes[..m.filled]
    ensures var c := Chunk(w.name, w.item, |w.bytes|, m.filled, 0, w.bytes[m.filled..m.filled + n]);
            var r := MergeStep(MergeState(out, m), c, size);
            if m.filled + n == |w.bytes| then r == Ok(MergeState(out + [w], Idle))
            else r.Ok? && r.value.out == out && r.value.cur.Merging? && r.value.cur.name == w.name && r.value.cur.item == w.item
                 && r.value.cur.filled == m.filled + n && |r.value.cur.buffer| == |w.bytes|
                 && r.value.cur.buffer[..m.filled + n] == w.bytes[..m.filled + n]
  {
    var at := m.filled;
    var buffer := m.buffer[..at] + w.bytes[at..at + n] + m.buffer[at + n..];
    assert buffer[..at + n] == w.bytes[..at + n];
    if at + n == |w.bytes| {
      assert buffer == w.bytes;
    }
  }

  /** Merging the chunks of a large weight from any point on completes it. */
  lemma {:induction false} MergeLarge(out: seq<Weight>, w: Weight, size: nat, m: Merging)
    requires 0 < size < |w.bytes|
    requires m.Merging? && m.name == w.name && m.item == w.item && |m.buffer| == |w.bytes| && m.filled < |w.bytes|
    requires m.buffer[..m.filled] == w.bytes[..m.filled]
    ensures MergeFrom(MergeState(out, m), SplitFrom(w, size, m.filled), size) == Ok(MergeState(out + [w], Idle))
    decreases |w.bytes| - m.filled
  {
    var at := m.filled;
    var n := if size <= |w.bytes| - at then size else |w.bytes| - at;
    var cs := SplitFrom(w, size, at);
    MergeNext(out, w, size, m, n);
    assert cs[1..] == SplitFrom(w, size, at + n);
    if at + n < |w.bytes| {
      MergeLarge(out, w, size, MergeStep(MergeState(out, m), cs[0], size).value.cur);
    }
  }

  /** A weight that fits in a bucket is one chunk. */
  lemma SplitSmall(w: Weight, size: nat)
    requires 0 < |w.bytes| <= size
    ensures SplitFrom(w, size, 0) == [Chunk(w.name, w.item, |w.bytes|, 0, 0, w.bytes)]
  {
    assert w.bytes[0..|w.bytes|] == w.bytes;
    assert SplitFrom(w, size, |w.bytes|) == [];
  }

  lemma MergeOne(out: seq<Weight>, w: Weight, size: nat)
    requires size > 0
    ensures MergeFrom(MergeState(out, Idle), SplitFrom(w, size, 0), size)
            == Ok(MergeState(out + Kept(w), Idle))
  {
    var cs := SplitFrom(w, size, 0);
    assert out + [] == out;
    if 0 < |w.bytes| <= size {
      SplitSmall(w, size);
      assert MergeStep(MergeState(out, Idle), cs[0], size) == Ok(MergeState(out + [w], Idle));
    } else if |w.bytes| > size {
      var start := Merging(w.name, w.item, seq(|w.bytes|, _ => 0), 0);
      MergeLarge(out, w, size, start);
      assert MergeStep(MergeState(out, Idle), cs[0], size) == MergeStep(MergeState(out, start), cs[0], size);
    }
  }

  lemma {:induction false} MergeSplitState(ws: seq<Weight>, size: nat)
    requires size > 0
    ensures MergeFrom(MergeState([], Idle), Split(ws, size), size) == Ok(MergeState(NonEmpty(ws), Idle))
  {
    if ws != [] {
      var n := |ws| - 1;
      MergeSplitState(ws[..n], size);
      MergeAppend(MergeState([], Idle), Split(ws[..n], size), SplitFrom(ws[n], size, 0), size);
      MergeOne(NonEmpty(ws[..n]), ws[n], size);
    }
  }

  /** Merging undoes splitting, for every bucket size: only weights without bytes are lost, and no assertion fails. */
  lemma MergeUndoesSplit(ws: seq<Weight>, size: nat)
    requires size > 0
    ensures Merge(Split(ws, size), size) == Ok(NonEmpty(ws))
  {
    MergeSplitState(ws, size);
  }

  // ----- chunks that lie in buckets -----

  /** The chunks as they were before they were put into buckets. */
  function Unplaced(cs: seq<Chunk>): (r: seq<Chunk>)
    ensures |r| == |cs| && forall k :: 0 <= k < |cs| ==> r[k] == cs[k].(offset := 0)
  {
    seq(|cs|, k requires 0 <= k < |cs| => cs[k].(offset := 0))
  }

  /** A chunk of a weight that fits in a bucket starts at a multiple of its item size. */
  predicate Aligned(c: Chunk, size: nat) {
    c.nbytes <= size ==> c.offset % c.item == 0
  }

  predicate AllAligned(cs: seq<Chunk>, size: nat) {
    forall k :: 0 <= k < |cs| ==> Aligned(cs[k], size)
  }

  /** Chunks that merge where they were cut merge from their buckets too exactly when they are aligned. */
  lemma {:induction false} MergePlaced(s: MergeState, cs: seq<Chunk>, size: nat)
    requires MergeFrom(s, Unplaced(cs), size).Ok?
    ensures MergeFrom(s, cs, size) == if AllAligned(cs, size) then MergeFrom(s, Unplaced(cs), size) else Err(BadView)
    decreases |cs|
  {
    if cs != [] {
      assert Unplaced(cs)[1..] == Unplaced(cs[1..]);
      if Aligned(cs[0], size) {
        assert MergeStep(s, cs[0], size) == MergeStep(s, Unplaced(cs)[0], size);
        MergePlaced(MergeStep(s, cs[0], size).value, cs[1..], size);
        assert AllAligned(cs, size) <==> AllAligned(cs[1..], size) by {
          assert forall k :: 1 <= k < |cs| ==> cs[k] == cs[1..][k - 1];
        }
      }
    }
  }
}
