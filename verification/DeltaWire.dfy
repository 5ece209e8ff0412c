/**
 * The delta engine's wire: changed positions and values are packed into
 * flushes, streamed with one flush of lookahead, and decoded again.
 */
module DeltaWire {
  import opened Common

  /** A tensor element: all that matters is equality, and which one is the NaN the decoder uses as its mask. */
  datatype Elem = NaN | Num(bits: int)

  /** A changed element of a flattened parameter. */
  datatype Change = Change(pos: nat, val: Elem)

  /** An entry of a bucket: some changes of one parameter of numel elements. */
  datatype Item = Item(name: string, numel: nat, changes: seq<Change>)

  datatype DeltaParam = DeltaParam(name: string, numel: nat, posStart: nat, posEnd: nat, valStart: nat, valEnd: nat)

  datatype Flush = Flush(params: seq<DeltaParam>, positions: seq<byte>, values: seq<Elem>)

  datatype Msg = TerminalEmpty | FlushMsg(flush: Flush, isLast: bool)

  // ----- positions as little-endian int32 -----

  const MAX_POS: nat := 0x8000_0000

  function EncodePos(p: nat): (r: seq<byte>)
    requires p < MAX_POS
    ensures |r| == 4
  {
    [(p % 256) as byte, (p / 256 % 256) as byte, (p / 65536 % 256) as byte, (p / 16777216) as byte]
  }

  function DecodePos(b: seq<byte>): (r: nat)
    requires |b| == 4
  {
    b[0] as nat + b[1] as nat * 256 + b[2] as nat * 65536 + b[3] as nat * 16777216
  }

  lemma PosRoundTrip(p: nat)
    requires p < MAX_POS
    ensures DecodePos(EncodePos(p)) == p
    ensures forall i :: 0 <= i < 4 ==> EncodePos(p)[i] as nat == p / [1, 256, 65536, 16777216][i] % 256
  {
    assert p / 65536 == p / 256 / 256;
    assert p / 16777216 == p / 65536 / 256;
  }

  function EncodeAll(cs: seq<Change>): (r: seq<byte>)
    requires Fits(cs)
    ensures |r| == 4 * |cs|
  {
    if cs == [] then [] else EncodeAll(cs[..|cs| - 1]) + EncodePos(cs[|cs| - 1].pos)
  }

  function Values(cs: seq<Change>): (r: seq<Elem>)
    ensures |r| == |cs|
    ensures forall k :: 0 <= k < |cs| ==> r[k] == cs[k].val
  {
    if cs == [] then [] else Values(cs[..|cs| - 1]) + [cs[|cs| - 1].val]
  }

  /** The first n changes in a run of positions and values. */
  function DecodeChanges(positions: seq<byte>, values: seq<Elem>, n: nat): (r: seq<Change>)
    requires |positions| >= 4 * n && |values| >= n
    ensures |r| == n
  {
    if n == 0 then []
    else
      DecodeChanges(positions, values, n - 1) + [Change(DecodePos(positions[4 * n - 4..4 * n]), values[n - 1])]
  }

  predicate Fits(cs: seq<Change>) {
    forall k :: 0 <= k < |cs| ==> cs[k].pos < MAX_POS
  }

  lemma {:induction false} DecodePrefix(p: seq<byte>, p': seq<byte>, v: seq<Elem>, v': seq<Elem>, n: nat)
    requires |p| >= 4 * n && |v| >= n
    ensures DecodeChanges(p + p', v + v', n) == DecodeChanges(p, v, n)
  {
    if n > 0 {
      DecodePrefix(p, p', v, v', n - 1);
      assert (p + p')[4 * n - 4..4 * n] == p[4 * n - 4..4 * n];
    }
  }

  lemma {:induction false} ChangesRoundTrip(cs: seq<Change>)
    requires Fits(cs)
    ensures DecodeChanges(EncodeAll(cs), Values(cs), |cs|) == cs
  {
    if cs != [] {
      var n := |cs| - 1;
      ChangesRoundTrip(cs[..n]);
      DecodeOneMore(EncodeAll(cs[..n]), Values(cs[..n]), cs[n], n);
      assert cs == cs[..n] + [cs[n]];
    }
  }

  lemma DecodeOneMore(p: seq<byte>, v: seq<Elem>, c: Change, n: nat)
    requires |p| == 4 * n && |v| == n && c.pos < MAX_POS
    ensures DecodeChanges(p + EncodePos(c.pos), v + [c.val], n + 1) == DecodeChanges(p, v, n) + [c]
  {
    PosRoundTrip(c.pos);
    DecodePrefix(p, EncodePos(c.pos), v, [c.val], n);
    assert (p + EncodePos(c.pos))[4 * (n + 1) - 4..4 * (n + 1)] == EncodePos(c.pos);
  }

  // ----- flushes -----

  /** A sparse flush needs every position to fit in an int32; a dense one carries none. */
  ghost predicate Packable(items: seq<Item>, dense: bool) {
    forall k :: 0 <= k < |items| ==> PackableItem(items[k], dense)
  }

  ghost predicate PackableItem(it: Item, dense: bool) {
    if dense then forall k :: 0 <= k < |it.changes| ==> it.changes[k].pos == k
    else it.numel < MAX_POS && forall k :: 0 <= k < |it.changes| ==> it.changes[k].pos < it.numel
  }

  ghost function Pieces(it: Item, dense: bool): (r: seq<byte>)
    requires PackableItem(it, dense)
  {
    if dense then [] else EncodeAll(it.changes)
  }

  ghost function Assemble(bucket: seq<Item>, dense: bool): (f: Flush)
    requires Packable(bucket, dense)
    ensures |f.params| == |bucket|
  {
    if bucket == [] then Flush([], [], [])
    else
      var n := |bucket| - 1;
      var f, it := Assemble(bucket[..n], dense), bucket[n];
      Flush(f.params + [EntryFor(f, it, dense)], f.positions + Pieces(it, dense), f.values + Values(it.changes))
  }

  ghost function EntryFor(f: Flush, it: Item, dense: bool): DeltaParam
    requires PackableItem(it, dense)
  {
    DeltaParam(it.name, it.numel, |f.positions|, |f.positions| + |Pieces(it, dense)|,
               |f.values|, |f.values| + |it.changes|)
  }

  lemma AssembleStep(bucket: seq<Item>, k: nat, dense: bool)
    requires Packable(bucket, dense) && k < |bucket| && PackableItem(bucket[k], dense)
    ensures var f, it := Assemble(bucket[..k], dense), bucket[k];
            Assemble(bucket[..k + 1], dense)
            == Flush(f.params + [EntryFor(f, it, dense)], f.positions + Pieces(it, dense), f.values + Values(it.changes))
  {
    assert bucket[..k + 1][..k] == bucket[..k];
  }

  /** Concatenates a bucket; dense flushes carry values only. */
  method AssembleFlush(bucket: seq<Item>, dense: bool) returns (f: Flush)
    requires Packable(bucket, dense)
    ensures f == Assemble(bucket, dense)
  {
    f := Flush([], [], []);
    for k := 0 to |bucket|
      invariant f == Assemble(bucket[..k], dense)
    {
      var it := bucket[k];
      assert PackableItem(it, dense);
      var posOff, valOff, nnz := |f.positions|, |f.values|, |it.changes|;
      var pieces := if dense then [] else EncodeAll(it.changes);
      AssembleStep(bucket, k, dense);
      f := Flush(f.params + [DeltaParam(it.name, it.numel, posOff, posOff + |pieces|, valOff, valOff + nnz)],
                 f.positions + pieces,
                 f.values + Values(it.changes));
    }
    assert bucket[..|bucket|] == bucket;
  }

  // ----- decoding -----

  predicate InRange(f: Flush, p: DeltaParam, dense: bool) {
    && p.posStart <= p.posEnd <= |f.positions|
    && p.valStart <= p.valEnd <= |f.values|
    && (!dense ==> p.posEnd - p.posStart == 4 * (p.valEnd - p.valStart))
  }

  function DenseChanges(values: seq<Elem>): (r: seq<Change>)
    ensures |r| == |values|
    ensures forall k :: 0 <= k < |r| ==> r[k] == Change(k, values[k])
  {
    if values == [] then []
    else
      var n := |values| - 1;
      DenseChanges(values[..n]) + [Change(n, values[n])]
  }

  function DecodeEntry(f: Flush, p: DeltaParam, dense: bool): Item
    requires InRange(f, p, dense)
  {
    var values := f.values[p.valStart..p.valEnd];
    Item(p.name, p.numel,
         if dense then DenseChanges(values) else DecodeChanges(f.positions[p.posStart..p.posEnd], values, |values|))
  }

  /** The entries' ranges start at 0, follow each other without gap or overlap, and end where the flush ends. */
  ghost predicate Tiles(f: Flush) {
    forall k :: 0 <= k <= |f.params| ==> TileAt(f, k)
  }

  /** Where entry k starts, or the flush ends, is where the entry before it ends, or the flush starts. */
  ghost predicate TileAt(f: Flush, k: nat)
    requires k <= |f.params|
  {
    && (if k == 0 then 0 else f.params[k - 1].posEnd) == (if k < |f.params| then f.params[k].posStart else |f.positions|)
    && (if k == 0 then 0 else f.params[k - 1].valEnd) == (if k < |f.params| then f.params[k].valStart else |f.values|)
  }

  ghost predicate Decodes(f: Flush, dense: bool, items: seq<Item>) {
    && |f.params| == |items|
    && forall k :: 0 <= k < |items| ==> InRange(f, f.params[k], dense) && DecodeEntry(f, f.params[k], dense) == items[k]
  }

  /** Appending to a flush does not change what an earlier entry decodes to. */
  lemma DecodeStable(f: Flush, g: Flush, p: DeltaParam, dense: bool)
    requires InRange(f, p, dense) && f.positions <= g.positions && f.values <= g.values
    ensures InRange(g, p, dense) && DecodeEntry(g, p, dense) == DecodeEntry(f, p, dense)
  {
    assert g.positions[p.posStart..p.posEnd] == f.positions[p.posStart..p.posEnd];
    assert g.values[p.valStart..p.valEnd] == f.values[p.valStart..p.valEnd];
  }

  lemma DecodeNewest(f: Flush, it: Item, dense: bool)
    requires PackableItem(it, dense)
    ensures var g := Flush(f.params, f.positions + Pieces(it, dense), f.values + Values(it.changes));
            InRange(g, EntryFor(f, it, dense), dense) && DecodeEntry(g, EntryFor(f, it, dense), dense) == it
  {
    var g := Flush(f.params, f.positions + Pieces(it, dense), f.values + Values(it.changes));
    var p := EntryFor(f, it, dense);
    assert g.values[p.valStart..p.valEnd] == Values(it.changes);
    assert g.positions[p.posStart..p.posEnd] == Pieces(it, dense);
    if dense {
      assert DenseChanges(Values(it.changes)) == it.changes;
    } else {
      ChangesRoundTrip(it.changes);
    }
  }

  lemma TilesMore(f: Flush, it: Item, dense: bool)
    requires Tiles(f) && PackableItem(it, dense)
    ensures Tiles(Flush(f.params + [EntryFor(f, it, dense)], f.positions + Pieces(it, dense), f.values + Values(it.changes)))
  {
    var g := Flush(f.params + [EntryFor(f, it, dense)], f.positions + Pieces(it, dense), f.values + Values(it.changes));
    forall k | 0 <= k <= |g.params| ensures TileAt(g, k) {
      assert k <= |f.params| ==> TileAt(f, k);
    }
  }

  /** A flush decodes to the bucket it was assembled from, and its entries tile it. */
  lemma {:induction false} FlushRoundTrip(bucket: seq<Item>, dense: bool)
    requires Packable(bucket, dense)
    ensures Decodes(Assemble(bucket, dense), dense, bucket)
    ensures Tiles(Assemble(bucket, dense))
  {
    if bucket != [] {
      var n := |bucket| - 1;
      var f, g, it := Assemble(bucket[..n], dense), Assemble(bucket, dense), bucket[n];
      FlushRoundTrip(bucket[..n], dense);
      assert PackableItem(it, dense);
      TilesMore(f, it, dense);
      DecodeNewest(f, it, dense);
      forall k | 0 <= k < |bucket|
        ensures InRange(g, g.params[k], dense) && DecodeEntry(g, g.params[k], dense) == bucket[k]
      {
        if k < n {
          DecodeStable(f, g, f.params[k], dense);
        }
      }
    }
  }
}
