/** The sending loop of the Mooncake engine: which weights go into which bucket. */
module MooncakeSender {
  import Blocks
  import opened Common
  import opened Relay

  /** bucket_meta[name] = entry: a Python dict keeps the place of a name it already holds. */
  function Put(meta: seq<Meta>, m: Meta): (r: seq<Meta>)
    ensures (forall k :: 0 <= k < |meta| ==> meta[k].name != m.name) ==> r == meta + [m]
    ensures forall y :: 0 <= y < |meta| && meta[y].name == m.name && (forall k :: 0 <= k < y ==> meta[k].name != m.name)
                        ==> r == meta[y := m]
  {
    if meta == [] then [m]
    else if meta[0].name == m.name then [m] + meta[1..]
    else [meta[0]] + Put(meta[1..], m)
  }

  /**
   * The buckets sent, and the one being filled, once the first k weights are
   * placed: a weight joins the current bucket unless it does not fit.
   */
  function Place(ws: seq<Weight>, size: nat, k: nat): (r: (seq<Bucket>, Bucket))
    requires k <= |ws|
  {
    if k == 0 then ([], [])
    else
      var (sent, current) := Place(ws, size, k - 1);
      PlaceOne(sent, current, ws[k - 1], size)
  }

  function PlaceOne(sent: seq<Bucket>, current: Bucket, w: Weight, size: nat): (r: (seq<Bucket>, Bucket)) {
    if |Bytes(current)| + |w.bytes| > size then (sent + [current], [w]) else (sent, current + [w])
  }

  lemma PlaceNext(ws: seq<Weight>, size: nat, k: nat, sent: seq<Bucket>, current: Bucket)
    requires k < |ws| && Place(ws, size, k) == (sent, current)
    ensures Place(ws, size, k + 1) == PlaceOne(sent, current, ws[k], size)
  {
  }

  function Pack(ws: seq<Weight>, size: nat): (r: seq<Bucket>)
    ensures |r| >= 1
  {
    var (sent, current) := Place(ws, size, |ws|);
    sent + [current]
  }

  ghost predicate AllFit(ws: seq<Weight>, size: nat) {
    forall i :: 0 <= i < |ws| ==> |ws[i].bytes| <= size
  }

  lemma BytesAppend(b: Bucket, w: Weight)
    ensures Bytes([]) == [] && Bytes(b + [w]) == Bytes(b) + w.bytes
  {
    assert (b + [w])[..|b|] == b;
  }

  /** The names of a bucket are the names of its weights, each once. */
  lemma {:induction false} NamesExact(b: Bucket)
    ensures forall name :: name in Names(b) <==> exists k :: 0 <= k < |b| && b[k].name == name
    ensures forall y, z :: 0 <= y < z < |Names(b)| ==> Names(b)[y] != Names(b)[z]
  {
    if b != [] {
      var n := |b| - 1;
      NamesExact(b[..n]);
      forall name ensures name in Names(b) <==> exists k :: 0 <= k < |b| && b[k].name == name {
        if name in Names(b[..n]) {
          var k :| 0 <= k < n && b[..n][k].name == name;
          assert b[k].name == name;
        }
        if k :| 0 <= k < |b| && b[k].name == name {
          assert k < n ==> b[..n][k].name == name;
        }
      }
    }
  }

  lemma {:induction false} LastOfName(b: Bucket, name: string)
    requires name in Names(b)
    ensures b[LastOf(b, name)].name == name
  {
    if b[|b| - 1].name != name {
      LastOfName(b[..|b| - 1], name);
    }
  }

  lemma OneMore(b: Bucket, w: Weight)
    ensures Names(b + [w]) == if w.name in Names(b) then Names(b) else Names(b) + [w.name]
    ensures forall name :: name in Names(b + [w]) ==>
              (if name == w.name then LastOf(b + [w], name) == |b|
               else name in Names(b) && LastOf(b + [w], name) == LastOf(b, name))
    ensures MetaOf(b + [w], |b|) == Meta(w.name, w.item, |Bytes(b)|, |w.bytes|)
    ensures forall k :: 0 <= k < |b| ==> MetaOf(b + [w], k) == MetaOf(b, k)
  {
    assert (b + [w])[..|b|] == b;
    forall k | 0 <= k < |b| ensures MetaOf(b + [w], k) == MetaOf(b, k) {
      assert (b + [w])[..k] == b[..k];
    }
  }

  /** Entering one weight after the other in the dict gives the records of the bucket. */
  lemma PutIsMetas(b: Bucket, w: Weight)
    ensures Put(Metas(b), Meta(w.name, w.item, |Bytes(b)|, |w.bytes|)) == Metas(b + [w])
  {
    var m := Meta(w.name, w.item, |Bytes(b)|, |w.bytes|);
    NamesExact(b);
    forall y | 0 <= y < |Metas(b)| ensures Metas(b)[y].name == Names(b)[y] {
      LastOfName(b, Names(b)[y]);
    }
    if w.name in Names(b) {
      var y :| 0 <= y < |Names(b)| && Names(b)[y] == w.name;
      assert Put(Metas(b), m) == Metas(b)[y := m];
      MetasAfter(b, w, y);
    } else {
      assert Put(Metas(b), m) == Metas(b) + [m];
      MetasAfter(b, w, |Names(b)|);
    }
  }

  /** The record of the name at place y is that of the new weight, the others stay. */
  lemma MetasAfter(b: Bucket, w: Weight, y: nat)
    requires y <= |Names(b)| && (if y < |Names(b)| then Names(b)[y] == w.name else w.name !in Names(b))
    requires forall z :: 0 <= z < |Names(b)| && z != y ==> Names(b)[z] != w.name
    ensures var m := Meta(w.name, w.item, |Bytes(b)|, |w.bytes|);
            Metas(b + [w]) == if y < |Names(b)| then Metas(b)[y := m] else Metas(b) + [m]
  {
    OneMore(b, w);
    forall z | 0 <= z < |Names(b)| && z != y ensures Metas(b + [w])[z] == Metas(b)[z] {
      assert Names(b + [w])[z] in Names(b + [w]);
    }
  }

  ghost predicate Sized(bs: seq<Bucket>, size: nat) {
    forall b :: 0 <= b < |bs| ==> |Bytes(bs[b])| <= size
  }

  ghost predicate NoneEmpty(bs: seq<Bucket>) {
    forall b :: 0 <= b < |bs| ==> bs[b] != []
  }

  /** The bucket was only closed because the first weight of the next one did not fit in it. */
  ghost predicate ClosedFor(b: Bucket, next: Bucket, size: nat) {
    next != [] && |Bytes(b)| + |next[0].bytes| > size
  }

  ghost predicate Greedy(bs: seq<Bucket>, size: nat) {
    forall j, k :: 0 <= j && k == j + 1 && k < |bs| ==> ClosedFor(bs[j], bs[k], size)
  }

  lemma {:induction false} PlaceGreedy(ws: seq<Weight>, size: nat, k: nat)
    requires k <= |ws|
    ensures var (sent, current) := Place(ws, size, k); Greedy(sent + [current], size)
  {
    if k > 0 {
      PlaceGreedy(ws, size, k - 1);
      var (sent, current) := Place(ws, size, k - 1);
      var (sent', current') := Place(ws, size, k);
      var was: seq<Bucket>, now: seq<Bucket> := sent + [current], sent' + [current'];
      forall j, k | 0 <= j && k == j + 1 && k < |now| ensures ClosedFor(now[j], now[k], size) {
        if k < |was| {
          assert ClosedFor(was[j], was[k], size);
        }
      }
    }
  }

  /** Placing neither loses nor reorders a weight. */
  lemma {:induction false} PlaceJoins(ws: seq<Weight>, size: nat, k: nat)
    requires k <= |ws|
    ensures Flatten(Place(ws, size, k).0) + Place(ws, size, k).1 == ws[..k]
  {
    if k > 0 {
      PlaceJoins(ws, size, k - 1);
      var before := Place(ws, size, k - 1);
      FlattenMore(before.0, before.1, ws[k - 1], ws[..k - 1]);
      assert ws[..k] == ws[..k - 1] + [ws[k - 1]];
    }
  }

  lemma PlaceFlattens(ws: seq<Weight>, size: nat, k: nat)
    requires k <= |ws|
    ensures var (sent, current) := Place(ws, size, k); Flatten(sent) + current == ws[..k]
    ensures var (sent, current) := Place(ws, size, k); |current| <= k && current == ws[k - |current|..k]
  {
    PlaceJoins(ws, size, k);
    TailOf(Flatten(Place(ws, size, k).0), Place(ws, size, k).1, ws, k);
  }

  /** No bucket exceeds its size, and none that was sent is empty. */
  lemma {:induction false} PlaceSized(ws: seq<Weight>, size: nat, k: nat)
    requires k <= |ws| && AllFit(ws, size)
    ensures var (sent, current) := Place(ws, size, k);
            Sized(sent, size) && NoneEmpty(sent) && |Bytes(current)| <= size && (k > 0 ==> current != [])
  {
    if k > 0 {
      PlaceSized(ws, size, k - 1);
      var (sent, current) := Place(ws, size, k - 1);
      BytesAppend([], ws[k - 1]);
      BytesAppend(current, ws[k - 1]);
      assert [] + [ws[k - 1]] == [ws[k - 1]];
    }
  }

  /** Packing partitions the weights in order into buckets within the size; only a sync without weights has an empty one. */
  lemma PackPartitions(ws: seq<Weight>, size: nat)
    ensures Flatten(Pack(ws, size)) == ws && Greedy(Pack(ws, size), size)
    ensures AllFit(ws, size) ==> Sized(Pack(ws, size), size) && (ws != [] ==> NoneEmpty(Pack(ws, size)))
  {
    var (sent, current) := Place(ws, size, |ws|);
    PlaceFlattens(ws, size, |ws|);
    PlaceGreedy(ws, size, |ws|);
    assert (sent + [current])[..|sent|] == sent;
    assert ws[..|ws|] == ws;
    if AllFit(ws, size) {
      PlaceSized(ws, size, |ws|);
    }
  }

  /** A record per bucket, each with the bytes its half held when it was sent; the last is marked when the loop is done. */
  ghost predicate SendsBuckets(bs: seq<Bucket>, done: bool, sent: seq<Info>, shipped: seq<seq<byte>>) {
    && |sent| == |shipped| == |bs|
    && forall j :: 0 <= j < |bs| ==>
         && sent[j] == Info(Metas(bs[j]), j % 2, j % 2, |Bytes(bs[j])|, done && j == |bs| - 1)
         && shipped[j] == Bytes(bs[j])
  }

  lemma NextHalf(n: nat)
    ensures 1 - n % 2 == (n + 1) % 2
  {
  }

  /** The loop variables describe the current bucket, and its bytes are in the half at start. */
  ghost predicate Filling(current: Bucket, meta: seq<Meta>, offset: nat, half: seq<byte>) {
    meta == Metas(current) && offset == |Bytes(current)| && half == Bytes(current)
  }

  /**
   * The sending loop without its waits. buf is the engine's buffer of two
   * halves; shipped records the bytes of the half at each send. The loop stops
   * with ok == false when a weight does not fit in an empty bucket.
   */
  method SendLoop(ws: seq<Weight>, size: nat, buf: array<byte>, ghost n: nat)
    returns (ok: bool, sent: seq<Info>, shipped: seq<seq<byte>>)
    requires buf.Length == 2 * size
    modifies buf
    ensures ok <==> AllFit(ws, size)
    ensures ok ==> SendsInfos(Config(n, size, Pack(ws, size)), sent, shipped)
  {
    var v := Loop([], 0, 0, 0, [], []);  // current = buf[start : start + size]
    ghost var bs: seq<Bucket>, current: Bucket := [], [];
    for i := 0 to |ws|
      invariant forall k :: 0 <= k < i ==> |ws[k].bytes| <= size
      invariant Place(ws, size, i) == (bs, current)
      invariant Describes(v, size, bs, current, buf)
    {
      ghost var next := PlaceOne(bs, current, ws[i], size);
      PlaceNext(ws, size, i, bs, current);
      ok, v := PutOrTurn(buf, size, v, ws[i], bs, current);
      if !ok {
        return false, v.sent, v.shipped;
      }
      bs, current := next.0, next.1;
    }
    sent, shipped := Ship(v.meta, v.idx, v.offset, buf[v.start..v.start + v.offset], true, v.sent, v.shipped, bs, current);
    ok := true;
    LoopSendsInfos(n, size, ws, bs, current, sent, shipped);
  }

  /** The loop's variables. */
  datatype Loop = Loop(meta: seq<Meta>, offset: nat, idx: nat, start: nat, sent: seq<Info>, shipped: seq<seq<byte>>)

  ghost predicate Describes(v: Loop, size: nat, bs: seq<Bucket>, current: Bucket, buf: array<byte>)
    reads buf
  {
    && buf.Length == 2 * size && Side(bs, size, v.idx, v.start) && v.offset <= size
    && Filling(current, v.meta, v.offset, buf[v.start..v.start + v.offset])
    && SendsBuckets(bs, false, v.sent, v.shipped)
  }

  /** Sends the current bucket if there is no room for the weight in it. */
  method MakeRoom(buf: array<byte>, size: nat, v: Loop, w: Weight, ghost bs: seq<Bucket>, ghost current: Bucket)
    returns (v': Loop, ghost bs': seq<Bucket>, ghost current': Bucket)
    requires Describes(v, size, bs, current, buf)
    ensures Describes(v', size, bs', current', buf)
    ensures PlaceOne(bs, current, w, size) == (bs', current' + [w])
    ensures v'.offset + |w.bytes| <= size || v'.offset == 0
  {
    v', bs', current' := v, bs, current;
    if v.offset + |w.bytes| > size {
      var sent, shipped, idx, start := ShipAndTurn(v.meta, v.idx, v.start, v.offset, buf[v.start..v.start + v.offset], size,
                                                   v.sent, v.shipped, bs, current);
      v' := Loop([], 0, idx, start, sent, shipped);
      bs', current' := bs + [current], [];
      assert [] + [w] == [w];
    }
  }

  /** Puts a weight into the current bucket, or into the next one if there is no room; false if it fits in none. */
  method PutOrTurn(buf: array<byte>, size: nat, v: Loop, w: Weight, ghost bs: seq<Bucket>, ghost current: Bucket)
    returns (ok: bool, v': Loop)
    requires Describes(v, size, bs, current, buf)
    modifies buf
    ensures ok <==> |w.bytes| <= size
    ensures ok ==> var (sent, filling) := PlaceOne(bs, current, w, size); Describes(v', size, sent, filling, buf)
  {
    ghost var sent, target;
    v', sent, target := MakeRoom(buf, size, v, w, bs, current);
    if v'.offset + |w.bytes| > size {
      return false, v';
    }
    var meta, offset := PutWeight(buf, v'.start, v'.meta, v'.offset, w, target);
    return true, v'.(meta := meta, offset := offset);
  }

  /** The half that the bucket after bs goes to, and where it starts. */
  ghost predicate Side(bs: seq<Bucket>, size: nat, idx: nat, start: nat) {
    idx == |bs| % 2 && start == if idx == 0 then 0 else size
  }

  /** Sends the record of a full bucket, and turns to the other half. */
  method ShipAndTurn(meta: seq<Meta>, idx: nat, start: nat, offset: nat, half: seq<byte>, size: nat, sent: seq<Info>,
                     shipped: seq<seq<byte>>, ghost bs: seq<Bucket>, ghost current: Bucket)
    returns (sent': seq<Info>, shipped': seq<seq<byte>>, idx': nat, start': nat)
    requires Side(bs, size, idx, start) && Filling(current, meta, offset, half)
    requires SendsBuckets(bs, false, sent, shipped)
    ensures SendsBuckets(bs + [current], false, sent', shipped') && Side(bs + [current], size, idx', start')
  {
    sent', shipped' := Ship(meta, idx, offset, half, false, sent, shipped, bs, current);
    NextHalf(|bs|);
    idx' := 1 - idx;
    start' := size - start;
  }

  /** Sends the record of the current bucket. */
  method Ship(meta: seq<Meta>, idx: nat, offset: nat, half: seq<byte>, isLast: bool, sent: seq<Info>,
              shipped: seq<seq<byte>>, ghost bs: seq<Bucket>, ghost current: Bucket)
    returns (sent': seq<Info>, shipped': seq<seq<byte>>)
    requires idx == |bs| % 2 && Filling(current, meta, offset, half)
    requires SendsBuckets(bs, false, sent, shipped)
    ensures SendsBuckets(bs + [current], isLast, sent', shipped')
  {
    sent' := sent + [Info(meta, idx, idx, offset, isLast)];
    shipped' := shipped + [half];
  }

  lemma FillingMore(current: Bucket, meta: seq<Meta>, offset: nat, half: seq<byte>, w: Weight)
    requires Filling(current, meta, offset, half)
    ensures Filling(current + [w], Put(meta, Meta(w.name, w.item, offset, |w.bytes|)), offset + |w.bytes|, half + w.bytes)
  {
    BytesAppend(current, w);
    PutIsMetas(current, w);
  }

  /** Enters one weight in bucket_meta and copies its bytes into the half that starts at start. */
  method PutWeight(buf: array<byte>, start: nat, meta: seq<Meta>, offset: nat, w: Weight, ghost current: Bucket)
    returns (meta': seq<Meta>, offset': nat)
    requires start + offset + |w.bytes| <= buf.Length
    requires Filling(current, meta, offset, buf[start..start + offset])
    modifies buf
    ensures offset' == offset + |w.bytes|
    ensures Filling(current + [w], meta', offset', buf[start..start + offset'])
  {
    FillingMore(current, meta, offset, buf[start..start + offset], w);
    meta' := Put(meta, Meta(w.name, w.item, offset, |w.bytes|));
    CopyInto(buf, start, offset, w.bytes);
    offset' := offset + |w.bytes|;
  }

  /** The records and bytes that the sender of the transition system sends, bucket by bucket. */
  ghost predicate SendsInfos(c: Config, sent: seq<Info>, shipped: seq<seq<byte>>) {
    && |sent| == |shipped| == |c.buckets|
    && forall j :: 0 <= j < |c.buckets| ==> sent[j] == InfoOf(c, j) && shipped[j] == Bytes(c.buckets[j])
  }

  lemma LoopSendsInfos(n: nat, size: nat, ws: seq<Weight>, bs: seq<Bucket>, current: Bucket, sent: seq<Info>,
                       shipped: seq<seq<byte>>)
    requires Place(ws, size, |ws|) == (bs, current) && SendsBuckets(bs + [current], true, sent, shipped)
    ensures SendsInfos(Config(n, size, Pack(ws, size)), sent, shipped)
  {
  }

  // ----- what arrives -----

  lemma {:induction false} NamesOfDistinct(b: Bucket)
    ensures |Names(b)| <= |b|
    ensures |Names(b)| == |b| <==> DistinctNames(b)
    ensures DistinctNames(b) ==> forall k :: 0 <= k < |b| ==> Names(b)[k] == b[k].name
  {
    if b != [] {
      var n := |b| - 1;
      NamesOfDistinct(b[..n]);
      NamesExact(b[..n]);
      if b[n].name in Names(b[..n]) {
        var k :| 0 <= k < n && b[..n][k].name == b[n].name;
        assert b[k].name == b[n].name;
      } else {
        forall k | 0 <= k < n ensures b[k].name != b[n].name {
          assert b[..n][k].name == b[k].name;
        }
        assert DistinctNames(b) <==> DistinctNames(b[..n]);
      }
    }
  }

  /** The records of a bucket describe its weights exactly if no two of them share a name. */
  lemma DescribedIff(b: Bucket)
    ensures |Described(b)| <= |b|
    ensures |Described(b)| == |b| <==> DistinctNames(b)
    ensures Described(b) == b <==> DistinctNames(b)
  {
    NamesOfDistinct(b);
    if DistinctNames(b) {
      forall k | 0 <= k < |b| ensures Described(b)[k] == b[k] {
        LastOfName(b, b[k].name);
      }
    }
  }

  ghost predicate NoNameTwice(bs: seq<Bucket>) {
    forall j :: 0 <= j < |bs| ==> DistinctNames(bs[j])
  }

  lemma {:induction false} DescribedAllIff(bs: seq<Bucket>)
    ensures |Flatten(DescribedAll(bs))| <= |Flatten(bs)|
    ensures Flatten(DescribedAll(bs)) == Flatten(bs) <==> NoNameTwice(bs)
    ensures |Flatten(DescribedAll(bs))| == |Flatten(bs)| <==> NoNameTwice(bs)
  {
    if bs != [] {
      var n := |bs| - 1;
      DescribedAllIff(bs[..n]);
      DescribedIff(bs[n]);
      assert DescribedAll(bs)[..n] == DescribedAll(bs[..n]);
      assert NoNameTwice(bs) <==> NoNameTwice(bs[..n]) && DistinctNames(bs[n]);
    }
  }

  /**
   * A finished sync has handed every receiver exactly the sender's weights if
   * and only if no bucket holds a name twice, for every chain length and
   * schedule. The records sent are those of the sending loop.
   */
  lemma SyncDelivers(ws: seq<Weight>, size: nat, n: nat, s0: State, schedule: seq<nat>, s: State, r: nat)
    requires AllFit(ws, size) && 1 <= r <= n
    requires Reached(Config(n, size, Pack(ws, size)), s0, schedule, s) && AllFinished(s)
    ensures s[r].out == ws <==> NoNameTwice(Pack(ws, size))
  {
    PackPartitions(ws, size);
    DescribedAllIff(Pack(ws, size));
    RelayDelivery(Config(n, size, Pack(ws, size)), s0, schedule, s, r);
  }

  /** With distinct names it always has. */
  lemma DistinctNamesArrive(ws: seq<Weight>, size: nat)
    requires DistinctNames(ws)
    ensures NoNameTwice(Pack(ws, size))
  {
    PackPartitions(ws, size);
    var bs := Pack(ws, size);
    forall j | 0 <= j < |bs| ensures DistinctNames(bs[j]) {
      forall k, l | 0 <= k < l < |bs[j]| ensures bs[j][k].name != bs[j][l].name {
        FlattenPosition(bs, j, k);
        FlattenPosition(bs, j, l);
      }
    }
  }

  /** Of two weights of one name in a bucket, only the second arrives. */
  lemma FirstOfNameLost(name: string, item: ItemSize, x: seq<byte>, y: seq<byte>, size: nat, n: nat)
    requires |x| + |y| <= size
    ensures var ws := [Weight(name, item, x), Weight(name, item, y)];
            Flatten(Handed(Config(n, size, Pack(ws, size)))) == [Weight(name, item, y)]
  {
    var v, w := Weight(name, item, x), Weight(name, item, y);
    BytesAppend([], v);
    assert [] + [v] == [v];
    assert Place([v, w], size, 1) == ([], [v]);
    assert Place([v, w], size, 2) == ([], [v] + [w]);
    assert [v] + [w] == [v, w] && [] + [[v, w]] == [[v, w]];
    OneMore([], v);
    OneMore([v], w);
    assert Names([v, w]) == [name];
    assert Described([v, w]) == [w];
    FlattenOne([w]);
    assert DescribedAll([[v, w]]) == [[w]];
  }

  // ----- whether it finishes -----

  ghost predicate OneItem(ws: seq<Weight>, item: ItemSize) {
    forall i :: 0 <= i < |ws| ==> ws[i].item == item && |ws[i].bytes| % item == 0
  }

  lemma {:induction false} BytesMultiple(b: Bucket, item: ItemSize)
    requires OneItem(b, item)
    ensures |Bytes(b)| % item == 0
  {
    if b != [] {
      BytesMultiple(b[..|b| - 1], item);
      Blocks.Multiples(|Bytes(b[..|b| - 1])|, |b[|b| - 1].bytes|, item);
    }
  }

  lemma BucketsOneItem(ws: seq<Weight>, size: nat, item: ItemSize, j: nat)
    requires OneItem(ws, item) && j < |Pack(ws, size)|
    ensures OneItem(Pack(ws, size)[j], item)
  {
    PackPartitions(ws, size);
    var b := Pack(ws, size)[j];
    forall k | 0 <= k < |b| ensures b[k].item == item && |b[k].bytes| % item == 0 {
      FlattenPosition(Pack(ws, size), j, k);
    }
  }

  ghost predicate Whole(size: nat, item: ItemSize) {
    size % item == 0
  }

  /** A record of whole elements can be viewed in the first half, and in the second if that starts at a whole element. */
  lemma ViewIff(c: Config, j: nat, y: nat, item: ItemSize)
    requires j < |c.buckets| && y < |Metas(c.buckets[j])| && OneItem(c.buckets[j], item)
    ensures ViewAt(c, j, y) <==> j % 2 == 0 || Whole(c.size, item)
  {
    var b := c.buckets[j];
    var k := LastOf(b, Names(b)[y]);
    BytesMultiple(b[..k], item);
    var offset := |Bytes(b[..k])|;
    if c.size % item == 0 {
      Blocks.Multiples(c.size, offset, item);
    } else if (c.size + offset) % item == 0 {
      Blocks.Multiples(c.size + offset, offset, item);
    }
  }

  /**
   * The weights are cast to one dtype, and then a sync raises no view, and so
   * can finish, if and only if the bucket size is a multiple of the item size or
   * there is only one bucket.
   */
  lemma SyncViewableIff(ws: seq<Weight>, size: nat, n: nat, item: ItemSize)
    requires AllFit(ws, size) && OneItem(ws, item)
    ensures AllViewable(Config(n, size, Pack(ws, size))) <==> Whole(size, item) || |Pack(ws, size)| == 1
  {
    var bs := Pack(ws, size);
    var c := Config(n, size, bs);
    if Whole(size, item) || |bs| == 1 {
      forall j, y | 0 <= j < |bs| && 0 <= y < |Metas(bs[j])| ensures ViewAt(c, j, y) {
        BucketsOneItem(ws, size, item, j);
        ViewIff(c, j, y, item);
      }
    } else {
      SecondNotEmpty(ws, size);
      BucketsOneItem(ws, size, item, 1);
      ViewIff(c, 1, 0, item);
    }
  }

  lemma SecondNotEmpty(ws: seq<Weight>, size: nat)
    requires AllFit(ws, size) && |Pack(ws, size)| > 1
    ensures |Names(Pack(ws, size)[1])| > 0
  {
    PackPartitions(ws, size);
    NamesExact(Pack(ws, size)[1]);
    assert Pack(ws, size)[1] != [];
    assert Pack(ws, size)[1][0].name in Names(Pack(ws, size)[1]);
  }
}
