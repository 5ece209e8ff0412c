/** Values shared by the weight-sync transports. */
module Common {

  newtype byte = x: int | 0 <= x < 256

  datatype Option<+T> = None | Some(value: T)

  datatype Result<+T, +E> = Ok(value: T) | Err(error: E)

  /** Bytes per element of a dtype. */
  type ItemSize = x: nat | x > 0 witness 1

  /** A named tensor, flattened to its bytes. */
  datatype Weight = Weight(name: string, item: ItemSize, bytes: seq<byte>)

  ghost predicate DistinctNames(ws: seq<Weight>) {
    forall i, j :: 0 <= i < j < |ws| ==> ws[i].name != ws[j].name
  }

  function Flatten<T>(parts: seq<seq<T>>): (r: seq<T>) {
    if parts == [] then [] else Flatten(parts[..|parts| - 1]) + parts[|parts| - 1]
  }

  lemma {:induction false} FlattenAppend<T>(a: seq<seq<T>>, b: seq<seq<T>>)
    ensures Flatten(a + b) == Flatten(a) + Flatten(b)
  {
    if b == [] {
      assert a + b == a;
    } else {
      var n := |b| - 1;
      FlattenAppend(a, b[..n]);
      assert (a + b)[..|a + b| - 1] == a + b[..n];
    }
  }

  /** One more element, in the last part or in a part of its own. */
  lemma FlattenMore<T>(parts: seq<seq<T>>, last: seq<T>, x: T, whole: seq<T>)
    requires Flatten(parts) + last == whole
    ensures Flatten(parts) + (last + [x]) == whole + [x]
    ensures Flatten(parts + [last]) + [x] == whole + [x]
  {
    assert (parts + [last])[..|parts|] == parts;
  }

  lemma TailOf<T>(a: seq<T>, b: seq<T>, xs: seq<T>, k: nat)
    requires k <= |xs| && a + b == xs[..k]
    ensures |b| <= k && b == xs[k - |b|..k]
  {
    assert |a| + |b| == k;
    forall i | 0 <= i < |b| ensures b[i] == xs[k - |b| + i] {
      assert (a + b)[|a| + i] == b[i];
    }
  }

  lemma FlattenStep<T>(parts: seq<seq<T>>, k: nat)
    requires k < |parts|
    ensures Flatten(parts[..k + 1]) == Flatten(parts[..k]) + parts[k]
  {
    assert parts[..k + 1][..k] == parts[..k];
  }

  lemma {:induction false} FlattenPosition<T>(parts: seq<seq<T>>, w: nat, i: nat)
    requires w < |parts| && i < |parts[w]|
    ensures |Flatten(parts[..w])| + i < |Flatten(parts)| && Flatten(parts)[|Flatten(parts[..w])| + i] == parts[w][i]
  {
    var n := |parts| - 1;
    if w < n {
      FlattenPosition(parts[..n], w, i);
      assert parts[..n][..w] == parts[..w];
    }
  }

  lemma ButLast<T>(xs: seq<T>, x: T)
    ensures (xs + [x])[..|xs + [x]| - 1] == xs
  {
  }

  lemma TakeNext<T>(xs: seq<T>, k: nat)
    requires k < |xs|
    ensures xs[..k] + [xs[k]] == xs[..k + 1]
  {
  }

  lemma FlattenOne<T>(a: seq<T>)
    ensures Flatten([a]) == a
  {
    assert [a][..0] == [];
  }

  lemma Regroup<T>(a: seq<T>, b: seq<T>, c: seq<T>)
    ensures a + b + c == a + (b + c)
  {
  }

  /** Each of 0..n-1 once, and nothing else. */
  ghost predicate OnceEach(m: multiset<nat>, n: nat) {
    forall x: nat :: m[x] == if x < n then 1 else 0
  }

  /** part[offset : offset + |data|] = data, where part is buf from start on. */
  method CopyInto(buf: array<byte>, start: nat, offset: nat, data: seq<byte>)
    requires start + offset + |data| <= buf.Length
    modifies buf
    ensures buf[start..start + offset + |data|] == old(buf[start..start + offset]) + data
    ensures buf[..start] == old(buf[..start])
    ensures buf[start + offset + |data|..] == old(buf[start + offset + |data|..])
  {
    for k := 0 to |data|
      invariant buf[..start] == old(buf[..start])
      invariant buf[start + offset + k..] == old(buf[start + offset + k..])
      invariant buf[start..start + offset + k] == old(buf[start..start + offset]) + data[..k]
    {
      buf[start + offset + k] := data[k];
      assert buf[start..start + offset + k + 1] == buf[start..start + offset + k] + [data[k]];
    }
  }
}
