/** Sequences cut into blocks of one size, and the division that goes with it. */
module Blocks {
  import opened Common

  /** Consecutive pieces of the given size; the last may be shorter. */
  function Cut<T>(rows: seq<T>, size: nat): seq<seq<T>>
    requires size > 0
    decreases |rows|
  {
    if |rows| == 0 then []
    else if |rows| <= size then [rows]
    else [rows[..size]] + Cut(rows[size..], size)
  }

  ghost predicate Uniform<T>(blocks: seq<seq<T>>, size: nat) {
    forall i :: 0 <= i < |blocks| ==> |blocks[i]| == size
  }

  lemma FlattenFirst<T>(block: seq<T>, rest: seq<seq<T>>)
    ensures Flatten([block] + rest) == block + Flatten(rest)
  {
    FlattenAppend([block], rest);
    FlattenOne(block);
  }

  lemma {:induction false} FlattenLength<T>(blocks: seq<seq<T>>, size: nat)
    requires Uniform(blocks, size)
    ensures |Flatten(blocks)| == |blocks| * size
  {
    if blocks != [] {
      var n := |blocks| - 1;
      FlattenLength(blocks[..n], size);
      assert |blocks| * size == n * size + size;
    }
  }

  /** Cutting undoes laying equal blocks end to end. */
  lemma {:induction false} CutFlatten<T>(blocks: seq<seq<T>>, size: nat)
    requires size > 0 && Uniform(blocks, size)
    ensures Cut(Flatten(blocks), size) == blocks
  {
    if blocks != [] {
      var rest := blocks[1..];
      assert blocks == [blocks[0]] + rest;
      FlattenFirst(blocks[0], rest);
      CutFlatten(rest, size);
      FlattenLength(rest, size);
      if rest == [] {
        assert Flatten(blocks) == blocks[0];
      } else {
        assert |rest| * size >= size;
        assert Flatten(blocks)[..size] == blocks[0] && Flatten(blocks)[size..] == Flatten(rest);
      }
    }
  }

  /** Rows that fill n blocks are those blocks end to end. */
  lemma {:induction false} FlattenCut<T>(rows: seq<T>, size: nat, n: nat)
    requires size > 0 && |rows| == n * size
    ensures |Cut(rows, size)| == n && Uniform(Cut(rows, size), size) && Flatten(Cut(rows, size)) == rows
    decreases n
  {
    if n > 0 {
      assert n * size == (n - 1) * size + size;
      if n == 1 {
        FlattenOne(rows);
      } else {
        assert (n - 1) * size >= size;
        FlattenCut(rows[size..], size, n - 1);
        FlattenFirst(rows[..size], Cut(rows[size..], size));
      }
    }
  }

  /** The pieces of any rows: end to end they are the rows, and all but the last have the size. */
  lemma {:induction false} CutPieces<T>(rows: seq<T>, size: nat)
    requires size > 0
    ensures Flatten(Cut(rows, size)) == rows
    ensures forall i :: 0 <= i < |Cut(rows, size)| ==> 0 < |Cut(rows, size)[i]| <= size
    ensures forall i :: 0 <= i < |Cut(rows, size)| - 1 ==> |Cut(rows, size)[i]| == size
    decreases |rows|
  {
    if |rows| > size {
      CutPieces(rows[size..], size);
      FlattenFirst(rows[..size], Cut(rows[size..], size));
    } else if |rows| > 0 {
      FlattenOne(rows);
    }
  }

  lemma {:induction false} PartOf<T>(parts: seq<seq<T>>, s: nat, i: nat)
    requires s < |parts| && i < |parts[s]|
    ensures parts[s][i] in Flatten(parts)
  {
    var n := |parts| - 1;
    if s < n {
      PartOf(parts[..n], s, i);
    } else {
      assert Flatten(parts)[|Flatten(parts[..n])| + i] == parts[s][i];
    }
  }

  lemma Quotient(n: nat, q: nat, r: nat)
    requires n > 0 && r < n
    ensures (n * q + r) / n == q && (n * q + r) % n == r
  {
    var x := n * q + r;
    var t := x / n;
    assert x == n * t + x % n;
    if t < q {
      Times(n, t + 1, q);
      assert false;
    } else if q < t {
      Times(n, q + 1, t);
      assert false;
    }
  }

  lemma {:induction false} Times(n: nat, a: nat, b: nat)
    requires a <= b
    ensures n * a <= n * b
    ensures n * (a + 1) == n * a + n
  {
  }

  lemma Exact(a: nat, n: nat) returns (q: nat)
    requires n > 0 && a > 0 && a % n == 0
    ensures q > 0 && a == n * q && q == a / n
  {
    q := a / n;
  }

  /** Sums and differences of multiples. */
  lemma Multiples(a: nat, b: nat, n: nat)
    requires n > 0 && a % n == 0 && b % n == 0
    ensures (a + b) % n == 0
    ensures a >= b ==> (a - b) % n == 0
  {
    var x := Quotients(a, n);
    var y := Quotients(b, n);
    Quotient(n, x + y, 0);
    assert a + b == n * (x + y);
    if a >= b {
      Difference(x, y, n);
    }
  }

  lemma Quotients(a: nat, n: nat) returns (x: nat)
    requires n > 0 && a % n == 0
    ensures a == n * x
  {
    x := a / n;
  }

  lemma Difference(x: nat, y: nat, n: nat)
    requires n > 0 && n * x >= n * y
    ensures (n * x - n * y) % n == 0
  {
    if x < y {
      Times(n, x + 1, y);
      assert false;
    }
    Quotient(n, x - y, 0);
    assert n * x - n * y == n * (x - y);
  }

  /** Each share's blocks laid end to end. */
  function Ends<T>(shares: seq<seq<seq<T>>>): (r: seq<seq<T>>)
    ensures |r| == |shares| && forall s :: 0 <= s < |r| ==> r[s] == Flatten(shares[s])
  {
    seq(|shares|, s requires 0 <= s < |shares| => Flatten(shares[s]))
  }

  lemma {:induction false} FlattenEnds<T>(shares: seq<seq<seq<T>>>)
    ensures Flatten(Ends(shares)) == Flatten(Flatten(shares))
  {
    if shares != [] {
      var n := |shares| - 1;
      FlattenEnds(shares[..n]);
      assert Ends(shares)[..n] == Ends(shares[..n]);
      FlattenAppend(Flatten(shares[..n]), shares[n]);
    }
  }

  lemma Within(i: nat, size: nat, n: nat)
    requires size > 0 && i < n * size
    ensures i / size < n && i == (i / size) * size + i % size
  {
    if i / size >= n {
      Times(size, n, i / size);
    }
  }

  lemma UniformPrefix<T>(blocks: seq<seq<T>>, size: nat, b: nat)
    requires Uniform(blocks, size) && b <= |blocks|
    ensures |Flatten(blocks[..b])| == b * size
  {
    FlattenLength(blocks[..b], size);
  }

  /** Where an element of equal blocks laid end to end comes from. */
  lemma FlattenAt<T>(blocks: seq<seq<T>>, size: nat, i: nat)
    requires size > 0 && Uniform(blocks, size) && i < |blocks| * size
    ensures |Flatten(blocks)| == |blocks| * size && i / size < |blocks|
    ensures Flatten(blocks)[i] == blocks[i / size][i % size]
  {
    Within(i, size, |blocks|);
    FlattenLength(blocks, size);
    UniformPrefix(blocks, size, i / size);
    FlattenPosition(blocks, i / size, i % size);
  }

  lemma Spread(n: nat, size: nat)
    ensures (n + 1) * size == n * size + size && n * size == size * n >= 0
  {
  }

  /** The pieces of a cut, one by one. */
  lemma {:induction false} CutAt<T>(row: seq<T>, size: nat, n: nat, j: nat)
    requires size > 0 && |row| == n * size && j < n
    ensures |Cut(row, size)| == n && j * size + size <= |row| && Cut(row, size)[j] == row[j * size..j * size + size]
    decreases n
  {
    FlattenCut(row, size, n);
    Spread(n - 1, size);
    if n > 1 {
      Times(size, 1, n - 1);
      FlattenCut(row[size..], size, n - 1);
      if j > 0 {
        CutAt(row[size..], size, n - 1, j - 1);
        Spread(j - 1, size);
        SliceOfRest(row, size, (j - 1) * size, (j - 1) * size + size);
      }
    }
  }

  lemma SliceOfRest<T>(row: seq<T>, size: nat, a: nat, b: nat)
    requires a <= b && size + b <= |row|
    ensures row[size..][a..b] == row[size + a..size + b]
  {
  }
}
