/** Giving every worker's output the same non-tensor fields, so that concatenation keeps rows in step. */
module Alignment {
  import opened Common

  /** A non-tensor field: an array along the rows, an array without dimensions, or something else. */
  datatype Field<+V> = Array(values: seq<Option<V>>) | Dimensionless | NotArray

  datatype AlignError = NotAnArray | WrongLength

  type Fields<V> = map<string, Field<V>>

  predicate FieldOk<V>(f: Field<V>, n: nat) {
    f.Array? && |f.values| == n
  }

  ghost predicate FieldsOk<V>(f: Fields<V>, n: nat) {
    forall k :: k in f ==> FieldOk(f[k], n)
  }

  function Nones<V>(n: nat): (r: seq<Option<V>>)
    ensures |r| == n && forall i :: 0 <= i < n ==> r[i] == None
  {
    seq(n, _ => None)
  }

  /** The fields, with None throughout for every key that is missing. */
  function Aligned<V>(f: Fields<V>, keys: set<string>, n: nat): (r: Fields<V>)
    ensures r.Keys == f.Keys + keys
    ensures forall k :: k in r ==> r[k] == if k in f then f[k] else Array(Nones(n))
  {
    map k | k in f.Keys + keys :: if k in f then f[k] else Array(Nones(n))
  }

  class ChunkOutput<R, V> {
    const rows: seq<R>
    var fields: Fields<V>

    constructor (rows: seq<R>, fields: Fields<V>)
      ensures this.rows == rows && this.fields == fields
    {
      this.rows, this.fields := rows, fields;
    }

    /** Adds the keys that are missing; an ill-formed field of a wanted key is an error. */
    method Align(keys: set<string>) returns (error: Option<AlignError>)
      requires fields.Keys <= keys
      modifies this
      ensures error.None? <==> old(FieldsOk(fields, |rows|))
      ensures error.None? ==> fields == Aligned(old(fields), keys, |rows|)
      ensures error == Some(NotAnArray) ==> exists k :: k in old(fields) && old(fields)[k] == NotArray
      ensures error == Some(WrongLength) ==>
                exists k :: k in old(fields) && !old(fields)[k].NotArray? && !FieldOk(old(fields)[k], |rows|)
    {
      var todo := keys;
      while todo != {}
        invariant todo <= keys
        invariant forall k :: k in todo ==> Same(old(fields), fields, k)
        invariant forall k :: k in keys - todo ==> Filled(old(fields), fields, k, |rows|)
        invariant forall k :: k !in keys ==> k !in fields
        decreases |todo|
      {
        var k :| k in todo;
        ghost var was := fields;
        assert Same(old(fields), fields, k);
        if k !in fields {
          fields := fields[k := Array(Nones(|rows|))];
        } else if fields[k].NotArray? {
          return Some(NotAnArray);
        } else if !FieldOk(fields[k], |rows|) {
          return Some(WrongLength);
        }
        forall j | j in keys - (todo - {k}) ensures Filled(old(fields), fields, j, |rows|) {
          assert j != k ==> Filled(old(fields), was, j, |rows|);
        }
        todo := todo - {k};
      }
      error := None;
      AllFilled(old(fields), fields, keys, |rows|);
    }
  }

  /** Key k has been dealt with: it was well formed and is as before, or was missing and is None throughout. */
  ghost predicate Filled<V>(f: Fields<V>, g: Fields<V>, k: string, n: nat) {
    k in g && if k in f then FieldOk(f[k], n) && g[k] == f[k] else g[k] == Array(Nones(n))
  }

  lemma AllFilled<V>(f: Fields<V>, g: Fields<V>, keys: set<string>, n: nat)
    requires f.Keys <= keys && forall k :: k in keys ==> Filled(f, g, k, n)
    requires forall k :: k !in keys ==> k !in g
    ensures FieldsOk(f, n) && g == Aligned(f, keys, n)
  {
    forall k | k in f ensures FieldOk(f[k], n) {
      assert Filled(f, g, k, n);
    }
    assert g.Keys == keys == Aligned(f, keys, n).Keys;
    forall k | k in g ensures g[k] == Aligned(f, keys, n)[k] {
      assert Filled(f, g, k, n);
    }
  }

  ghost predicate Same<V>(f: Fields<V>, g: Fields<V>, k: string) {
    (k in f <==> k in g) && (k in f ==> f[k] == g[k])
  }

  /** What an output holds. */
  datatype Out<R, V> = Out(rows: seq<R>, fields: Fields<V>)

  function Keys<R, V>(outs: seq<Out<R, V>>): (r: set<string>)
    ensures forall w :: 0 <= w < |outs| ==> outs[w].fields.Keys <= r
  {
    if outs == [] then {} else Keys(outs[..|outs| - 1]) + outs[|outs| - 1].fields.Keys
  }

  ghost predicate HasKey<R, V>(outs: seq<Out<R, V>>, k: string) {
    exists w :: 0 <= w < |outs| && k in outs[w].fields
  }

  /** The fields given to every output are those that some output has. */
  lemma {:induction false} KeysExact<R, V>(outs: seq<Out<R, V>>, k: string)
    ensures k in Keys(outs) <==> HasKey(outs, k)
  {
    if outs != [] {
      var n := |outs| - 1;
      KeysExact(outs[..n], k);
      if HasKey(outs[..n], k) {
        var w :| 0 <= w < n && k in outs[..n][w].fields;
        assert k in outs[w].fields;
      }
    }
  }

  ghost predicate Holds<R, V>(o: ChunkOutput<R, V>, out: Out<R, V>)
    reads o
  {
    o.rows == out.rows && o.fields == out.fields
  }

  function AlignedOut<R, V>(out: Out<R, V>, keys: set<string>): Out<R, V> {
    Out(out.rows, Aligned(out.fields, keys, |out.rows|))
  }

  ghost predicate WellFormed<R, V>(out: Out<R, V>) {
    FieldsOk(out.fields, |out.rows|)
  }

  /** Aligns every output in place; without outputs, or with an ill-formed field, see the result. */
  method AlignAll<R, V>(outputs: seq<ChunkOutput<R, V>>, ghost outs: seq<Out<R, V>>) returns (error: Option<AlignError>)
    requires |outs| == |outputs| && forall w :: 0 <= w < |outs| ==> Holds(outputs[w], outs[w])
    requires forall v, w :: 0 <= v < w < |outputs| ==> outputs[v] != outputs[w]
    modifies outputs
    ensures error.None? <==> forall w :: 0 <= w < |outs| ==> WellFormed(outs[w])
    ensures error.None? ==> forall w :: 0 <= w < |outs| ==> Holds(outputs[w], AlignedOut(outs[w], Keys(outs)))
  {
    var keys: set<string> := {};
    for w := 0 to |outputs|
      invariant keys == Keys(outs[..w])
    {
      assert outs[..w + 1][..w] == outs[..w];
      assert Holds(outputs[w], outs[w]);
      keys := keys + outputs[w].fields.Keys;
    }
    assert outs[..|outs|] == outs;
    for w := 0 to |outputs|
      invariant forall v :: 0 <= v < w ==> WellFormed(outs[v]) && Holds(outputs[v], AlignedOut(outs[v], keys))
      invariant forall v :: w <= v < |outputs| ==> Holds(outputs[v], outs[v])
    {
      error := outputs[w].Align(keys);
      if error.Some? {
        assert !WellFormed(outs[w]);
        return;
      }
    }
    error := None;
  }

  // ----- concatenation -----

  function RowsOf<R, V>(outs: seq<Out<R, V>>): (r: seq<seq<R>>)
    ensures |r| == |outs| && forall w :: 0 <= w < |r| ==> r[w] == outs[w].rows
  {
    seq(|outs|, w requires 0 <= w < |outs| => outs[w].rows)
  }

  /** One field's arrays, worker by worker. */
  function FieldOf<R, V>(outs: seq<Out<R, V>>, k: string): (r: seq<seq<Option<V>>>)
    requires forall w :: 0 <= w < |outs| ==> k in outs[w].fields && outs[w].fields[k].Array?
    ensures |r| == |outs| && forall w :: 0 <= w < |r| ==> r[w] == outs[w].fields[k].values
  {
    seq(|outs|, w requires 0 <= w < |outs| => outs[w].fields[k].values)
  }

  lemma {:induction false} SameLengths<S, T>(a: seq<seq<S>>, b: seq<seq<T>>, w: nat)
    requires |a| == |b| && w <= |a| && forall v :: 0 <= v < |a| ==> |a[v]| == |b[v]|
    ensures |Flatten(a[..w])| == |Flatten(b[..w])|
  {
    if w > 0 {
      SameLengths(a, b, w - 1);
      assert a[..w][..w - 1] == a[..w - 1] && b[..w][..w - 1] == b[..w - 1];
    }
  }

  function AlignedOuts<R, V>(outs: seq<Out<R, V>>): (r: seq<Out<R, V>>)
    ensures |r| == |outs| && forall w :: 0 <= w < |r| ==> r[w] == AlignedOut(outs[w], Keys(outs))
  {
    seq(|outs|, w requires 0 <= w < |outs| => AlignedOut(outs[w], Keys(outs)))
  }

  lemma AlignedHaveField<R, V>(outs: seq<Out<R, V>>, k: string)
    requires k in Keys(outs) && forall w :: 0 <= w < |outs| ==> WellFormed(outs[w])
    ensures forall w :: 0 <= w < |outs| ==>
              && k in AlignedOuts(outs)[w].fields && FieldOk(AlignedOuts(outs)[w].fields[k], |outs[w].rows|)
  {
    forall w | 0 <= w < |outs|
      ensures k in AlignedOuts(outs)[w].fields && FieldOk(AlignedOuts(outs)[w].fields[k], |outs[w].rows|)
    {
      assert WellFormed(outs[w]);
    }
  }

  ghost predicate AllWellFormed<R, V>(outs: seq<Out<R, V>>) {
    forall w :: 0 <= w < |outs| ==> WellFormed(outs[w])
  }

  /** What an output's own field k becomes: its values, or None throughout. */
  ghost predicate Becomes<R, V>(out: Out<R, V>, k: string, values: seq<Option<V>>) {
    |values| == |out.rows| && forall i :: 0 <= i < |values| ==> BecomesAt(out, k, values, i)
  }

  ghost predicate BecomesAt<R, V>(out: Out<R, V>, k: string, values: seq<Option<V>>, i: nat)
    requires i < |values|
  {
    values[i] == if k in out.fields && FieldOk(out.fields[k], |values|) then out.fields[k].values[i] else None
  }

  /** The field k of the aligned outputs, worker by worker. */
  lemma AlignedField<R, V>(outs: seq<Out<R, V>>, k: string) returns (field: seq<seq<Option<V>>>)
    requires AllWellFormed(outs) && k in Keys(outs)
    ensures |field| == |outs| && forall w :: 0 <= w < |outs| ==> Becomes(outs[w], k, field[w])
    ensures forall w :: 0 <= w < |outs| ==>
              k in AlignedOuts(outs)[w].fields && AlignedOuts(outs)[w].fields[k] == Array(field[w])
  {
    AlignedHaveField(outs, k);
    field := FieldOf(AlignedOuts(outs), k);
    forall w | 0 <= w < |outs| ensures Becomes(outs[w], k, field[w]) {
      assert WellFormed(outs[w]);
    }
  }

  /** Entry i of part w: in the parts of a and b laid end to end, x and y stand at the same place. */
  ghost predicate Beside<S, T>(a: seq<seq<S>>, b: seq<seq<T>>, w: nat, i: nat, x: S, y: T)
    requires w < |a|
  {
    var at := |Flatten(a[..w])| + i;
    |Flatten(a)| == |Flatten(b)| && at < |Flatten(a)| && Flatten(a)[at] == x && Flatten(b)[at] == y
  }

  /** Parts of equal lengths stay side by side when they are laid end to end. */
  lemma InStep<S, T>(a: seq<seq<S>>, b: seq<seq<T>>, w: nat, i: nat)
    requires |a| == |b| && forall v :: 0 <= v < |a| ==> |b[v]| == |a[v]|
    requires w < |a| && i < |a[w]|
    ensures Beside(a, b, w, i, a[w][i], b[w][i])
  {
    SameLengths(a, b, w);
    SameLengths(a, b, |a|);
    assert a[..|a|] == a && b[..|a|] == b;
    FlattenPosition(a, w, i);
    FlattenPosition(b, w, i);
  }

  /** An output's own value for a field in row i, or None if it has no such field. */
  function ValueOf<R, V>(out: Out<R, V>, k: string, i: nat): Option<V> {
    if k in out.fields && out.fields[k].Array? && i < |out.fields[k].values| then out.fields[k].values[i] else None
  }

  /** The aligned arrays of field k, and the rows they belong to. */
  lemma HasField<R, V>(outs: seq<Out<R, V>>, k: string)
    requires AllWellFormed(outs) && k in Keys(outs)
    ensures forall v :: 0 <= v < |outs| ==> k in AlignedOuts(outs)[v].fields && AlignedOuts(outs)[v].fields[k].Array?
    ensures forall v :: 0 <= v < |outs| ==> |FieldOf(AlignedOuts(outs), k)[v]| == |outs[v].rows|
  {
    var field := AlignedField(outs, k);
  }

  lemma FieldValue<R, V>(outs: seq<Out<R, V>>, k: string, w: nat, i: nat)
    requires AllWellFormed(outs) && k in Keys(outs) && w < |outs| && i < |outs[w].rows|
    requires forall v :: 0 <= v < |outs| ==> k in AlignedOuts(outs)[v].fields && AlignedOuts(outs)[v].fields[k].Array?
    requires |FieldOf(AlignedOuts(outs), k)[w]| == |outs[w].rows|
    ensures FieldOf(AlignedOuts(outs), k)[w][i] == ValueOf(outs[w], k, i)
  {
    var field := AlignedField(outs, k);
    assert WellFormed(outs[w]) && BecomesAt(outs[w], k, field[w], i);
  }

  lemma RowsKept<R, V>(outs: seq<Out<R, V>>)
    ensures RowsOf(AlignedOuts(outs)) == RowsOf(outs)
  {
  }

  /**
   * If all fields are well formed, then after alignment every output has every
   * field, and concatenating the tensor rows and any field gives sequences of
   * one length, in which worker w's row i stands beside its own value for the
   * field, or None if that worker had no such field.
   */
  lemma RowsInStep<R, V>(outs: seq<Out<R, V>>, k: string, w: nat, i: nat)
    requires AllWellFormed(outs) && k in Keys(outs) && w < |outs| && i < |outs[w].rows|
    ensures forall v :: 0 <= v < |outs| ==> k in AlignedOuts(outs)[v].fields && AlignedOuts(outs)[v].fields[k].Array?
    ensures Beside(RowsOf(AlignedOuts(outs)), FieldOf(AlignedOuts(outs), k), w, i, outs[w].rows[i], ValueOf(outs[w], k, i))
  {
    HasField(outs, k);
    FieldValue(outs, k, w, i);
    RowsKept(outs);
    InStep(RowsOf(outs), FieldOf(AlignedOuts(outs), k), w, i);
  }
}
