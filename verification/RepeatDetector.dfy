/** Counting back-to-back repetitions in a response. */
module RepeatDetector {

  // ----- repeated chunks -----

  /** Among the first n chunks, those of at least minChars characters that repeat the one before them. */
  function Repeats(chunks: seq<string>, minChars: int, n: nat): nat
    requires n <= |chunks|
  {
    if n <= 1 then 0
    else Repeats(chunks, minChars, n - 1)
         + if chunks[n - 2] == chunks[n - 1] && |chunks[n - 1]| >= minChars then 1 else 0
  }

  /** Chunk k is long enough and repeats the one before it. */
  ghost predicate RepeatsBefore(chunks: seq<string>, minChars: int, k: int) {
    1 <= k < |chunks| && chunks[k] == chunks[k - 1] && |chunks[k]| >= minChars
  }

  lemma {:induction false} RepeatsExact(chunks: seq<string>, minChars: int, n: nat)
    requires n <= |chunks|
    ensures Repeats(chunks, minChars, n) == |set k | 0 <= k < n && RepeatsBefore(chunks, minChars, k)|
  {
    var these := set k | 0 <= k < n && RepeatsBefore(chunks, minChars, k);
    if n <= 1 {
      assert these == {};
    } else {
      RepeatsExact(chunks, minChars, n - 1);
      var before := set k | 0 <= k < n - 1 && RepeatsBefore(chunks, minChars, k);
      assert these == before + if RepeatsBefore(chunks, minChars, n - 1) then {n - 1} else {};
    }
  }

  /** Counts run by run, skipping each run it has counted; short chunks are passed over. */
  method ConsecutiveChunkRepeatCount(chunks: seq<string>, minChars: int) returns (extra: nat)
    ensures extra == |set k | 0 <= k < |chunks| && RepeatsBefore(chunks, minChars, k)|
  {
    RepeatsExact(chunks, minChars, |chunks|);
    extra := 0;
    var i := 0;
    while i < |chunks|
      invariant i <= |chunks|
      invariant extra == Repeats(chunks, minChars, i)
      invariant 0 < i < |chunks| && chunks[i - 1] == chunks[i] ==> |chunks[i]| < minChars
    {
      var current := chunks[i];
      if |current| < minChars {
        i := i + 1;
        continue;
      }
      var run, next := 1, i + 1;
      while next < |chunks| && chunks[next] == current
        invariant i < next <= |chunks| && run == next - i && chunks[next - 1] == current
        invariant extra + run - 1 == Repeats(chunks, minChars, next)
      {
        run := run + 1;
        next := next + 1;
      }
      if run > 1 {
        extra := extra + run - 1;
      }
      i := next;
    }
  }

  // ----- repeated runs of tokens -----

  /** A token and where it stands in the text. */
  datatype Token = Token(text: string, start: int, end: int)

  function Min(a: int, b: int): int {
    if a < b then a else b
  }

  function Max(a: int, b: int): int {
    if a > b then a else b
  }

  /** Token k has the text of the one d later. */
  predicate Same(tokens: seq<Token>, k: nat, d: nat) {
    k + d < |tokens| && tokens[k].text == tokens[k + d].text
  }

  /** The u tokens at i are, as text, those at j. */
  predicate SameUnit(tokens: seq<Token>, i: nat, j: nat, u: nat)
    requires i <= j && j + u <= |tokens|
  {
    var d := j - i;
    forall k :: i <= k < i + u ==> Same(tokens, k, d)
  }

  /** Characters from the start of the unit's first token to the end of its last. */
  function Span(tokens: seq<Token>, i: nat, u: nat): int
    requires 0 < u && i + u <= |tokens|
  {
    tokens[i + u - 1].end - tokens[i].start
  }

  /** Units from next on that equal the one at i. */
  function Copies(tokens: seq<Token>, i: nat, u: nat, next: nat): nat
    requires u > 0 && i <= next
    decreases |tokens| - next
  {
    if next + u <= |tokens| && SameUnit(tokens, i, next, u) then 1 + Copies(tokens, i, u, next + u) else 0
  }

  /** The unit at i is wide enough, and the one after it is equal. */
  predicate Hit(tokens: seq<Token>, i: nat, u: nat, minChars: int) {
    0 < u && i + 2 * u <= |tokens| && Span(tokens, i, u) >= minChars && SameUnit(tokens, i, i + u, u)
  }

  /** Units in the run that is counted at a hit. */
  function Units(tokens: seq<Token>, i: nat, u: nat): nat
    requires u > 0
  {
    2 + Copies(tokens, i, u, i + 2 * u)
  }

  /** The token after the run that is counted at a hit: where the scan goes on. */
  function End(tokens: seq<Token>, i: nat, u: nat): (e: nat)
    requires u > 0
    ensures e >= i + 2 * u
  {
    Ordered(2, Units(tokens, i, u), u);
    i + Units(tokens, i, u) * u
  }

  /** What one pass finds from i on, for units of u tokens: it skips every run it has counted. */
  function Pass(tokens: seq<Token>, i: nat, u: nat, minChars: int): (r: nat)
    requires u > 0
    decreases |tokens| - i
  {
    if i + 2 * u > |tokens| then 0
    else if !Hit(tokens, i, u, minChars) then Pass(tokens, i + 1, u, minChars)
    else Max(Units(tokens, i, u) - 1, Pass(tokens, End(tokens, i, u), u, minChars))
  }

  /** The largest count over units of 1 to u tokens. */
  function Best(tokens: seq<Token>, minChars: int, u: nat): (r: nat) {
    if u == 0 then 0 else Max(Best(tokens, minChars, u - 1), Pass(tokens, 0, u, minChars))
  }

  function MaxUnit(tokens: seq<Token>, maxUnitTokens: int): nat {
    Max(0, Min(maxUnitTokens, |tokens| / 2))
  }

  function Detected(tokens: seq<Token>, minChars: int, maxUnitTokens: int): nat {
    Best(tokens, minChars, MaxUnit(tokens, maxUnitTokens))
  }

  method RunLengthFrom(tokens: seq<Token>, i: nat, u: nat) returns (run: nat)
    requires u > 0 && i + 2 * u <= |tokens|
    ensures run == Units(tokens, i, u)
  {
    run := 2;
    var next := i + 2 * u;
    while next + u <= |tokens| && SameUnit(tokens, i, next, u)
      invariant run + Copies(tokens, i, u, next) == Units(tokens, i, u)
      decreases |tokens| - next
    {
      run := run + 1;
      next := next + u;
    }
  }

  method ContinuousTokenRepeatCount(tokens: seq<Token>, minChars: int, maxUnitTokens: int) returns (best: nat)
    ensures best == Detected(tokens, minChars, maxUnitTokens)
  {
    if |tokens| < 2 {
      return 0;
    }
    var maxUnit := Min(maxUnitTokens, |tokens| / 2);
    best := 0;
    var u: nat := 1;
    while u <= maxUnit
      invariant 1 <= u && u - 1 <= MaxUnit(tokens, maxUnitTokens)
      invariant best == Best(tokens, minChars, u - 1)
    {
      var i := 0;
      while i + 2 * u <= |tokens|
        invariant Max(best, Pass(tokens, i, u, minChars)) == Best(tokens, minChars, u)
        decreases |tokens| - i
      {
        if Span(tokens, i, u) < minChars {
          i := i + 1;
          continue;
        }
        if !SameUnit(tokens, i, i + u, u) {
          i := i + 1;
          continue;
        }
        var run := RunLengthFrom(tokens, i, u);
        best := Max(best, run - 1);
        assert i + run * u == End(tokens, i, u);
        i := i + run * u;
      }
      u := u + 1;
    }
  }

  // ----- what the count means -----

  /** n equal units of u tokens, one after the other, from i on. */
  ghost predicate RunOf(tokens: seq<Token>, i: nat, u: nat, n: nat) {
    i + n * u <= |tokens| && Periodic(tokens, i, i + n * u, u)
  }

  /** Between i and e, every token has the text of the one u later. */
  ghost predicate Periodic(tokens: seq<Token>, i: nat, e: nat, u: nat) {
    forall k :: i <= k && k + u < e ==> Same(tokens, k, u)
  }

  /** A run is what its name says: its units are all equal to the first. */
  lemma {:induction false} RunUnits(tokens: seq<Token>, i: nat, u: nat, n: nat, j: nat)
    requires RunOf(tokens, i, u, n) && j < n
    ensures i + j * u + u <= |tokens| && SameUnit(tokens, i, i + j * u, u)
  {
    assert j * u + u == (j + 1) * u <= n * u by { Ordered(j + 1, n, u); }
    if j > 0 {
      RunUnits(tokens, i, u, n, j - 1);
      assert (j - 1) * u + u == j * u;
      forall k | i <= k < i + u ensures Same(tokens, k, j * u) {
        assert Same(tokens, k, (j - 1) * u);
        assert Same(tokens, k + (j - 1) * u, u);
      }
    }
  }

  lemma {:induction false} Ordered(a: nat, b: nat, u: nat)
    requires a <= b
    ensures a * u <= b * u
  {
    if a < b {
      Ordered(a, b - 1, u);
      assert b * u == (b - 1) * u + u;
    }
  }

  /** The units counted from next on continue the run that reaches it. */
  lemma {:induction false} CopiesRun(tokens: seq<Token>, i: nat, u: nat, next: nat, n: nat)
    requires u > 0 && i + u <= next <= |tokens| && Periodic(tokens, i, next, u) && next == i + n * u
    requires n >= 1 && SameUnit(tokens, i, next - u, u)
    ensures var c := Copies(tokens, i, u, next);
            && RunOf(tokens, i, u, n + c)
            && (i + (n + c) * u + u <= |tokens| ==> !Periodic(tokens, i, i + (n + c) * u + u, u))
    decreases |tokens| - next
  {
    if next + u <= |tokens| {
      assert (n + 1) * u == n * u + u;
      if SameUnit(tokens, i, next, u) {
        forall k | i <= k && k + u < next + u ensures Same(tokens, k, u) {
          if k >= next - u {
            assert Same(tokens, k - (next - u - i), next - u - i);
            assert Same(tokens, k - (next - u - i), next - i);
          }
        }
        CopiesRun(tokens, i, u, next + u, n + 1);
      } else if Periodic(tokens, i, next + u, u) {
        var d := next - i;
        forall k | i <= k < i + u ensures Same(tokens, k, d) {
          assert Same(tokens, k, d - u);
          assert Same(tokens, k + (d - u), u);
        }
        assert false;
      }
    }
  }

  /** A hit at i starts a run, of as many units as are counted, that does not go on. */
  lemma HitRun(tokens: seq<Token>, i: nat, u: nat, minChars: int)
    requires Hit(tokens, i, u, minChars)
    ensures var n := Units(tokens, i, u);
            && RunOf(tokens, i, u, n)
            && (i + n * u + u <= |tokens| ==> !Periodic(tokens, i, i + n * u + u, u))
  {
    CopiesRun(tokens, i, u, i + 2 * u, 2);
  }

  /** A run of at least two wide enough units. */
  ghost predicate WideRun(tokens: seq<Token>, i: nat, u: nat, n: nat, minChars: int) {
    0 < u && n >= 2 && RunOf(tokens, i, u, n) && i + u <= |tokens| && Span(tokens, i, u) >= minChars
  }

  /**
   * The u tokens at i span at least minChars characters, from the start of the
   * first to the end of the last, and are followed by u tokens of the same text.
   */
  ghost predicate RepeatAt(tokens: seq<Token>, minChars: int, i: nat, u: nat) {
    && 1 <= u && i + 2 * u <= |tokens|
    && tokens[i + u - 1].end - tokens[i].start >= minChars
    && forall k :: i <= k < i + u ==> tokens[k].text == tokens[k + u].text
  }

  /** A wide enough unit of at most the allowed number of tokens is immediately repeated. */
  ghost predicate HasRepeat(tokens: seq<Token>, minChars: int, maxUnitTokens: int) {
    exists i: nat, u: nat :: u <= maxUnitTokens && RepeatAt(tokens, minChars, i, u)
  }

  lemma HitIff(tokens: seq<Token>, i: nat, u: nat, minChars: int)
    ensures Hit(tokens, i, u, minChars) <==> RepeatAt(tokens, minChars, i, u)
  {
    if RepeatAt(tokens, minChars, i, u) {
      forall k | i <= k < i + u ensures Same(tokens, k, u) {
      }
    }
    if Hit(tokens, i, u, minChars) {
      forall k | i <= k < i + u ensures tokens[k].text == tokens[k + u].text {
        assert Same(tokens, k, u);
      }
    }
  }

  /** A unit that is repeated is at most half of the tokens, so only the caller's limit counts. */
  lemma Allowed(tokens: seq<Token>, i: nat, u: nat, n: nat, maxUnitTokens: int)
    requires n >= 2 && i + n * u <= |tokens|
    ensures u <= MaxUnit(tokens, maxUnitTokens) <==> u <= Max(0, maxUnitTokens)
  {
    Ordered(2, n, u);
  }

  /** The hits a pass counts from i on, in order. */
  function Counted(tokens: seq<Token>, i: nat, u: nat, minChars: int): (hits: seq<nat>)
    requires u > 0
    decreases |tokens| - i
  {
    if i + 2 * u > |tokens| then []
    else if !Hit(tokens, i, u, minChars) then Counted(tokens, i + 1, u, minChars)
    else [i] + Counted(tokens, End(tokens, i, u), u, minChars)
  }

  /** What a pass finds is one of the runs it counts. */
  lemma {:induction false} PassCounts(tokens: seq<Token>, i: nat, u: nat, minChars: int) returns (at: nat)
    requires u > 0 && Pass(tokens, i, u, minChars) > 0
    ensures at in Counted(tokens, i, u, minChars) && Units(tokens, at, u) == Pass(tokens, i, u, minChars) + 1
    ensures Hit(tokens, at, u, minChars) && WideRun(tokens, at, u, Pass(tokens, i, u, minChars) + 1, minChars)
    decreases |tokens| - i
  {
    if !Hit(tokens, i, u, minChars) {
      at := PassCounts(tokens, i + 1, u, minChars);
    } else {
      HitRun(tokens, i, u, minChars);
      if Pass(tokens, i, u, minChars) == Units(tokens, i, u) - 1 {
        at := i;
      } else {
        at := PassCounts(tokens, End(tokens, i, u), u, minChars);
      }
    }
  }

  /** A hit at or after i means that the pass from i finds something. */
  lemma {:induction false} PassFinds(tokens: seq<Token>, i: nat, u: nat, minChars: int, hit: nat)
    requires i <= hit && Hit(tokens, hit, u, minChars)
    ensures Pass(tokens, i, u, minChars) > 0
    decreases |tokens| - i
  {
    if !Hit(tokens, i, u, minChars) {
      PassFinds(tokens, i + 1, u, minChars, hit);
    }
  }

  /** The count is that of the pass over one of the unit sizes. */
  lemma {:induction false} BestUnit(tokens: seq<Token>, minChars: int, maxU: nat) returns (u: nat)
    requires Best(tokens, minChars, maxU) > 0
    ensures 0 < u <= maxU && Pass(tokens, 0, u, minChars) == Best(tokens, minChars, maxU)
  {
    u := maxU;
    if Pass(tokens, 0, maxU, minChars) != Best(tokens, minChars, maxU) {
      u := BestUnit(tokens, minChars, maxU - 1);
    }
  }

  lemma {:induction false} BestAtLeast(tokens: seq<Token>, minChars: int, maxU: nat, u: nat)
    requires 0 < u <= maxU
    ensures Pass(tokens, 0, u, minChars) <= Best(tokens, minChars, maxU)
  {
    if u < maxU {
      BestAtLeast(tokens, minChars, maxU - 1, u);
    }
  }

  /**
   * Sound and complete: the count is positive exactly when some wide enough unit of at most the allowed
   * number of tokens is immediately repeated.
   */
  lemma DetectedIff(tokens: seq<Token>, minChars: int, maxUnitTokens: int)
    ensures Detected(tokens, minChars, maxUnitTokens) > 0 <==> HasRepeat(tokens, minChars, maxUnitTokens)
  {
    var maxU := MaxUnit(tokens, maxUnitTokens);
    if Detected(tokens, minChars, maxUnitTokens) > 0 {
      var u := BestUnit(tokens, minChars, maxU);
      var i := PassCounts(tokens, 0, u, minChars);
      HitIff(tokens, i, u, minChars);
    }
    if HasRepeat(tokens, minChars, maxUnitTokens) {
      var i: nat, u: nat :| u <= maxUnitTokens && RepeatAt(tokens, minChars, i, u);
      HitIff(tokens, i, u, minChars);
      PassFinds(tokens, 0, u, minChars, i);
      BestAtLeast(tokens, minChars, maxU, u);
    }
  }

  /** A positive count r comes from r + 1 equal units in a row, the first of them wide enough. */
  lemma DetectedWitness(tokens: seq<Token>, minChars: int, maxUnitTokens: int) returns (i: nat, u: nat)
    requires Detected(tokens, minChars, maxUnitTokens) > 0
    ensures u <= maxUnitTokens
    ensures WideRun(tokens, i, u, Detected(tokens, minChars, maxUnitTokens) + 1, minChars)
  {
    u := BestUnit(tokens, minChars, MaxUnit(tokens, maxUnitTokens));
    i := PassCounts(tokens, 0, u, minChars);
  }

  // ----- how close it comes to the longest run -----

  /** At the start of a wide run, a pass counts all of it. */
  lemma PassAtStart(tokens: seq<Token>, i: nat, u: nat, minChars: int, n: nat)
    requires WideRun(tokens, i, u, n, minChars)
    ensures Pass(tokens, i, u, minChars) >= n - 1
  {
    Ordered(2, n, u);
    assert SameUnit(tokens, i, i + u, u);
    var m := Units(tokens, i, u);
    HitRun(tokens, i, u, minChars);
    RunReaches(tokens, i, u, n, m);
  }

  /** A run of more than m units reaches past the first m by a unit. */
  lemma RunReaches(tokens: seq<Token>, i: nat, u: nat, n: nat, m: nat)
    requires RunOf(tokens, i, u, n)
    ensures m < n ==> i + m * u + u <= |tokens| && i + m * u + u <= i + n * u && Periodic(tokens, i, i + m * u + u, u)
  {
    if m < n {
      Ordered(m + 1, n, u);
      assert (m + 1) * u == m * u + u;
    }
  }

  /** Two periodic stretches that overlap by a period are one. */
  lemma Joined(tokens: seq<Token>, i: nat, q: nat, p: nat, e: nat, u: nat)
    requires Periodic(tokens, i, q, u) && Periodic(tokens, p, e, u) && i <= p && p + u <= q
    ensures Periodic(tokens, i, e, u)
  {
    forall k | i <= k && k + u < e ensures Same(tokens, k, u) {
      assert k + u < q || p <= k;
    }
  }

  /** Every unit that starts among the first u tokens from p on is wide enough. */
  ghost predicate WideHere(tokens: seq<Token>, p: nat, u: nat, minChars: int)
    requires u > 0
  {
    forall i :: p <= i < p + u && i + u <= |tokens| ==> Span(tokens, i, u) >= minChars
  }

  /** The run that was counted ends inside this one: what is left of it has at most one unit less. */
  lemma TailRun(tokens: seq<Token>, p: nat, u: nat, n: nat, q: nat)
    requires u > 0 && n >= 2 && RunOf(tokens, p, u, n) && p < q < p + u
    ensures RunOf(tokens, q, u, n - 1) && q + u <= |tokens|
  {
    assert n * u == (n - 1) * u + u;
    Ordered(1, n - 1, u);
  }

  /** A counted run of m units at i that overlaps another of n units at p by a unit is no shorter. */
  lemma Overlap(tokens: seq<Token>, i: nat, u: nat, m: nat, p: nat, n: nat)
    requires u > 0 && RunOf(tokens, i, u, m) && RunOf(tokens, p, u, n) && i < p <= i + m * u - u
    requires i + m * u + u <= |tokens| ==> !Periodic(tokens, i, i + m * u + u, u)
    ensures n <= m
  {
    RunReaches(tokens, p, u, n, m);
    Joined(tokens, i, i + m * u, p, p + n * u, u);
  }

  lemma {:induction false} PassAlmost(tokens: seq<Token>, i: nat, u: nat, minChars: int, p: nat, n: nat)
    requires i <= p && WideRun(tokens, p, u, n, minChars) && WideHere(tokens, p, u, minChars)
    ensures Pass(tokens, i, u, minChars) >= n - 2
    decreases |tokens| - i
  {
    Ordered(2, n, u);
    if i == p {
      PassAtStart(tokens, i, u, minChars, n);
    } else if !Hit(tokens, i, u, minChars) {
      PassAlmost(tokens, i + 1, u, minChars, p, n);
    } else {
      var m := Units(tokens, i, u);
      HitRun(tokens, i, u, minChars);
      Ordered(2, m, u);
      var q := i + m * u;
      if q <= p {
        PassAlmost(tokens, q, u, minChars, p, n);
      } else if p <= q - u {
        Overlap(tokens, i, u, m, p, n);
      } else if n > 2 {
        TailRun(tokens, p, u, n, q);
        PassAtStart(tokens, q, u, minChars, n - 1);
      }
    }
  }

  /** The count misses at most one repeat of any run whose unit is wide enough wherever it is cut. */
  lemma AtMostOneMissed(tokens: seq<Token>, minChars: int, maxUnitTokens: int, p: nat, u: nat, n: nat)
    requires 0 < u <= maxUnitTokens
    requires WideRun(tokens, p, u, n, minChars) && WideHere(tokens, p, u, minChars)
    ensures Detected(tokens, minChars, maxUnitTokens) >= n - 2
  {
    Allowed(tokens, p, u, n, maxUnitTokens);
    PassAlmost(tokens, 0, u, minChars, p, n);
    BestAtLeast(tokens, minChars, MaxUnit(tokens, maxUnitTokens), u);
  }

  // ----- when the longest run is counted in full -----

  /** A pass that starts at i counts a run that ends inside the first unit at p. */
  ghost predicate CutInto(tokens: seq<Token>, i: nat, u: nat, minChars: int, p: nat)
    requires u > 0
  {
    exists h :: h in Counted(tokens, i, u, minChars) && h < p < End(tokens, h, u) < p + u
  }

  /** A run that is not cut into is counted in full, or a run as long is. */
  lemma {:induction false} PassFull(tokens: seq<Token>, i: nat, u: nat, minChars: int, p: nat, n: nat)
    requires i <= p && WideRun(tokens, p, u, n, minChars) && !CutInto(tokens, i, u, minChars, p)
    ensures Pass(tokens, i, u, minChars) >= n - 1
    decreases |tokens| - i
  {
    Ordered(2, n, u);
    if i == p {
      PassAtStart(tokens, i, u, minChars, n);
    } else if !Hit(tokens, i, u, minChars) {
      PassFull(tokens, i + 1, u, minChars, p, n);
    } else {
      var m, q := Units(tokens, i, u), End(tokens, i, u);
      var hits, rest := Counted(tokens, i, u, minChars), Counted(tokens, q, u, minChars);
      HitRun(tokens, i, u, minChars);
      assert hits[0] == i;
      if q <= p {
        assert hits[1..] == rest;
        PassFull(tokens, q, u, minChars, p, n);
      } else {
        Overlap(tokens, i, u, m, p, n);
      }
    }
  }

  /** The scan never goes back: what it counts from i on starts at i or later, and a counted run ends before the next. */
  lemma {:induction false} CountedApart(tokens: seq<Token>, i: nat, u: nat, minChars: int, h: nat, p: nat)
    requires u > 0 && h in Counted(tokens, i, u, minChars) && p in Counted(tokens, i, u, minChars)
    ensures i <= h && i <= p && (h < p ==> End(tokens, h, u) <= p)
    decreases |tokens| - i
  {
    if !Hit(tokens, i, u, minChars) {
      CountedApart(tokens, i + 1, u, minChars, h, p);
    } else {
      var e := End(tokens, i, u);
      if h != i {
        CountedApart(tokens, e, u, minChars, h, h);
      }
      if p != i {
        CountedApart(tokens, e, u, minChars, p, p);
      }
      if h != i && p != i {
        CountedApart(tokens, e, u, minChars, h, p);
      }
    }
  }

  /** What is counted is not cut into. */
  lemma CountedUncut(tokens: seq<Token>, u: nat, minChars: int, p: nat)
    requires u > 0 && p in Counted(tokens, 0, u, minChars)
    ensures !CutInto(tokens, 0, u, minChars, p)
  {
    forall h | h in Counted(tokens, 0, u, minChars) ensures !(h < p < End(tokens, h, u) < p + u) {
      CountedApart(tokens, 0, u, minChars, h, p);
    }
  }

  /** Exactly the repeats that no earlier counted run reaches into are counted. */
  lemma {:induction false} CountedIff(tokens: seq<Token>, i: nat, u: nat, minChars: int, p: nat)
    requires u > 0
    ensures p in Counted(tokens, i, u, minChars)
            <==> i <= p && RepeatAt(tokens, minChars, p, u)
                 && forall h :: h in Counted(tokens, i, u, minChars) && h < p ==> h + Units(tokens, h, u) * u <= p
    decreases |tokens| - i
  {
    var hits := Counted(tokens, i, u, minChars);
    HitIff(tokens, p, u, minChars);
    HitIff(tokens, i, u, minChars);
    if p in hits {
      forall h | h in hits ensures h < p ==> End(tokens, h, u) <= p {
        CountedApart(tokens, i, u, minChars, h, p);
      }
      CountedHit(tokens, i, u, minChars, p);
    } else if i <= p && Hit(tokens, p, u, minChars) {
      if !Hit(tokens, i, u, minChars) {
        CountedIff(tokens, i + 1, u, minChars, p);
      } else {
        assert hits[0] == i && hits[1..] == Counted(tokens, End(tokens, i, u), u, minChars);
        if End(tokens, i, u) <= p {
          CountedIff(tokens, End(tokens, i, u), u, minChars, p);
        }
      }
    }
  }

  lemma {:induction false} CountedHit(tokens: seq<Token>, i: nat, u: nat, minChars: int, p: nat)
    requires u > 0 && p in Counted(tokens, i, u, minChars)
    ensures i <= p && Hit(tokens, p, u, minChars)
    decreases |tokens| - i
  {
    if !Hit(tokens, i, u, minChars) {
      CountedHit(tokens, i + 1, u, minChars, p);
    } else if p != i {
      CountedHit(tokens, End(tokens, i, u), u, minChars, p);
    }
  }

  /** A pass finds at least as much as any run it counts. */
  lemma {:induction false} PassMost(tokens: seq<Token>, i: nat, u: nat, minChars: int, h: nat)
    requires u > 0 && h in Counted(tokens, i, u, minChars)
    ensures Pass(tokens, i, u, minChars) >= Units(tokens, h, u) - 1
    decreases |tokens| - i
  {
    if !Hit(tokens, i, u, minChars) {
      PassMost(tokens, i + 1, u, minChars, h);
    } else if h != i {
      PassMost(tokens, End(tokens, i, u), u, minChars, h);
    }
  }

  /** The units of a counted run are the longest run of equal units from there on. */
  lemma CountedUnits(tokens: seq<Token>, u: nat, minChars: int, h: nat)
    requires u > 0 && h in Counted(tokens, 0, u, minChars)
    ensures RunOf(tokens, h, u, Units(tokens, h, u))
    ensures forall m: nat :: RunOf(tokens, h, u, m) ==> m <= Units(tokens, h, u)
  {
    var n := Units(tokens, h, u);
    CountedHit(tokens, 0, u, minChars, h);
    HitRun(tokens, h, u, minChars);
    forall m: nat | RunOf(tokens, h, u, m) ensures m <= n {
      RunReaches(tokens, h, u, m, n);
    }
  }

  /** One of the runs that the passes over the allowed unit sizes count has n units. */
  ghost predicate CountedRun(tokens: seq<Token>, minChars: int, maxUnitTokens: int, n: nat, u: nat, h: nat) {
    0 < u <= maxUnitTokens && h in Counted(tokens, 0, u, minChars) && Units(tokens, h, u) == n
  }

  /** The count is one less than the units of the longest counted run, or 0 if none is counted. */
  lemma DetectedExact(tokens: seq<Token>, minChars: int, maxUnitTokens: int)
    ensures forall n: nat, u: nat, h: nat :: CountedRun(tokens, minChars, maxUnitTokens, n, u, h)
                                             ==> n - 1 <= Detected(tokens, minChars, maxUnitTokens)
    ensures var n := Detected(tokens, minChars, maxUnitTokens) + 1;
            n > 1 ==> exists u: nat, h: nat :: CountedRun(tokens, minChars, maxUnitTokens, n, u, h)
  {
    var r := Detected(tokens, minChars, maxUnitTokens);
    forall n: nat, u: nat, h: nat | CountedRun(tokens, minChars, maxUnitTokens, n, u, h) ensures n - 1 <= r {
      CountedHit(tokens, 0, u, minChars, h);
      Allowed(tokens, h, u, 2, maxUnitTokens);
      PassMost(tokens, 0, u, minChars, h);
      BestAtLeast(tokens, minChars, MaxUnit(tokens, maxUnitTokens), u);
    }
    if r > 0 {
      var u := BestUnit(tokens, minChars, MaxUnit(tokens, maxUnitTokens));
      var h := PassCounts(tokens, 0, u, minChars);
      assert CountedRun(tokens, minChars, maxUnitTokens, r + 1, u, h);
    }
  }

  /** The longest run has n units: there is one of an allowed unit size, and none has more. */
  ghost predicate Longest(tokens: seq<Token>, minChars: int, maxU: int, n: nat) {
    && (exists p: nat, u: nat :: u <= maxU && WideRun(tokens, p, u, n, minChars))
    && (forall p: nat, u: nat, m: nat :: u <= maxU && WideRun(tokens, p, u, m, minChars) ==> m <= n)
  }

  /** A run of n units of an allowed size that the scan does not cut into. */
  ghost predicate WholeRun(tokens: seq<Token>, minChars: int, maxU: int, n: nat, p: nat, u: nat) {
    u <= maxU && WideRun(tokens, p, u, n, minChars) && !CutInto(tokens, 0, u, minChars, p)
  }

  /** Of the longest runs, of n units, all n - 1 repeats are counted exactly when the scan does not cut into one of them. */
  lemma LongestCountedIff(tokens: seq<Token>, minChars: int, maxUnitTokens: int, n: nat)
    requires Longest(tokens, minChars, maxUnitTokens, n)
    ensures Detected(tokens, minChars, maxUnitTokens) <= n - 1
    ensures Detected(tokens, minChars, maxUnitTokens) == n - 1
            <==> exists p: nat, u: nat :: WholeRun(tokens, minChars, maxUnitTokens, n, p, u)
  {
    var maxU, best := MaxUnit(tokens, maxUnitTokens), Detected(tokens, minChars, maxUnitTokens);
    if best > 0 {
      var u := BestUnit(tokens, minChars, maxU);
      var p := PassCounts(tokens, 0, u, minChars);
      assert WideRun(tokens, p, u, best + 1, minChars);
      if best == n - 1 {
        CountedUncut(tokens, u, minChars, p);
        assert WholeRun(tokens, minChars, maxUnitTokens, n, p, u);
      }
    }
    if p: nat, u: nat :| WholeRun(tokens, minChars, maxUnitTokens, n, p, u) {
      Allowed(tokens, p, u, n, maxUnitTokens);
      PassFull(tokens, 0, u, minChars, p, n);
      BestAtLeast(tokens, minChars, maxU, u);
    }
  }

  /** So a longest run of a single repeated token is always counted in full. */
  lemma SingleTokenRun(tokens: seq<Token>, minChars: int, maxUnitTokens: int, n: nat, p: nat)
    requires Longest(tokens, minChars, maxUnitTokens, n) && maxUnitTokens >= 1
    requires WideRun(tokens, p, 1, n, minChars)
    ensures Detected(tokens, minChars, maxUnitTokens) == n - 1
  {
    assert WholeRun(tokens, minChars, maxUnitTokens, n, p, 1);
    LongestCountedIff(tokens, minChars, maxUnitTokens, n);
  }

  /** If every longest run is cut into, and one of them is wide enough wherever it is cut, exactly one repeat is missed. */
  lemma CutRunsMissOne(tokens: seq<Token>, minChars: int, maxUnitTokens: int, n: nat, p: nat, u: nat)
    requires Longest(tokens, minChars, maxUnitTokens, n) && u <= maxUnitTokens
    requires WideRun(tokens, p, u, n, minChars) && WideHere(tokens, p, u, minChars)
    requires forall p: nat, u: nat :: !WholeRun(tokens, minChars, maxUnitTokens, n, p, u)
    ensures Detected(tokens, minChars, maxUnitTokens) == n - 2
  {
    LongestCountedIff(tokens, minChars, maxUnitTokens, n);
    AtMostOneMissed(tokens, minChars, maxUnitTokens, p, u, n);
  }

  /** One token per character, separated by single spaces. */
  function Letters(word: string): (r: seq<Token>)
    ensures |r| == |word| && forall k :: 0 <= k < |r| ==> r[k] == Token([word[k]], 2 * k, 2 * k + 1)
  {
    seq(|word|, k requires 0 <= k < |word| => Token([word[k]], 2 * k, 2 * k + 1))
  }

  lemma NoHitNoCount(tokens: seq<Token>, u: nat, minChars: int)
    requires u > 0 && forall i: nat :: !Hit(tokens, i, u, minChars)
    ensures Pass(tokens, 0, u, minChars) == 0
  {
    if Pass(tokens, 0, u, minChars) > 0 {
      var at := PassCounts(tokens, 0, u, minChars);
    }
  }

  const MISSED := "ababcbcbc"

  lemma NoHitOf(u: nat)
    requires u == 1 || u == 3 || u == 4
    ensures Pass(Letters(MISSED), 0, u, 1) == 0
  {
    var t := Letters(MISSED);
    forall i: nat ensures !Hit(t, i, u, 1) {
      if i + 2 * u <= |t| {
        var k := if u == 1 then i else if u == 4 then 2 else if i < 2 then i + 1 else i;
        assert MISSED[k] != MISSED[k + u];
        assert !Same(t, k, u);
      }
    }
    NoHitNoCount(t, u, 1);
  }

  lemma TwoOf()
    ensures Hit(Letters(MISSED), 0, 2, 1) && End(Letters(MISSED), 0, 2) == 4
    ensures Pass(Letters(MISSED), 0, 2, 1) == 1
  {
    var t := Letters(MISSED);
    assert MISSED[0] != MISSED[4];
    assert !Same(t, 0, 4);
    assert Hit(t, 0, 2, 1) && Copies(t, 0, 2, 4) == 0 && End(t, 0, 2) == 4;
    assert Hit(t, 4, 2, 1) && Copies(t, 4, 2, 8) == 0 && End(t, 4, 2) == 8;
    assert Pass(t, 8, 2, 1) == 0;
    assert Pass(t, 4, 2, 1) == 1;
  }

  lemma OneOf()
    ensures Detected(Letters(MISSED), 1, 512) == 1
  {
    var t := Letters(MISSED);
    NoHitOf(1);
    TwoOf();
    NoHitOf(3);
    NoHitOf(4);
    assert Best(t, 1, 0) == 0;
    assert Best(t, 1, 1) == 0;
    assert Best(t, 1, 2) == 1;
    assert Best(t, 1, 3) == 1;
  }

  /** And one repeat can indeed be missed: "b c" stands three times in a row in a b a b c b c b c, but is counted as two. */
  lemma MissesOne()
    ensures var tokens := Letters(MISSED);
            && WideRun(tokens, 3, 2, 3, 1) && WideHere(tokens, 3, 2, 1) && CutInto(tokens, 0, 2, 1, 3)
            && Detected(tokens, 1, 512) == 1
  {
    var t := Letters(MISSED);
    OneOf();
    TwoOf();
    assert Counted(t, 0, 2, 1)[0] == 0 && End(t, 0, 2) == 4;
  }
}
