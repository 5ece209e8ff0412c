/** How long a sync of the Mooncake chain takes, and the slots it leaves behind. */
module RelayRuns {
  import opened Common
  import opened Relay

  // ----- length of a run -----

  /** Steps a rank takes for bucket j. */
  function BucketSteps(c: Config, j: nat, first: bool): nat
    requires j < |c.buckets|
  {
    var b := c.buckets[j];
    if first then |b| + (if j == 0 && |c.buckets| > 1 then 1 else 2)
    else |Bytes(b)| + |Names(b)| + 6
  }

  function StepsFrom(c: Config, j: nat, first: bool): nat
    requires j <= |c.buckets|
    decreases |c.buckets| - j
  {
    if j == |c.buckets| then 0 else BucketSteps(c, j, first) + StepsFrom(c, j + 1, first)
  }

  /** Steps a rank at this point of bucket j still takes for it. */
  function StepsWithin(c: Config, j: nat, pc: Pc): int
    requires j < |c.buckets|
  {
    var b := c.buckets[j];
    match pc
    case Fill(k) => BucketSteps(c, j, true) - k
    case SlotWait => 1
    case FinalWait => 1
    case Recv => BucketSteps(c, j, false)
    case Await => BucketSteps(c, j, false) - 1
    case Read(pos) => |Bytes(b)| - pos + |Names(b)| + 4
    case Forward => |Names(b)| + 3
    case Yield(y) => |Names(b)| - y + 2
    case Signal => 1
    case Finished => 0
  }

  /** Steps rank x still has to take. */
  function Remaining(c: Config, x: Rank, first: bool): int {
    if x.idx >= |c.buckets| then 0 else StepsFrom(c, x.idx + 1, first) + StepsWithin(c, x.idx, x.pc)
  }

  function TotalRemaining(c: Config, s: State, k: nat): int
    requires k <= |s|
  {
    if k == 0 then 0 else TotalRemaining(c, s, k - 1) + Remaining(c, s[k - 1], k == 1)
  }

  lemma SenderTakesOne(c: Config, x: Rank)
    requires ValidConfig(c) && SenderOk(c, x) && SenderEnabled(c, x)
    ensures Remaining(c, SenderNext(c, x), true) == Remaining(c, x, true) - 1
  {
  }

  lemma WithinTakesOne(c: Config, p: Rank, x: Rank, last: bool)
    requires ReceiverOk(c, x) && ShapedRank(c, p) && ReceiverEnabled(c, p, x, last) && !x.pc.Signal?
    ensures var y := ReceiverNext(c, p, x, last).rank;
            y.idx == x.idx < |c.buckets| && StepsWithin(c, x.idx, y.pc) == StepsWithin(c, x.idx, x.pc) - 1
  {
  }

  lemma ReceiverTakesOne(c: Config, p: Rank, x: Rank, last: bool)
    requires ReceiverOk(c, x) && ShapedRank(c, p) && ReceiverEnabled(c, p, x, last)
    ensures Remaining(c, ReceiverNext(c, p, x, last).rank, false) == Remaining(c, x, false) - 1
  {
    if !x.pc.Signal? {
      WithinTakesOne(c, p, x, last);
    }
  }

  lemma {:induction false} TotalDiffersAt(c: Config, s: State, s': State, r: nat, k: nat)
    requires |s| == |s'| && r < |s| && k <= |s|
    requires forall i :: 0 <= i < |s| && i != r ==> Remaining(c, s[i], i == 0) == Remaining(c, s'[i], i == 0)
    ensures TotalRemaining(c, s', k) - TotalRemaining(c, s, k)
            == if r < k then Remaining(c, s'[r], r == 0) - Remaining(c, s[r], r == 0) else 0
  {
    if k > 0 {
      TotalDiffersAt(c, s, s', r, k - 1);
      assert k - 1 != r ==> Remaining(c, s[k - 1], k == 1) == Remaining(c, s'[k - 1], k == 1);
    }
  }

  lemma OtherTakesNone(c: Config, s: State, r: nat, i: nat)
    requires WellShaped(c, s) && Enabled(c, s, r) && i <= c.n && i != r
    ensures Next(c, s, r)[i].idx == s[i].idx && Next(c, s, r)[i].pc == s[i].pc
  {
  }

  lemma OthersTakeNone(c: Config, s: State, r: nat)
    requires WellShaped(c, s) && Enabled(c, s, r)
    ensures |Next(c, s, r)| == |s| == c.n + 1
    ensures forall i :: 0 <= i < |s| && i != r ==> Remaining(c, s[i], i == 0) == Remaining(c, Next(c, s, r)[i], i == 0)
  {
    forall i | 0 <= i < |s| && i != r ensures Remaining(c, s[i], i == 0) == Remaining(c, Next(c, s, r)[i], i == 0) {
      OtherTakesNone(c, s, r, i);
    }
  }

  lemma OneTakesOne(c: Config, s: State, r: nat)
    requires Inv(c, s) && Enabled(c, s, r)
    ensures Remaining(c, Next(c, s, r)[r], r == 0) == Remaining(c, s[r], r == 0) - 1
  {
    assert RankAt(c, s, r);
    if r == 0 {
      SenderTakesOne(c, s[0]);
    } else {
      ReceiverTakesOne(c, s[r - 1], s[r], r == c.n);
    }
  }

  lemma StepTakesOne(c: Config, s: State, r: nat)
    requires Inv(c, s) && Enabled(c, s, r)
    ensures TotalRemaining(c, Next(c, s, r), c.n + 1) == TotalRemaining(c, s, c.n + 1) - 1
  {
    var s' := Next(c, s, r);
    OthersTakeNone(c, s, r);
    OneTakesOne(c, s, r);
    TotalDiffersAt(c, s, s', r, c.n + 1);
  }

  lemma {:induction false} StepsAreCounted(c: Config, s0: State, schedule: seq<nat>, s: State)
    requires Inv(c, s0) && Exec(c, s0, schedule) == Some(s)
    ensures |schedule| + TotalRemaining(c, s, c.n + 1) == TotalRemaining(c, s0, c.n + 1)
  {
    if schedule != [] {
      var n := |schedule| - 1;
      var t := Exec(c, s0, schedule[..n]).value;
      StepsAreCounted(c, s0, schedule[..n], t);
      RunInv(c, s0, schedule[..n]);
      StepTakesOne(c, t, schedule[n]);
    }
  }

  lemma RankRemaining(c: Config, x: Rank, first: bool)
    requires RankOk(c, x, first)
    ensures Remaining(c, x, first) >= 0
    ensures Remaining(c, x, first) == 0 <==> x.pc.Finished?
  {
  }

  lemma {:induction false} NothingRemains(c: Config, s: State, k: nat)
    requires Inv(c, s) && k <= |s|
    ensures TotalRemaining(c, s, k) >= 0
    ensures TotalRemaining(c, s, k) == 0 <==> forall r :: 0 <= r < k ==> s[r].pc.Finished?
  {
    if k > 0 {
      NothingRemains(c, s, k - 1);
      assert RankAt(c, s, k - 1);
      RankRemaining(c, s[k - 1], k == 1);
    }
  }

  lemma InitialRemaining(c: Config, x: Rank, first: bool)
    requires ValidConfig(c) && x.idx == 0 && x.pc == (if first then Fill(0) else Recv)
    ensures Remaining(c, x, first) == StepsFrom(c, 0, first)
  {
  }

  lemma {:induction false} InitialTotal(c: Config, s: State, k: nat)
    requires ValidConfig(c) && Init(c, s) && 1 <= k <= |s|
    ensures TotalRemaining(c, s, k) == StepsFrom(c, 0, true) + (k - 1) * StepsFrom(c, 0, false)
  {
    InitialRemaining(c, s[k - 1], k == 1);
    if k == 1 {
      assert TotalRemaining(c, s, 0) == 0;
    } else {
      InitialTotal(c, s, k - 1);
      AddOne(k - 2, StepsFrom(c, 0, false));
    }
  }

  lemma AddOne(k: int, n: int)
    ensures k * n + n == (k + 1) * n
  {
  }

  function RunLength(c: Config): nat {
    StepsFrom(c, 0, true) + c.n * StepsFrom(c, 0, false)
  }

  lemma RunCount(c: Config, s0: State, schedule: seq<nat>, s: State)
    requires Reached(c, s0, schedule, s)
    ensures |s| == c.n + 1 && |schedule| + TotalRemaining(c, s, c.n + 1) == RunLength(c)
  {
    InitInv(c, s0);
    StepsAreCounted(c, s0, schedule, s);
    InitialTotal(c, s0, c.n + 1);
  }

  /**
   * No schedule runs longer than a number fixed by the configuration, and a
   * schedule reaches that number exactly when it has finished every rank.
   */
  lemma RelayTermination(c: Config, s0: State, schedule: seq<nat>, s: State)
    requires Reached(c, s0, schedule, s)
    ensures |schedule| <= RunLength(c)
    ensures |schedule| == RunLength(c) <==> AllFinished(s)
  {
    ReachedInv(c, s0, schedule, s);
    RunCount(c, s0, schedule, s);
    NothingRemains(c, s, c.n + 1);
  }

  // ----- which syncs finish -----

  /** Every view of a receiver so far has succeeded. */
  ghost predicate Viewed(c: Config, x: Rank) {
    && x.idx <= |c.buckets|
    && (forall j, y :: 0 <= j < x.idx && 0 <= y < |Metas(c.buckets[j])| ==> ViewAt(c, j, y))
    && (x.idx < |c.buckets| ==>
          && (x.pc.Yield? ==> ViewedIn(c, x.idx, x.pc.yielded))
          && (x.pc.Signal? ==> ViewedIn(c, x.idx, |Names(c.buckets[x.idx])|)))
  }

  /** The first n records of bucket j could be viewed. */
  ghost predicate ViewedIn(c: Config, j: nat, n: nat)
    requires j < |c.buckets|
  {
    forall y :: 0 <= y < n && y < |Metas(c.buckets[j])| ==> ViewAt(c, j, y)
  }

  lemma YieldViewed(c: Config, p: Rank, x: Rank, last: bool)
    requires ReceiverOk(c, x) && ShapedRank(c, p) && Viewed(c, x) && ReceiverEnabled(c, p, x, last) && x.pc.Yield?
    ensures Viewed(c, ReceiverNext(c, p, x, last).rank)
  {
    assert ViewedIn(c, x.idx, x.pc.yielded);
    assert x.pc.yielded < |x.cur.meta| ==> ViewAt(c, x.idx, x.pc.yielded);
  }

  lemma SignalViewed(c: Config, p: Rank, x: Rank, last: bool)
    requires ReceiverOk(c, x) && ShapedRank(c, p) && Viewed(c, x) && ReceiverEnabled(c, p, x, last) && x.pc.Signal?
    ensures Viewed(c, ReceiverNext(c, p, x, last).rank)
  {
    assert ViewedIn(c, x.idx, |Names(c.buckets[x.idx])|);
  }

  lemma StepViewed(c: Config, p: Rank, x: Rank, last: bool)
    requires ReceiverOk(c, x) && ShapedRank(c, p) && Viewed(c, x) && ReceiverEnabled(c, p, x, last)
    ensures Viewed(c, ReceiverNext(c, p, x, last).rank)
  {
    match x.pc
    case Yield(_) => YieldViewed(c, p, x, last);
    case Signal => SignalViewed(c, p, x, last);
    case _ =>
  }

  ghost predicate AllViewed(c: Config, s: State) {
    forall r :: 1 <= r < |s| ==> Viewed(c, s[r])
  }

  lemma {:induction false} RunViewed(c: Config, s0: State, schedule: seq<nat>, s: State)
    requires ValidConfig(c) && Init(c, s0) && Exec(c, s0, schedule) == Some(s)
    ensures AllViewed(c, s)
  {
    if schedule != [] {
      var n := |schedule| - 1;
      var t, r := Exec(c, s0, schedule[..n]).value, schedule[n];
      RunViewed(c, s0, schedule[..n], t);
      ReachedInv(c, s0, schedule[..n], t);
      assert RankAt(c, t, r);
      forall i | 1 <= i < |s| ensures Viewed(c, s[i]) {
        if i != r {
          OtherTakesNone(c, t, r, i);
        } else {
          StepViewed(c, t[r - 1], t[r], r == c.n);
        }
      }
    }
  }

  /** A sync that has finished has viewed every record. */
  lemma FinishedIsViewable(c: Config, s0: State, schedule: seq<nat>, s: State)
    requires Reached(c, s0, schedule, s) && AllFinished(s)
    ensures AllViewable(c)
  {
    ReachedInv(c, s0, schedule, s);
    RunViewed(c, s0, schedule, s);
    assert RankAt(c, s, 1) && Viewed(c, s[1]);
  }

  /** And every run of a sync whose records can all be viewed can be driven on until it has finished. */
  lemma {:induction false} RunsOn(c: Config, s0: State, schedule: seq<nat>, s: State)
    returns (longer: seq<nat>, t: State)
    requires AllViewable(c) && Reached(c, s0, schedule, s)
    ensures schedule <= longer && Reached(c, s0, longer, t) && AllFinished(t)
    decreases RunLength(c) - |schedule|
  {
    RelayTermination(c, s0, schedule, s);
    longer, t := schedule, s;
    if !AllFinished(s) {
      RelayProgress(c, s0, schedule, s);
      var r :| Enabled(c, s, r);
      assert (schedule + [r])[..|schedule|] == schedule;
      longer, t := RunsOn(c, s0, schedule + [r], Next(c, s, r));
    }
  }

  /** Wherever a run has got to, the sync can still finish if and only if no view of it raises. */
  lemma FinishesIff(c: Config, s0: State, schedule: seq<nat>, s: State)
    requires Reached(c, s0, schedule, s)
    ensures AllViewable(c) <==> exists longer, t :: schedule <= longer && Reached(c, s0, longer, t) && AllFinished(t)
  {
    if AllViewable(c) {
      var longer, t := RunsOn(c, s0, schedule, s);
    }
    if longer, t :| schedule <= longer && Reached(c, s0, longer, t) && AllFinished(t) {
      FinishedIsViewable(c, s0, longer, t);
    }
  }
}
