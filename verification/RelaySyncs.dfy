/** Several syncs on the same engines, whose slots nothing clears in between. */
module RelaySyncs {
  import opened Common
  import opened Relay
  import opened RelayRuns
  import opened RelaySlots
  import opened RelayWaves

  // ----- a second sync that overwrites -----

  /** The next sync's state: the slots of s, everything else as at the start of s0. */
  function Restarted(s0: State, s: State): (t: State)
    requires |s0| == |s|
    ensures |t| == |s0| && forall r :: 0 <= r < |s0| ==> t[r] == s0[r].(slots := s[r].slots)
  {
    seq(|s0|, r requires 0 <= r < |s0| => s0[r].(slots := s[r].slots))
  }

  /** Whatever the first sync, it can finish, and then a run of the second overwrites an unread bucket if it is not safe. */
  lemma NextSyncOverwrites(c: Config, s0: State, c': Config)
    returns (schedule: seq<nat>, s: State, s0': State, schedule': seq<nat>, t: State)
    requires ValidConfig(c) && AllViewable(c) && Init(c, s0)
    requires c'.n == c.n && c'.size == c.size && ValidConfig(c') && AllViewable(c')
    requires !NextSafe(c.n, |c.buckets|, |c'.buckets|)
    ensures Reached(c, s0, schedule, s) && AllFinished(s) && Follows(c, s, c', s0')
    ensures Overwrites(c', s0', schedule', t)
  {
    schedule, s := RunsOn(c, s0, [], s0);
    ReachedInv(c, s0, schedule, s);
    s0' := Restarted(s0, s);
    NextSyncSafeIff(c, s0, schedule, s, c', s0');
    schedule', t :| Exec(c', s0', schedule') == Some(t) && !OverwritesNothingUnread(c', t);
  }

  /** Three buckets of one byte each, for two receivers. */
  const THREE := Config(2, 1, [[Weight("a", 1, [0])], [Weight("b", 1, [1])], [Weight("c", 1, [2])]])

  lemma ThreeIsValid()
    ensures ValidConfig(THREE) && AllViewable(THREE)
  {
    forall b | 0 <= b < 3 ensures |Bytes(THREE.buckets[b])| <= 1 {
      assert THREE.buckets[b][..0] == [];
    }
  }

  /** So sending these weights twice can lose some of them, wherever the first sync starts. */
  lemma ThreeTwice(s0: State) returns (schedule: seq<nat>, s: State, s0': State, schedule': seq<nat>, t: State)
    requires Init(THREE, s0)
    ensures Reached(THREE, s0, schedule, s) && AllFinished(s) && Follows(THREE, s, THREE, s0')
    ensures Overwrites(THREE, s0', schedule', t)
  {
    ThreeIsValid();
    schedule, s, s0', schedule', t := NextSyncOverwrites(THREE, s0, THREE);
  }

  // ----- any number of syncs -----

  /** A middle rank whose successor is past the first bucket has its first slot set. */
  ghost predicate FirstSlotSet(c: Config, d: State)
    requires WellShaped(c, d)
  {
    forall r :: 0 < r < c.n ==> FirstSlotAt(c, d, r)
  }

  ghost predicate FirstSlotAt(c: Config, d: State, r: nat)
    requires WellShaped(c, d) && r < c.n
  {
    d[r + 1].idx >= 1 ==> d[r].slots[0].Some?
  }

  /** With at most two buckets no receiver ever clears a slot. */
  lemma OwnStepKeepsSlot(c: Config, p: Rank, dx: Rank, x: Rank)
    requires |c.buckets| <= 2 && ReceiverOk(c, x) && SameButSlots(dx, x) && ShapedRank(c, p) && ShapedRank(c, dx)
    requires ReceiverEnabled(c, p, dx, false)
    ensures ReceiverNext(c, p, dx, false).rank.slots == dx.slots
  {
  }

  /** And the first signal a rank gets is that of the first bucket. */
  lemma SignalSetsSlot(c: Config, dp: Rank, dy: Rank, y: Rank, last: bool)
    requires |c.buckets| <= 2 && ReceiverOk(c, y) && SameButSlots(dy, y) && ShapedRank(c, dp) && ShapedRank(c, dy)
    requires ReceiverEnabled(c, dp, dy, last) && (dy.idx >= 1 ==> dp.slots[0].Some?)
    ensures var Hop(p', y') := ReceiverNext(c, dp, dy, last); y'.idx >= 1 ==> p'.slots[0].Some?
  {
  }

  lemma StepKeepsSlot(c: Config, d: State, s: State, q: nat, r: nat)
    requires |c.buckets| <= 2 && Inv(c, s) && AllMatch(c, d, s) && Enabled(c, d, q)
    requires 0 < r < c.n && FirstSlotAt(c, d, r)
    ensures FirstSlotAt(c, Next(c, d, q), r)
  {
    assert RankAt(c, s, r) && RankAt(c, s, r + 1) && MatchAt(c, d, s, r) && MatchAt(c, d, s, r + 1);
    if q == r {
      OwnStepKeepsSlot(c, d[r - 1], d[r], s[r]);
    } else if q == r + 1 {
      SignalSetsSlot(c, d[r], d[r + 1], s[r + 1], q == c.n);
    } else if q == r + 2 {
      assert Next(c, d, q)[r + 1].idx == d[r + 1].idx;
    }
  }

  lemma {:induction false} RunKeepsSlot(c: Config, d0: State, schedule: seq<nat>, d: State)
    requires ValidConfig(c) && |c.buckets| <= 2 && InitExceptSlots(c, d0) && Exec(c, d0, schedule) == Some(d)
    ensures FirstSlotSet(c, d)
  {
    if schedule != [] {
      var n := |schedule| - 1;
      var before := Exec(c, d0, schedule[..n]).value;
      RunKeepsSlot(c, d0, schedule[..n], before);
      var s := Match(c, d0, schedule[..n], before);
      forall r | 0 < r < c.n ensures FirstSlotAt(c, d, r) {
        assert FirstSlotAt(c, before, r);
        StepKeepsSlot(c, before, s, schedule[n], r);
      }
    }
  }

  /** The run from clear slots that goes with a run from allowed ones. */
  lemma Match(c: Config, d0: State, schedule: seq<nat>, d: State) returns (s: State)
    requires ValidConfig(c) && InitExceptSlots(c, d0) && SlotsAllow(c, d0) && Exec(c, d0, schedule) == Some(d)
    ensures Inv(c, s) && AllMatch(c, d, s)
  {
    var clear := Cleared(d0);
    forall r | 0 <= r <= c.n ensures MatchAt(c, d0, clear, r) {
      assert r < c.n ==> RankAllows(c, d0[r]);
    }
    var schedule';
    schedule', s := RunMatches(c, d0, clear, schedule, d);
    ReachedInv(c, clear, schedule', s);
  }

  /** A sync of at most two buckets leaves the first slot of every middle rank set, whatever the slots were. */
  lemma ShortSyncLeaves(c: Config, d0: State, schedule: seq<nat>, d: State, r: nat)
    requires ValidConfig(c) && |c.buckets| <= 2 && InitExceptSlots(c, d0) && Exec(c, d0, schedule) == Some(d)
    requires AllFinished(d) && 0 < r < c.n
    ensures d[r].slots[0].Some?
  {
    RunKeepsSlot(c, d0, schedule, d);
    var s := Match(c, d0, schedule, d);
    assert MatchAt(c, d, s, r + 1) && RankAt(c, s, r + 1) && FirstSlotAt(c, d, r);
  }

  /** Sync t: it starts with the slots of the one before, clear ones if it is the first, and finishes. */
  ghost predicate SyncAt(cs: seq<Config>, starts: seq<State>, schedules: seq<seq<nat>>, ends: seq<State>, t: nat)
    requires t < |cs| == |starts| == |schedules| == |ends|
  {
    && ValidConfig(cs[t]) && AllViewable(cs[t]) && cs[t].n == cs[0].n && InitExceptSlots(cs[t], starts[t])
    && Exec(cs[t], starts[t], schedules[t]) == Some(ends[t]) && AllFinished(ends[t])
    && |ends[t]| == |starts[t]| == cs[0].n + 1
    && if t == 0 then Init(cs[0], starts[0])
       else |ends[t - 1]| == |starts[t]| && forall r :: 0 <= r < |starts[t]| ==> starts[t][r].slots == ends[t - 1][r].slots
  }

  ghost predicate Syncs(cs: seq<Config>, starts: seq<State>, schedules: seq<seq<nat>>, ends: seq<State>) {
    |cs| == |starts| == |schedules| == |ends| && forall t :: 0 <= t < |cs| ==> SyncAt(cs, starts, schedules, ends, t)
  }

  /** After any sync with at most two buckets, or the first of all, the middle ranks' first slots are set. */
  lemma SyncLeaves(cs: seq<Config>, starts: seq<State>, schedules: seq<seq<nat>>, ends: seq<State>, t: nat)
    requires Syncs(cs, starts, schedules, ends) && t < |cs| && cs[0].n >= 2 && (t == 0 || |cs[t].buckets| <= 2)
    ensures |ends[t]| > 1 && |ends[t][1].slots| == 2 && ends[t][1].slots[0].Some?
  {
    assert SyncAt(cs, starts, schedules, ends, t);
    if t == 0 {
      SlotsLeft(cs[0], starts[0], schedules[0], ends[0], 1);
    } else {
      ShortSyncLeaves(cs[t], starts[t], schedules[t], ends[t], 1);
    }
  }

  /**
   * With two receivers or more, a sync that follows the first of all, or one of
   * at most two buckets, is safe if and only if it has at most two buckets.
   */
  lemma LaterSyncSafeIff(cs: seq<Config>, starts: seq<State>, schedules: seq<seq<nat>>, ends: seq<State>, t: nat)
    requires Syncs(cs, starts, schedules, ends) && 1 <= t < |cs| && cs[0].n >= 2
    requires t == 1 || |cs[t - 1].buckets| <= 2
    ensures WellShaped(cs[t], starts[t])
    ensures AllRunsSafe(cs[t], starts[t]) <==> |cs[t].buckets| <= 2
  {
    assert SyncAt(cs, starts, schedules, ends, t);
    SyncLeaves(cs, starts, schedules, ends, t - 1);
    SafeIffSlotsAllow(cs[t], starts[t]);
    assert starts[t][1].slots == ends[t - 1][1].slots;
    assert RankAllows(cs[t], starts[t][1]) <==> |cs[t].buckets| <= 2;
  }

  ghost predicate SafeAt(cs: seq<Config>, starts: seq<State>, t: nat)
    requires t < |cs| == |starts|
  {
    WellShaped(cs[t], starts[t]) && AllRunsSafe(cs[t], starts[t])
  }

  /** Any number of syncs for two receivers or more are all safe if and only if all but the first have at most two buckets. */
  lemma AllSyncsSafeIff(cs: seq<Config>, starts: seq<State>, schedules: seq<seq<nat>>, ends: seq<State>)
    requires Syncs(cs, starts, schedules, ends) && |cs| > 0 && cs[0].n >= 2
    ensures (forall t :: 0 <= t < |cs| ==> SafeAt(cs, starts, t)) <==> forall t :: 1 <= t < |cs| ==> |cs[t].buckets| <= 2
  {
    FirstIsSafe(cs, starts, schedules, ends);
    if forall t :: 1 <= t < |cs| ==> |cs[t].buckets| <= 2 {
      forall t | 1 <= t < |cs| ensures SafeAt(cs, starts, t) {
        LaterSyncSafeIff(cs, starts, schedules, ends, t);
      }
    }
    if forall t :: 0 <= t < |cs| ==> SafeAt(cs, starts, t) {
      for t := 1 to |cs|
        invariant forall u :: 1 <= u < t ==> |cs[u].buckets| <= 2
      {
        assert SafeAt(cs, starts, t);
        LaterSyncSafeIff(cs, starts, schedules, ends, t);
      }
    }
  }

  lemma FirstIsSafe(cs: seq<Config>, starts: seq<State>, schedules: seq<seq<nat>>, ends: seq<State>)
    requires Syncs(cs, starts, schedules, ends) && |cs| > 0
    ensures SafeAt(cs, starts, 0)
  {
    assert SyncAt(cs, starts, schedules, ends, 0);
    AllowedIsSafe(cs[0], starts[0]);
  }
}
