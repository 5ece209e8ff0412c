/**
 * What the relay needs of its completion slots at the start of a sync, exactly,
 * and what a sync leaves in them.
 */
module RelaySlots {
  import opened Common
  import opened Relay

  /** Every run from here keeps the relay's safety. */
  ghost predicate AllRunsSafe(c: Config, s0: State)
    requires WellShaped(c, s0)
  {
    forall schedule, s :: Exec(c, s0, schedule) == Some(s) ==> OverwritesNothingUnread(c, s)
  }

  /** No rank with a successor starts with a slot set that it will wait for before it may overwrite a half. */
  ghost predicate SlotsAllow(c: Config, s: State)
    requires WellShaped(c, s)
  {
    forall r :: 0 <= r < c.n ==> RankAllows(c, s[r])
  }

  ghost predicate RankAllows(c: Config, x: Rank)
    requires |x.slots| == 2
  {
    (|c.buckets| >= 3 ==> x.slots[0] == None) && (|c.buckets| >= 4 ==> x.slots[1] == None)
  }

  // ----- clear enough is safe: a run is matched by a run from clear slots -----

  ghost predicate SameButSlots(d: Rank, s: Rank) {
    d.(slots := s.slots) == s
  }

  /** With at most two buckets, a sender that finds its last slot set finishes early. */
  ghost predicate Ahead(c: Config, d: Rank, s: Rank) {
    |c.buckets| <= 2 && s.pc.FinalWait? && d.pc.Finished? && d.(slots := s.slots, idx := s.idx, pc := s.pc) == s
  }

  /** The slots that are ever tested are the same. */
  ghost predicate SameTested(c: Config, d: Rank, s: Rank, last: bool)
    requires |d.slots| == |s.slots| == 2
  {
    !last ==> (|c.buckets| >= 3 ==> d.slots[0] == s.slots[0]) && (|c.buckets| >= 4 ==> d.slots[1] == s.slots[1])
  }

  ghost predicate Matches(c: Config, d: Rank, s: Rank, r: nat)
    requires ShapedRank(c, d) && ShapedRank(c, s)
  {
    (r == 0 && Ahead(c, d, s)) || (SameButSlots(d, s) && SameTested(c, d, s, r == c.n))
  }

  ghost predicate AllMatch(c: Config, d: State, s: State) {
    WellShaped(c, d) && WellShaped(c, s) && forall r :: 0 <= r <= c.n ==> MatchAt(c, d, s, r)
  }

  ghost predicate MatchAt(c: Config, d: State, s: State, r: nat)
    requires WellShaped(c, d) && WellShaped(c, s) && r <= c.n
  {
    Matches(c, d[r], s[r], r)
  }

  lemma SenderMatches(c: Config, d: Rank, s: Rank)
    requires ValidConfig(c) && ShapedRank(c, d) && SenderOk(c, s) && Matches(c, d, s, 0) && SenderEnabled(c, d)
    ensures if |c.buckets| <= 2 && d.pc.FinalWait? then Matches(c, SenderNext(c, d), s, 0)
            else SenderEnabled(c, s) && Matches(c, SenderNext(c, d), SenderNext(c, s), 0)
  {
  }

  lemma AwaitMatches(c: Config, dx: Rank, x: Rank, r: nat)
    requires ValidConfig(c) && 0 < r <= c.n && ShapedRank(c, dx) && ReceiverOk(c, x) && Matches(c, dx, x, r)
    requires dx.pc.Await? && dx.idx >= 2 && r < c.n && dx.slots[dx.idx % 2].Some?
    ensures x.slots[x.idx % 2].Some?
    ensures Matches(c, dx.(slots := dx.slots[dx.idx % 2 := None], pc := Read(0)),
                    x.(slots := x.slots[x.idx % 2 := None], pc := Read(0)), r)
  {
  }

  lemma SignalMatches(c: Config, dp: Rank, p: Rank, r: nat, slot: nat, signal: Option<nat>)
    requires 0 < r <= c.n && ShapedRank(c, dp) && ShapedRank(c, p) && Matches(c, dp, p, r - 1) && slot < 2
    ensures Matches(c, dp.(slots := dp.slots[slot := signal]), p.(slots := p.slots[slot := signal]), r - 1)
  {
  }

  lemma InnerMatches(c: Config, dp: Rank, dx: Rank, p: Rank, x: Rank, r: nat)
    requires 0 < r <= c.n && ShapedRank(c, dp) && ShapedRank(c, dx) && ShapedRank(c, p) && ShapedRank(c, x)
    requires Matches(c, dp, p, r - 1) && Matches(c, dx, x, r) && !dx.pc.Await? && !dx.pc.Signal?
    requires ReceiverEnabled(c, dp, dx, r == c.n)
    ensures ReceiverEnabled(c, p, x, r == c.n)
    ensures var Hop(dp', dx') := ReceiverNext(c, dp, dx, r == c.n);
            var Hop(p', x') := ReceiverNext(c, p, x, r == c.n);
            Matches(c, dp', p', r - 1) && Matches(c, dx', x', r)
  {
    assert SameButSlots(dx, x);
  }

  lemma ReceiverMatches(c: Config, dp: Rank, dx: Rank, p: Rank, x: Rank, r: nat)
    requires ValidConfig(c) && 0 < r <= c.n && ShapedRank(c, dp) && ShapedRank(c, dx) && ShapedRank(c, p)
    requires ReceiverOk(c, x) && Matches(c, dp, p, r - 1) && Matches(c, dx, x, r)
    requires ReceiverEnabled(c, dp, dx, r == c.n)
    ensures ReceiverEnabled(c, p, x, r == c.n)
    ensures var Hop(dp', dx') := ReceiverNext(c, dp, dx, r == c.n);
            var Hop(p', x') := ReceiverNext(c, p, x, r == c.n);
            Matches(c, dp', p', r - 1) && Matches(c, dx', x', r)
  {
    assert SameButSlots(dx, x);
    match dx.pc
    case Await =>
      if dx.idx >= 2 && r < c.n {
        AwaitMatches(c, dx, x, r);
      }
    case Signal => SignalMatches(c, dp, p, r, dx.cur.slot, Some(dx.idx));
    case _ => InnerMatches(c, dp, dx, p, x, r);
  }

  /** Whether the clear run stands still while the other one takes a step. */
  ghost predicate Stutters(c: Config, d: State, r: nat)
    requires WellShaped(c, d) && r <= c.n
  {
    r == 0 && |c.buckets| <= 2 && d[0].pc.FinalWait?
  }

  lemma StepMatches(c: Config, d: State, s: State, r: nat)
    requires Inv(c, s) && AllMatch(c, d, s) && Enabled(c, d, r)
    ensures if Stutters(c, d, r) then AllMatch(c, Next(c, d, r), s)
            else Enabled(c, s, r) && AllMatch(c, Next(c, d, r), Next(c, s, r))
  {
    assert MatchAt(c, d, s, r) && RankAt(c, s, r);
    if r == 0 {
      SenderMatches(c, d[0], s[0]);
      var s' := if Stutters(c, d, 0) then s else Next(c, s, 0);
      forall i | 0 <= i <= c.n ensures MatchAt(c, Next(c, d, 0), s', i) {
        assert MatchAt(c, d, s, i);
      }
    } else {
      assert MatchAt(c, d, s, r - 1);
      ReceiverMatches(c, d[r - 1], d[r], s[r - 1], s[r], r);
      forall i | 0 <= i <= c.n ensures MatchAt(c, Next(c, d, r), Next(c, s, r), i) {
        assert MatchAt(c, d, s, i);
      }
    }
  }

  lemma ExecStep(c: Config, s0: State, schedule: seq<nat>, s: State, r: nat)
    requires WellShaped(c, s0) && Exec(c, s0, schedule) == Some(s) && Enabled(c, s, r)
    ensures Exec(c, s0, schedule + [r]) == Some(Next(c, s, r))
  {
    assert (schedule + [r])[..|schedule|] == schedule;
  }

  lemma {:induction false} RunMatches(c: Config, d0: State, s0: State, schedule: seq<nat>, d: State)
    returns (schedule': seq<nat>, s: State)
    requires ValidConfig(c) && Init(c, s0) && AllMatch(c, d0, s0) && Exec(c, d0, schedule) == Some(d)
    ensures Exec(c, s0, schedule') == Some(s) && AllMatch(c, d, s)
  {
    if schedule == [] {
      schedule', s := [], s0;
    } else {
      var n := |schedule| - 1;
      var before := Exec(c, d0, schedule[..n]).value;
      var t;
      schedule', t := RunMatches(c, d0, s0, schedule[..n], before);
      ReachedInv(c, s0, schedule', t);
      StepMatches(c, before, t, schedule[n]);
      if Stutters(c, before, schedule[n]) {
        s := t;
      } else {
        ExecStep(c, s0, schedule', t, schedule[n]);
        schedule', s := schedule' + [schedule[n]], Next(c, t, schedule[n]);
      }
    }
  }

  function Cleared(s: State): (t: State)
    ensures |t| == |s| && forall r :: 0 <= r < |s| ==> t[r] == s[r].(slots := [None, None])
  {
    seq(|s|, r requires 0 <= r < |s| => s[r].(slots := [None, None]))
  }

  lemma MatchedIsSafe(c: Config, d: State, s: State)
    requires Inv(c, s) && AllMatch(c, d, s) && OverwritesNothingUnread(c, s)
    ensures OverwritesNothingUnread(c, d)
  {
    forall r | 0 <= r < c.n && (d[r].pc.Fill? || d[r].pc.Read?) ensures WriterClear(d[r], d[r + 1]) {
      assert MatchAt(c, d, s, r) && MatchAt(c, d, s, r + 1);
      assert SameButSlots(d[r], s[r]) && SameButSlots(d[r + 1], s[r + 1]);
      assert WriterClear(s[r], s[r + 1]);
    }
  }

  /** Where the slots allow it, every run is safe. */
  lemma AllowedIsSafe(c: Config, s0: State)
    requires ValidConfig(c) && InitExceptSlots(c, s0) && SlotsAllow(c, s0)
    ensures AllRunsSafe(c, s0)
  {
    var clear := Cleared(s0);
    forall r | 0 <= r <= c.n ensures MatchAt(c, s0, clear, r) {
      assert r < c.n ==> RankAllows(c, s0[r]);
    }
    forall schedule, d | Exec(c, s0, schedule) == Some(d) ensures OverwritesNothingUnread(c, d) {
      var schedule', s := RunMatches(c, s0, clear, schedule, d);
      ReachedInv(c, clear, schedule', s);
      RelaySafety(c, clear, schedule', s);
      MatchedIsSafe(c, d, s);
    }
  }
}
