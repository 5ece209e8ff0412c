/** Runs of the relay bucket by bucket: with a slot set that should be clear, one of them overwrites an unread bucket. */
module RelayWaves {
  import opened Common
  import opened Relay
  import opened RelaySlots

  ghost predicate Leads(c: Config, s: State, schedule: seq<nat>, t: State) {
    WellShaped(c, s) && Exec(c, s, schedule) == Some(t)
  }

  lemma {:induction false} LeadsOn(c: Config, s: State, a: seq<nat>, t: State, b: seq<nat>, u: State)
    requires Leads(c, s, a, t) && Leads(c, t, b, u)
    ensures Leads(c, s, a + b, u)
  {
    if b == [] {
      assert a + b == a;
    } else {
      var n := |b| - 1;
      assert (a + b)[..|a + b| - 1] == a + b[..n];
      LeadsOn(c, s, a, t, b[..n], Exec(c, t, b[..n]).value);
    }
  }

  lemma OneStep(c: Config, s: State, r: nat)
    requires WellShaped(c, s) && Enabled(c, s, r)
    ensures Leads(c, s, [r], Next(c, s, r))
  {
    assert [r][..0] == [];
    assert Exec(c, s, []) == Some(s);
  }

  // ----- one rank, one bucket -----

  /** The sender copies the rest of its bucket into the half. */
  lemma {:induction false} FillAll(c: Config, s: State, k: nat) returns (schedule: seq<nat>, t: State)
    requires ValidConfig(c) && WellShaped(c, s) && s[0].idx < |c.buckets|
    requires s[0].pc == Fill(k) && k <= |c.buckets[s[0].idx]|
    ensures Leads(c, s, schedule, t)
    ensures t == s[0 := s[0].(halves := t[0].halves, pc := Fill(|c.buckets[s[0].idx]|))]
    decreases |c.buckets[s[0].idx]| - k
  {
    var b := c.buckets[s[0].idx];
    if k == |b| {
      schedule, t := [], s;
    } else {
      MetaLocates(b, k);
      OneStep(c, s, 0);
      var rest;
      rest, t := FillAll(c, Next(c, s, 0), k + 1);
      LeadsOn(c, s, [0], Next(c, s, 0), rest, t);
      schedule := [0] + rest;
    }
  }

  /** The sender's next bucket, if it has to wait only for a slot that is set. */
  lemma SenderBucket(c: Config, s: State, b: nat) returns (schedule: seq<nat>, t: State)
    requires ValidConfig(c) && WellShaped(c, s) && b < |c.buckets|
    requires s[0].idx == b && s[0].pc == Fill(0) && (1 <= b < |c.buckets| - 1 ==> s[0].slots[(b + 1) % 2].Some?)
    ensures Leads(c, s, schedule, t)
    ensures t == s[0 := t[0]] && t[0].queue == s[0].queue + [InfoOf(c, b)]
    ensures b < |c.buckets| - 1 ==> t[0].idx == b + 1 && t[0].pc == Fill(0)
    ensures t[0].slots == if 1 <= b < |c.buckets| - 1 then s[0].slots[(b + 1) % 2 := None] else s[0].slots
  {
    schedule, t := FillAll(c, s, 0);
    OneStep(c, t, 0);
    LeadsOn(c, s, schedule, t, [0], Next(c, t, 0));
    schedule, t := schedule + [0], Next(c, t, 0);
    if 1 <= b < |c.buckets| - 1 {
      OneStep(c, t, 0);
      LeadsOn(c, s, schedule, t, [0], Next(c, t, 0));
      schedule, t := schedule + [0], Next(c, t, 0);
    }
  }

  /** A receiver reads the rest of its predecessor's half. */
  lemma {:induction false} ReadAll(c: Config, s: State, i: nat, b: nat, pos: nat) returns (schedule: seq<nat>, t: State)
    requires ValidConfig(c) && WellShaped(c, s) && 0 < i <= c.n && b < |c.buckets|
    requires s[i].cur == InfoOf(c, b) && s[i].pc == Read(pos) && pos <= s[i].cur.len
    ensures Leads(c, s, schedule, t)
    ensures t == s[i := s[i].(halves := t[i].halves, pc := Forward)]
    decreases s[i].cur.len - pos
  {
    OneStep(c, s, i);
    var u := Next(c, s, i);
    assert u == s[i := u[i]];
    if pos == s[i].cur.len {
      schedule, t := [i], u;
    } else {
      var rest;
      rest, t := ReadAll(c, u, i, b, pos + 1);
      LeadsOn(c, s, [i], u, rest, t);
      schedule := [i] + rest;
    }
  }

  /** A receiver hands the rest of the bucket to its consumer. */
  lemma {:induction false} YieldAll(c: Config, s: State, i: nat, b: nat, y: nat) returns (schedule: seq<nat>, t: State)
    requires ValidConfig(c) && AllViewable(c) && WellShaped(c, s) && 0 < i <= c.n && b < |c.buckets|
    requires s[i].idx == b && s[i].cur == InfoOf(c, b) && s[i].pc == Yield(y) && y <= |Names(c.buckets[b])|
    ensures Leads(c, s, schedule, t)
    ensures t == s[i := s[i].(out := t[i].out, pc := Signal)]
    decreases |Names(c.buckets[b])| - y
  {
    if y < |Names(c.buckets[b])| {
      MetaLocates(c.buckets[b], LastOf(c.buckets[b], Names(c.buckets[b])[y]));
      assert ViewAt(c, b, y);
    }
    OneStep(c, s, i);
    var u := Next(c, s, i);
    assert u == s[i := u[i]];
    if y == |Names(c.buckets[b])| {
      schedule, t := [i], u;
    } else {
      var rest;
      rest, t := YieldAll(c, u, i, b, y + 1);
      LeadsOn(c, s, [i], u, rest, t);
      schedule := [i] + rest;
    }
  }

  /** Whether receiver i waits for a slot before it reads bucket b. */
  predicate Waits(c: Config, i: nat, b: nat) {
    b >= 2 && i < c.n
  }

  /** A receiver takes the record of bucket b and starts to read: what it has to wait for is there. */
  lemma StartBucket(c: Config, s: State, i: nat, b: nat) returns (schedule: seq<nat>, t: State)
    requires ValidConfig(c) && WellShaped(c, s) && 0 < i <= c.n && b < |c.buckets|
    requires s[i].idx == b && s[i].pc == Recv && s[i - 1].queue == [InfoOf(c, b)]
    requires Waits(c, i, b) ==> s[i].slots[b % 2].Some?
    ensures Leads(c, s, schedule, t)
    ensures t == s[i - 1 := s[i - 1].(queue := [])][i := t[i]]
    ensures t[i] == s[i].(cur := InfoOf(c, b), pc := Read(0),
                          slots := if Waits(c, i, b) then s[i].slots[b % 2 := None] else s[i].slots)
  {
    OneStep(c, s, i);
    var u := Next(c, s, i);
    OneStep(c, u, i);
    LeadsOn(c, s, [i], u, [i], Next(c, u, i));
    schedule, t := [i] + [i], Next(c, u, i);
  }

  /** From the start of the read to the completion signal. */
  lemma FinishBucket(c: Config, s: State, i: nat, b: nat) returns (schedule: seq<nat>, t: State)
    requires ValidConfig(c) && AllViewable(c) && WellShaped(c, s) && 0 < i <= c.n && b < |c.buckets|
    requires s[i].idx == b && s[i].pc == Read(0) && s[i].cur == InfoOf(c, b)
    ensures Leads(c, s, schedule, t)
    ensures t == s[i - 1 := s[i - 1].(slots := s[i - 1].slots[b % 2 := Some(b)])][i := t[i]]
    ensures t[i].idx == b + 1 && t[i].pc == (if b == |c.buckets| - 1 then Finished else Recv) && t[i].slots == s[i].slots
    ensures t[i].queue == if i == c.n then s[i].queue else s[i].queue + [InfoOf(c, b)]
  {
    var more, u;
    schedule, u := ReadAll(c, s, i, b, 0);
    OneStep(c, u, i);
    var v := Next(c, u, i);
    LeadsOn(c, s, schedule, u, [i], v);
    assert v == s[i := v[i]];
    var w;
    more, w := YieldAll(c, v, i, b, 0);
    LeadsOn(c, s, schedule + [i], v, more, w);
    assert w == s[i := w[i]];
    OneStep(c, w, i);
    t := Next(c, w, i);
    LeadsOn(c, s, schedule + [i] + more, w, [i], t);
    schedule := schedule + [i] + more + [i];
  }

  /** A receiver's whole turn with bucket b. */
  lemma ReceiverBucket(c: Config, s: State, i: nat, b: nat) returns (schedule: seq<nat>, t: State)
    requires ValidConfig(c) && AllViewable(c) && WellShaped(c, s) && 0 < i <= c.n && b < |c.buckets|
    requires s[i].idx == b && s[i].pc == Recv && s[i - 1].queue == [InfoOf(c, b)]
    requires Waits(c, i, b) ==> s[i].slots[b % 2].Some?
    ensures Leads(c, s, schedule, t)
    ensures t == s[i - 1 := s[i - 1].(queue := [], slots := s[i - 1].slots[b % 2 := Some(b)])][i := t[i]]
    ensures t[i].idx == b + 1 && t[i].pc == (if b == |c.buckets| - 1 then Finished else Recv)
    ensures t[i].queue == if i == c.n then s[i].queue else s[i].queue + [InfoOf(c, b)]
    ensures t[i].slots == if Waits(c, i, b) then s[i].slots[b % 2 := None] else s[i].slots
  {
    var u, more;
    schedule, u := StartBucket(c, s, i, b);
    more, t := FinishBucket(c, u, i, b);
    LeadsOn(c, s, schedule, u, more, t);
    schedule := schedule + more;
  }

  // ----- all ranks up to r, one bucket -----

  ghost predicate AtBucket(x: Rank, b: nat, first: bool) {
    x.idx == b && x.pc == if first then Fill(0) else Recv
  }

  /** The signals that the rank will wait for at bucket b are there. */
  ghost predicate SlotsReady(x: Rank, b: nat, first: bool)
    requires |x.slots| == 2
  {
    (b >= 1 ==> x.slots[(b + 1) % 2].Some?) && (b >= 2 && !first ==> x.slots[b % 2].Some?)
  }

  /** Rank i, of the ranks up to r, is about to turn to bucket b. */
  ghost predicate StartAt(c: Config, s: State, r: nat, b: nat, i: nat)
    requires WellShaped(c, s) && i <= r <= c.n
  {
    AtBucket(s[i], b, i == 0) && (i < r ==> s[i].queue == [] && SlotsReady(s[i], b, i == 0))
  }

  ghost predicate WaveStart(c: Config, s: State, r: nat, b: nat) {
    WellShaped(c, s) && r <= c.n && b < |c.buckets| && forall i :: 0 <= i <= r ==> StartAt(c, s, r, b, i)
  }

  /** Rank r itself, whose successor may stand still, finds set the slot that it waits for at bucket b. */
  ghost predicate OwnWait(c: Config, x: Rank, r: nat, b: nat)
    requires |x.slots| == 2
  {
    if r == 0 then 1 <= b < |c.buckets| - 1 ==> x.slots[(b + 1) % 2].Some? else Waits(c, r, b) ==> x.slots[b % 2].Some?
  }

  function OwnSlots(c: Config, x: Rank, r: nat, b: nat): seq<Option<nat>>
    requires |x.slots| == 2
  {
    if r == 0 then if 1 <= b < |c.buckets| - 1 then x.slots[(b + 1) % 2 := None] else x.slots
    else if Waits(c, r, b) then x.slots[b % 2 := None] else x.slots
  }

  ghost predicate StillSet(x: Rank, y: Rank)
    requires |x.slots| == |y.slots| == 2
  {
    (x.slots[0].Some? ==> y.slots[0].Some?) && (x.slots[1].Some? ==> y.slots[1].Some?)
  }

  /** Rank i, not the last to have had its turn with bucket b. */
  ghost predicate DoneAt(c: Config, s: State, t: State, b: nat, i: nat)
    requires WellShaped(c, s) && WellShaped(c, t) && i <= c.n
  {
    && (b < |c.buckets| - 1 ==> AtBucket(t[i], b + 1, i == 0) && t[i].queue == [] && SlotsReady(t[i], b + 1, i == 0))
    && (b == 0 ==> StillSet(s[i], t[i]))
  }

  /** Rank i, the last to have had its turn with bucket b. */
  ghost predicate LastAt(c: Config, s: State, t: State, b: nat, i: nat)
    requires WellShaped(c, s) && WellShaped(c, t) && i <= c.n && b < |c.buckets|
  {
    && (b < |c.buckets| - 1 ==> AtBucket(t[i], b + 1, i == 0))
    && t[i].queue == (if i == c.n then s[i].queue else s[i].queue + [InfoOf(c, b)])
    && t[i].slots == OwnSlots(c, s[i], i, b)
  }

  /** The first m ranks have had their turn with bucket b. */
  ghost predicate Turned(c: Config, s: State, t: State, b: nat, m: nat)
    requires b < |c.buckets|
  {
    && WellShaped(c, s) && WellShaped(c, t) && m <= c.n + 1
    && (forall i :: 0 <= i < m - 1 ==> DoneAt(c, s, t, b, i))
    && (m > 0 ==> LastAt(c, s, t, b, m - 1))
    && (forall i :: m <= i <= c.n ==> t[i] == s[i])
  }

  /** A rank that has had its turn, and then gets its successor's signal. */
  lemma SignalledIsDone(c: Config, s: State, t: State, u: State, r: nat, b: nat, i: nat)
    requires WellShaped(c, s) && WellShaped(c, t) && WellShaped(c, u) && i < r <= c.n && b < |c.buckets|
    requires StartAt(c, s, r, b, i) && LastAt(c, s, t, b, i)
    requires u[i] == t[i].(queue := [], slots := t[i].slots[b % 2 := Some(b)])
    ensures DoneAt(c, s, u, b, i)
  {
  }

  lemma NextTurn(c: Config, s: State, t: State, u: State, r: nat, b: nat, m: nat)
    requires WaveStart(c, s, r, b) && Turned(c, s, t, b, m) && 0 < m <= r
    requires WellShaped(c, u) && u == t[m - 1 := u[m - 1]][m := u[m]]
    requires u[m - 1] == t[m - 1].(queue := [], slots := t[m - 1].slots[b % 2 := Some(b)])
    requires LastAt(c, s, u, b, m)
    ensures Turned(c, s, u, b, m + 1)
  {
    assert StartAt(c, s, r, b, m - 1);
    SignalledIsDone(c, s, t, u, r, b, m - 1);
    forall i | 0 <= i < m - 1 ensures DoneAt(c, s, u, b, i) {
      assert DoneAt(c, s, t, b, i);
    }
  }

  /** Rank m takes its turn after those before it. */
  lemma OneTurn(c: Config, s: State, u: State, r: nat, b: nat, m: nat) returns (schedule: seq<nat>, t: State)
    requires ValidConfig(c) && AllViewable(c) && WaveStart(c, s, r, b) && 0 < m <= r && (m == r ==> OwnWait(c, s[r], r, b))
    requires Turned(c, s, u, b, m)
    ensures Leads(c, u, schedule, t) && Turned(c, s, t, b, m + 1)
  {
    assert StartAt(c, s, r, b, m) && StartAt(c, s, r, b, m - 1);
    assert u[m] == s[m] && LastAt(c, s, u, b, m - 1);
    schedule, t := ReceiverBucket(c, u, m, b);
    assert LastAt(c, s, t, b, m);
    NextTurn(c, s, u, t, r, b, m);
  }

  /** The first m of the ranks up to r take their turns with bucket b; rank r needs its own slot only if it is among them. */
  lemma {:induction false} PartWave(c: Config, s: State, r: nat, b: nat, m: nat) returns (schedule: seq<nat>, t: State)
    requires ValidConfig(c) && AllViewable(c) && WaveStart(c, s, r, b) && m <= r + 1 && (m == r + 1 ==> OwnWait(c, s[r], r, b))
    ensures Leads(c, s, schedule, t) && Turned(c, s, t, b, m)
  {
    if m == 0 {
      schedule, t := [], s;
    } else if m == 1 {
      assert StartAt(c, s, r, b, 0);
      schedule, t := SenderBucket(c, s, b);
    } else {
      var u, more;
      schedule, u := PartWave(c, s, r, b, m - 1);
      more, t := OneTurn(c, s, u, r, b, m - 1);
      LeadsOn(c, s, schedule, u, more, t);
      schedule := schedule + more;
    }
  }

  /** All ranks up to r take their turns with bucket b, which is not the last. */
  lemma Wave(c: Config, s: State, r: nat, b: nat) returns (schedule: seq<nat>, t: State)
    requires ValidConfig(c) && AllViewable(c) && WaveStart(c, s, r, b) && OwnWait(c, s[r], r, b) && b < |c.buckets| - 1
    ensures Leads(c, s, schedule, t) && WaveStart(c, t, r, b + 1)
    ensures t[r].slots == OwnSlots(c, s[r], r, b) && forall i :: r < i <= c.n ==> t[i] == s[i]
    ensures b == 0 ==> forall i :: 0 <= i < r ==> StillSet(s[i], t[i])
  {
    schedule, t := PartWave(c, s, r, b, r + 1);
    assert LastAt(c, s, t, b, r);
    var next := b + 1;
    forall i | 0 <= i <= r ensures StartAt(c, t, r, next, i) {
      assert i < r ==> DoneAt(c, s, t, b, i);
    }
    forall i | 0 <= i < r && b == 0 ensures StillSet(s[i], t[i]) {
      assert DoneAt(c, s, t, b, i);
    }
  }

  // ----- the run that overwrites -----

  ghost predicate Overwrites(c: Config, s0: State, schedule: seq<nat>, s: State) {
    Leads(c, s0, schedule, s) && !OverwritesNothingUnread(c, s)
  }

  lemma InitIsStart(c: Config, s0: State, r: nat)
    requires ValidConfig(c) && InitExceptSlots(c, s0) && r <= c.n
    ensures WaveStart(c, s0, r, 0)
  {
  }

  lemma FewerRanks(c: Config, s: State, r: nat, b: nat)
    requires WaveStart(c, s, r + 1, b)
    ensures WaveStart(c, s, r, b) && SlotsReady(s[r], b, r == 0)
  {
    forall i | 0 <= i <= r ensures StartAt(c, s, r, b, i) {
      assert StartAt(c, s, r + 1, b, i);
    }
    assert StartAt(c, s, r + 1, b, r);
  }

  /** Rank r starts to write bucket b while its successor has not turned to bucket b - 2. */
  lemma WritesTooEarly(c: Config, s: State, r: nat, b: nat) returns (schedule: seq<nat>, t: State)
    requires ValidConfig(c) && AllViewable(c) && WaveStart(c, s, r, b) && b >= 2 && r < c.n
    requires r > 0 ==> s[r].slots[b % 2].Some?
    requires s[r + 1].idx <= b - 2 && s[r + 1].pc == Recv
    ensures Overwrites(c, s, schedule, t)
  {
    assert StartAt(c, s, r, b, r);
    if r == 0 {
      schedule, t := [], s;
    } else {
      var u, more;
      schedule, u := PartWave(c, s, r, b, r);
      assert LastAt(c, s, u, b, r - 1) && StartAt(c, s, r, b, r - 1);
      more, t := StartBucket(c, u, r, b);
      LeadsOn(c, s, schedule, u, more, t);
      schedule := schedule + more;
    }
    assert t[r].idx == b && (t[r].pc.Fill? || t[r].pc.Read?);
    assert (b - 2) % 2 == b % 2 && ReadDone(t[r + 1]) <= b - 2;
    assert !WriterClear(t[r], t[r + 1]);
  }

  /** With its first slot set, rank r overwrites bucket 0 with bucket 2. */
  lemma FirstSlotOverwrites(c: Config, s0: State, r: nat) returns (schedule: seq<nat>, t: State)
    requires ValidConfig(c) && AllViewable(c) && InitExceptSlots(c, s0) && r < c.n && |c.buckets| >= 3 && s0[r].slots[0].Some?
    ensures Overwrites(c, s0, schedule, t)
  {
    InitIsStart(c, s0, r);
    var u, v, more;
    schedule, u := Wave(c, s0, r, 0);
    more, v := Wave(c, u, r, 1);
    LeadsOn(c, s0, schedule, u, more, v);
    schedule := schedule + more;
    more, t := WritesTooEarly(c, v, r, 2);
    LeadsOn(c, s0, schedule, v, more, t);
    schedule := schedule + more;
  }

  /** With its second slot set, rank r overwrites bucket 1 with bucket 3. */
  lemma SecondSlotOverwrites(c: Config, s0: State, r: nat) returns (schedule: seq<nat>, t: State)
    requires ValidConfig(c) && AllViewable(c) && InitExceptSlots(c, s0) && r < c.n && |c.buckets| >= 4 && s0[r].slots[1].Some?
    ensures Overwrites(c, s0, schedule, t)
  {
    InitIsStart(c, s0, r + 1);
    var u, v, w, more;
    schedule, u := Wave(c, s0, r + 1, 0);
    assert StartAt(c, u, r + 1, 1, r + 1) && StillSet(s0[r], u[r]);
    FewerRanks(c, u, r, 1);
    more, v := Wave(c, u, r, 1);
    LeadsOn(c, s0, schedule, u, more, v);
    schedule := schedule + more;
    more, w := Wave(c, v, r, 2);
    LeadsOn(c, s0, schedule, v, more, w);
    schedule := schedule + more;
    more, t := WritesTooEarly(c, w, r, 3);
    LeadsOn(c, s0, schedule, w, more, t);
    schedule := schedule + more;
  }

  /**
   * From a state that is initial except for the slots, all runs keep every
   * unread bucket if and only if the slots that will be waited for are clear:
   * the first with three buckets or more, both with four or more, at every
   * rank that has a successor.
   */
  lemma SafeIffSlotsAllow(c: Config, s0: State)
    requires ValidConfig(c) && AllViewable(c) && InitExceptSlots(c, s0)
    ensures AllRunsSafe(c, s0) <==> SlotsAllow(c, s0)
  {
    if SlotsAllow(c, s0) {
      AllowedIsSafe(c, s0);
    } else {
      var r :| 0 <= r < c.n && !RankAllows(c, s0[r]);
      var schedule, t;
      if |c.buckets| >= 3 && s0[r].slots[0].Some? {
        schedule, t := FirstSlotOverwrites(c, s0, r);
      } else {
        schedule, t := SecondSlotOverwrites(c, s0, r);
      }
    }
  }

  // ----- what a sync leaves behind -----

  /** The signals that nobody waits for any more: the sender's last but one, and a middle rank's last two. */
  lemma SlotsLeft(c: Config, s0: State, schedule: seq<nat>, s: State, r: nat)
    requires Reached(c, s0, schedule, s) && AllFinished(s) && r < c.n
    ensures var k := |c.buckets|;
            && (s[r].slots[0].Some? <==> if r == 0 then k >= 2 && k % 2 == 0 else true)
            && (s[r].slots[1].Some? <==> if r == 0 then k >= 2 && k % 2 == 1 else k >= 2)
  {
    ReachedInv(c, s0, schedule, s);
    assert RankAt(c, s, r) && RankAt(c, s, r + 1) && LinkAt(c, s, r);
  }

  /** The next sync starts with the slots as the last one left them. */
  ghost predicate Follows(c: Config, s: State, c': Config, s0': State) {
    && c'.n == c.n && c'.size == c.size && ValidConfig(c') && AllViewable(c') && InitExceptSlots(c', s0')
    && |s| == |s0'| == c.n + 1 && forall r :: 0 <= r <= c.n ==> s0'[r].slots == s[r].slots
  }

  /** When the sync after one of k buckets is safe, with k' buckets. */
  predicate NextSafe(n: nat, k: nat, k': nat) {
    k' <= 2 || (n == 1 && (k == 1 || (k % 2 == 1 && k' == 3)))
  }

  /**
   * Since nothing clears the slots between syncs, after a sync of k buckets
   * from clear slots the next one, of k' buckets, is safe in all runs exactly
   * when k' is at most 2, or there is a single receiver and either k was 1, or
   * k was odd and k' is 3.
   */
  lemma NextSyncSafeIff(c: Config, s0: State, schedule: seq<nat>, s: State, c': Config, s0': State)
    requires Reached(c, s0, schedule, s) && AllFinished(s) && Follows(c, s, c', s0')
    ensures AllRunsSafe(c', s0') <==> NextSafe(c.n, |c.buckets|, |c'.buckets|)
  {
    SafeIffSlotsAllow(c', s0');
    var k, k' := |c.buckets|, |c'.buckets|;
    forall r | 0 <= r < c.n ensures RankAllows(c', s0'[r]) <==> AllowsNext(r, k, k') {
      SlotsLeft(c, s0, schedule, s, r);
    }
    assert SlotsAllow(c', s0') <==> forall r :: 0 <= r < c.n ==> AllowsNext(r, k, k');
    assert AllowsNext(0, k, k') <==> k' <= 2 || k == 1 || (k % 2 == 1 && k' == 3);
    assert c.n >= 2 ==> (AllowsNext(1, k, k') <==> k' <= 2);
  }

  /** Rank r's slots, as a sync of k buckets left them, allow one of k'. */
  predicate AllowsNext(r: nat, k: nat, k': nat) {
    k' <= 2 || (r == 0 && (k == 1 || (k % 2 == 1 && k' == 3)))
  }
}
