/** The batched rollout scheduler: a window of prepared tasks, batches of turns, and finalizers that end in any order. */
module Scheduler {
  import opened Common
  import opened TaskState

  datatype TaskResult = TaskResult(request: nat, status: Status)

  /** Where a result comes from: preparing its request raised or found a result, or its task, as it was then, was finalized. */
  datatype Origin = Unprepared | Existing | Finalized(task: TaskView, raised: bool)

  /** A request that could not be prepared failed, one that was done is skipped, and otherwise the task's own status counts unless finalizing it raised. */
  ghost predicate Explained(r: TaskResult, o: Origin) {
    match o
    case Unprepared => r.status == Failed
    case Existing => r.status == Skipped
    case Finalized(t, raised) =>
      t.request == r.request && t.status in {Completed, Failed} && r.status == if raised then Failed else t.status
  }

  ghost predicate AllExplained(results: seq<TaskResult>, origins: seq<Origin>) {
    |origins| == |results| && forall k :: 0 <= k < |results| ==> Explained(results[k], origins[k])
  }

  // ----- bookkeeping on views -----

  ghost function Views(ss: seq<TaskRunState>, maxSteps: int): (r: seq<TaskView>)
    reads ss
    ensures |r| == |ss| && forall k :: 0 <= k < |ss| ==> r[k] == ss[k].View(maxSteps)
  {
    seq(|ss|, k requires 0 <= k < |ss| reads ss => ss[k].View(maxSteps))
  }

  function Requests(ss: seq<TaskRunState>): (r: seq<nat>)
    ensures |r| == |ss| && forall k :: 0 <= k < |ss| ==> r[k] == ss[k].request
  {
    seq(|ss|, k requires 0 <= k < |ss| => ss[k].request)
  }

  function Answered(results: seq<TaskResult>): (r: seq<nat>)
    ensures |r| == |results| && forall k :: 0 <= k < |results| ==> r[k] == results[k].request
  {
    seq(|results|, k requires 0 <= k < |results| => results[k].request)
  }

  /** Tasks that are running or have not been handed to a finalizer. */
  ghost function Pending(views: seq<TaskView>, finalizedIds: set<int>): (r: nat)
    ensures r <= |views|
  {
    if views == [] then 0
    else
      var v := views[|views| - 1];
      Pending(views[..|views| - 1], finalizedIds) + if v.Runs() || v.id !in finalizedIds then 1 else 0
  }

  /** Turns the running tasks may still take. */
  ghost function Fuel(views: seq<TaskView>, limit: nat): (r: nat) {
    if views == [] then 0
    else
      var v := views[|views| - 1];
      Fuel(views[..|views| - 1], limit) + ViewFuel(v, limit)
  }

  ghost function ViewFuel(v: TaskView, limit: nat): nat {
    if v.Runs() && v.steps < limit then limit - v.steps else 0
  }

  ghost predicate Counts(v: TaskView, finalizedIds: set<int>) {
    v.Runs() || v.id !in finalizedIds
  }

  lemma {:induction false} PendingFewer(views: seq<TaskView>, fin: set<int>, views': seq<TaskView>, fin': set<int>)
    requires |views| == |views'|
    requires forall k :: 0 <= k < |views| ==> Counts(views'[k], fin') ==> Counts(views[k], fin)
    ensures Pending(views', fin') <= Pending(views, fin)
  {
    if views != [] {
      var n := |views| - 1;
      PendingFewer(views[..n], fin, views'[..n], fin');
      assert Counts(views'[n], fin') ==> Counts(views[n], fin);
    }
  }

  lemma {:induction false} PendingZero(views: seq<TaskView>, fin: set<int>)
    ensures Pending(views, fin) == 0 <==> forall k :: 0 <= k < |views| ==> !Counts(views[k], fin)
  {
    if views != [] {
      var n := |views| - 1;
      PendingZero(views[..n], fin);
      assert forall k :: 0 <= k < n ==> views[..n][k] == views[k];
    }
  }

  /** It is how many there are of them. */
  lemma {:induction false} PendingExact(views: seq<TaskView>, fin: set<int>)
    ensures Pending(views, fin) == |set k | 0 <= k < |views| && Counts(views[k], fin)|
  {
    var these := set k | 0 <= k < |views| && Counts(views[k], fin);
    if views == [] {
      assert these == {};
    } else {
      var n := |views| - 1;
      PendingExact(views[..n], fin);
      var before := set k | 0 <= k < n && Counts(views[..n][k], fin);
      assert these == before + if Counts(views[n], fin) then {n} else {};
    }
  }

  lemma {:induction false} PendingDrop(views: seq<TaskView>, k: nat, fin: set<int>)
    requires k < |views|
    ensures Pending(views[..k] + views[k + 1..], fin) <= Pending(views, fin)
  {
    var n := |views| - 1;
    if k < n {
      PendingDrop(views[..n], k, fin);
      assert views[..n][..k] + views[..n][k + 1..] == (views[..k] + views[k + 1..])[..n - 1];
    } else {
      assert views[..k] + views[k + 1..] == views[..n];
    }
  }

  lemma {:induction false} FuelDrop(views: seq<TaskView>, k: nat, limit: nat)
    requires k < |views|
    ensures Fuel(views[..k] + views[k + 1..], limit) <= Fuel(views, limit)
  {
    var n := |views| - 1;
    if k < n {
      FuelDrop(views[..n], k, limit);
      assert views[..n][..k] + views[..n][k + 1..] == (views[..k] + views[k + 1..])[..n - 1];
    } else {
      assert views[..k] + views[k + 1..] == views[..n];
    }
  }

  lemma {:induction false} FuelNoMore(views: seq<TaskView>, views': seq<TaskView>, limit: nat)
    requires |views| == |views'|
    requires forall k :: 0 <= k < |views| ==> ViewFuel(views'[k], limit) <= ViewFuel(views[k], limit)
    ensures Fuel(views', limit) <= Fuel(views, limit)
    ensures (exists k :: 0 <= k < |views| && ViewFuel(views'[k], limit) < ViewFuel(views[k], limit))
            ==> Fuel(views', limit) < Fuel(views, limit)
  {
    if views != [] {
      var n := |views| - 1;
      FuelNoMore(views[..n], views'[..n], limit);
      assert ViewFuel(views'[n], limit) <= ViewFuel(views[n], limit);
      if k :| 0 <= k < |views| && ViewFuel(views'[k], limit) < ViewFuel(views[k], limit) {
        assert k < n ==> views'[..n][k] == views'[k] && views[..n][k] == views[k];
      }
    }
  }

  // ----- one result per request -----

  ghost predicate Distinct(ss: seq<TaskRunState>) {
    forall a, b :: 0 <= a < b < |ss| ==> ss[a].id != ss[b].id
  }

  function Without<T>(ss: seq<T>, k: nat): seq<T>
    requires k < |ss|
  {
    ss[..k] + ss[k + 1..]
  }

  /** Drops the object s, which stands at one place only. */
  method Remove(ss: seq<TaskRunState>, s: TaskRunState) returns (r: seq<TaskRunState>, ghost k: nat)
    requires s in ss && Distinct(ss)
    ensures k < |ss| && ss[k] == s && r == Without(ss, k)
  {
    k :| 0 <= k < |ss| && ss[k] == s;
    r := [];
    for i := 0 to |ss|
      invariant r == if i <= k then ss[..i] else ss[..k] + ss[k + 1..i]
    {
      if ss[i] != s {
        assert i != k;
        r := r + [ss[i]];
      } else {
        assert i == k;
      }
    }
  }

  lemma WithoutRequests(ss: seq<TaskRunState>, k: nat)
    requires k < |ss|
    ensures multiset(Requests(ss)) == multiset(Requests(Without(ss, k))) + multiset{ss[k].request}
  {
    var rs := Requests(ss);
    assert rs == rs[..k] + [rs[k]] + rs[k + 1..];
    assert Requests(Without(ss, k)) == rs[..k] + rs[k + 1..];
  }

  // ----- the scheduler -----

  /** What preparing a request ends in: an exception, a result that is already there, or a task to run. */
  datatype Preparation = Raised | AlreadyDone | Prepared(system: string, prompt: string)

  ghost function Tally(results: seq<TaskResult>, states: seq<TaskRunState>): multiset<nat> {
    multiset(Answered(results)) + multiset(Requests(states))
  }

  lemma TallyResult(results: seq<TaskResult>, r: TaskResult, states: seq<TaskRunState>)
    ensures Tally(results + [r], states) == Tally(results, states) + multiset{r.request}
  {
    assert Answered(results + [r]) == Answered(results) + [r.request];
  }

  lemma TallyState(results: seq<TaskResult>, states: seq<TaskRunState>, s: TaskRunState)
    ensures Tally(results, states + [s]) == Tally(results, states) + multiset{s.request}
  {
    assert Requests(states + [s]) == Requests(states) + [s.request];
  }

  lemma TallyMove(results: seq<TaskResult>, r: TaskResult, states: seq<TaskRunState>, k: nat)
    requires k < |states| && r.request == states[k].request
    ensures Tally(results + [r], Without(states, k)) == Tally(results, states)
  {
    WithoutRequests(states, k);
    TallyResult(results, r, Without(states, k));
  }

  /** The id of an object made now differs from that of every object still alive. */
  predicate UnusedId(ss: seq<TaskRunState>, id: int) {
    forall k :: 0 <= k < |ss| ==> ss[k].id != id
  }

  /** What the allocator may choose: with uniqueIds, it also never returns an id that has been finalized. */
  predicate MayBeId(ss: seq<TaskRunState>, fin: set<int>, uniqueIds: bool, id: int) {
    UnusedId(ss, id) && (uniqueIds ==> id !in fin)
  }

  lemma {:induction false} Above(fin: set<int>) returns (top: int)
    ensures forall id :: id in fin ==> id < top
    decreases |fin|
  {
    top := 0;
    if x :| x in fin {
      var rest := Above(fin - {x});
      top := if rest > x then rest else x + 1;
      forall id | id in fin ensures id < top {
        assert id == x || id in fin - {x};
      }
    }
  }

  lemma SomeUnusedId(ss: seq<TaskRunState>, fin: set<int>, uniqueIds: bool)
    ensures exists id: int :: MayBeId(ss, fin, uniqueIds, id)
  {
    var id := Above(fin);
    for i := 0 to |ss|
      invariant forall k :: 0 <= k < i ==> ss[k].id < id
      invariant forall x :: x in fin ==> x < id
    {
      if ss[i].id >= id {
        id := ss[i].id + 1;
      }
    }
    assert MayBeId(ss, fin, uniqueIds, id);
  }

  /** Every request taken so far has its result or its task, never both and neither twice. */
  ghost predicate Accounted(results: seq<TaskResult>, states: seq<TaskRunState>, taken: nat) {
    && OnceEach(Tally(results, states), taken)
    && (forall k :: 0 <= k < |results| ==> results[k].status != Running)
  }

  ghost predicate Within(s: set<nat>, rs: seq<nat>) {
    forall r :: r in s ==> r in rs
  }

  ghost predicate FuturesOk(states: seq<TaskRunState>, futures: seq<TaskRunState>) {
    && Distinct(states) && Distinct(futures)
    && (forall t :: t in futures ==> t in states)
  }

  /** A task's id is among the finalized ones because its finalizer is at work, or because the id was used before. */
  ghost predicate TaskOk(s: TaskRunState, v: TaskView, fin: set<int>, futures: seq<TaskRunState>, reused: set<nat>) {
    && v.ok && v.id == s.id
    && (s.id in fin <==> s in futures || s.request in reused)
    && (s in futures ==> !v.Runs() && s.request !in reused)
  }

  ghost predicate TasksOk(states: seq<TaskRunState>, views: seq<TaskView>, fin: set<int>, futures: seq<TaskRunState>,
                          reused: set<nat>)
  {
    |views| == |states| && forall k :: 0 <= k < |states| ==> TaskOk(states[k], views[k], fin, futures, reused)
  }

  /** Every task that stopped running has been handed to a finalizer, or was skipped for its id. */
  ghost predicate Settled(views: seq<TaskView>, fin: set<int>) {
    forall k :: 0 <= k < |views| && !views[k].Runs() ==> views[k].id in fin
  }

  lemma AccountResult(results: seq<TaskResult>, states: seq<TaskRunState>, taken: nat, r: TaskResult)
    requires Accounted(results, states, taken) && r.request == taken && r.status != Running
    ensures Accounted(results + [r], states, taken + 1)
  {
    TallyResult(results, r, states);
  }

  lemma AccountState(results: seq<TaskResult>, states: seq<TaskRunState>, taken: nat, s: TaskRunState)
    requires Accounted(results, states, taken) && s.request == taken
    ensures Accounted(results, states + [s], taken + 1)
  {
    TallyState(results, states, s);
  }

  lemma RequestsBelow(results: seq<TaskResult>, states: seq<TaskRunState>, taken: nat, s: TaskRunState)
    requires Accounted(results, states, taken) && s in states
    ensures s.request < taken
  {
    var k :| 0 <= k < |states| && states[k] == s;
    assert Requests(states)[k] in multiset(Requests(states));
    assert Tally(results, states)[s.request] > 0;
  }

  lemma WithinMore(s: set<nat>, s': set<nat>, states: seq<TaskRunState>, t: TaskRunState)
    requires Within(s, Requests(states)) && (s' == s || s' == s + {t.request})
    ensures Within(s', Requests(states + [t]))
  {
    assert Requests(states + [t]) == Requests(states) + [t.request];
  }

  /** A new task leaves the others as they were. */
  lemma AppendOk(results: seq<TaskResult>, states: seq<TaskRunState>, views: seq<TaskView>, s: TaskRunState, v: TaskView,
                 taken: nat, fin: set<int>, futures: seq<TaskRunState>, reused: set<nat>, reused': set<nat>, window: nat)
    requires Consistent(results, states, views, taken, futures, fin, reused, window) && Settled(views, fin)
    requires Pending(views, fin) < window
    requires s.request == taken && s !in states && UnusedId(states, s.id) && v.ok && v.Runs() && v.id == s.id
    requires reused' == if s.id in fin then reused + {taken} else reused
    ensures Consistent(results, states + [s], views + [v], taken + 1, futures, fin, reused', window)
    ensures Settled(views + [v], fin)
  {
    AccountState(results, states, taken, s);
    WithinMore(reused, reused', states, s);
    forall k | 0 <= k < |states| ensures TaskOk(states[k], views[k], fin, futures, reused') {
      RequestsBelow(results, states, taken, states[k]);
    }
    if taken in reused {
      var k :| 0 <= k < |states| && Requests(states)[k] == taken;
      RequestsBelow(results, states, taken, states[k]);
      assert false;
    }
    assert (views + [v])[..|views|] == views;
  }

  lemma InWithout(ss: seq<TaskRunState>, k: nat, t: TaskRunState)
    requires k < |ss| && Distinct(ss)
    ensures t in Without(ss, k) <==> t in ss && t != ss[k]
  {
    if j :| 0 <= j < |ss| && ss[j] == t && t != ss[k] {
      assert Without(ss, k)[if j < k then j else j - 1] == t;
    }
  }

  lemma OnlyWithout(ss: seq<TaskRunState>, k: nat)
    requires k < |ss| && Distinct(ss)
    ensures forall t :: t in Without(ss, k) <==> t in ss && t != ss[k]
  {
    forall t ensures t in Without(ss, k) <==> t in ss && t != ss[k] {
      InWithout(ss, k, t);
    }
  }

  lemma DistinctWithout(ss: seq<TaskRunState>, k: nat)
    requires k < |ss| && Distinct(ss)
    ensures Distinct(Without(ss, k))
  {
    forall a, b | 0 <= a < b < |Without(ss, k)| ensures Without(ss, k)[a].id != Without(ss, k)[b].id {
      var a', b' := if a < k then a else a + 1, if b < k then b else b + 1;
      assert ss[a'].id != ss[b'].id;
    }
  }

  lemma WithinLess(s: set<nat>, states: seq<TaskRunState>, k: nat)
    requires k < |states| && Within(s, Requests(states)) && states[k].request !in s
    ensures Within(s, Requests(Without(states, k)))
  {
    forall r | r in s ensures r in Requests(Without(states, k)) {
      WithoutRequests(states, k);
      assert r in multiset(Requests(states));
    }
  }

  /** Collecting the finalizer of the task at place k, which is at place j among the open ones. */
  lemma CollectOk(results: seq<TaskResult>, r: TaskResult, states: seq<TaskRunState>, views: seq<TaskView>, taken: nat,
                  futures: seq<TaskRunState>, fin: set<int>, reused: set<nat>, window: nat, j: nat, k: nat)
    requires Consistent(results, states, views, taken, futures, fin, reused, window) && Settled(views, fin)
    requires k < |states| && j < |futures| && futures[j] == states[k]
    requires r.request == states[k].request && r.status != Running
    ensures Consistent(results + [r], Without(states, k), Without(views, k), taken, Without(futures, j), fin, reused, window)
    ensures Settled(Without(views, k), fin)
    ensures forall t :: t in Without(futures, j) <==> t in futures && t != states[k]
  {
    TallyMove(results, r, states, k);
    assert TaskOk(states[k], views[k], fin, futures, reused);
    WithinLess(reused, states, k);
    PendingDrop(views, k, fin);
    OnlyWithout(futures, j);
    WithoutFutures(states, futures, j, k);
    TasksWithout(states, views, futures, fin, reused, j, k);
  }

  lemma TasksWithout(states: seq<TaskRunState>, views: seq<TaskView>, futures: seq<TaskRunState>, fin: set<int>,
                     reused: set<nat>, j: nat, k: nat)
    requires FuturesOk(states, futures) && TasksOk(states, views, fin, futures, reused) && Settled(views, fin)
    requires k < |states| && j < |futures| && futures[j] == states[k]
    ensures TasksOk(Without(states, k), Without(views, k), fin, Without(futures, j), reused)
    ensures Settled(Without(views, k), fin)
  {
    forall i | 0 <= i < |Without(states, k)|
      ensures TaskOk(Without(states, k)[i], Without(views, k)[i], fin, Without(futures, j), reused)
    {
      var i' := if i < k then i else i + 1;
      assert Without(states, k)[i] == states[i'] && Without(views, k)[i] == views[i'];
      assert TaskOk(states[i'], views[i'], fin, futures, reused);
      assert states[i'].id != states[k].id;
      InWithout(futures, j, states[i']);
    }
  }

  lemma SeesWithout(states: seq<TaskRunState>, views: seq<TaskView>, maxSteps: int, tasks: set<TaskRunState>, k: nat)
    requires Sees(states, views, maxSteps) && Listed(states, tasks) && k < |states|
    ensures Sees(Without(states, k), Without(views, k), maxSteps) && Listed(Without(states, k), tasks)
  {
  }

  /** A task whose finalizer is at work does not run. */
  lemma Stopped(states: seq<TaskRunState>, views: seq<TaskView>, fin: set<int>, futures: seq<TaskRunState>, reused: set<nat>,
                maxSteps: int, s: TaskRunState)
    requires TasksOk(states, views, fin, futures, reused) && Sees(states, views, maxSteps) && FuturesOk(states, futures)
    requires s in futures
    ensures s in states && s.status != Running && s.Ok(maxSteps)
  {
    var i :| 0 <= i < |states| && states[i] == s;
    assert TaskOk(s, views[i], fin, futures, reused);
  }

  lemma WithoutFutures(states: seq<TaskRunState>, futures: seq<TaskRunState>, j: nat, k: nat)
    requires FuturesOk(states, futures) && k < |states| && j < |futures| && futures[j] == states[k]
    ensures FuturesOk(Without(states, k), Without(futures, j))
  {
    DistinctWithout(states, k);
    DistinctWithout(futures, j);
    OnlyWithout(futures, j);
    OnlyWithout(states, k);
  }

  ghost predicate Ready(s: TaskRunState, maxSteps: int)
    reads s
  {
    s.status == Running && s.Ok(maxSteps)
  }

  /** The batch is failed as a whole, including tasks that had completed in it. */
  method FailAll(batch: seq<TaskRunState>, maxSteps: int)
    requires forall k :: 0 <= k < |batch| ==> batch[k].Sound(maxSteps)
    modifies batch
    ensures forall k :: 0 <= k < |batch| ==> batch[k].status == Failed && batch[k].Ok(maxSteps)
  {
    for i := 0 to |batch|
      invariant forall k :: 0 <= k < |batch| ==> batch[k].Sound(maxSteps)
      invariant forall k :: 0 <= k < i ==> batch[k].status == Failed
    {
      batch[i].Fail();
    }
  }

  ghost predicate Breaks(reply: Reply) {
    reply.verdict.Raises? || reply.writeFails
  }

  /** Generating the replies raised, there are more or fewer than tasks, or one could not be processed. */
  ghost predicate BatchFails(generated: Option<seq<Reply>>, n: nat) {
    generated.None? || |generated.value| != n || exists k :: 0 <= k < n && Breaks(generated.value[k])
  }

  /** The status after a turn that took the task to the given step. */
  function StatusAfter(reply: Reply, step: nat, maxSteps: int): Status {
    if reply.verdict.Final? || reply.verdict.ActionsFinal? then Completed
    else if step >= maxSteps then Failed
    else Running
  }

  /** Applies the replies one by one; false if one raises, or if there are not as many replies as tasks. */
  method ApplyReplies(batch: seq<TaskRunState>, replies: seq<Reply>, maxSteps: int) returns (ok: bool)
    requires Distinct(batch) && forall k :: 0 <= k < |batch| ==> Ready(batch[k], maxSteps)
    modifies batch
    ensures forall k :: 0 <= k < |batch| ==> batch[k].Sound(maxSteps)
    ensures ok <==> !BatchFails(Some(replies), |batch|)
    ensures ok ==> forall k :: 0 <= k < |batch| ==>
              && batch[k].Ok(maxSteps) && batch[k].stepsUsed == old(batch[k].stepsUsed) + 1
              && batch[k].status == StatusAfter(replies[k], batch[k].stepsUsed, maxSteps)
  {
    for i := 0 to |batch|
      invariant i <= |replies|
      invariant forall k :: 0 <= k < i ==>
                  && !Breaks(replies[k])
                  && batch[k].Ok(maxSteps) && batch[k].stepsUsed == old(batch[k].stepsUsed) + 1
                  && batch[k].status == StatusAfter(replies[k], batch[k].stepsUsed, maxSteps)
      invariant forall k :: i <= k < |batch| ==> Ready(batch[k], maxSteps) && batch[k].stepsUsed == old(batch[k].stepsUsed)
    {
      if i == |replies| {
        return false;
      }
      var fine := batch[i].ProcessReply(replies[i], maxSteps);
      if !fine {
        assert Breaks(replies[i]);
        return false;
      }
    }
    ok := |replies| == |batch|;
  }

  /** One turn for every task of the batch, or the failure of all of them. */
  method StepBatch(batch: seq<TaskRunState>, generated: Option<seq<Reply>>, maxSteps: int)
    requires Distinct(batch) && forall k :: 0 <= k < |batch| ==> Ready(batch[k], maxSteps)
    modifies batch
    ensures forall k :: 0 <= k < |batch| ==> batch[k].Ok(maxSteps)
    ensures BatchFails(generated, |batch|) ==> forall k :: 0 <= k < |batch| ==> batch[k].status == Failed
    ensures !BatchFails(generated, |batch|) ==> forall k :: 0 <= k < |batch| ==>
              && batch[k].stepsUsed == old(batch[k].stepsUsed) + 1
              && batch[k].status == StatusAfter(generated.value[k], batch[k].stepsUsed, maxSteps)
  {
    var ok := false;
    if generated.Some? {
      ok := ApplyReplies(batch, generated.value, maxSteps);
    }
    if !ok {
      FailAll(batch, maxSteps);
    }
  }

  /** The task took a turn: it has less to go, or stopped. */
  ghost predicate Turned(v: TaskView, v': TaskView, limit: nat) {
    && v.Runs() && v.steps < limit && v'.request == v.request && v'.id == v.id && v'.ok
    && (v'.Runs() ==> v'.steps == v.steps + 1)
  }

  lemma BatchProgress(before: seq<TaskView>, after: seq<TaskView>, limit: nat, fin: set<int>, turned: nat)
    requires |before| == |after| && turned < |before| && Turned(before[turned], after[turned], limit)
    requires forall k :: 0 <= k < |before| ==> after[k] == before[k] || Turned(before[k], after[k], limit)
    ensures Pending(after, fin) <= Pending(before, fin)
    ensures Fuel(after, limit) < Fuel(before, limit)
  {
    PendingFewer(before, fin, after, fin);
    assert ViewFuel(after[turned], limit) < ViewFuel(before[turned], limit);
    FuelNoMore(before, after, limit);
  }

  lemma TurnedOk(states: seq<TaskRunState>, views: seq<TaskView>, seen: seq<TaskView>, batch: seq<TaskRunState>, fin: set<int>,
                 futures: seq<TaskRunState>, reused: set<nat>, limit: nat, first: nat)
    requires TasksOk(states, views, fin, futures, reused) && Settled(views, fin) && |seen| == |states|
    requires first < |states| && states[first] in batch
    requires forall k :: 0 <= k < |batch| ==> batch[k] !in futures
    requires forall k :: 0 <= k < |states| ==>
               if states[k] in batch then Turned(views[k], seen[k], limit) else seen[k] == views[k]
    ensures TasksOk(states, seen, fin, futures, reused) && SettledBut(seen, fin, batch)
    ensures Pending(seen, fin) <= Pending(views, fin) && Fuel(seen, limit) < Fuel(views, limit)
  {
    BatchProgress(views, seen, limit, fin, first);
    forall k | 0 <= k < |states| ensures TaskOk(states[k], seen[k], fin, futures, reused) {
      assert TaskOk(states[k], views[k], fin, futures, reused);
    }
    forall k | 0 <= k < |states| && states[k] in batch ensures HasId(batch, seen[k].id) {
      assert TaskOk(states[k], views[k], fin, futures, reused);
      var j :| 0 <= j < |batch| && batch[j] == states[k];
    }
  }

  lemma SubmitOk(states: seq<TaskRunState>, views: seq<TaskView>, k: nat, futures: seq<TaskRunState>, fin: set<int>,
                 reused: set<nat>)
    requires FuturesOk(states, futures) && TasksOk(states, views, fin, futures, reused)
    requires k < |states| && !views[k].Runs() && states[k].id !in fin
    ensures FuturesOk(states, futures + [states[k]])
    ensures TasksOk(states, views, fin + {states[k].id}, futures + [states[k]], reused)
    ensures Pending(views, fin + {states[k].id}) <= Pending(views, fin)
  {
    var s := states[k];
    PendingFewer(views, fin, views, fin + {s.id});
    assert TaskOk(s, views[k], fin, futures, reused);
    forall i | 0 <= i < |futures| ensures futures[i].id != s.id {
      SameId(states, futures[i], s);
    }
    forall i | 0 <= i < |states| ensures TaskOk(states[i], views[i], fin + {s.id}, futures + [s], reused) {
      SameId(states, states[i], s);
    }
  }

  lemma SameId(ss: seq<TaskRunState>, s: TaskRunState, t: TaskRunState)
    requires Distinct(ss) && s in ss && t in ss
    ensures s.id == t.id ==> s == t
  {
    var a :| 0 <= a < |ss| && ss[a] == s;
    var b :| 0 <= b < |ss| && ss[b] == t;
  }

  ghost predicate Idle(views: seq<TaskView>) {
    forall k :: 0 <= k < |views| ==> !views[k].Runs()
  }

  ghost predicate SettledBut(views: seq<TaskView>, fin: set<int>, but: seq<TaskRunState>) {
    forall k :: 0 <= k < |views| && !views[k].Runs() ==> views[k].id in fin || HasId(but, views[k].id)
  }

  ghost predicate HasId(ss: seq<TaskRunState>, id: int) {
    exists k :: 0 <= k < |ss| && ss[k].id == id
  }

  lemma OneSettled(views: seq<TaskView>, fin: set<int>, fin': set<int>, but: seq<TaskRunState>)
    requires SettledBut(views, fin, but) && fin <= fin' && but != []
    requires forall k :: 0 <= k < |views| && !views[k].Runs() && views[k].id == but[0].id ==> views[k].id in fin'
    ensures SettledBut(views, fin', but[1..])
  {
    forall k | 0 <= k < |views| && !views[k].Runs() && views[k].id !in fin' ensures HasId(but[1..], views[k].id) {
      var j :| 0 <= j < |but| && but[j].id == views[k].id;
      assert but[1..][j - 1] == but[j];
    }
  }

  lemma NextSettled(views: seq<TaskView>, fin: set<int>, fin': set<int>, batch: seq<TaskRunState>, i: nat)
    requires i < |batch| && SettledBut(views, fin, batch[i..]) && fin <= fin'
    requires forall k :: 0 <= k < |views| && !views[k].Runs() && views[k].id == batch[i].id ==> views[k].id in fin'
    ensures SettledBut(views, fin', batch[i + 1..])
  {
    OneSettled(views, fin, fin', batch[i..]);
    assert batch[i..][1..] == batch[i + 1..];
  }

  /** When nothing runs and no finalizer is open, the tasks still listed are those that were skipped for their id. */
  lemma WhoIsLeft(results: seq<TaskResult>, states: seq<TaskRunState>, views: seq<TaskView>, taken: nat,
                  futures: seq<TaskRunState>, fin: set<int>, reused: set<nat>)
    requires Accounted(results, states, taken) && Within(reused, Requests(states))
    requires TasksOk(states, views, fin, futures, reused) && Settled(views, fin) && Idle(views) && futures == []
    ensures forall r: nat :: multiset(Answered(results))[r] == if r < taken && r !in reused then 1 else 0
  {
    forall k | 0 <= k < |states| ensures Requests(states)[k] in reused {
      assert TaskOk(states[k], views[k], fin, futures, reused);
    }
    forall r: nat ensures multiset(Requests(states))[r] == if r in reused then 1 else 0 {
      assert Tally(results, states)[r] <= 1;
      assert r in multiset(Requests(states)) <==> r in Requests(states);
    }
    forall r: nat ensures multiset(Answered(results))[r] == if r < taken && r !in reused then 1 else 0 {
      assert Tally(results, states)[r] == multiset(Answered(results))[r] + multiset(Requests(states))[r];
    }
  }

  lemma IdleMeansEmpty(views: seq<TaskView>, fin: set<int>)
    requires Settled(views, fin) && Idle(views)
    ensures Pending(views, fin) == 0
  {
    PendingZero(views, fin);
  }

  /** The measure of the main loop: requests to take, then turns left, then open finalizers. */
  ghost predicate Less(requests: int, turns: nat, open: nat, requests': int, turns': nat, open': nat) {
    || requests' < requests
    || (requests' == requests && (turns' < turns || (turns' == turns && open' < open)))
  }

  ghost predicate NoMore(requests: int, turns: nat, open: nat, requests': int, turns': nat, open': nat) {
    requests' < requests || (requests' == requests && turns' <= turns && open' <= open)
  }

  ghost predicate Listed(states: seq<TaskRunState>, tasks: set<TaskRunState>) {
    forall k :: 0 <= k < |states| ==> states[k] in tasks
  }

  ghost predicate Sees(states: seq<TaskRunState>, views: seq<TaskView>, maxSteps: int)
    reads states
  {
    |views| == |states| && forall k :: 0 <= k < |states| ==> views[k] == states[k].View(maxSteps)
  }

  ghost predicate Consistent(results: seq<TaskResult>, states: seq<TaskRunState>, views: seq<TaskView>, taken: nat,
                             futures: seq<TaskRunState>, fin: set<int>, reused: set<nat>, window: nat)
  {
    && Accounted(results, states, taken) && Within(reused, Requests(states))
    && FuturesOk(states, futures) && TasksOk(states, views, fin, futures, reused)
    && Pending(views, fin) <= window
  }

  /** At least 1; no prepare window, or one of 0, means the batch size. */
  function WindowSize(prepareWindow: Option<int>, batchSize: nat): (w: nat)
    ensures w >= 1
  {
    var n := match prepareWindow case None => batchSize case Some(n) => if n == 0 then batchSize else n;
    if n > 1 then n else 1
  }

  class BatchRunner {
    const total: nat
    const window: nat
    const batchSize: nat
    const maxSteps: int
    const uniqueIds: bool
    var results: seq<TaskResult>
    var states: seq<TaskRunState>
    var finalizedIds: set<int>
    var futures: seq<TaskRunState>
    var requestIndex: nat
    /** The requests whose task was given an id that finalizedIds already held. */
    ghost var reused: set<nat>
    /** Where the results come from. */
    ghost var origins: seq<Origin>
    /** What the tasks in the list look like. */
    ghost var views: seq<TaskView>
    /** Every task there has been. */
    ghost var tasks: set<TaskRunState>

    ghost predicate Valid()
      reads this, states
    {
      && window >= 1 && batchSize >= 1 && requestIndex <= total && (uniqueIds ==> reused == {})
      && Listed(states, tasks) && Sees(states, views, maxSteps) && AllExplained(results, origins)
      && Consistent(results, states, views, requestIndex, futures, finalizedIds, reused, window)
    }

    constructor (total: nat, prepareWindow: Option<int>, batchSize: nat, maxSteps: int, uniqueIds: bool)
      requires batchSize >= 1
      ensures Valid() && Settled(views, finalizedIds)
      ensures this.total == total && this.batchSize == batchSize && this.maxSteps == maxSteps && this.uniqueIds == uniqueIds
      ensures window == WindowSize(prepareWindow, batchSize) && requestIndex == 0 && reused == {} && finalizedIds == {}
      ensures prepareWindow.Some? && prepareWindow.value > 0 ==> window == prepareWindow.value
      ensures prepareWindow.Some? && prepareWindow.value < 0 ==> window == 1
      ensures prepareWindow == None || prepareWindow == Some(0) ==> window == batchSize
      ensures results == [] && origins == [] && states == [] && views == [] && futures == []
    {
      this.total, this.batchSize, this.maxSteps, this.uniqueIds := total, batchSize, maxSteps, uniqueIds;
      window := WindowSize(prepareWindow, batchSize);
      results, states, finalizedIds, futures, requestIndex := [], [], {}, [], 0;
      reused, tasks, views, origins := {}, {}, [], [];
    }

    method CountPending() returns (c: nat)
      requires Sees(states, views, maxSteps)
      ensures c == Pending(views, finalizedIds)
      ensures c == |set k | 0 <= k < |states| && (states[k].status == Running || states[k].id !in finalizedIds)|
    {
      PendingExact(views, finalizedIds);
      assert (set k | 0 <= k < |states| && (states[k].status == Running || states[k].id !in finalizedIds))
          == set k | 0 <= k < |views| && Counts(views[k], finalizedIds);
      c := 0;
      for i := 0 to |states|
        invariant c == Pending(views[..i], finalizedIds)
      {
        assert views[..i + 1][..i] == views[..i];
        if states[i].status == Running || states[i].id !in finalizedIds {
          c := c + 1;
        }
      }
      assert views[..|views|] == views;
    }

    /** Prepares the next request: a result at once, or a running task. */
    method PrepareNext(outcome: Preparation) returns (task: TaskRunState?)
      requires Valid() && Settled(views, finalizedIds)
      requires requestIndex < total && Pending(views, finalizedIds) < window
      modifies this
      ensures Valid() && Settled(views, finalizedIds) && requestIndex == old(requestIndex) + 1
      ensures futures == old(futures) && finalizedIds == old(finalizedIds)
      ensures old(tasks) <= tasks && fresh(tasks - old(tasks))
      ensures task != null <==> outcome.Prepared?
      ensures task == null ==> states == old(states) && reused == old(reused)
      ensures outcome.Raised? ==> results == old(results) + [TaskResult(old(requestIndex), Failed)]
                                  && origins == old(origins) + [Unprepared]
      ensures outcome.AlreadyDone? ==> results == old(results) + [TaskResult(old(requestIndex), Skipped)]
                                       && origins == old(origins) + [Existing]
      ensures task != null ==> states == old(states) + [task] && task.request == old(requestIndex)
                               && task.status == Running && results == old(results) && origins == old(origins)
      ensures task != null ==> task.messages == [Message(System, outcome.system), Message(User, outcome.prompt)]
      ensures task != null ==> reused == if task.id in finalizedIds then old(reused) + {task.request} else old(reused)
    {
      task := null;
      match outcome
      case Raised => AppendResult(TaskResult(requestIndex, Failed), Unprepared);
      case AlreadyDone => AppendResult(TaskResult(requestIndex, Skipped), Existing);
      case Prepared(system, prompt) =>
        var id := NewId();
        task := AddTask(id, system, prompt);
    }

    /** Any id that the allocator may choose. */
    method NewId() returns (id: int)
      ensures MayBeId(states, finalizedIds, uniqueIds, id)
    {
      SomeUnusedId(states, finalizedIds, uniqueIds);
      id :| MayBeId(states, finalizedIds, uniqueIds, id);
    }

    /** The request becomes a running task with this id. */
    method AddTask(id: int, system: string, prompt: string) returns (s: TaskRunState)
      requires Valid() && Settled(views, finalizedIds)
      requires requestIndex < total && Pending(views, finalizedIds) < window
      requires MayBeId(states, finalizedIds, uniqueIds, id)
      modifies this`states, this`requestIndex, this`reused, this`tasks, this`views
      ensures Valid() && Settled(views, finalizedIds) && requestIndex == old(requestIndex) + 1
      ensures fresh(s) && s.id == id && s.request == old(requestIndex) && s.status == Running
      ensures s.messages == [Message(System, system), Message(User, prompt)]
      ensures states == old(states) + [s]
      ensures old(tasks) <= tasks && fresh(tasks - old(tasks))
      ensures s.stepsUsed == 0 && reused == if id in finalizedIds then old(reused) + {old(requestIndex)} else old(reused)
    {
      s := new TaskRunState(requestIndex, id, system, prompt);
      var grown, seen, again, all := WithTask(s);
      Grow(grown, seen, again, all);
    }

    method AppendResult(r: TaskResult, ghost origin: Origin)
      requires Valid() && requestIndex < total && r.request == requestIndex && r.status != Running && Explained(r, origin)
      modifies this`results, this`requestIndex, this`origins
      ensures Valid() && requestIndex == old(requestIndex) + 1
      ensures results == old(results) + [r] && origins == old(origins) + [origin]
    {
      origins := origins + [origin];
      AccountResult(results, states, requestIndex, r);
      results := results + [r];
      requestIndex := requestIndex + 1;
    }

    /** The tasks with one more, running. */
    method WithTask(s: TaskRunState)
      returns (grown: seq<TaskRunState>, ghost seen: seq<TaskView>, ghost again: set<nat>, ghost all: set<TaskRunState>)
      requires Valid() && Settled(views, finalizedIds) && requestIndex < total && s.request == requestIndex
      requires s !in states && s.Ok(maxSteps) && s.status == Running && UnusedId(states, s.id)
      requires Pending(views, finalizedIds) < window
      ensures Consistent(results, grown, seen, requestIndex + 1, futures, finalizedIds, again, window)
      ensures Listed(grown, all) && Sees(grown, seen, maxSteps) && Settled(seen, finalizedIds)
      ensures s.id !in finalizedIds ==> again == reused
      ensures grown == states + [s] && all == tasks + {s}
      ensures again == if s.id in finalizedIds then reused + {s.request} else reused
    {
      again := if s.id in finalizedIds then reused + {requestIndex} else reused;
      grown, seen, all := states + [s], views + [s.View(maxSteps)], tasks + {s};
      AppendOk(results, states, views, s, s.View(maxSteps), requestIndex, finalizedIds, futures, reused, again, window);
    }

    /** Takes the grown list over, and counts the request as taken. */
    method Grow(grown: seq<TaskRunState>, ghost seen: seq<TaskView>, ghost again: set<nat>, ghost all: set<TaskRunState>)
      requires window >= 1 && batchSize >= 1 && requestIndex < total && (uniqueIds ==> again == {})
      requires AllExplained(results, origins)
      requires Listed(grown, all) && Sees(grown, seen, maxSteps)
      requires Consistent(results, grown, seen, requestIndex + 1, futures, finalizedIds, again, window)
      modifies this`states, this`requestIndex, this`reused, this`tasks, this`views
      ensures Valid() && requestIndex == old(requestIndex) + 1
      ensures states == grown && views == seen && reused == again && tasks == all
    {
      states, views, reused, tasks, requestIndex := grown, seen, again, all, requestIndex + 1;
    }

    /** Prepares requests until the window is full or none is left. */
    method FillPrepareWindow()
      requires Valid() && Settled(views, finalizedIds)
      modifies this
      ensures Valid() && Settled(views, finalizedIds) && old(requestIndex) <= requestIndex
      ensures futures == old(futures) && finalizedIds == old(finalizedIds)
      ensures old(tasks) <= tasks && fresh(tasks - old(tasks))
      ensures requestIndex == old(requestIndex) ==> states == old(states) && views == old(views)
      ensures requestIndex == total || Pending(views, finalizedIds) >= window
    {
      var c := CountPending();
      while requestIndex < total && c < window
        invariant Valid() && Settled(views, finalizedIds) && old(requestIndex) <= requestIndex
        invariant c == Pending(views, finalizedIds)
        invariant futures == old(futures) && finalizedIds == old(finalizedIds)
        invariant old(tasks) <= tasks && fresh(tasks - old(tasks))
        invariant requestIndex == old(requestIndex) ==> states == old(states) && views == old(views)
        decreases total - requestIndex
      {
        var outcome: Preparation := *;
        var _ := PrepareNext(outcome);
        c := CountPending();
      }
    }

    /** What is left of the futures and the tasks once the finalizer of s has ended with the result r. */
    method WithoutTask(s: TaskRunState, r: TaskResult)
      returns (open: seq<TaskRunState>, left: seq<TaskRunState>, ghost seen: seq<TaskView>)
      requires Valid() && Settled(views, finalizedIds) && s in futures
      requires r.request == s.request && r.status != Running
      ensures Consistent(results + [r], left, seen, requestIndex, open, finalizedIds, reused, window)
      ensures Listed(left, tasks) && Sees(left, seen, maxSteps) && Settled(seen, finalizedIds)
      ensures Fuel(seen, StepLimit(maxSteps)) <= Fuel(views, StepLimit(maxSteps))
      ensures |open| == |futures| - 1 && |left| == |states| - 1
      ensures forall t :: t in open <==> t in futures && t != s
    {
      ghost var j, k;
      open, j := Remove(futures, s);
      left, k := Remove(states, s);
      CollectOk(results, r, states, views, requestIndex, futures, finalizedIds, reused, window, j, k);
      FuelDrop(views, k, StepLimit(maxSteps));
      SeesWithout(states, views, maxSteps, tasks, k);
      seen := Without(views, k);
    }

    /** The finalizer of s ended: its task leaves the list, and has its result. */
    method Collect(s: TaskRunState, raised: bool)
      requires Valid() && Settled(views, finalizedIds) && s in futures
      modifies this`results, this`states, this`futures, this`views, this`origins
      ensures Valid() && Settled(views, finalizedIds)
      ensures |futures| == |old(futures)| - 1
      ensures forall t :: t in futures <==> t in old(futures) && t != s
      ensures Fuel(views, StepLimit(maxSteps)) <= old(Fuel(views, StepLimit(maxSteps)))
      ensures results == old(results) + [TaskResult(s.request, if raised then Failed else s.status)]
      ensures origins == old(origins) + [Finalized(s.View(maxSteps), raised)]
      ensures |states| == |old(states)| - 1
    {
      Stopped(states, views, finalizedIds, futures, reused, maxSteps, s);
      var r := TaskResult(s.request, if raised then Failed else s.status);
      var open, left, seen := WithoutTask(s, r);
      TakeOver(r, Finalized(s.View(maxSteps), raised), open, left, seen);
    }

    method TakeOver(r: TaskResult, ghost origin: Origin, open: seq<TaskRunState>, left: seq<TaskRunState>, ghost seen: seq<TaskView>)
      requires window >= 1 && batchSize >= 1 && requestIndex <= total && (uniqueIds ==> reused == {})
      requires AllExplained(results, origins) && Explained(r, origin)
      requires Listed(left, tasks) && Sees(left, seen, maxSteps)
      requires Consistent(results + [r], left, seen, requestIndex, open, finalizedIds, reused, window)
      modifies this`results, this`states, this`futures, this`views, this`origins
      ensures Valid() && results == old(results) + [r] && origins == old(origins) + [origin]
      ensures states == left && futures == open && views == seen
    {
      futures, states, views := open, left, seen;
      results, origins := results + [r], origins + [origin];
    }

    /** Goes through the finalizers that were open at the start; unless doneOnly, it waits for all of them. */
    method CollectFinished(doneOnly: bool)
      requires Valid() && Settled(views, finalizedIds)
      modifies this`results, this`states, this`futures, this`views, this`origins
      ensures Valid() && Settled(views, finalizedIds)
      ensures old(results) <= results && old(origins) <= origins
      ensures |futures| <= |old(futures)| && (!doneOnly ==> futures == [])
      ensures old(futures) == [] ==> states == old(states) && results == old(results)
      ensures Fuel(views, StepLimit(maxSteps)) <= old(Fuel(views, StepLimit(maxSteps)))
    {
      var todo := futures;
      for i := 0 to |todo|
        invariant Valid() && Settled(views, finalizedIds)
        invariant old(results) <= results && old(origins) <= origins
        invariant |futures| <= |todo| && (!doneOnly ==> |futures| == |todo| - i)
        invariant todo == [] ==> states == old(states) && results == old(results)
        invariant forall j :: i <= j < |todo| ==> todo[j] in futures
        invariant Fuel(views, StepLimit(maxSteps)) <= old(Fuel(views, StepLimit(maxSteps)))
      {
        var done: bool := *;
        if doneOnly && !done {
          continue;
        }
        var raised: bool := *;
        Collect(todo[i], raised);
        assert forall n :: i < n < |todo| ==> todo[n].id != todo[i].id;
      }
    }

    /** All running tasks, in the order of the list, where they stand at the places at. */
    method ActiveStates() returns (active: seq<TaskRunState>, ghost at: seq<nat>)
      requires Distinct(states) && Sees(states, views, maxSteps)
      ensures Distinct(active)
      ensures forall k :: 0 <= k < |active| ==> active[k] in states && active[k].status == Running
      ensures |at| == |active| && forall k :: 0 <= k < |at| ==> at[k] < |states| && active[k] == states[at[k]]
      ensures forall a, b :: 0 <= a < b < |at| ==> at[a] < at[b]
      ensures forall i :: 0 <= i < |states| && states[i].status == Running ==> i in at
      ensures active == [] ==> Idle(views)
    {
      active, at := [], [];
      for i := 0 to |states|
        invariant |at| == |active| && forall k :: 0 <= k < |at| ==> at[k] < i && active[k] == states[at[k]]
        invariant forall k :: 0 <= k < |active| ==> active[k].status == Running
        invariant forall a, b :: 0 <= a < b < |at| ==> at[a] < at[b]
        invariant forall j :: 0 <= j < i && states[j].status == Running ==> j in at
      {
        if states[i].status == Running {
          active, at := active + [states[i]], at + [i];
        }
      }
    }

    /** Hands a task to a finalizer, unless its id is already among the finalized ones. */
    method SubmitFinalize(s: TaskRunState)
      requires Valid() && s in states && s.status != Running
      modifies this`finalizedIds, this`futures
      ensures Valid() && s.id in finalizedIds && old(finalizedIds) <= finalizedIds
      ensures old(s.id in finalizedIds) ==> futures == old(futures)
      ensures old(s.id !in finalizedIds) ==> futures == old(futures) + [s]
    {
      if s.id in finalizedIds {
        return;
      }
      ghost var k :| 0 <= k < |states| && states[k] == s;
      SubmitOk(states, views, k, futures, finalizedIds, reused);
      finalizedIds := finalizedIds + {s.id};
      futures := futures + [s];
    }

    /** Submits the tasks of the batch that are no longer running. */
    method SubmitBatch(batch: seq<TaskRunState>)
      requires Valid() && forall k :: 0 <= k < |batch| ==> batch[k] in states
      requires SettledBut(views, finalizedIds, batch)
      modifies this`finalizedIds, this`futures
      ensures Valid() && Settled(views, finalizedIds) && old(finalizedIds) <= finalizedIds
    {
      for i := 0 to |batch|
        invariant Valid() && SettledBut(views, finalizedIds, batch[i..]) && old(finalizedIds) <= finalizedIds
      {
        ghost var fin := finalizedIds;
        if batch[i].status != Running {
          SubmitFinalize(batch[i]);
        }
        NextSettled(views, fin, finalizedIds, batch, i);
      }
      assert batch[|batch|..] == [];
    }

    /** One turn for a batch, and what the tasks look like after it; nothing is submitted yet. */
    method TurnBatch(batch: seq<TaskRunState>, generated: Option<seq<Reply>>) returns (ghost seen: seq<TaskView>)
      requires Valid() && Settled(views, finalizedIds) && |batch| > 0 && Distinct(batch)
      requires forall k :: 0 <= k < |batch| ==> batch[k] in states && batch[k].status == Running
      modifies batch
      ensures BatchFails(generated, |batch|) ==> forall k :: 0 <= k < |batch| ==> batch[k].status == Failed
      ensures !BatchFails(generated, |batch|) ==> forall k :: 0 <= k < |batch| ==>
                batch[k].stepsUsed == old(batch[k].stepsUsed) + 1
                && batch[k].status == StatusAfter(generated.value[k], batch[k].stepsUsed, maxSteps)
      ensures Sees(states, seen, maxSteps) && TasksOk(states, seen, finalizedIds, futures, reused)
      ensures SettledBut(seen, finalizedIds, batch) && Pending(seen, finalizedIds) <= window
      ensures Fuel(seen, StepLimit(maxSteps)) < Fuel(views, StepLimit(maxSteps))
    {
      forall k | 0 <= k < |batch| ensures Ready(batch[k], maxSteps) && batch[k] !in futures {
        var i :| 0 <= i < |states| && states[i] == batch[k];
        assert TaskOk(batch[k], views[i], finalizedIds, futures, reused);
      }
      ghost var first :| 0 <= first < |states| && states[first] == batch[0];
      StepBatch(batch, generated, maxSteps);
      seen := Views(states, maxSteps);
      forall k | 0 <= k < |states|
        ensures if states[k] in batch then Turned(views[k], seen[k], StepLimit(maxSteps)) else seen[k] == views[k]
      {
        if j :| 0 <= j < |batch| && batch[j] == states[k] {
          assert old(Ready(batch[j], maxSteps));
        }
      }
      TurnedOk(states, views, seen, batch, finalizedIds, futures, reused, StepLimit(maxSteps), first);
    }

    /** A turn for a batch, and a finalizer for every task that it ends. */
    method RunBatch(batch: seq<TaskRunState>, generated: Option<seq<Reply>>)
      requires Valid() && Settled(views, finalizedIds) && |batch| > 0 && Distinct(batch)
      requires forall k :: 0 <= k < |batch| ==> batch[k] in states && batch[k].status == Running
      modifies this`finalizedIds, this`futures, this`views, batch
      ensures Valid() && Settled(views, finalizedIds) && old(finalizedIds) <= finalizedIds
      ensures BatchFails(generated, |batch|) ==> forall k :: 0 <= k < |batch| ==> batch[k].status == Failed
      ensures !BatchFails(generated, |batch|) ==> forall k :: 0 <= k < |batch| ==>
                batch[k].stepsUsed == old(batch[k].stepsUsed) + 1
                && batch[k].status == StatusAfter(generated.value[k], batch[k].stepsUsed, maxSteps)
      ensures Fuel(views, StepLimit(maxSteps)) < old(Fuel(views, StepLimit(maxSteps)))
    {
      var seen := TurnBatch(batch, generated);
      views := seen;
      SubmitBatch(batch);
    }

    /** The start of a round: what has finished is collected, and its place filled. */
    method Refill()
      requires Valid() && Settled(views, finalizedIds)
      modifies this
      ensures Valid() && Settled(views, finalizedIds)
      ensures old(tasks) <= tasks && fresh(tasks - old(tasks))
      ensures NoMore(total - old(requestIndex), old(Fuel(views, StepLimit(maxSteps))), |old(futures)|,
                     total - requestIndex, Fuel(views, StepLimit(maxSteps)), |futures|)
      ensures requestIndex == total || Pending(views, finalizedIds) >= window
    {
      CollectFinished(true);
      FillPrepareWindow();
    }

    /** No task is running: the open finalizers are awaited, or there are none and the loop is done. */
    method Drain() returns (finished: bool)
      requires Valid() && Settled(views, finalizedIds) && Idle(views)
      requires requestIndex == total || Pending(views, finalizedIds) >= window
      modifies this`results, this`states, this`futures, this`views, this`origins
      ensures Valid() && Settled(views, finalizedIds)
      ensures finished ==> requestIndex == total && futures == [] && Idle(views)
      ensures !finished ==> |futures| < |old(futures)|
                            && Fuel(views, StepLimit(maxSteps)) <= old(Fuel(views, StepLimit(maxSteps)))
    {
      if requestIndex >= total && futures == [] {
        return true;
      }
      if futures != [] {
        CollectFinished(false);
        return false;
      }
      // Refill has taken every request: no task is running, and none waits for a finalizer.
      IdleMeansEmpty(views, finalizedIds);
      assert false;
    }

    /** A turn for the first batchSize running tasks, or all if they are fewer; the others stay as they are. */
    method TurnActive(active: seq<TaskRunState>) returns (batch: seq<TaskRunState>, generated: Option<seq<Reply>>)
      requires Valid() && Settled(views, finalizedIds) && |active| > 0 && Distinct(active)
      requires forall k :: 0 <= k < |active| ==> active[k] in states && active[k].status == Running
      modifies this`finalizedIds, this`futures, this`views, active
      ensures Valid() && Settled(views, finalizedIds)
      ensures batch <= active && |batch| == if batchSize <= |active| then batchSize else |active|
      ensures BatchFails(generated, |batch|) ==> forall k :: 0 <= k < |batch| ==> batch[k].status == Failed
      ensures !BatchFails(generated, |batch|) ==> forall k :: 0 <= k < |batch| ==>
                batch[k].stepsUsed == old(batch[k].stepsUsed) + 1
                && batch[k].status == StatusAfter(generated.value[k], batch[k].stepsUsed, maxSteps)
      ensures forall s :: s in active && s !in batch ==> unchanged(s)
      ensures Fuel(views, StepLimit(maxSteps)) < old(Fuel(views, StepLimit(maxSteps)))
    {
      batch := if batchSize <= |active| then active[..batchSize] else active;
      generated := *;
      RunBatch(batch, generated);
    }

    /** One round of the main loop; finished when there is nothing left to do. */
    method Round() returns (finished: bool)
      requires Valid() && Settled(views, finalizedIds)
      modifies this, tasks
      ensures Valid() && Settled(views, finalizedIds)
      ensures old(tasks) <= tasks && fresh(tasks - old(tasks))
      ensures finished ==> requestIndex == total && futures == [] && Idle(views)
      ensures !finished ==> Less(total - old(requestIndex), old(Fuel(views, StepLimit(maxSteps))), |old(futures)|,
                                 total - requestIndex, Fuel(views, StepLimit(maxSteps)), |futures|)
    {
      Refill();
      var active, _ := ActiveStates();
      if active == [] {
        finished := Drain();
        return;
      }
      var _, _ := TurnActive(active);
      return false;
    }

    /**
     * The whole run. Every request gets exactly one result, unless its task was
     * given an id that had been finalized before: then it gets none.
     */
    method Run()
      requires Valid() && Settled(views, finalizedIds)
      modifies this, tasks
      ensures forall r: nat :: multiset(Answered(results))[r] == if r < total && r !in reused then 1 else 0
      ensures uniqueIds ==> reused == {}
      ensures AllExplained(results, origins)
    {
      FillPrepareWindow();
      var finished := false;
      while !finished
        invariant Valid() && Settled(views, finalizedIds)
        invariant old(tasks) <= tasks && fresh(tasks - old(tasks))
        invariant finished ==> requestIndex == total && futures == [] && Idle(views)
        decreases !finished, total - requestIndex, Fuel(views, StepLimit(maxSteps)), |futures|
      {
        finished := Round();
      }
      for i := 0 to |states|
        invariant forall k :: 0 <= k < |states| ==> states[k].id in finalizedIds
      {
        if states[i].id !in finalizedIds {
          assert false;   // every task left has been submitted
        }
      }
      CollectFinished(false);
      WhoIsLeft(results, states, views, total, futures, finalizedIds, reused);
    }
  }

  // ----- a request that gets no result -----

  lemma OutOfTurns(views: seq<TaskView>, limit: nat)
    requires |views| == 1 && Fuel(views, limit) == 0 && (views[0].Runs() ==> views[0].steps < limit)
    ensures !views[0].Runs()
  {
    assert views[..0] == [];
    assert Fuel(views, limit) == Fuel(views[..0], limit) + ViewFuel(views[0], limit);
  }

  lemma OneTurnLeft(v: TaskView)
    requires v.Runs() && v.steps == 0
    ensures Fuel([v], 1) == 1
  {
    assert [v][..0] == [];
    assert Fuel([v], 1) == Fuel([v][..0], 1) + ViewFuel(v, 1);
  }

  /** The one task that is listed has a finalizer at work, unless its id was used before. */
  lemma OnlyFuture(states: seq<TaskRunState>, views: seq<TaskView>, fin: set<int>, futures: seq<TaskRunState>, reused: set<nat>)
    requires FuturesOk(states, futures) && TasksOk(states, views, fin, futures, reused)
    requires |states| == 1 && states[0].id in fin
    ensures futures == if states[0].request in reused then [] else [states[0]]
  {
    assert TaskOk(states[0], views[0], fin, futures, reused);
    forall k | 0 <= k < |futures| ensures futures[k] == states[0] {
      assert futures[k] in futures;
    }
    if futures != [] {
      var first, last := futures[0], futures[|futures| - 1];
      assert first.id == last.id;
      assert futures == [first];
    }
  }

  ghost predicate OneTask(runner: BatchRunner, s: TaskRunState)
    reads runner, runner.states
  {
    && runner.Valid() && Settled(runner.views, runner.finalizedIds) && runner.states == [s]
    && runner.maxSteps == 1 && runner.window == 1 && !runner.uniqueIds
  }

  /** A task with a single step takes it and is done. */
  method RunToEnd(runner: BatchRunner, s: TaskRunState)
    requires OneTask(runner, s) && s.status == Running && s.stepsUsed == 0
    modifies runner`finalizedIds, runner`futures, runner`views, s
    ensures OneTask(runner, s) && Idle(runner.views) && s.id in runner.finalizedIds
    ensures s.status != Running && runner.futures == if s.request in runner.reused then [] else [s]
  {
    OneTurnLeft(runner.views[0]);
    runner.RunBatch([s], None);
    OutOfTurns(runner.views, 1);
    OnlyFuture(runner.states, runner.views, runner.finalizedIds, runner.futures, runner.reused);
  }

  /** Nothing is listed and nothing is open; the next of two requests is k. */
  ghost predicate NoTask(runner: BatchRunner, k: nat)
    reads runner, runner.states
  {
    && runner.Valid() && Settled(runner.views, runner.finalizedIds) && runner.states == [] && runner.futures == []
    && runner.maxSteps == 1 && runner.window == 1 && !runner.uniqueIds && runner.total == 2 && runner.requestIndex == k
  }

  /** Prepares the next request with this id, and runs it to its end. */
  method RunOne(runner: BatchRunner, id: int, ghost k: nat) returns (s: TaskRunState)
    requires NoTask(runner, k) && k < 2
    modifies runner
    ensures OneTask(runner, s) && Idle(runner.views) && id in runner.finalizedIds && s.status != Running
    ensures runner.requestIndex == k + 1 && runner.results == old(runner.results) && s.request == k
    ensures runner.reused == if id in old(runner.finalizedIds) then old(runner.reused) + {k} else old(runner.reused)
    ensures runner.futures == if k in runner.reused then [] else [s]
  {
    assert runner.views == [];
    s := runner.AddTask(id, "", "");
    RunToEnd(runner, s);
  }

  /** Collects the only task. */
  method CollectOne(runner: BatchRunner, s: TaskRunState)
    requires OneTask(runner, s) && runner.futures == [s] && s.status != Running && Idle(runner.views)
    requires runner.total == 2
    modifies runner`results, runner`states, runner`futures, runner`views, runner`origins
    ensures NoTask(runner, runner.requestIndex) && runner.results == old(runner.results) + [TaskResult(s.request, s.status)]
  {
    runner.Collect(s, false);
  }

  /**
   * It does happen: a run of two requests and a window of one in which the
   * second task is made once the first is gone, and gets its id. The loop is
   * done, and the second request has no result.
   */
  method IdReuseLosesResult() returns (runner: BatchRunner)
    ensures runner.requestIndex == runner.total == 2 && runner.futures == [] && Idle(runner.views)
    ensures runner.reused == {1} && Answered(runner.results) == [0]
  {
    runner := new BatchRunner(2, Some(1), 1, 1, false);
    var first := RunOne(runner, 7, 0);
    CollectOne(runner, first);
    var second := RunOne(runner, 7, 1);
  }
}
