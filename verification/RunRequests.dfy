/** The requests of a rollout step: every task n times, samples in order. */
module RunRequests {
  import opened Blocks
  import opened Common

  datatype RunRequest<Spec> = RunRequest(spec: Spec, rolloutStep: int, sampleIndex: nat, rolloutN: nat)

  /** Request i is rollout i mod n of sample i / n. */
  ghost predicate RequestAt<Spec>(specs: seq<Spec>, n: nat, step: int, requests: seq<RunRequest<Spec>>, i: nat)
    requires n > 0 && i < |requests|
  {
    i / n < |specs| && requests[i] == RunRequest(specs[i / n], step, i / n, i % n)
  }

  method BuildRunRequests<Spec>(specs: seq<Spec>, n: nat, step: int) returns (requests: seq<RunRequest<Spec>>)
    ensures |requests| == |specs| * n
    ensures n > 0 ==> forall i :: 0 <= i < |requests| ==> RequestAt(specs, n, step, requests, i)
  {
    requests := [];
    for sample := 0 to |specs|
      invariant |requests| == sample * n
      invariant n > 0 ==> forall i :: 0 <= i < |requests| ==> RequestAt(specs, n, step, requests, i)
    {
      for rollout := 0 to n
        invariant |requests| == sample * n + rollout
        invariant n > 0 ==> forall i :: 0 <= i < |requests| ==> RequestAt(specs, n, step, requests, i)
      {
        assert sample * n + rollout == n * sample + rollout;
        Quotient(n, sample, rollout);
        ghost var before := requests;
        requests := requests + [RunRequest(specs[sample], step, sample, rollout)];
        assert forall i :: 0 <= i < |before| ==> RequestAt(specs, n, step, before, i) ==> RequestAt(specs, n, step, requests, i);
      }
      assert (sample + 1) * n == sample * n + n;
    }
  }

  lemma PlaceOf(n: nat, samples: nat, sample: nat, rollout: nat) returns (at: nat)
    requires sample < samples && rollout < n
    ensures at < samples * n && at / n == sample && at % n == rollout
  {
    at := n * sample + rollout;
    Quotient(n, sample, rollout);
    Times(n, sample + 1, samples);
  }

  /** Every rollout of every sample is requested exactly once. */
  lemma EachOnce<Spec>(specs: seq<Spec>, n: nat, step: int, requests: seq<RunRequest<Spec>>, sample: nat, rollout: nat)
    returns (at: nat)
    requires n > 0 && |requests| == |specs| * n
    requires forall i :: 0 <= i < |requests| ==> RequestAt(specs, n, step, requests, i)
    requires sample < |specs| && rollout < n
    ensures at < |requests| && requests[at] == RunRequest(specs[sample], step, sample, rollout)
    ensures forall i :: 0 <= i < |requests| && i != at ==> !Is(requests[i], sample, rollout)
  {
    at := PlaceOf(n, |specs|, sample, rollout);
    assert RequestAt(specs, n, step, requests, at);
    forall i | 0 <= i < |requests| && Is(requests[i], sample, rollout) ensures i == at {
      assert RequestAt(specs, n, step, requests, i);
      SamePlace(n, i, at);
    }
  }

  lemma SamePlace(n: nat, i: nat, j: nat)
    requires n > 0 && i / n == j / n && i % n == j % n
    ensures i == j
  {
    assert i == n * (i / n) + i % n && j == n * (j / n) + j % n;
  }

  ghost predicate Is<Spec>(r: RunRequest<Spec>, sample: nat, rollout: nat) {
    r.sampleIndex == sample && r.rolloutN == rollout
  }
}
