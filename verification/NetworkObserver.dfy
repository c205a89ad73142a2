/** The aggregation of endpoint samples over polls, including polls rejected part of the way. */
module NetworkObserver {
  import opened Wrappers
  import opened AsciiCase
  import opened NetworkSummary

  datatype PollError = ProcessIdentityChanged | OwningProcessMismatch

  /** An entry of the dictionary of observations, with its key. */
  datatype EndpointObservation = EndpointObservation(
    key: Key,
    endpoint: TcpEndpoint,
    firstPoll: nat,
    lastPoll: nat,
    sampleCount: nat)

  function SumCounts(observations: seq<EndpointObservation>): nat {
    if observations == [] then 0
    else SumCounts(observations[..|observations| - 1]) + observations[|observations| - 1].sampleCount
  }

  lemma {:induction false} SumAfterUpdate(s: seq<EndpointObservation>, i: nat, o: EndpointObservation)
    requires i < |s|
    ensures SumCounts(s[i := o]) == SumCounts(s) - s[i].sampleCount + o.sampleCount
  {
    var before := s[..|s| - 1];
    if i == |s| - 1 {
      assert s[i := o][..|s| - 1] == before;
    } else {
      assert s[i := o][..|s| - 1] == before[i := o];
      SumAfterUpdate(before, i, o);
    }
  }

  /** The keys of the endpoints, among the first `n`, that are in a TCP state. */
  function SampledKeys(endpoints: seq<TcpEndpoint>, n: nat): set<Key>
    requires n <= |endpoints|
  {
    if n == 0 then {}
    else
      var e := endpoints[n - 1];
      SampledKeys(endpoints, n - 1) + if Fold(e.state) in TCP_STATES then {KeyOf(e)} else {}
  }

  /** How many of the endpoints a poll takes: all, or those before the first of another process. */
  ghost predicate Taken(endpoints: seq<TcpEndpoint>, pid: nat, n: nat) {
    && n <= |endpoints| && AllOwned(endpoints, n, pid)
    && (n < |endpoints| ==> endpoints[n].owningProcess != pid)
  }

  ghost predicate AllOwned(endpoints: seq<TcpEndpoint>, n: nat, pid: nat)
    requires n <= |endpoints|
  {
    forall i :: 0 <= i < n ==> endpoints[i].owningProcess == pid
  }

  /** The dictionary (its values in insertion order) after a poll has sampled the keys: known endpoints keep
      their place and first poll and count one sample more if seen; new ones follow with one sample. */
  ghost predicate Polled(before: seq<EndpointObservation>, after: seq<EndpointObservation>, seen: set<Key>, poll: nat) {
    && |before| <= |after|
    && (forall i :: 0 <= i < |before| ==> after[i] == Resampled(before[i], seen, poll))
    && (forall i :: |before| <= i < |after| ==>
          after[i].key in seen && after[i] == EndpointObservation(after[i].key, after[i].endpoint, poll, poll, 1))
    && (forall key :: key in seen ==> HasKey(after, key))
  }

  ghost predicate HasKey(observations: seq<EndpointObservation>, key: Key) {
    exists i :: 0 <= i < |observations| && observations[i].key == key
  }

  ghost function Resampled(o: EndpointObservation, seen: set<Key>, poll: nat): EndpointObservation {
    if o.key in seen then o.(lastPoll := poll, sampleCount := o.sampleCount + 1) else o
  }

  ghost predicate DistinctKeys(observations: seq<EndpointObservation>) {
    forall i, j :: 0 <= i < j < |observations| ==> observations[i].key != observations[j].key
  }

  /** The samples of one endpoint fit between its first and its last poll, at most one per poll. */
  ghost predicate Fits(o: EndpointObservation, polls: nat) {
    1 <= o.firstPoll <= o.lastPoll <= polls && 1 <= o.sampleCount <= o.lastPoll - o.firstPoll + 1
  }

  /** The samples are the sum of the counts, and every endpoint is of the process, in a TCP state, listed
      once and counted plausibly. */
  ghost predicate Sound(observations: seq<EndpointObservation>, samples: nat, polls: nat, pid: nat) {
    && samples == SumCounts(observations)
    && DistinctKeys(observations)
    && (forall i :: 0 <= i < |observations| ==>
          && Fits(observations[i], polls)
          && observations[i].key == KeyOf(observations[i].endpoint)
          && Fold(observations[i].endpoint.state) in TCP_STATES
          && observations[i].endpoint.owningProcess == pid)
  }

  class PackagedRuntimeNetworkObserver {
    const identity: ProcessIdentity
    var pollCount: nat
    var sampleCount: nat
    var observations: seq<EndpointObservation>

    ghost predicate Valid()
      reads this
    {
      Sound(observations, sampleCount, pollCount, identity.pid)
    }

    constructor (identity: ProcessIdentity)
      ensures Valid() && this.identity == identity && observations == [] && pollCount == 0
    {
      this.identity := identity;
      pollCount, sampleCount, observations := 0, 0, [];
    }

    method FindKey(key: Key) returns (at: Option<nat>)
      ensures at.Some? ==> at.value < |observations| && observations[at.value].key == key
      ensures at.None? ==> forall i :: 0 <= i < |observations| ==> observations[i].key != key
    {
      for i := 0 to |observations|
        invariant forall j :: 0 <= j < i ==> observations[j].key != key
      {
        if observations[i].key == key { return Some(i); }
      }
      at := None;
    }

    /** Counts one sample of an endpoint whose key this poll has not seen yet. */
    method AddSample(key: Key, e: TcpEndpoint, ghost before: seq<EndpointObservation>, ghost seen: set<Key>)
      requires Valid() && pollCount > 0 && key == KeyOf(e) && key !in seen
      requires Fold(e.state) in TCP_STATES && e.owningProcess == identity.pid
      requires Polled(before, observations, seen, pollCount)
      requires forall i :: 0 <= i < |before| ==> before[i].lastPoll < pollCount
      modifies `sampleCount, `observations
      ensures Valid()
      ensures sampleCount == old(sampleCount) + 1
      ensures Polled(before, observations, seen + {key}, pollCount)
    {
      var at := FindKey(key);
      var after: seq<EndpointObservation>;
      if at.None? {
        after := observations + [EndpointObservation(key, e, pollCount, pollCount, 1)];
      } else {
        var o := observations[at.value];
        after := observations[at.value := o.(lastPoll := pollCount, sampleCount := o.sampleCount + 1)];
      }
      SampleIsPolled(before, observations, after, seen, key, e, pollCount, at);
      SampleIsSound(before, observations, after, seen, key, e, pollCount, at, sampleCount, identity.pid);
      sampleCount, observations := sampleCount + 1, after;
    }

    /** What holds during a poll that has seen some keys: `before` are the observations and `base` the
        samples it started from. */
    ghost predicate Polling(before: seq<EndpointObservation>, base: nat, seen: set<Key>)
      reads this
    {
      && Valid() && pollCount > 0
      && Polled(before, observations, seen, pollCount)
      && (forall i :: 0 <= i < |before| ==> before[i].lastPoll < pollCount)
      && sampleCount == base + |seen|
    }

    /** Counts an endpoint of the process unless its state is not a TCP state or this poll has seen its key. */
    method TakeEndpoint(e: TcpEndpoint, ghost before: seq<EndpointObservation>, ghost base: nat, seen: set<Key>)
      returns (now: set<Key>)
      requires Polling(before, base, seen) && e.owningProcess == identity.pid
      modifies `sampleCount, `observations
      ensures now == seen + (if Fold(e.state) in TCP_STATES then {KeyOf(e)} else {})
      ensures Polling(before, base, now)
    {
      now := seen;
      var key := KeyOf(e);
      if Fold(e.state) in TCP_STATES && key !in seen {
        AddSample(key, e, before, seen);
        now := seen + {key};
      }
    }

    /** Counts every endpoint of the process once per poll. A poll with an endpoint of another process is
        rejected there, after the ones before it were counted. */
    method AddPoll(current: ProcessIdentity, endpoints: seq<TcpEndpoint>)
      returns (error: Option<PollError>, ghost taken: nat)
      requires Valid()
      modifies this
      ensures Valid()
      ensures error == Some(ProcessIdentityChanged) <==> current != identity
      ensures error == Some(ProcessIdentityChanged) ==>
        pollCount == old(pollCount) && sampleCount == old(sampleCount) && observations == old(observations)
      ensures error != Some(ProcessIdentityChanged) ==>
        && Taken(endpoints, identity.pid, taken) && (error.None? <==> taken == |endpoints|)
        && pollCount == old(pollCount) + 1
        && sampleCount == old(sampleCount) + |SampledKeys(endpoints, taken)|
        && Polled(old(observations), observations, SampledKeys(endpoints, taken), pollCount)
    {
      taken := 0;
      if current != identity { return Some(ProcessIdentityChanged), 0; }
      NewPoll(observations, sampleCount, pollCount, identity.pid);
      pollCount := pollCount + 1;
      var stopped := TakeEndpoints(endpoints, observations, sampleCount);
      taken := stopped;
      error := if stopped < |endpoints| then Some(OwningProcessMismatch) else None;
    }

    /** Takes endpoints up to the first of another process; returns how many. */
    method TakeEndpoints(endpoints: seq<TcpEndpoint>, ghost before: seq<EndpointObservation>, ghost base: nat)
      returns (taken: nat)
      requires Polling(before, base, {})
      modifies `sampleCount, `observations
      ensures Taken(endpoints, identity.pid, taken) && Polling(before, base, SampledKeys(endpoints, taken))
    {
      var seen: set<Key> := {};
      taken := 0;
      while taken < |endpoints| && endpoints[taken].owningProcess == identity.pid
        invariant taken <= |endpoints| && AllOwned(endpoints, taken, identity.pid)
        invariant seen == SampledKeys(endpoints, taken)
        invariant Polling(before, base, seen)
      {
        var e := endpoints[taken];
        seen := TakeEndpoint(e, before, base, seen);
        taken := taken + 1;
      }
    }

    /** The summary of everything sampled; it changes nothing. */
    method Finish(classify: string -> Category, exitObserved: bool, postExit: seq<TcpEndpoint>,
                  postIdentity: Option<ProcessIdentity>) returns (polls: nat, samples: nat, s: Summary)
      requires Valid()
      ensures polls == pollCount && samples == SumCounts(observations)
      ensures s.unique == |observations|
      ensures var es := Endpoints(observations);
              && s.bound == |InState(es, "bound")| && s.listen == |InState(es, "listen")|
              && s.established == |InState(es, "established")| && s.external == |ExternalOnes(es, classify)|
              && s.loopback == (if s.verified then 3 else |LocalOnes(es, classify)|)
              && (s.disappeared <==> postExit == [] && !s.pidReused)
              && (s.code == ExternalDetected <==> s.external > 0)
              && (s.code == IdentityChanged <==> s.external == 0 && s.pidReused)
              && (s.code == CleanupFailed <==> s.external == 0 && !s.pidReused && (!exitObserved || postExit != []))
      ensures s.external + s.loopback + s.unattributed == s.unique
      ensures s.external >= 0 && s.loopback >= 0 && s.unattributed >= 0
      ensures s.pidReused <==> postIdentity.Some? && postIdentity.value != identity
      ensures s.code == Verified
         <==> && OnlyThePackagedChannel(Endpoints(observations), classify)
              && exitObserved && postExit == [] && (postIdentity.None? || postIdentity.value == identity)
    {
      var reused := postIdentity.Some? && postIdentity.value != identity;
      polls, samples := pollCount, sampleCount;
      s := Summarize(Endpoints(observations), identity.pid, classify, exitObserved, postExit, reused);
    }
  }

  function Endpoints(observations: seq<EndpointObservation>): (es: seq<TcpEndpoint>)
    ensures |es| == |observations|
    ensures forall i :: 0 <= i < |es| ==> es[i] == observations[i].endpoint
  {
    seq(|observations|, i requires 0 <= i < |observations| => observations[i].endpoint)
  }

  lemma NewPoll(observations: seq<EndpointObservation>, samples: nat, polls: nat, pid: nat)
    requires Sound(observations, samples, polls, pid)
    ensures Sound(observations, samples, polls + 1, pid) && Polled(observations, observations, {}, polls + 1)
    ensures forall i :: 0 <= i < |observations| ==> observations[i].lastPoll < polls + 1
  {}

  /** `after` is `mid` with one sample of `e`, at a known position or at the end. */
  ghost predicate Sampled(mid: seq<EndpointObservation>, after: seq<EndpointObservation>, key: Key, e: TcpEndpoint,
                          poll: nat, at: Option<nat>)
  {
    && (at.None? ==> after == mid + [EndpointObservation(key, e, poll, poll, 1)]
                     && forall i :: 0 <= i < |mid| ==> mid[i].key != key)
    && (at.Some? ==>
          && at.value < |mid| && mid[at.value].key == key
          && after == mid[at.value := mid[at.value].(lastPoll := poll, sampleCount := mid[at.value].sampleCount + 1)])
  }

  /** One more sample, of a known or a new endpoint, extends what the poll has done. */
  lemma SampleIsPolled(before: seq<EndpointObservation>, mid: seq<EndpointObservation>, after: seq<EndpointObservation>,
                       seen: set<Key>, key: Key, e: TcpEndpoint, poll: nat, at: Option<nat>)
    requires Polled(before, mid, seen, poll) && key !in seen && DistinctKeys(mid)
    requires Sampled(mid, after, key, e, poll, at)
    ensures Polled(before, after, seen + {key}, poll)
  {
    forall k | k in seen + {key} ensures HasKey(after, k) {
      if k == key {
        var i := if at.Some? then at.value else |mid|;
        assert after[i].key == k;
      } else {
        assert HasKey(mid, k);
        var i :| 0 <= i < |mid| && mid[i].key == k;
        assert after[i].key == k;
      }
    }
    forall i | 0 <= i < |before| ensures after[i] == Resampled(before[i], seen + {key}, poll) {
      assert mid[i] == Resampled(before[i], seen, poll);
    }
  }

  lemma SampleIsSound(before: seq<EndpointObservation>, mid: seq<EndpointObservation>, after: seq<EndpointObservation>,
                      seen: set<Key>, key: Key, e: TcpEndpoint, poll: nat, at: Option<nat>, samples: nat, pid: nat)
    requires Polled(before, mid, seen, poll) && key !in seen && Sampled(mid, after, key, e, poll, at)
    requires Sound(mid, samples, poll, pid) && poll > 0 && key == KeyOf(e)
    requires Fold(e.state) in TCP_STATES && e.owningProcess == pid
    requires forall i :: 0 <= i < |before| ==> before[i].lastPoll < poll
    ensures Sound(after, samples + 1, poll, pid)
  {
    if at.None? {
      assert after[..|mid|] == mid;
    } else {
      var o := mid[at.value];
      assert o == Resampled(before[at.value], seen, poll);
      SumAfterUpdate(mid, at.value, o.(lastPoll := poll, sampleCount := o.sampleCount + 1));
    }
  }
}
