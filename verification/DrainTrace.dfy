/** What the calls of a drain, in the order they were made, say about it. */
module DrainTrace {
  import opened Results
  import opened Cluster
  import opened DrainPlan

  const RETRY_INTERVAL := 5.0
  const KUBECTL_INTERVAL := 1.0

  type Trace = seq<Event>

  predicate Accepts(e: Event) {
    e.Evicting? && (e.reply.Created? || e.reply.NotFound?)
  }

  /** The pods whose eviction was accepted, in order. */
  ghost function Accepted(trace: Trace): seq<PodRef> {
    if trace == [] then []
    else
      var last := trace[|trace| - 1];
      Accepted(trace[..|trace| - 1]) + if Accepts(last) then [last.ref] else []
  }

  datatype CallKind = Retries | Passes

  predicate IsOf(kind: CallKind, e: Event) {
    match kind
    case Retries => e.Evicting? && e.reply.TooManyRequests?
    case Passes => e.Polling?
  }

  ghost function Count(kind: CallKind, trace: Trace): nat {
    if trace == [] then 0
    else Count(kind, trace[..|trace| - 1]) + if IsOf(kind, trace[|trace| - 1]) then 1 else 0
  }

  ghost predicate NoEviction(trace: Trace) {
    forall i | 0 <= i < |trace| :: !trace[i].Evicting?
  }

  ghost predicate OnlyPlans(trace: Trace) {
    forall i | 0 <= i < |trace| :: trace[i].Listed? || trace[i].Queried? || trace[i].CallFailed?
  }

  ghost predicate OnlyPolls(trace: Trace) {
    forall i | 0 <= i < |trace| :: trace[i].Polling? || trace[i].Read? || trace[i].CallFailed?
  }

  /** The calls of a drain that has been planned. */
  ghost predicate OnlyDrains(trace: Trace) {
    forall i | 0 <= i < |trace| :: !trace[i].Listed? && !trace[i].Queried? && !trace[i].Cordoned?
  }

  /** The last call is an eviction whose rejection could not be read. */
  ghost predicate EndsUnreadable(trace: Trace) {
    trace != [] && trace[|trace| - 1].Evicting? && trace[|trace| - 1].reply.Unreadable?
  }

  /** The cluster failed a call, for another reason than those that a drain deals with. */
  predicate Fault(e: Event) {
    e.CallFailed? || (e.Queried? && e.answer.Failed?) || (e.Evicting? && e.reply.Rejected?)
  }

  ghost predicate Faulty(trace: Trace) {
    exists i | 0 <= i < |trace| :: Fault(trace[i])
  }

  lemma FaultyConcat(a: Trace, b: Trace)
    ensures Faulty(a + b) <==> Faulty(a) || Faulty(b)
  {
    assert forall i | 0 <= i < |a| :: (a + b)[i] == a[i];
    if Faulty(b) {
      var i :| 0 <= i < |b| && Fault(b[i]);
      assert (a + b)[|a| + i] == b[i];
    }
  }

  /** Every eviction is of the first planned pod not accepted yet. */
  ghost predicate InPlanOrder(trace: Trace, pods: seq<Pod>) {
    forall i | 0 <= i < |trace| && trace[i].Evicting? ::
      var done := |Accepted(trace[..i])|;
      && done < |pods|
      && trace[i].ref == PodRef(namespace := pods[done].namespace, name := pods[done].name)
  }

  /** Somebody read the pod's place and did not find that pod there. */
  predicate ShowsGone(e: Event, pod: Pod) {
    e.Read? && e.ref == PodRef(namespace := pod.namespace, name := pod.name) && e.uid != Some(pod.uid)
  }

  ghost predicate SeenGone(trace: Trace, pod: Pod) {
    exists i | 0 <= i < |trace| :: ShowsGone(trace[i], pod)
  }

  /** The pod's eviction was accepted, and later it was seen gone. */
  ghost predicate EvictedThenGone(trace: Trace, pod: Pod) {
    exists i, j | 0 <= i < j < |trace| :: Accepts(trace[i]) && trace[i].ref == RefOf(pod) && ShowsGone(trace[j], pod)
  }

  ghost predicate IsSubsequence<T>(a: seq<T>, b: seq<T>) {
    || a == []
    || (b != [] && IsSubsequence(a, b[..|b| - 1]))
    || (b != [] && a[|a| - 1] == b[|b| - 1] && IsSubsequence(a[..|a| - 1], b[..|b| - 1]))
  }

  /** The polled list only ever shrinks, to a subsequence of itself. */
  ghost predicate PollingShrinks(trace: Trace, pods: seq<Pod>) {
    && (forall i | 0 <= i < |trace| && trace[i].Polling? :: IsSubsequence(trace[i].pods, pods))
    && (forall i, j | 0 <= i < j < |trace| && trace[i].Polling? && trace[j].Polling? ::
          IsSubsequence(trace[j].pods, trace[i].pods))
  }

  /** Of all calls for a drain with this timeout, few are retries and few are polling passes. */
  ghost predicate Bounded(trace: Trace, timeout: real) {
    && (Count(Retries, trace) > 0 ==> (Count(Retries, trace) - 1) as real * RETRY_INTERVAL <= timeout)
    && (Count(Passes, trace) > 0 ==> 0.0 <= timeout)
    && (Count(Passes, trace) > 1 ==> (Count(Passes, trace) - 2) as real * KUBECTL_INTERVAL <= timeout)
  }

  /** So there are floor(timeout / 5) + 1 retries at most, and timeout + 2 passes. */
  lemma BoundsMean(trace: Trace, timeout: real)
    requires Bounded(trace, timeout)
    ensures timeout < 0.0 ==> Count(Retries, trace) == 0 && Count(Passes, trace) == 0
    ensures 0.0 <= timeout ==>
              Count(Retries, trace) <= (timeout / 5.0).Floor + 1 && Count(Passes, trace) <= timeout.Floor + 2
  {
  }

  lemma {:induction false} AcceptedConcat(a: Trace, b: Trace)
    ensures Accepted(a + b) == Accepted(a) + Accepted(b)
  {
    if b == [] {
      assert a + b == a;
    } else {
      var n := |b| - 1;
      assert (a + b)[..|a| + n] == a + b[..n];
      AcceptedConcat(a, b[..n]);
    }
  }

  lemma {:induction false} CountConcat(kind: CallKind, a: Trace, b: Trace)
    ensures Count(kind, a + b) == Count(kind, a) + Count(kind, b)
  {
    if b == [] {
      assert a + b == a;
    } else {
      var n := |b| - 1;
      assert (a + b)[..|a| + n] == a + b[..n];
      CountConcat(kind, a, b[..n]);
    }
  }

  lemma {:induction false} CountNone(kind: CallKind, a: Trace)
    requires forall i | 0 <= i < |a| :: !IsOf(kind, a[i])
    ensures Count(kind, a) == 0
  {
    if a != [] {
      CountNone(kind, a[..|a| - 1]);
    }
  }

  lemma {:induction false} AcceptedNone(a: Trace)
    requires NoEviction(a)
    ensures Accepted(a) == []
  {
    if a != [] {
      AcceptedNone(a[..|a| - 1]);
    }
  }

  lemma {:induction false} AcceptedIn(a: Trace, ref: PodRef)
    requires ref in Accepted(a)
    ensures exists i | 0 <= i < |a| :: Accepts(a[i]) && a[i].ref == ref
  {
    var n := |a| - 1;
    if ref in Accepted(a[..n]) {
      AcceptedIn(a[..n], ref);
    } else {
      assert Accepts(a[n]) && a[n].ref == ref;
    }
  }

  lemma InPlanOrderConcat(a: Trace, b: Trace, pods: seq<Pod>)
    requires InPlanOrder(a, pods) && NoEviction(b)
    ensures InPlanOrder(a + b, pods)
  {
    forall i | 0 <= i < |a + b| && (a + b)[i].Evicting?
      ensures |Accepted((a + b)[..i])| < |pods| && (a + b)[i].ref == RefOf(pods[|Accepted((a + b)[..i])|])
    {
      assert i < |a| && (a + b)[..i] == a[..i];
    }
  }

  lemma {:induction false} SubsequenceReflexive<T>(a: seq<T>)
    ensures IsSubsequence(a, a)
  {
    if a != [] {
      SubsequenceReflexive(a[..|a| - 1]);
    }
  }

  lemma {:induction false} SubsequenceTransitive<T>(a: seq<T>, b: seq<T>, c: seq<T>)
    requires IsSubsequence(a, b) && IsSubsequence(b, c)
    ensures IsSubsequence(a, c)
    decreases |b| + |c|
  {
    if a != [] {
      if IsSubsequence(b, c[..|c| - 1]) {
        SubsequenceTransitive(a, b, c[..|c| - 1]);
      } else if IsSubsequence(a, b[..|b| - 1]) {
        SubsequenceTransitive(a, b[..|b| - 1], c[..|c| - 1]);
      } else {
        SubsequenceTransitive(a[..|a| - 1], b[..|b| - 1], c[..|c| - 1]);
      }
    }
  }

  /** The pods that these reads, one for each, found still in place. */
  ghost function StillThere(pods: seq<Pod>, seen: Trace): seq<Pod>
    requires |pods| == |seen|
  {
    if pods == [] then []
    else
      var n := |pods| - 1;
      StillThere(pods[..n], seen[..n]) + if ShowsGone(seen[n], pods[n]) then [] else [pods[n]]
  }

  lemma {:induction false} StillThereMeaning(pods: seq<Pod>, seen: Trace)
    requires |pods| == |seen|
    ensures IsSubsequence(StillThere(pods, seen), pods)
    ensures forall i | 0 <= i < |pods| :: pods[i] in StillThere(pods, seen) || ShowsGone(seen[i], pods[i])
  {
    if pods != [] {
      var n := |pods| - 1;
      StillThereMeaning(pods[..n], seen[..n]);
      var rest := StillThere(pods[..n], seen[..n]);
      var all := StillThere(pods, seen);
      if ShowsGone(seen[n], pods[n]) {
        assert all == rest;
      } else {
        assert all == rest + [pods[n]] && all[..|all| - 1] == rest;
      }
      forall i | 0 <= i < |pods|
        ensures pods[i] in StillThere(pods, seen) || ShowsGone(seen[i], pods[i])
      {
        if i < n {
          assert pods[..n][i] == pods[i] && seen[..n][i] == seen[i];
        }
      }
    }
  }

  /**
   Across any history in which no uid is reused, a planned pod that was seen gone
   after it was listed is still gone in the last state.
   */
  lemma SeenGoneStaysGone(trace: Trace, history: seq<State>, pod: Pod, listed: nat, gone: nat)
    requires Consistent(trace, history) && history != [] && NoUidReuse(history)
    requires listed < gone < |trace|
    requires trace[listed].Listed? && pod in trace[listed].pods
    requires ShowsGone(trace[gone], pod)
    ensures !history[|history| - 1].Holds(pod)
  {
    var i, j, k := trace[listed].at, trace[gone].at, |history| - 1;
    assert Truthful(trace[listed], history[i]);
    assert history[i].Holds(pod);
    assert Truthful(trace[gone], history[j]);
    assert i <= j && !history[j].Holds(pod);
    assert j < k ==> i < j < k;
  }

  // ----- Evicting, call by call -----

  ghost function Refs(pods: seq<Pod>): (refs: seq<PodRef>)
    ensures |refs| == |pods| && forall i | 0 <= i < |pods| :: refs[i] == RefOf(pods[i])
  {
    seq(|pods|, i requires 0 <= i < |pods| => RefOf(pods[i]))
  }

  /** The evictions of the first `done` pods were accepted, and all evictions follow the plan. */
  ghost predicate EvictedUpTo(trace: Trace, pods: seq<Pod>, done: nat) {
    && done <= |pods|
    && (forall i | 0 <= i < |trace| :: trace[i].Evicting?)
    && Accepted(trace) == Refs(pods[..done])
    && InPlanOrder(trace, pods)
    && Count(Passes, trace) == 0
  }

  /** And the retries among them took their time, which was not over when the last one was made. */
  ghost predicate EvictedInTime(trace: Trace, pods: seq<Pod>, done: nat, timeout: real, elapsed: real) {
    && EvictedUpTo(trace, pods, done) && Bounded(trace, timeout)
    && Count(Retries, trace) as real * RETRY_INTERVAL <= elapsed
  }

  lemma EvictedNone(pods: seq<Pod>, timeout: real)
    ensures EvictedInTime([], pods, 0, timeout, 0.0)
  {
  }

  lemma EvictedStill(trace: Trace, pods: seq<Pod>, done: nat, timeout: real, elapsed: real, later: real)
    requires EvictedInTime(trace, pods, done, timeout, elapsed) && elapsed <= later
    ensures EvictedInTime(trace, pods, done, timeout, later)
  {
  }

  lemma EvictingOnce(trace: Trace, e: Event, pods: seq<Pod>, done: nat, timeout: real, elapsed: real, later: real)
    requires EvictedInTime(trace, pods, done, timeout, elapsed) && elapsed <= timeout && done < |pods|
    requires e.Evicting? && e.ref == RefOf(pods[done])
    requires elapsed <= later && (IsOf(Retries, e) ==> elapsed + RETRY_INTERVAL <= later)
    ensures EvictedInTime(trace + [e], pods, if Accepts(e) then done + 1 else done, timeout, later)
  {
    var longer := trace + [e];
    assert longer[..|trace|] == trace;
    assert Accepts(e) ==> Refs(pods[..done + 1]) == Refs(pods[..done]) + [e.ref];
    forall i | 0 <= i < |longer| && longer[i].Evicting?
      ensures |Accepted(longer[..i])| < |pods| && longer[i].ref == RefOf(pods[|Accepted(longer[..i])|])
    {
      if i < |trace| {
        assert longer[..i] == trace[..i] && longer[i] == trace[i];
      }
    }
  }

  lemma EvictingFaults(trace: Trace, e: Event)
    requires e.Evicting?
    ensures Fault(e) ==> Faulty(trace + [e])
    ensures e.reply.Unreadable? ==> EndsUnreadable(trace + [e])
  {
    assert (trace + [e])[|trace|] == e;
  }

  /** Once pods are polled, none is evicted any more. */
  ghost predicate EvictsBeforePolling(trace: Trace) {
    forall i, j | 0 <= i < j < |trace| && trace[i].Polling? :: !trace[j].Evicting?
  }

  /** What is true of any drain of these pods: no pod is evicted but in its turn, and calls are few. */
  ghost predicate Disciplined(trace: Trace, pods: seq<Pod>, timeout: real) {
    InPlanOrder(trace, pods) && EvictsBeforePolling(trace) && Bounded(trace, timeout)
  }

  lemma EvictsBeforePollingAround(before: Trace, trace: Trace, after: Trace)
    requires OnlyPlans(before) && OnlyPlans(after) && EvictsBeforePolling(trace)
    ensures EvictsBeforePolling(before + trace + after)
  {
    var whole := before + trace + after;
    forall i, j | 0 <= i < j < |whole| && whole[i].Polling? ensures !whole[j].Evicting? {
      assert |before| <= i < |before| + |trace| && whole[i] == trace[i - |before|];
      if j < |before| + |trace| {
        assert whole[j] == trace[j - |before|];
      }
    }
  }

  /** Evictions, then polling of the evicted pods. */
  lemma EvictThenWait(evictions: Trace, waits: Trace, pods: seq<Pod>, done: nat, timeout: real, elapsed: real)
    requires EvictedInTime(evictions, pods, done, timeout, elapsed)
    requires OnlyPolls(waits) && Bounded(waits, timeout)
    ensures Disciplined(evictions + waits, pods, timeout) && OnlyDrains(evictions + waits)
    ensures Accepted(evictions + waits) == Refs(pods[..done])
    ensures done == |pods| ==>
              forall pod | pod in pods && SeenGone(waits, pod) :: EvictedThenGone(evictions + waits, pod)
  {
    hide Accepted, Count, InPlanOrder, SeenGone, EvictedThenGone;
    EvictionsCounted(evictions, waits);
    InPlanOrderConcat(evictions, waits, pods);
    if done == |pods| {
      assert pods[..done] == pods;
      forall pod | pod in pods && SeenGone(waits, pod) ensures EvictedThenGone(evictions + waits, pod) {
        AcceptedThenGone(evictions, waits, pods, pod);
      }
    }
  }

  lemma EvictionsCounted(evictions: Trace, waits: Trace)
    requires OnlyPolls(waits)
    ensures Accepted(evictions + waits) == Accepted(evictions)
    ensures Count(Retries, evictions + waits) == Count(Retries, evictions)
    ensures Count(Passes, evictions + waits) == Count(Passes, evictions) + Count(Passes, waits)
  {
    AcceptedConcat(evictions, waits);
    AcceptedNone(waits);
    CountConcat(Retries, evictions, waits);
    CountConcat(Passes, evictions, waits);
    CountNone(Retries, waits);
  }

  lemma AcceptedThenGone(evictions: Trace, waits: Trace, pods: seq<Pod>, pod: Pod)
    requires Accepted(evictions) == Refs(pods) && pod in pods && SeenGone(waits, pod)
    ensures EvictedThenGone(evictions + waits, pod)
  {
    hide Accepted, ShowsGone;
    var k :| 0 <= k < |pods| && pods[k] == pod;
    assert Refs(pods)[k] == RefOf(pod);
    AcceptedIn(evictions, RefOf(pod));
    var i :| 0 <= i < |evictions| && Accepts(evictions[i]) && evictions[i].ref == RefOf(pod);
    var j :| 0 <= j < |waits| && ShowsGone(waits[j], pod);
    assert (evictions + waits)[i] == evictions[i] && (evictions + waits)[|evictions| + j] == waits[j];
  }

  /** Evictions that are given up before polling. */
  lemma EvictionsStop(evictions: Trace, pods: seq<Pod>, done: nat, timeout: real, elapsed: real)
    requires EvictedInTime(evictions, pods, done, timeout, elapsed)
    ensures Disciplined(evictions, pods, timeout) && OnlyDrains(evictions)
    ensures Accepted(evictions) <= Refs(pods)
  {
    EvictThenWait(evictions, [], pods, done, timeout, elapsed);
    assert evictions + [] == evictions;
  }

  /** Planning before or after a drain evicts nothing, and leaves the drain as disciplined as it was. */
  lemma PlanAround(before: Trace, trace: Trace, after: Trace, pods: seq<Pod>, timeout: real)
    requires OnlyPlans(before) && OnlyPlans(after)
    requires Disciplined(trace, pods, timeout)
    ensures Disciplined(before + trace + after, pods, timeout)
    ensures Accepted(before + trace + after) == Accepted(trace)
    ensures forall pod | EvictedThenGone(trace, pod) :: EvictedThenGone(before + trace + after, pod)
  {
    hide EvictsBeforePolling, InPlanOrder, OnlyPlans, EvictedThenGone;
    var whole := before + trace + after;
    EvictsBeforePollingAround(before, trace, after);
    CountsAround(before, trace, after);
    PlanOnlyBefore(before, trace, pods);
    assert NoEviction(after) by { PlanOnly(after, pods, timeout); }
    InPlanOrderConcat(before + trace, after, pods);
    forall pod | EvictedThenGone(trace, pod) ensures EvictedThenGone(whole, pod) {
      EvictedThenGoneAround(before, trace, after, pod);
    }
  }

  lemma CountsAround(before: Trace, trace: Trace, after: Trace)
    requires OnlyPlans(before) && OnlyPlans(after)
    ensures Accepted(before + trace + after) == Accepted(trace)
    ensures forall kind: CallKind :: Count(kind, before + trace + after) == Count(kind, trace)
  {
    AcceptedNone(before);
    AcceptedNone(after);
    AcceptedConcat(before, trace);
    AcceptedConcat(before + trace, after);
    forall kind: CallKind ensures Count(kind, before + trace + after) == Count(kind, trace) {
      CountConcat(kind, before, trace);
      CountConcat(kind, before + trace, after);
      CountNone(kind, before);
      CountNone(kind, after);
    }
  }

  lemma PlanOnlyBefore(before: Trace, trace: Trace, pods: seq<Pod>)
    requires OnlyPlans(before) && InPlanOrder(trace, pods)
    ensures InPlanOrder(before + trace, pods)
  {
    AcceptedNone(before);
    var whole := before + trace;
    forall i | 0 <= i < |whole| && whole[i].Evicting?
      ensures |Accepted(whole[..i])| < |pods| && whole[i].ref == RefOf(pods[|Accepted(whole[..i])|])
    {
      assert i >= |before| && whole[..i] == before + trace[..i - |before|];
      AcceptedConcat(before, trace[..i - |before|]);
    }
  }

  lemma EvictedThenGoneAround(before: Trace, trace: Trace, after: Trace, pod: Pod)
    requires EvictedThenGone(trace, pod)
    ensures EvictedThenGone(before + trace + after, pod)
  {
    var whole := before + trace + after;
    var i, j :| 0 <= i < j < |trace| && Accepts(trace[i]) && trace[i].ref == RefOf(pod) && ShowsGone(trace[j], pod);
    assert whole[|before| + i] == trace[i] && whole[|before| + j] == trace[j];
  }

  /** With no call made, or only planning, nothing is evicted whatever the plan. */
  lemma PlanOnly(trace: Trace, pods: seq<Pod>, timeout: real)
    requires OnlyPlans(trace)
    ensures NoEviction(trace) && Accepted(trace) == [] && Disciplined(trace, pods, timeout)
  {
    AcceptedNone(trace);
    CountNone(Retries, trace);
    CountNone(Passes, trace);
  }

  // ----- Polling, pass by pass -----

  /** The last tick is at least as many intervals after the start as there were passes before it. */
  ghost predicate Paced(trace: Trace, lastTick: Option<real>, started: real) {
    Count(Passes, trace) > 0 ==>
      && lastTick.Some?
      && started + (Count(Passes, trace) - 1) as real * KUBECTL_INTERVAL <= lastTick.value
  }

  /** What polling for `pods` has established when it goes on with `pending`. */
  ghost predicate Waited(trace: Trace, pods: seq<Pod>, pending: seq<Pod>) {
    && OnlyPolls(trace) && PollingShrinks(trace, pods)
    && IsSubsequence(pending, pods)
    && (forall i | 0 <= i < |trace| && trace[i].Polling? :: IsSubsequence(pending, trace[i].pods))
    && (forall pod | pod in pods :: pod in pending || SeenGone(trace, pod))
  }

  lemma WaitingStarts(pods: seq<Pod>, timeout: real, lastTick: Option<real>, started: real)
    ensures Waited([], pods, pods) && Bounded([], timeout) && Paced([], lastTick, started)
  {
    SubsequenceReflexive(pods);
  }

  lemma WaitingEnds(seg: Trace, pods: seq<Pod>, pending: seq<Pod>)
    requires Waited(seg, pods, pending)
    ensures OnlyPolls(seg) && PollingShrinks(seg, pods)
    ensures pending == [] ==> forall pod | pod in pods :: SeenGone(seg, pod)
  {
  }

  lemma PassStarts(seg: Trace, pass: Event, pods: seq<Pod>, pending: seq<Pod>)
    requires Waited(seg, pods, pending)
    requires pass.Polling? && pass.pods == pending
    ensures Waited(seg + [pass], pods, pending)
  {
    assert (seg + [pass])[..|seg|] == seg;
    SubsequenceReflexive(pending);
    SeenGoneGrows(seg, [pass]);
  }

  /** A pass that starts with a tick, made when the timeout was not over, keeps the pace and the bounds. */
  lemma PassTicks(seg: Trace, pass: Event, timeout: real, lastTick: Option<real>,
                  started: real, checked: real, tick: real)
    requires Bounded(seg, timeout) && Paced(seg, lastTick, started)
    requires Count(Passes, seg) > 0 ==> lastTick.Some? && lastTick.value <= checked
    requires pass.Polling? && started <= checked <= tick && checked - started <= timeout
    requires lastTick.Some? ==> lastTick.value + KUBECTL_INTERVAL <= tick
    ensures Bounded(seg + [pass], timeout) && Paced(seg + [pass], Some(tick), started)
    ensures Count(Passes, seg + [pass]) > 0
  {
    assert (seg + [pass])[..|seg|] == seg;
  }

  lemma SeenGoneGrows(seg: Trace, more: Trace)
    ensures forall pod | SeenGone(seg, pod) :: SeenGone(seg + more, pod)
  {
    forall pod | SeenGone(seg, pod) ensures SeenGone(seg + more, pod) {
      var i :| 0 <= i < |seg| && ShowsGone(seg[i], pod);
      assert (seg + more)[i] == seg[i];
    }
  }

  lemma PassReads(seg: Trace, more: Trace, pods: seq<Pod>, pending: seq<Pod>)
    requires Waited(seg, pods, pending)
    requires forall i | 0 <= i < |more| :: more[i].Read? || more[i].CallFailed?
    ensures Waited(seg + more, pods, pending)
  {
    SeenGoneGrows(seg, more);
    forall i | 0 <= i < |seg + more| && (seg + more)[i].Polling? ensures i < |seg| && (seg + more)[i] == seg[i] {}
  }

  lemma ReadsKeepPace(seg: Trace, more: Trace, timeout: real, tick: real, started: real)
    requires forall i | 0 <= i < |more| :: more[i].Read? || more[i].CallFailed?
    requires Bounded(seg, timeout) && Paced(seg, Some(tick), started)
    ensures Bounded(seg + more, timeout) && Paced(seg + more, Some(tick), started)
    ensures Count(Passes, seg + more) == Count(Passes, seg)
  {
    CountConcat(Passes, seg, more);
    CountConcat(Retries, seg, more);
    CountNone(Passes, more);
    CountNone(Retries, more);
  }

  /** After a pass, what is still polled is a part of all that was, and the rest was seen gone. */
  lemma PassEnds(seg: Trace, more: Trace, pods: seq<Pod>, before: seq<Pod>)
    requires Waited(seg + more, pods, before) && |more| == |before|
    ensures Waited(seg + more, pods, StillThere(before, more))
  {
    var trace, after := seg + more, StillThere(before, more);
    StillThereMeaning(before, more);
    SubsequenceTransitive(after, before, pods);
    forall i | 0 <= i < |trace| && trace[i].Polling? ensures IsSubsequence(after, trace[i].pods) {
      SubsequenceTransitive(after, before, trace[i].pods);
    }
    forall pod | pod in before ensures pod in after || SeenGone(trace, pod) {
      var i :| 0 <= i < |before| && before[i] == pod;
      assert trace[|seg| + i] == more[i];
    }
  }
}
