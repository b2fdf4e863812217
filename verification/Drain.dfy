/**
 Draining a node: plan, evict every planned pod with retries, poll until each is
 gone, all under a timer and against a cluster that others keep changing.
 */
module Drain {
  import opened Results
  import opened Cluster
  import opened DrainPlan
  import opened DrainTrace

  const DEFAULT_TIMEOUT := 18446744073709551615.0

  datatype Planning = Planned(pods: seq<Pod>, warnings: Groups) | NotDeletable(failures: Groups) | Broken

  // `ReplyError` is raised on a rejection that cannot be read, and caught by nobody.
  datatype Failure = TimedOut | CommandError | ReplyError

  datatype Outcome =
    | Prepared(pods: seq<Pod>)
    | Complete
    | Undeletable(failures: Groups)
    | PlanningBroke
    | Incomplete(cause: Failure, remaining: seq<Pod>)
    // The second planning, made to report what remains, failed in its turn.
    | IncompleteUndeletable(cause: Failure, failures: Groups)
    | IncompletePlanningBroke(cause: Failure)
    | EvictionBroke
    | NotCordoned

  function KeyOf(pod: Pod, ref: OwnerRef): ControllerKey {
    ControllerKey(pod.namespace, ref.kind, ref.name, ref.apiVersion)
  }

  /** The key asks for the object that the `k`th reference of the pod names, in the namespace of the pod. */
  predicate AsksFor(key: ControllerKey, pod: Pod, k: nat) {
    && IsController(pod.owners, k)
    && key.namespace == pod.namespace && key.kind == pod.owners[k].kind
    && key.name == pod.owners[k].name && key.apiVersion == pod.owners[k].apiVersion
  }

  ghost predicate LooksUp(e: Event, pod: Pod, answer: Answer) {
    e.Queried? && e.answer == answer && exists k: nat :: AsksFor(e.key, pod, k)
  }

  lemma KeyAsks(pod: Pod)
    requires ControllerOf(pod.owners).Some?
    ensures exists k: nat :: AsksFor(KeyOf(pod, ControllerOf(pod.owners).value), pod, k)
  {
    ControllerOfIsFirst(pod.owners);
    var k: nat :| IsController(pod.owners, k);
    assert AsksFor(KeyOf(pod, ControllerOf(pod.owners).value), pod, k);
  }

  /** The trace holds the lookup that gave `answer` about the pod's controller. */
  ghost predicate LookedUp(trace: Trace, pod: Pod, answer: Answer) {
    exists i | 0 <= i < |trace| :: LooksUp(trace[i], pod, answer)
  }

  /** If the filter of the given rank asks about the pod, its answer was given in this trace. */
  ghost predicate Answered(rank: nat, trace: Trace, pod: Pod, answers: Answers) {
    && (rank == 2 && Ongoing(pod) && Owned(pod) ==> LookedUp(trace, pod, answers.forReplication))
    && (rank == 3 && OwnedByDaemonSet(pod) ==> LookedUp(trace, pod, answers.forDaemonSet))
  }

  /** The answers about a pod are those that the cluster gave in this trace. */
  ghost predicate AnsweredIn(trace: Trace, pod: Pod, answers: Answers) {
    forall rank | 0 <= rank < FILTERS :: Answered(rank, trace, pod, answers)
  }

  /** The trace starts with the listing of these pods of the node. */
  ghost predicate ListedFirst(trace: Trace, node: string, pods: seq<Pod>) {
    trace != [] && trace[0].Listed? && trace[0].node == node && trace[0].pods == pods
  }

  /** All pods say what their volumes are. */
  ghost predicate Examinable(pods: seq<Pod>) {
    forall pod | pod in pods :: pod.volumes.Some?
  }

  /** A planning listed these pods, looked up their controllers with these answers, and concluded this. */
  ghost predicate PlanningMeans(
    node: string, opts: Options, r: Planning, pods: seq<Pod>, answers: seq<Answers>, trace: Trace)
  {
    && OnlyPlans(trace)
    && (r.Broken? ==> Faulty(trace) || (ListedFirst(trace, node, pods) && !Examinable(pods)))
    && (!r.Broken? ==>
          && |pods| == |answers|
          && ListedFirst(trace, node, pods)
          && (forall i | 0 <= i < |pods| ::
                !Aborted(opts, pods[i], answers[i]) && AnsweredIn(trace, pods[i], answers[i])))
    && (r.Planned? ==>
          && Plannable(opts, pods, answers)
          && r.pods == Selected(opts, pods, answers)
          && r.warnings == GroupAll(Warnings(opts, pods, answers)))
    && (r.NotDeletable? ==>
          && !Plannable(opts, pods, answers)
          && r.failures == GroupAll(Refusals(opts, pods, answers)))
  }

  class Drainer {
    const node: string
    const opts: Options
    const timeout: real
    var started: real
    var lastTick: Option<real>

    constructor (node: string, opts: Options, timeout: real)
      ensures this.node == node && this.opts == opts && lastTick == None
      ensures this.timeout == if timeout == 0.0 then 18446744073709551615.0 else timeout
    {
      this.node := node;
      this.opts := opts;
      this.timeout := if timeout == 0.0 then DEFAULT_TIMEOUT else timeout;
      started, lastTick := 0.0, None;
    }

    // ----- Planning -----

    /**
     The filter of the given rank, with the lookup it makes of the pod's controller.
     `known` holds the answers to the lookups of the filters before it.
     */
    method RunFilter(w: World, rank: nat, pod: Pod, ghost known: Answers)
      returns (v: Verdict, ghost answers: Answers, ghost seg: Trace)
      requires w.Valid() && rank < FILTERS
      modifies w
      ensures w.Valid() && w.Later() && w.trace == old(w.trace) + seg
      ensures OnlyPlans(seg)
      ensures v == Filter(rank, opts, pod, answers)
      ensures forall i | 0 <= i < rank :: Filter(i, opts, pod, known) == Filter(i, opts, pod, answers)
      ensures Answered(rank, seg, pod, answers)
      ensures v.Abort? ==> Faulty(seg) || pod.volumes.None?
      ensures rank != 2 ==> answers.forReplication == known.forReplication
    {
      answers, seg := known, [];
      AsksMeans(pod);
      match rank
      case 0 => v := MirrorFilter(pod);
      case 1 => v := LocalStorageFilter(opts, pod);
      case 2 =>
        var found := Failed;
        if AsksForReplication(pod) {
          ghost var e;
          found, e := w.QueryController(KeyOf(pod, ControllerOf(pod.owners).value));
          seg := [e];
          KeyAsks(pod);
          assert LooksUp(seg[0], pod, found);
        }
        answers := answers.(forReplication := found);
        v := UnreplicatedFilter(opts, pod, found);
      case _ =>
        var found := Failed;
        if AsksForDaemonSet(pod) {
          ghost var e;
          found, e := w.QueryController(KeyOf(pod, ControllerOf(pod.owners).value));
          seg := [e];
          KeyAsks(pod);
          assert LooksUp(seg[0], pod, found);
        }
        answers := answers.(forDaemonSet := found);
        v := DaemonSetFilter(opts, pod, found);
    }

    /** What one iteration over the filters does with a verdict. */
    method Apply(v: Verdict, pod: Pod, failures: Groups, warnings: Groups,
                 deletable: bool, warning: Message, isDeletable: bool,
                 ghost tally: Tally, ghost verdicts: seq<Verdict>)
      returns (failures': Groups, warnings': Groups, deletable': bool, warning': Message, isDeletable': bool)
      requires !v.Abort?
      requires Tallied(tally, verdicts, pod.name, failures, warnings, isDeletable)
      ensures Tallied(tally, verdicts + [v], pod.name, failures', warnings', isDeletable')
    {
      failures', warnings', deletable', warning' := failures, warnings, deletable, warning;
      RefusalsGrow(tally.refusals, verdicts, v, pod.name);
      WarningsGrow(tally.remarks, verdicts, v, pod.name);
      match v {
        case Refuse(reason) =>
          failures' := Grouped(failures', reason, pod.name);
        case Allow(d, text) =>
          deletable', warning' := d, text;
      }
      if warning' != NoMessage {
        warnings' := Grouped(warnings', warning', pod.name);
      }
      isDeletable' := isDeletable && deletable';
    }

    /**
     All filters on one pod. As after an exception in the Python code, a refusal
     leaves the verdict of the filter before it in place.
     */
    method ExaminePod(w: World, pod: Pod, failures: Groups, warnings: Groups, ghost tally: Tally)
      returns (ok: bool, isDeletable: bool, failures': Groups, warnings': Groups,
               ghost answers: Answers, ghost seg: Trace)
      requires w.Valid()
      requires Tallied(tally, [], pod.name, failures, warnings, true)
      modifies w
      ensures w.Valid() && w.Later() && w.trace == old(w.trace) + seg
      ensures OnlyPlans(seg)
      ensures !ok ==> Faulty(seg) || pod.volumes.None?
      ensures ok ==> !Aborted(opts, pod, answers) && AnsweredIn(seg, pod, answers)
      ensures ok ==> Tallied(tally, VerdictsOf(opts, pod, answers), pod.name, failures', warnings', isDeletable)
    {
      hide Consistent, Tallied;
      ok, isDeletable, failures', warnings' := true, true, failures, warnings;
      answers, seg := Answers(Failed, Failed), [];
      var deletable, warning := false, NoMessage;
      ghost var verdicts: seq<Verdict> := [];
      for rank := 0 to FILTERS
        invariant w.Valid() && w.Later() && w.trace == old(w.trace) + seg
        invariant OnlyPlans(seg)
        invariant |verdicts| == rank
        invariant forall i | 0 <= i < rank :: verdicts[i] == Filter(i, opts, pod, answers) && !verdicts[i].Abort?
        invariant forall i | 0 <= i < rank :: Answered(i, seg, pod, answers)
        invariant Tallied(tally, verdicts, pod.name, failures', warnings', isDeletable)
      {
        var v;
        ghost var known, more := answers, [];
        v, answers, more := RunFilter(w, rank, pod, known);
        AnsweredMore(rank, seg, more, pod, known, answers);
        FaultyConcat(seg, more);
        seg := seg + more;
        if v.Abort? {
          ok := false;
          return;
        }
        failures', warnings', deletable, warning, isDeletable :=
          Apply(v, pod, failures', warnings', deletable, warning, isDeletable, tally, verdicts);
        verdicts := verdicts + [v];
      }
      assert verdicts == VerdictsOf(opts, pod, answers);
      assert Answered(2, seg, pod, answers) && Answered(3, seg, pod, answers);
    }

    /** The pods that a drain of this node would evict, or why it cannot. */
    method GetPodsForEviction(w: World)
      returns (r: Planning, ghost listed: seq<Pod>, ghost answers: seq<Answers>, ghost seg: Trace)
      requires w.Valid()
      modifies w
      ensures w.Valid() && w.Later() && w.trace == old(w.trace) + seg
      ensures PlanningMeans(node, opts, r, listed, answers, seg) && OnlyPlans(seg)
    {
      hide Consistent, PlannedSoFar, Tallied, IsListing;
      listed, answers := [], [];
      var all;
      ghost var e;
      all, e := w.ListPods(node);
      seg := [e];
      if all.None? {
        assert Fault(seg[0]);
        r := Broken;
        return;
      }
      listed := all.value;
      var failures, warnings: Groups := map[], map[];
      var pods: seq<Pod> := [];
      PlanStarts(opts, listed, seg);
      for i := 0 to |all.value|
        invariant w.Valid() && w.Later() && w.trace == old(w.trace) + seg
        invariant OnlyPlans(seg) && |seg| > 0 && seg[0] == e
        invariant |answers| == i
        invariant PlannedSoFar(opts, listed[..i], answers, failures, warnings, pods, seg)
      {
        var pod := all.value[i];
        ghost var tally := TallyOf(opts, listed[..i], answers);
        TallyStarts(opts, listed[..i], answers, failures, warnings, pods, seg, pod.name);
        var ok, isDeletable, failures', warnings';
        ghost var given, more;
        ok, isDeletable, failures', warnings', given, more := ExaminePod(w, pod, failures, warnings, tally);
        if !ok {
          FaultyConcat(seg, more);
          seg := seg + more;
          assert pod in listed;
          r := Broken;
          return;
        }
        PlanGrows(opts, listed[..i], answers, failures, warnings, pods, seg,
                  pod, given, failures', warnings', isDeletable, more);
        assert listed[..i + 1] == listed[..i] + [pod];
        seg, answers := seg + more, answers + [given];
        failures, warnings := failures', warnings';
        if isDeletable {
          pods := pods + [pod];
        }
      }
      assert listed[..|listed|] == listed;
      PlanEnds(node, opts, listed, answers, failures, warnings, pods, seg);
      r := if failures != map[] then NotDeletable(failures) else Planned(pods, warnings);
    }

    // ----- Timer -----

    method CheckTimer(w: World) returns (ok: bool)
      requires w.Valid()
      modifies w
      ensures w.Valid() && w.Later() && w.trace == old(w.trace)
      ensures ok <==> w.now - started <= timeout
    {
      w.Others();
      ok := !(w.now - started > timeout);
    }

    method Tick(w: World, interval: real)
      requires w.Valid()
      modifies w, this`lastTick
      ensures w.Valid() && w.Later() && w.trace == old(w.trace)
      ensures lastTick == Some(w.now)
      ensures old(lastTick).Some? ==> old(lastTick).value + interval <= w.now
    {
      if lastTick.Some? {
        w.Others();
        var remaining := interval - (w.now - lastTick.value);
        if remaining > 0.0 {
          w.Sleep(remaining);
        }
      }
      w.Others();
      lastTick := Some(w.now);
    }

    // ----- Eviction -----

    /** Whether the eviction was accepted, or should be tried again; an error when it was neither. */
    method EvictPod(w: World, ref: PodRef) returns (r: Result<bool, Failure>, ghost e: Event)
      requires w.Valid()
      modifies w
      ensures w.Valid() && w.Later() && w.trace == old(w.trace) + [e]
      ensures e.Evicting? && e.ref == ref
      ensures r == Ok(true) <==> Accepts(e)
      ensures r == Ok(false) <==> IsOf(Retries, e)
      ensures r == Err(ReplyError) <==> e.reply.Unreadable?
      ensures r.Err? && !r.error.ReplyError? ==> r.error.CommandError? && Fault(e)
    {
      var reply;
      reply, e := w.CreateEviction(ref);
      match reply
      case Created => r := Ok(true);
      case NotFound => r := Ok(true);
      case TooManyRequests => r := Ok(false);
      case Unreadable => r := Err(ReplyError);
      case Rejected => r := Err(CommandError);
    }

    /** One pass over the pods still there; those that remain are polled again. */
    method PollOnce(w: World, pods: seq<Pod>) returns (r: Result<seq<Pod>, Failure>, ghost seg: Trace)
      requires w.Valid()
      modifies w
      ensures w.Valid() && w.Later() && w.trace == old(w.trace) + seg
      ensures forall i | 0 <= i < |seg| :: seg[i].Read? || seg[i].CallFailed?
      ensures r.Ok? ==> |seg| == |pods| && r.value == StillThere(pods, seg)
                        && forall i | 0 <= i < |pods| :: seg[i].Read? && seg[i].ref == RefOf(pods[i])
      ensures r.Err? ==> r.error.CommandError? && Faulty(seg)
    {
      hide Consistent;
      seg := [];
      var pending: seq<Pod> := [];
      for i := 0 to |pods|
        invariant w.Valid() && w.Later() && w.trace == old(w.trace) + seg
        invariant |seg| == i && forall j | 0 <= j < i :: seg[j].Read? && seg[j].ref == RefOf(pods[j])
        invariant pending == StillThere(pods[..i], seg)
      {
        var response;
        ghost var e;
        response, e := w.ReadPod(RefOf(pods[i]));
        assert (seg + [e])[..i] == seg && pods[..i + 1][..i] == pods[..i];
        seg := seg + [e];
        if response.Err? {
          assert Fault(seg[i]);
          r := Err(CommandError);
          return;
        }
        if response.value.None? || response.value.value != pods[i].uid {
        } else {
          pending := pending + [pods[i]];
        }
      }
      assert pods[..|pods|] == pods;
      r := Ok(pending);
    }

    method WaitForEviction(w: World, pods: seq<Pod>) returns (r: Result<(), Failure>, ghost seg: Trace)
      requires w.Valid() && started <= w.now
      modifies w, this`lastTick
      ensures w.Valid() && w.Later() && w.trace == old(w.trace) + seg
      ensures OnlyPolls(seg) && PollingShrinks(seg, pods)
      ensures r.Ok? ==> forall pod | pod in pods :: SeenGone(seg, pod)
      ensures r != Err(ReplyError)
      ensures r == Err(TimedOut) ==> w.now - started > timeout
      ensures r == Err(CommandError) ==> Faulty(seg)
      ensures Bounded(seg, timeout)
    {
      hide Consistent, Waited, Bounded, Paced, OnlyPolls, PollingShrinks, IsSubsequence, StillThere, SeenGone;
      seg := [];
      var pods' := pods;
      WaitingStarts(pods, timeout, lastTick, started);
      while true
        invariant w.Valid() && w.Later() && w.trace == old(w.trace) + seg
        invariant Waited(seg, pods, pods')
        invariant started <= w.now && Paced(seg, lastTick, started) && Bounded(seg, timeout)
        invariant Count(Passes, seg) > 0 ==> lastTick.Some? && lastTick.value <= w.now
        decreases Count(Passes, seg) == 0, started + timeout - (if lastTick.Some? then lastTick.value else 0.0)
      {
        var ok := CheckTimer(w);
        if !ok {
          WaitingEnds(seg, pods, pods');
          r := Err(TimedOut);
          return;
        }
        ghost var before, checked := lastTick, w.now;
        Tick(w, KUBECTL_INTERVAL);
        ghost var pass := Polling(pods', |w.history| - 1);
        w.Note(pass);
        PassStarts(seg, pass, pods, pods');
        PassTicks(seg, pass, timeout, before, started, checked, w.now);
        seg := seg + [pass];
        var pending;
        ghost var more;
        pending, more := PollOnce(w, pods');
        PassReads(seg, more, pods, pods');
        ReadsKeepPace(seg, more, timeout, lastTick.value, started);
        if pending.Err? {
          FaultyConcat(seg, more);
          seg := seg + more;
          WaitingEnds(seg, pods, pods');
          r := Err(pending.error);
          return;
        }
        PassEnds(seg, more, pods, pods');
        seg := seg + more;
        pods' := pending.value;
        if pending.value == [] {
          break;
        }
      }
      WaitingEnds(seg, pods, pods');
      r := Ok(());
    }

    /** Evict the pods one after the other, each until it is accepted, then wait for all of them. */
    method EvictPods(w: World, pods: seq<Pod>) returns (r: Result<(), Failure>, ghost seg: Trace)
      requires w.Valid()
      modifies w, this`started, this`lastTick
      ensures w.Valid() && w.Later() && w.trace == old(w.trace) + seg
      ensures Disciplined(seg, pods, timeout) && OnlyDrains(seg)
      ensures Accepted(seg) <= Refs(pods)
      ensures r.Ok? ==> Accepted(seg) == Refs(pods)
      ensures r.Ok? ==> forall pod | pod in pods :: EvictedThenGone(seg, pod)
      ensures r == Err(TimedOut) ==> w.now - started > timeout
      ensures r == Err(CommandError) ==> Faulty(seg)
      ensures r == Err(ReplyError) ==> EndsUnreadable(seg)
    {
      hide Consistent, EvictedInTime, Bounded, PollingShrinks, Faulty, EvictedThenGone, SeenGone, Disciplined, Accepted,
           OnlyPolls, OnlyDrains, EndsUnreadable;
      seg := [];
      w.Others();
      started := w.now;
      EvictedNone(pods, timeout);
      for i := 0 to |pods|
        invariant w.Valid() && w.Later() && w.trace == old(w.trace) + seg
        invariant started <= w.now && EvictedInTime(seg, pods, i, timeout, w.now - started)
      {
        while true
          invariant w.Valid() && w.Later() && w.trace == old(w.trace) + seg
          invariant started <= w.now && EvictedInTime(seg, pods, i, timeout, w.now - started)
          decreases started + timeout - w.now
        {
          ghost var before, elapsed := seg, w.now - started;
          var ok := CheckTimer(w);
          if !ok {
            EvictionsStop(seg, pods, i, timeout, elapsed);
            r := Err(TimedOut);
            return;
          }
          EvictedStill(before, pods, i, timeout, elapsed, w.now - started);
          elapsed := w.now - started;
          var evicted;
          ghost var e;
          evicted, e := EvictPod(w, RefOf(pods[i]));
          seg := seg + [e];
          if evicted.Err? {
            EvictingFaults(before, e);
            EvictingOnce(before, e, pods, i, timeout, elapsed, w.now - started);
            EvictionsStop(seg, pods, i, timeout, w.now - started);
            r := Err(evicted.error);
            return;
          }
          if evicted.value {
            EvictingOnce(before, e, pods, i, timeout, elapsed, w.now - started);
            break;
          }
          w.Sleep(RETRY_INTERVAL);
          EvictingOnce(before, e, pods, i, timeout, elapsed, w.now - started);
        }
      }
      ghost var waits;
      ghost var elapsed := w.now - started;
      r, waits := WaitForEviction(w, pods);
      EvictThenWait(seg, waits, pods, |pods|, timeout, elapsed);
      FaultyConcat(seg, waits);
      assert pods[..|pods|] == pods;
      seg := seg + waits;
    }

    // ----- The whole drain -----

    /**
     Plan, evict and wait. `plan` is what the first planning selected, `listed` and
     `answers` are what it was told, and `seg` is the trace of the whole run.
     */
    method RunDrain(w: World, dryRun: bool)
      returns (r: Outcome, ghost plan: seq<Pod>, ghost listed: seq<Pod>, ghost answers: seq<Answers>, ghost seg: Trace)
      requires w.Valid()
      modifies w, this`started, this`lastTick
      ensures w.Valid() && w.Later() && w.trace == old(w.trace) + seg
      ensures !r.NotCordoned? && RunMeans(node, opts, timeout, dryRun, r, plan, listed, answers, seg)
      ensures r.Complete? && NoUidReuse(w.history) ==> forall pod | pod in plan :: !w.state.Holds(pod)
      ensures r.Incomplete? ==> LeftInTheEnd(seg, w.history, node, r.remaining)
      ensures Unfinished(r) && r.cause.TimedOut? ==> w.now - started > timeout
    {
      hide Consistent, Disciplined, PollingShrinks, PlanningMeans, RunMeans, IsSplit, Faulty, OnlyPlans, OnlyDrains,
           EvictedThenGone, Accepted, EndsUnreadable, NoUidReuse, LeftInTheEnd;
      var planning;
      planning, listed, answers, seg := GetPodsForEviction(w);
      plan := [];
      PlanOnlyEnds(node, opts, timeout, dryRun, planning, listed, answers, seg);
      if planning.NotDeletable? {
        r := Undeletable(planning.failures);
        return;
      }
      if planning.Broken? {
        r := PlanningBroke;
        return;
      }
      plan := planning.pods;
      if dryRun {
        r := Prepared(planning.pods);
        return;
      }
      var done;
      ghost var evicting, planned := [], seg;
      done, evicting := EvictPods(w, planning.pods);
      seg := planned + evicting;
      if done == Err(ReplyError) {
        r := EvictionBroke;
        RunEnds(node, opts, timeout, r, planning, listed, answers,
                Split(planning, planned, evicting, Broken, [], [], []));
        assert planned + evicting + [] == seg;
      } else if done.Err? {
        var remaining;
        ghost var listed', answers', replan;
        remaining, listed', answers', replan := GetPodsForEviction(w);
        r := Report(done.error, remaining);
        seg := planned + evicting + replan;
        RunEnds(node, opts, timeout, r, planning, listed, answers,
                Split(planning, planned, evicting, remaining, listed', answers', replan));
        if r.Incomplete? {
          ReportedPodsAreLeft(old(w.trace), seg, w.trace, w.history, node, opts, timeout, r, plan, listed, answers);
        }
      } else {
        r := Complete;
        RunEnds(node, opts, timeout, r, planning, listed, answers,
                Split(planning, planned, evicting, Broken, [], [], []));
        assert planned + evicting + [] == seg;
        if NoUidReuse(w.history) {
          NoPlannedPodLeft(old(w.trace), seg, w.trace, w.history, node, opts, timeout, plan, listed, answers);
        }
      }
    }
  }

  /** The drain evicted, but did not complete. */
  predicate Unfinished(r: Outcome) {
    r.Incomplete? || r.IncompleteUndeletable? || r.IncompletePlanningBroke?
  }

  /** What a run of a drain means, by the calls it made. */
  ghost predicate RunMeans(node: string, opts: Options, timeout: real, dryRun: bool, r: Outcome,
                           plan: seq<Pod>, listed: seq<Pod>, answers: seq<Answers>, trace: Trace)
  {
    // Evictions follow the plan, and there are few calls.
    && Disciplined(trace, plan, timeout)
    && Accepted(trace) <= Refs(plan)
    // No eviction without a successful planning, or on a dry run.
    && (dryRun || r.Undeletable? || r.PlanningBroke? ==> NoEviction(trace))
    && (dryRun ==> r.Prepared? || r.Undeletable? || r.PlanningBroke?)
    && !r.NotCordoned?
    // The errors that are neither refusals nor a timeout come from a call that failed.
    && (r.PlanningBroke? ==> Faulty(trace) || (ListedFirst(trace, node, listed) && !Examinable(listed)))
    && (r.EvictionBroke? ==> EndsUnreadable(trace))
    && (!r.PlanningBroke? ==>
          && |listed| == |answers|
          && ListedFirst(trace, node, listed)
          && (forall i | 0 <= i < |listed| :: AnsweredIn(trace, listed[i], answers[i]))
          && (r.Undeletable? <==> !Plannable(opts, listed, answers))
          && (r.Undeletable? ==> r.failures == GroupAll(Refusals(opts, listed, answers)))
          && (!r.Undeletable? ==> plan == Selected(opts, listed, answers)))
    && (r.Prepared? ==> dryRun && r.pods == plan)
    // The error of a drain that does not complete reports a second planning, made at the end.
    && (Unfinished(r) ==> exists split: Split :: IsSplit(node, opts, r, plan, listed, answers, trace, split))
    // A drain that completes evicted every planned pod and saw it go.
    && (r.Complete? ==> Accepted(trace) == Refs(plan) && forall pod | pod in plan :: EvictedThenGone(trace, pod))
  }

  /** How a drain that did not complete reports what a second planning finds. */
  function Report(cause: Failure, remaining: Planning): Outcome {
    match remaining
    case Planned(pods, _) => Incomplete(cause, pods)
    case NotDeletable(failures) => IncompleteUndeletable(cause, failures)
    case Broken => IncompletePlanningBroke(cause)
  }

  // The run of a drain that did not complete: a planning, evictions and polling, and another planning.
  datatype Split = Split(
    planning: Planning, planned: Trace, evicting: Trace,
    remaining: Planning, listed: seq<Pod>, answers: seq<Answers>, replan: Trace)

  /**
   The calls of a run are those of a first planning, which gave the plan, those that
   follow from it, the last of which may have failed, and those of a second planning,
   which gave the report.
   */
  ghost predicate IsSplit(node: string, opts: Options, r: Outcome, plan: seq<Pod>, listed: seq<Pod>,
                          answers: seq<Answers>, trace: Trace, split: Split)
    requires Unfinished(r)
  {
    && trace == split.planned + split.evicting + split.replan
    && split.planning.Planned? && split.planning.pods == plan
    && PlanningMeans(node, opts, split.planning, listed, answers, split.planned)
    && OnlyDrains(split.evicting)
    && !r.cause.ReplyError? && (r.cause.CommandError? ==> Faulty(split.evicting))
    && PlanningMeans(node, opts, split.remaining, split.listed, split.answers, split.replan)
    && (r.Incomplete? <==> split.remaining.Planned?)
    && (r.Incomplete? ==> r.remaining == split.remaining.pods)
    && (r.IncompleteUndeletable? <==> split.remaining.NotDeletable?)
    && (r.IncompleteUndeletable? ==> r.failures == split.remaining.failures)
  }

  lemma PlanOnlyEnds(node: string, opts: Options, timeout: real, dryRun: bool, planning: Planning,
                     listed: seq<Pod>, answers: seq<Answers>, trace: Trace)
    requires PlanningMeans(node, opts, planning, listed, answers, trace)
    ensures planning.NotDeletable? ==>
              RunMeans(node, opts, timeout, dryRun, Undeletable(planning.failures), [], listed, answers, trace)
    ensures planning.Broken? ==> RunMeans(node, opts, timeout, dryRun, PlanningBroke, [], listed, answers, trace)
    ensures planning.Planned? && dryRun ==>
              RunMeans(node, opts, timeout, dryRun, Prepared(planning.pods), planning.pods, listed, answers, trace)
  {
    hide Disciplined, AnsweredIn, Aborted, Refused, Plannable, Selected, GroupAll, Refusals, Warnings, Examinable,
         IsSplit, Faulty, ListedFirst, EvictedThenGone;
    PlanOnly(trace, if planning.Planned? then planning.pods else [], timeout);
  }

  lemma RunEnds(node: string, opts: Options, timeout: real, r: Outcome, planning: Planning,
                listed: seq<Pod>, answers: seq<Answers>, split: Split)
    requires planning.Planned? && PlanningMeans(node, opts, planning, listed, answers, split.planned)
    requires Disciplined(split.evicting, planning.pods, timeout) && OnlyDrains(split.evicting)
    requires Accepted(split.evicting) <= Refs(planning.pods)
    requires r.Complete? || r.EvictionBroke? || Unfinished(r)
    requires Unfinished(r) ==>
               && r == Report(r.cause, split.remaining) && split.planning == planning
               && PlanningMeans(node, opts, split.remaining, split.listed, split.answers, split.replan)
               && !r.cause.ReplyError? && (r.cause.CommandError? ==> Faulty(split.evicting))
    requires !Unfinished(r) ==> split.replan == []
    requires r.EvictionBroke? ==> EndsUnreadable(split.evicting)
    requires r.Complete? ==>
               && Accepted(split.evicting) == Refs(planning.pods)
               && forall pod | pod in planning.pods :: EvictedThenGone(split.evicting, pod)
    ensures RunMeans(node, opts, timeout, false, r, planning.pods, listed, answers,
                     split.planned + split.evicting + split.replan)
  {
    hide Disciplined, EvictedThenGone, OnlyDrains, Accepted, Faulty;
    var planned, evicting, replan := split.planned, split.evicting, split.replan;
    assert OnlyPlans(replan);
    PlanAround(planned, evicting, replan, planning.pods, timeout);
    forall i | 0 <= i < |listed| ensures AnsweredIn(planned + evicting + replan, listed[i], answers[i]) {
      AnsweredStill(planned, evicting, listed[i], answers[i]);
      AnsweredStill(planned + evicting, replan, listed[i], answers[i]);
    }
    if Unfinished(r) {
      assert IsSplit(node, opts, r, planning.pods, listed, answers, planned + evicting + replan, split);
    }
  }

  /** If uids are never reused, no planned pod is left when a drain completes. */
  lemma NoPlannedPodLeft(before: Trace, trace: Trace, whole: Trace, history: seq<State>,
                         node: string, opts: Options, timeout: real,
                         plan: seq<Pod>, listed: seq<Pod>, answers: seq<Answers>)
    requires whole == before + trace && Consistent(whole, history) && history != [] && NoUidReuse(history)
    requires RunMeans(node, opts, timeout, false, Complete, plan, listed, answers, trace)
    ensures forall pod | pod in plan :: !history[|history| - 1].Holds(pod)
  {
    hide Consistent, Disciplined, AnsweredIn, Selected, Plannable, IsSplit;
    forall pod | pod in plan
      ensures !history[|history| - 1].Holds(pod)
    {
      PlanIsAllThatLeaves(opts, listed, answers, pod);
      var i, j :| 0 <= i < j < |trace| && Accepts(trace[i]) && ShowsGone(trace[j], pod);
      assert whole[|before|] == trace[0] && whole[|before| + j] == trace[j];
      SeenGoneStaysGone(whole, history, pod, |before|, |before| + j);
    }
  }

  /** The object that controls the pod, by the first of its references that says so. */
  ghost predicate Controls(key: ControllerKey, pod: Pod) {
    exists k: nat :: AsksFor(key, pod, k)
  }

  /** The object is there in every state. */
  ghost predicate Always(key: ControllerKey, history: seq<State>) {
    forall s | 0 <= s < |history| :: key in history[s].controllers
  }

  ghost predicate Never(key: ControllerKey, history: seq<State>) {
    forall s | 0 <= s < |history| :: key !in history[s].controllers
  }

  /** An answer about a pod's controller is about that object, in some state. */
  lemma AnswerIsTrue(before: Trace, trace: Trace, whole: Trace, history: seq<State>,
                     pod: Pod, answer: Answer, key: ControllerKey)
    requires whole == before + trace && Consistent(whole, history)
    requires LookedUp(trace, pod, answer) && Controls(key, pod)
    ensures Always(key, history) ==> !answer.Missing?
    ensures Never(key, history) ==> !answer.Found?
  {
    var i :| 0 <= i < |trace| && LooksUp(trace[i], pod, answer);
    var k: nat :| AsksFor(trace[i].key, pod, k);
    var k': nat :| AsksFor(key, pod, k');
    assert k == k' && trace[i].key == key;
    assert whole[|before| + i] == trace[i];
    assert Truthful(whole[|before| + i], history[whole[|before| + i].at]);
  }

  /** A pod whose controller is there all along is never the reason for refusing a drain as one without controller. */
  lemma ExistingControllerAllows(before: Trace, trace: Trace, whole: Trace, history: seq<State>,
                                 node: string, opts: Options, timeout: real, dryRun: bool, r: Outcome, plan: seq<Pod>,
                                 listed: seq<Pod>, answers: seq<Answers>, pod: Pod, key: ControllerKey)
    requires whole == before + trace && Consistent(whole, history)
    requires RunMeans(node, opts, timeout, dryRun, r, plan, listed, answers, trace) && r.Undeletable?
    requires pod in listed && Controls(key, pod) && Always(key, history)
    ensures MissingController(PodRef(namespace := pod.namespace, name := pod.name)) !in r.failures
  {
    hide Consistent, LookedUp, Controls, Always, Disciplined, OnlyPlans, Plannable, IsListing, NoEviction;
    var reason := MissingController(PodRef(namespace := pod.namespace, name := pod.name));
    FailuresAreReasons(opts, listed, answers, reason);
    if reason in r.failures {
      var i :| 0 <= i < |listed| && BlocksFor(opts, listed[i], answers[i], reason);
      assert trace[0] == whole[|before|];
      ListingAt(whole, history, |before|);
      ListedOnce(history[trace[0].at], node, listed, i, pod);
      assert AnsweredIn(trace, listed[i], answers[i]);
      assert Answered(2, trace, pod, answers[i]) && Answered(3, trace, pod, answers[i]);
      if answers[i].forReplication.Missing? && Ongoing(pod) && Owned(pod) {
        AnswerIsTrue(before, trace, whole, history, pod, answers[i].forReplication, key);
      } else {
        AnswerIsTrue(before, trace, whole, history, pod, answers[i].forDaemonSet, key);
      }
    }
  }

  lemma ListedOnce(state: State, node: string, pods: seq<Pod>, i: nat, pod: Pod)
    requires IsListing(state, node, pods) && i < |pods| && pod in pods
    requires pods[i].namespace == pod.namespace && pods[i].name == pod.name
    ensures pods[i] == pod
  {
    var j :| 0 <= j < |pods| && pods[j] == pod;
    assert RefOf(pods[i]) == RefOf(pods[j]);
  }

  /** A pod at work whose controller is not there stops a drain without `force`, before anything is evicted. */
  lemma MissingControllerBlocks(before: Trace, trace: Trace, whole: Trace, history: seq<State>,
                                node: string, opts: Options, timeout: real, dryRun: bool, r: Outcome, plan: seq<Pod>,
                                listed: seq<Pod>, answers: seq<Answers>, pod: Pod, key: ControllerKey)
    requires whole == before + trace && Consistent(whole, history)
    requires RunMeans(node, opts, timeout, dryRun, r, plan, listed, answers, trace)
    requires pod in listed && Ongoing(pod) && Controls(key, pod) && Never(key, history) && !opts.force
    ensures (r.Undeletable? || r.PlanningBroke?) && NoEviction(trace)
  {
    hide Consistent, LookedUp, Never, Disciplined, OnlyPlans, NoEviction, Refused, Aborted, IsController;
    if !r.PlanningBroke? {
      var i :| 0 <= i < |listed| && listed[i] == pod;
      var k: nat :| AsksFor(key, pod, k);
      assert Owned(pod);
      assert AnsweredIn(trace, listed[i], answers[i]);
      assert Answered(2, trace, pod, answers[i]);
      AnswerIsTrue(before, trace, whole, history, pod, answers[i].forReplication, key);
      AbortedMeans(opts, pod, answers[i]);
      RefusedMeansBlocks(opts, pod, answers[i]);
      var reason := MissingController(PodRef(pod.namespace, pod.name));
      assert answers[i].forReplication.Missing? ==> BlocksFor(opts, pod, answers[i], reason);
    }
  }

  /** Every call of the trace for an eviction, or to see what became of it, is before the `k`th. */
  ghost predicate DrainedBefore(trace: Trace, k: nat) {
    forall i | 0 <= i < |trace| && (trace[i].Evicting? || trace[i].Polling? || trace[i].Read?) :: i < k
  }

  /** The pods are those that this state runs on the node, but for static ones and those of a DaemonSet. */
  ghost predicate AreLeft(state: State, node: string, pods: seq<Pod>) {
    && (forall pod | pod in pods :: state.Holds(pod) && pod.node == node)
    && (forall ref | ref in state.pods && state.pods[ref].node == node ::
          || state.pods[ref] in pods
          || ConfigMirror in state.pods[ref].annotations || OwnedByDaemonSet(state.pods[ref]))
  }

  /** The pods are those left on the node in a state listed when all evictions and polling were over. */
  ghost predicate LeftInTheEnd(trace: Trace, history: seq<State>, node: string, pods: seq<Pod>) {
    exists k | 0 < k < |trace| ::
      && trace[k].Listed? && DrainedBefore(trace, k) && trace[k].at < |history|
      && AreLeft(history[trace[k].at], node, pods)
  }

  /** The pods that an incomplete drain reports are still there once it evicts and polls no more. */
  lemma ReportedPodsAreLeft(before: Trace, trace: Trace, whole: Trace, history: seq<State>,
                            node: string, opts: Options, timeout: real, r: Outcome,
                            plan: seq<Pod>, listed: seq<Pod>, answers: seq<Answers>)
    requires whole == before + trace && Consistent(whole, history)
    requires r.Incomplete? && RunMeans(node, opts, timeout, false, r, plan, listed, answers, trace)
    ensures LeftInTheEnd(trace, history, node, r.remaining)
  {
    hide Consistent, Disciplined, AnsweredIn, Selected, Plannable, AreLeft;
    var split: Split :| IsSplit(node, opts, r, plan, listed, answers, trace, split);
    var k := |split.planned| + |split.evicting|;
    assert trace[k] == split.replan[0] && whole[|before| + k] == trace[k];
    ListingAt(whole, history, |before| + k);
    forall i | 0 <= i < |trace| && (trace[i].Evicting? || trace[i].Polling? || trace[i].Read?) ensures i < k {
    }
    SelectedAreLeft(history[trace[k].at], node, opts, split.listed, split.answers);
  }

  lemma ListingAt(whole: Trace, history: seq<State>, k: nat)
    requires Consistent(whole, history) && k < |whole| && whole[k].Listed?
    ensures whole[k].at < |history| && IsListing(history[whole[k].at], whole[k].node, whole[k].pods)
  {
    assert Truthful(whole[k], history[whole[k].at]);
  }

  lemma SelectedAreLeft(state: State, node: string, opts: Options, pods: seq<Pod>, answers: seq<Answers>)
    requires |pods| == |answers| && Plannable(opts, pods, answers) && IsListing(state, node, pods)
    ensures AreLeft(state, node, Selected(opts, pods, answers))
  {
    hide Selected, Plannable;
    var left := Selected(opts, pods, answers);
    forall pod | pod in left ensures state.Holds(pod) && pod.node == node {
      PlanIsAllThatLeaves(opts, pods, answers, pod);
    }
    forall ref | ref in state.pods && state.pods[ref].node == node
      ensures || state.pods[ref] in left
              || ConfigMirror in state.pods[ref].annotations || OwnedByDaemonSet(state.pods[ref])
    {
      PlanIsAllThatLeaves(opts, pods, answers, state.pods[ref]);
    }
  }

  /** Cordon the node, then drain it. */
  method NodeDrain(w: World, node: string, opts: Options, timeout: real, dryRun: bool)
    returns (r: Outcome, ghost plan: seq<Pod>, ghost listed: seq<Pod>, ghost answers: seq<Answers>, ghost seg: Trace)
    requires w.Valid()
    modifies w
    ensures w.Valid() && w.Later() && w.trace == old(w.trace) + seg
    ensures |seg| > 0 && (r.NotCordoned? <==> !seg[0].Cordoned?)
    ensures r.NotCordoned? ==> |seg| == 1 && NoEviction(seg)
    ensures !r.NotCordoned? ==>
              RunMeans(node, opts, if timeout == 0.0 then DEFAULT_TIMEOUT else timeout, dryRun,
                       r, plan, listed, answers, seg[1..])
    ensures r.Complete? && NoUidReuse(w.history) ==> forall pod | pod in plan :: !w.state.Holds(pod)
  {
    hide Consistent, RunMeans, NoUidReuse;
    plan, listed, answers := [], [], [];
    var drainer := new Drainer(node, opts, timeout);
    var ok;
    ghost var e;
    ok, e := w.Cordon();
    seg := [e];
    if !ok {
      r := NotCordoned;
      return;
    }
    ghost var run;
    r, plan, listed, answers, run := drainer.RunDrain(w, dryRun);
    seg := [e] + run;
    assert seg[1..] == run;
  }

  // The remarks made about the pods examined so far.
  datatype Tally = Tally(refusals: seq<Remark>, remarks: seq<Remark>)

  /** `failures`, `warnings` and `isDeletable` account for these verdicts on a pod, and for the tally before it. */
  ghost predicate Tallied(tally: Tally, verdicts: seq<Verdict>, name: string,
                          failures: Groups, warnings: Groups, isDeletable: bool)
  {
    var refusals := tally.refusals + RefusalsIn(verdicts, name);
    && failures == GroupAll(refusals)
    && (refusals == [] ==>
          && warnings == GroupAll(tally.remarks + WarningsIn(verdicts, name))
          && (isDeletable <==> forall i | 0 <= i < |verdicts| :: verdicts[i].Allow? && verdicts[i].deletable))
  }

  lemma LookedUpMore(seg: Trace, more: Trace, pod: Pod, answer: Answer)
    requires LookedUp(seg, pod, answer) || LookedUp(more, pod, answer)
    ensures LookedUp(seg + more, pod, answer)
  {
    hide LooksUp;
    if LookedUp(seg, pod, answer) {
      var i :| 0 <= i < |seg| && LooksUp(seg[i], pod, answer);
      assert (seg + more)[i] == seg[i];
    } else {
      var i :| 0 <= i < |more| && LooksUp(more[i], pod, answer);
      assert (seg + more)[|seg| + i] == more[i];
    }
  }

  lemma AnsweredMore(rank: nat, seg: Trace, more: Trace, pod: Pod, known: Answers, answers: Answers)
    requires forall i | 0 <= i < rank :: Answered(i, seg, pod, known)
    requires rank < FILTERS && Answered(rank, more, pod, answers)
    requires rank != 2 ==> answers.forReplication == known.forReplication
    ensures forall i | 0 <= i <= rank :: Answered(i, seg + more, pod, answers)
  {
    if rank >= 2 && Ongoing(pod) && Owned(pod) {
      assert rank == 3 ==> Answered(2, seg, pod, known);
      LookedUpMore(seg, more, pod, answers.forReplication);
    }
    if rank == 3 && OwnedByDaemonSet(pod) {
      LookedUpMore(seg, more, pod, answers.forDaemonSet);
    }
  }

  lemma AnsweredStill(seg: Trace, more: Trace, pod: Pod, answers: Answers)
    requires AnsweredIn(seg, pod, answers)
    ensures AnsweredIn(seg + more, pod, answers)
  {
    assert Answered(2, seg, pod, answers) && Answered(3, seg, pod, answers);
    if Ongoing(pod) && Owned(pod) {
      LookedUpMore(seg, more, pod, answers.forReplication);
    }
    if OwnedByDaemonSet(pod) {
      LookedUpMore(seg, more, pod, answers.forDaemonSet);
    }
  }

  lemma AnsweredLater(seg: Trace, more: Trace, pod: Pod, answers: Answers)
    requires AnsweredIn(more, pod, answers)
    ensures AnsweredIn(seg + more, pod, answers)
  {
    assert Answered(2, more, pod, answers) && Answered(3, more, pod, answers);
    if Ongoing(pod) && Owned(pod) {
      LookedUpMore(seg, more, pod, answers.forReplication);
    }
    if OwnedByDaemonSet(pod) {
      LookedUpMore(seg, more, pod, answers.forDaemonSet);
    }
  }

  ghost function TallyOf(opts: Options, pods: seq<Pod>, answers: seq<Answers>): Tally
    requires |pods| == |answers|
  {
    Tally(Refusals(opts, pods, answers), Warnings(opts, pods, answers))
  }

  /** What the planning has computed once it has examined these pods. */
  ghost predicate PlannedSoFar(opts: Options, pods: seq<Pod>, answers: seq<Answers>,
                               failures: Groups, warnings: Groups, selected: seq<Pod>, trace: Trace)
  {
    && |pods| == |answers|
    && failures == GroupAll(Refusals(opts, pods, answers))
    && (Refusals(opts, pods, answers) == [] ==>
          warnings == GroupAll(Warnings(opts, pods, answers)) && selected == Selected(opts, pods, answers))
    && forall i | 0 <= i < |pods| :: !Aborted(opts, pods[i], answers[i]) && AnsweredIn(trace, pods[i], answers[i])
  }

  lemma PlanStarts(opts: Options, pods: seq<Pod>, trace: Trace)
    ensures PlannedSoFar(opts, pods[..0], [], map[], map[], [], trace)
  {
  }

  lemma TallyStarts(opts: Options, pods: seq<Pod>, answers: seq<Answers>,
                    failures: Groups, warnings: Groups, selected: seq<Pod>, trace: Trace, name: string)
    requires |pods| == |answers|
    requires PlannedSoFar(opts, pods, answers, failures, warnings, selected, trace)
    ensures Tallied(TallyOf(opts, pods, answers), [], name, failures, warnings, true)
  {
    var tally := TallyOf(opts, pods, answers);
    assert tally.refusals + [] == tally.refusals && tally.remarks + [] == tally.remarks;
  }

  lemma PlanGrows(opts: Options, pods: seq<Pod>, answers: seq<Answers>,
                  failures: Groups, warnings: Groups, selected: seq<Pod>, trace: Trace,
                  pod: Pod, given: Answers, failures': Groups, warnings': Groups, isDeletable: bool, more: Trace)
    requires |pods| == |answers|
    requires PlannedSoFar(opts, pods, answers, failures, warnings, selected, trace)
    requires !Aborted(opts, pod, given) && AnsweredIn(more, pod, given)
    requires Tallied(TallyOf(opts, pods, answers), VerdictsOf(opts, pod, given), pod.name,
                     failures', warnings', isDeletable)
    ensures PlannedSoFar(opts, pods + [pod], answers + [given], failures', warnings',
                         if isDeletable then selected + [pod] else selected, trace + more)
  {
    var all, given' := pods + [pod], answers + [given];
    assert all[..|pods|] == pods && given'[..|pods|] == answers;
    var verdicts := VerdictsOf(opts, pod, given);
    assert Deletable(opts, pod, given) <==>
           forall i | 0 <= i < |verdicts| :: verdicts[i].Allow? && verdicts[i].deletable by {
      assert forall i | 0 <= i < |verdicts| :: verdicts[i] == Filter(i, opts, pod, given);
    }
    assert Selected(opts, all, given') ==
           Selected(opts, pods, answers) + if Deletable(opts, pod, given) then [pod] else [];
    forall i | 0 <= i < |all|
      ensures !Aborted(opts, all[i], given'[i]) && AnsweredIn(trace + more, all[i], given'[i])
    {
      if i < |pods| {
        AnsweredStill(trace, more, pods[i], answers[i]);
      } else {
        AnsweredLater(trace, more, pod, given);
      }
    }
  }

  lemma PlanEnds(node: string, opts: Options, pods: seq<Pod>, answers: seq<Answers>,
                 failures: Groups, warnings: Groups, selected: seq<Pod>, trace: Trace)
    requires PlannedSoFar(opts, pods, answers, failures, warnings, selected, trace)
    requires OnlyPlans(trace) && ListedFirst(trace, node, pods)
    ensures PlanningMeans(node, opts, if failures != map[] then NotDeletable(failures) else Planned(selected, warnings),
                          pods, answers, trace)
  {
    RefusalsEmpty(opts, pods, answers);
    var refusals := Refusals(opts, pods, answers);
    if refusals != [] {
      assert refusals[|refusals| - 1].reason in GroupAll(refusals);
    }
  }

  lemma GroupOneMore(remarks: seq<Remark>, more: seq<Remark>, last: Remark)
    ensures GroupAll(remarks + (more + [last])) == Grouped(GroupAll(remarks + more), last.reason, last.name)
  {
    var all := remarks + (more + [last]);
    assert all == remarks + more + [last];
    assert all[..|all| - 1] == remarks + more;
  }

  lemma RefusalsGrow(refusals: seq<Remark>, verdicts: seq<Verdict>, v: Verdict, name: string)
    ensures if v.Refuse?
            then RefusalsIn(verdicts + [v], name) != []
                 && GroupAll(refusals + RefusalsIn(verdicts + [v], name))
                    == Grouped(GroupAll(refusals + RefusalsIn(verdicts, name)), v.reason, name)
            else RefusalsIn(verdicts + [v], name) == RefusalsIn(verdicts, name)
  {
    assert (verdicts + [v])[..|verdicts|] == verdicts;
    if v.Refuse? {
      GroupOneMore(refusals, RefusalsIn(verdicts, name), Remark(v.reason, name));
    }
  }

  lemma WarningsGrow(remarks: seq<Remark>, verdicts: seq<Verdict>, v: Verdict, name: string)
    ensures if v.Allow? && v.warning != NoMessage
            then GroupAll(remarks + WarningsIn(verdicts + [v], name))
                 == Grouped(GroupAll(remarks + WarningsIn(verdicts, name)), v.warning, name)
            else WarningsIn(verdicts + [v], name) == WarningsIn(verdicts, name)
  {
    assert (verdicts + [v])[..|verdicts|] == verdicts;
    if v.Allow? && v.warning != NoMessage {
      GroupOneMore(remarks, WarningsIn(verdicts, name), Remark(v.warning, name));
    }
  }
}
