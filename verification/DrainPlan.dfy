/**
 Which pods of a node a drain may evict: the four filters, and the planning
 they add up to once the controllers they ask about have been looked up.
 */
module DrainPlan {
  import opened Results
  import opened Cluster

  datatype Options = Options(force: bool, ignoreDaemonset: bool, deleteLocalData: bool) {
    /** `this` turns on at least the options that `less` turns on. */
    predicate AtLeast(less: Options) {
      && (less.force ==> force)
      && (less.ignoreDaemonset ==> ignoreDaemonset)
      && (less.deleteLocalData ==> deleteLocalData)
    }
  }

  // The texts that filters raise and warn with.
  datatype Message =
    | NoMessage
    | FatalLocalStorage
    | FatalDaemonSet
    | MissingController(pod: PodRef)
    | WarningLocalStorage
    | WarningDaemonSet
    | WarningUnmanaged
    | WarningOrphan

  // What a filter does: return `(deletable, warning)`, raise a drain exception,
  // or fail in another way that nothing in the planning catches.
  datatype Verdict = Allow(deletable: bool, warning: Message) | Refuse(reason: Message) | Abort

  // The answers to the queries that the two controller filters make about a pod.
  datatype Answers = Answers(forReplication: Answer, forDaemonSet: Answer)

  // ----- Filters -----

  function MirrorFilter(pod: Pod): Verdict {
    Allow(ConfigMirror !in pod.annotations, NoMessage)
  }

  function LocalStorageFilter(opts: Options, pod: Pod): Verdict {
    if pod.volumes.None? then Abort
    else if true !in pod.volumes.value then Allow(true, NoMessage)
    else if !opts.deleteLocalData then Refuse(FatalLocalStorage)
    else Allow(true, WarningLocalStorage)
  }

  function ControllerOf(owners: seq<OwnerRef>): Option<OwnerRef> {
    if owners == [] then None
    else if owners[0].controller then Some(owners[0])
    else ControllerOf(owners[1..])
  }

  predicate Finished(pod: Pod) {
    pod.phase.Succeeded? || pod.phase.FailedPhase?
  }

  predicate AsksForReplication(pod: Pod) {
    !Finished(pod) && ControllerOf(pod.owners).Some?
  }

  function UnreplicatedFilter(opts: Options, pod: Pod, controller: Answer): Verdict {
    if Finished(pod) then Allow(true, NoMessage)
    else if ControllerOf(pod.owners).None? then Allow(true, WarningUnmanaged)
    else match controller
         case Failed => Abort
         case Found => Allow(true, NoMessage)
         case Missing => if opts.force then Allow(true, WarningUnmanaged) else Refuse(MissingController(RefOf(pod)))
  }

  predicate AsksForDaemonSet(pod: Pod) {
    ControllerOf(pod.owners).Some? && ControllerOf(pod.owners).value.kind.DaemonSet?
  }

  function DaemonSetFilter(opts: Options, pod: Pod, controller: Answer): Verdict {
    if !AsksForDaemonSet(pod) then Allow(true, NoMessage)
    else match controller
         case Failed => Abort
         case Found => if opts.ignoreDaemonset then Allow(false, WarningDaemonSet) else Refuse(FatalDaemonSet)
         case Missing => if opts.force then Allow(true, WarningOrphan) else Refuse(MissingController(RefOf(pod)))
  }

  const FILTERS := 4

  /** What the filter of the given rank says about a pod. */
  function Filter(rank: nat, opts: Options, pod: Pod, answers: Answers): Verdict
    requires rank < FILTERS
  {
    match rank
    case 0 => MirrorFilter(pod)
    case 1 => LocalStorageFilter(opts, pod)
    case 2 => UnreplicatedFilter(opts, pod, answers.forReplication)
    case _ => DaemonSetFilter(opts, pod, answers.forDaemonSet)
  }

  // ----- Meaning of a plan -----

  ghost predicate Aborted(opts: Options, pod: Pod, answers: Answers) {
    exists rank | 0 <= rank < FILTERS :: Filter(rank, opts, pod, answers).Abort?
  }

  ghost predicate Refused(opts: Options, pod: Pod, answers: Answers) {
    exists rank | 0 <= rank < FILTERS :: Filter(rank, opts, pod, answers).Refuse?
  }

  ghost predicate Deletable(opts: Options, pod: Pod, answers: Answers) {
    forall rank | 0 <= rank < FILTERS ::
      Filter(rank, opts, pod, answers).Allow? && Filter(rank, opts, pod, answers).deletable
  }

  /** The pods, in order, that all filters call deletable. */
  ghost function Selected(opts: Options, pods: seq<Pod>, answers: seq<Answers>): seq<Pod>
    requires |pods| == |answers|
  {
    if pods == [] then []
    else
      var n := |pods| - 1;
      Selected(opts, pods[..n], answers[..n])
      + if Deletable(opts, pods[n], answers[n]) then [pods[n]] else []
  }

  /** Planning these pods succeeds: no filter refuses any of them, or breaks. */
  ghost predicate Plannable(opts: Options, pods: seq<Pod>, answers: seq<Answers>)
    requires |pods| == |answers|
  {
    forall i | 0 <= i < |pods| :: !Refused(opts, pods[i], answers[i]) && !Aborted(opts, pods[i], answers[i])
  }

  /** The reference at `k` is the controller: the first that says so. */
  predicate IsController(owners: seq<OwnerRef>, k: nat) {
    k < |owners| && owners[k].controller && forall j | 0 <= j < k :: !owners[j].controller
  }

  lemma {:induction false} ControllerOfIsFirst(owners: seq<OwnerRef>)
    ensures ControllerOf(owners).None? <==> forall k | 0 <= k < |owners| :: !owners[k].controller
    ensures ControllerOf(owners).Some? ==> exists k: nat :: IsController(owners, k)
    ensures forall k: nat | IsController(owners, k) :: ControllerOf(owners) == Some(owners[k])
  {
    if owners != [] && !owners[0].controller {
      var rest := owners[1..];
      ControllerOfIsFirst(rest);
      if ControllerOf(rest).Some? {
        var k: nat :| IsController(rest, k);
        assert IsController(owners, k + 1);
      }
      forall k: nat | IsController(owners, k) ensures ControllerOf(owners) == Some(owners[k]) {
        assert IsController(rest, k - 1);
      }
    } else if owners != [] {
      assert IsController(owners, 0);
    }
  }

  ghost predicate Owned(pod: Pod) {
    exists k: nat :: IsController(pod.owners, k)
  }

  ghost predicate OwnedByDaemonSet(pod: Pod) {
    exists k: nat :: IsController(pod.owners, k) && pod.owners[k].kind.DaemonSet?
  }

  ghost predicate Ongoing(pod: Pod) {
    pod.phase != Succeeded && pod.phase != FailedPhase
  }

  /** A filter asks about the controller of a pod that has one: the last two filters, when it matters to them. */
  lemma AsksMeans(pod: Pod)
    ensures AsksForReplication(pod) <==> Ongoing(pod) && Owned(pod)
    ensures AsksForDaemonSet(pod) <==> OwnedByDaemonSet(pod)
    ensures OwnedByDaemonSet(pod) ==> Owned(pod)
  {
    ControllerOfIsFirst(pod.owners);
  }

  /** A pod is kept on the node: it is static, or run by a DaemonSet that exists. */
  ghost predicate StaysOnNode(pod: Pod, answers: Answers) {
    ConfigMirror in pod.annotations || (OwnedByDaemonSet(pod) && answers.forDaemonSet.Found?)
  }

  ghost predicate HasLocalData(pod: Pod) {
    pod.volumes.Some? && exists i | 0 <= i < |pod.volumes.value| :: pod.volumes.value[i]
  }

  /** What makes a drain with these options impossible because of this pod, by the reason that is given. */
  ghost predicate BlocksFor(opts: Options, pod: Pod, answers: Answers, reason: Message) {
    match reason
    case FatalLocalStorage => !opts.deleteLocalData && HasLocalData(pod)
    case FatalDaemonSet => !opts.ignoreDaemonset && OwnedByDaemonSet(pod) && answers.forDaemonSet.Found?
    case MissingController(ref) =>
      && ref.namespace == pod.namespace && ref.name == pod.name && !opts.force
      && ((Ongoing(pod) && Owned(pod) && answers.forReplication.Missing?)
          || (OwnedByDaemonSet(pod) && answers.forDaemonSet.Missing?))
    case _ => false
  }

  ghost predicate Blocks(opts: Options, pod: Pod, answers: Answers) {
    exists reason :: BlocksFor(opts, pod, answers, reason)
  }

  ghost predicate RefusedFor(opts: Options, pod: Pod, answers: Answers, reason: Message) {
    exists rank | 0 <= rank < FILTERS :: Filter(rank, opts, pod, answers) == Refuse(reason)
  }

  /** The filters refuse a pod for exactly the reasons there are. */
  lemma RefusedForMeans(opts: Options, pod: Pod, answers: Answers, reason: Message)
    ensures RefusedFor(opts, pod, answers, reason) <==> BlocksFor(opts, pod, answers, reason)
  {
    AsksMeans(pod);
    ControllerOfIsFirst(pod.owners);
    if BlocksFor(opts, pod, answers, reason) {
      var rank := if reason.FatalLocalStorage? then 1
                  else if reason.MissingController? && AsksForReplication(pod) && answers.forReplication.Missing? then 2
                  else 3;
      assert Filter(rank, opts, pod, answers) == Refuse(reason);
    }
  }

  lemma RefusedMeansBlocks(opts: Options, pod: Pod, answers: Answers)
    ensures Refused(opts, pod, answers) <==> Blocks(opts, pod, answers)
  {
    hide BlocksFor;
    if Refused(opts, pod, answers) {
      var rank :| 0 <= rank < FILTERS && Filter(rank, opts, pod, answers).Refuse?;
      RefusedForMeans(opts, pod, answers, Filter(rank, opts, pod, answers).reason);
    }
    if reason :| BlocksFor(opts, pod, answers, reason) {
      RefusedForMeans(opts, pod, answers, reason);
    }
  }

  /** A planning breaks on a pod that does not say what its volumes are, or when asking about its controller fails. */
  lemma AbortedMeans(opts: Options, pod: Pod, answers: Answers)
    ensures Aborted(opts, pod, answers) <==>
            || pod.volumes.None?
            || (Ongoing(pod) && Owned(pod) && answers.forReplication.Failed?)
            || (OwnedByDaemonSet(pod) && answers.forDaemonSet.Failed?)
  {
    AsksMeans(pod);
    ControllerOfIsFirst(pod.owners);
    assert Filter(1, opts, pod, answers) == LocalStorageFilter(opts, pod);
    assert Filter(2, opts, pod, answers) == UnreplicatedFilter(opts, pod, answers.forReplication);
    assert Filter(3, opts, pod, answers) == DaemonSetFilter(opts, pod, answers.forDaemonSet);
  }

  ghost predicate WarnedWith(opts: Options, pod: Pod, answers: Answers, warning: Message) {
    exists rank | 0 <= rank < FILTERS ::
      Filter(rank, opts, pod, answers).Allow? && Filter(rank, opts, pod, answers).warning == warning
  }

  /** What a drain warns about: each option that was needed, and pods without a controller. */
  lemma WarnedWithMeans(opts: Options, pod: Pod, answers: Answers, warning: Message)
    requires warning != NoMessage
    ensures WarnedWith(opts, pod, answers, warning) <==>
            match warning
            case WarningLocalStorage => opts.deleteLocalData && HasLocalData(pod)
            case WarningDaemonSet => opts.ignoreDaemonset && OwnedByDaemonSet(pod) && answers.forDaemonSet.Found?
            case WarningUnmanaged =>
              Ongoing(pod) && (!Owned(pod) || (opts.force && answers.forReplication.Missing?))
            case WarningOrphan => opts.force && OwnedByDaemonSet(pod) && answers.forDaemonSet.Missing?
            case _ => false
  {
    AsksMeans(pod);
    ControllerOfIsFirst(pod.owners);
    assert Filter(1, opts, pod, answers) == LocalStorageFilter(opts, pod);
    assert Filter(2, opts, pod, answers) == UnreplicatedFilter(opts, pod, answers.forReplication);
    assert Filter(3, opts, pod, answers) == DaemonSetFilter(opts, pod, answers.forDaemonSet);
  }

  lemma DeletableMeansLeaves(opts: Options, pod: Pod, answers: Answers)
    requires !Refused(opts, pod, answers) && !Aborted(opts, pod, answers)
    ensures Deletable(opts, pod, answers) <==> !StaysOnNode(pod, answers)
  {
    AsksMeans(pod);
    assert forall rank | 0 <= rank < FILTERS :: Filter(rank, opts, pod, answers).Allow?;
    assert Filter(0, opts, pod, answers) == MirrorFilter(pod);
    assert Filter(3, opts, pod, answers) == DaemonSetFilter(opts, pod, answers.forDaemonSet);
  }

  /**
   A successful plan holds exactly the listed pods that do not stay on the node,
   whatever the options: options only decide whether there is a plan at all.
   */
  lemma {:induction false} PlanIsAllThatLeaves(opts: Options, pods: seq<Pod>, answers: seq<Answers>, pod: Pod)
    requires |pods| == |answers| && Plannable(opts, pods, answers)
    ensures pod in Selected(opts, pods, answers) <==>
            exists i | 0 <= i < |pods| :: pods[i] == pod && !StaysOnNode(pod, answers[i])
  {
    if pods != [] {
      var n := |pods| - 1;
      PlanIsAllThatLeaves(opts, pods[..n], answers[..n], pod);
      DeletableMeansLeaves(opts, pods[n], answers[n]);
      assert forall i | 0 <= i < n :: pods[..n][i] == pods[i] && answers[..n][i] == answers[i];
    }
  }

  /** Planning fails exactly when something about some listed pod blocks the drain, or cannot be examined. */
  lemma PlanningFailsExactlyWhen(opts: Options, pods: seq<Pod>, answers: seq<Answers>)
    requires |pods| == |answers|
    ensures !Plannable(opts, pods, answers) <==>
            exists i | 0 <= i < |pods| :: Blocks(opts, pods[i], answers[i]) || Aborted(opts, pods[i], answers[i])
  {
    forall i | 0 <= i < |pods|
      ensures Refused(opts, pods[i], answers[i]) <==> Blocks(opts, pods[i], answers[i])
    {
      RefusedMeansBlocks(opts, pods[i], answers[i]);
    }
  }

  lemma OptionsOnlyAllowMore(less: Options, more: Options, pod: Pod, answers: Answers)
    requires more.AtLeast(less)
    requires !Refused(less, pod, answers) && !Aborted(less, pod, answers)
    ensures !Refused(more, pod, answers) && !Aborted(more, pod, answers)
    ensures Deletable(more, pod, answers) <==> Deletable(less, pod, answers)
  {
    RefusedMeansBlocks(less, pod, answers);
    RefusedMeansBlocks(more, pod, answers);
    assert forall reason :: BlocksFor(more, pod, answers, reason) ==> BlocksFor(less, pod, answers, reason);
    forall rank | 0 <= rank < FILTERS
      ensures !Filter(rank, more, pod, answers).Abort?
    {
      assert !Filter(rank, less, pod, answers).Abort?;
    }
    DeletableMeansLeaves(less, pod, answers);
    DeletableMeansLeaves(more, pod, answers);
  }

  /** With the same answers from the cluster, more options keep a plan a plan, and the same one. */
  lemma {:induction false} OptionMonotonicity(less: Options, more: Options, pods: seq<Pod>, answers: seq<Answers>)
    requires |pods| == |answers|
    requires more.AtLeast(less)
    requires Plannable(less, pods, answers)
    ensures Plannable(more, pods, answers)
    ensures Selected(more, pods, answers) == Selected(less, pods, answers)
  {
    forall i | 0 <= i < |pods|
      ensures !Refused(more, pods[i], answers[i]) && !Aborted(more, pods[i], answers[i])
      ensures Deletable(more, pods[i], answers[i]) <==> Deletable(less, pods[i], answers[i])
    {
      OptionsOnlyAllowMore(less, more, pods[i], answers[i]);
    }
    if pods != [] {
      var n := |pods| - 1;
      OptionMonotonicity(less, more, pods[..n], answers[..n]);
    }
  }

  // ----- Messages, grouped by reason -----

  type Groups = map<Message, seq<string>>

  function Grouped(groups: Groups, reason: Message, name: string): Groups {
    groups[reason := (if reason in groups then groups[reason] else []) + [name]]
  }

  datatype Remark = Remark(reason: Message, name: string)

  ghost function GroupAll(remarks: seq<Remark>): Groups {
    if remarks == [] then map[]
    else
      var last := remarks[|remarks| - 1];
      Grouped(GroupAll(remarks[..|remarks| - 1]), last.reason, last.name)
  }

  ghost function NamesFor(remarks: seq<Remark>, reason: Message): seq<string> {
    if remarks == [] then []
    else
      var last := remarks[|remarks| - 1];
      NamesFor(remarks[..|remarks| - 1], reason) + if last.reason == reason then [last.name] else []
  }

  /** Grouping forgets no remark, invents none and keeps their order within a reason. */
  lemma {:induction false} GroupsHoldTheRemarks(remarks: seq<Remark>, reason: Message)
    ensures reason in GroupAll(remarks) <==> exists r | r in remarks :: r.reason == reason
    ensures reason in GroupAll(remarks) ==> GroupAll(remarks)[reason] == NamesFor(remarks, reason)
    ensures reason !in GroupAll(remarks) ==> NamesFor(remarks, reason) == []
  {
    if remarks != [] {
      var n := |remarks| - 1;
      GroupsHoldTheRemarks(remarks[..n], reason);
      assert remarks == remarks[..n] + [remarks[n]];
    }
  }

  ghost function VerdictsOf(opts: Options, pod: Pod, answers: Answers): seq<Verdict> {
    [Filter(0, opts, pod, answers), Filter(1, opts, pod, answers),
     Filter(2, opts, pod, answers), Filter(3, opts, pod, answers)]
  }

  /** What filters with these verdicts hold against the named pod, filter by filter. */
  ghost function RefusalsIn(verdicts: seq<Verdict>, name: string): seq<Remark> {
    if verdicts == [] then []
    else
      var v := verdicts[|verdicts| - 1];
      RefusalsIn(verdicts[..|verdicts| - 1], name) + if v.Refuse? then [Remark(v.reason, name)] else []
  }

  ghost function WarningsIn(verdicts: seq<Verdict>, name: string): seq<Remark> {
    if verdicts == [] then []
    else
      var v := verdicts[|verdicts| - 1];
      WarningsIn(verdicts[..|verdicts| - 1], name)
      + if v.Allow? && v.warning != NoMessage then [Remark(v.warning, name)] else []
  }

  ghost function Refusals(opts: Options, pods: seq<Pod>, answers: seq<Answers>): seq<Remark>
    requires |pods| == |answers|
  {
    if pods == [] then []
    else
      var n := |pods| - 1;
      Refusals(opts, pods[..n], answers[..n]) + RefusalsIn(VerdictsOf(opts, pods[n], answers[n]), pods[n].name)
  }

  ghost function Warnings(opts: Options, pods: seq<Pod>, answers: seq<Answers>): seq<Remark>
    requires |pods| == |answers|
  {
    if pods == [] then []
    else
      var n := |pods| - 1;
      Warnings(opts, pods[..n], answers[..n]) + WarningsIn(VerdictsOf(opts, pods[n], answers[n]), pods[n].name)
  }

  lemma {:induction false} RefusalsInEmpty(verdicts: seq<Verdict>, name: string)
    ensures RefusalsIn(verdicts, name) == [] <==> forall i | 0 <= i < |verdicts| :: !verdicts[i].Refuse?
  {
    if verdicts != [] {
      var n := |verdicts| - 1;
      RefusalsInEmpty(verdicts[..n], name);
      assert forall i | 0 <= i < n :: verdicts[..n][i] == verdicts[i];
    }
  }

  lemma {:induction false} RefusalsInHold(verdicts: seq<Verdict>, name: string, reason: Message)
    ensures (exists r | r in RefusalsIn(verdicts, name) :: r.reason == reason) <==>
            exists i | 0 <= i < |verdicts| :: verdicts[i] == Refuse(reason)
  {
    if verdicts != [] {
      var n := |verdicts| - 1;
      RefusalsInHold(verdicts[..n], name, reason);
      assert forall i | 0 <= i < n :: verdicts[..n][i] == verdicts[i];
      var before := RefusalsIn(verdicts[..n], name);
      assert forall r | r in before :: r in RefusalsIn(verdicts, name);
      if verdicts[n] == Refuse(reason) {
        assert RefusalsIn(verdicts, name)[|before|] == Remark(reason, name);
      }
    }
  }

  ghost predicate Given(remarks: seq<Remark>, reason: Message) {
    exists r | r in remarks :: r.reason == reason
  }

  lemma NothingGiven(reason: Message)
    ensures !Given([], reason)
  {
  }

  lemma GivenInEither(a: seq<Remark>, b: seq<Remark>, reason: Message)
    ensures Given(a + b, reason) <==> Given(a, reason) || Given(b, reason)
  {
    assert forall r :: r in a + b <==> r in a || r in b;
  }

  lemma RefusalsOfPod(opts: Options, pod: Pod, answers: Answers, reason: Message)
    ensures Given(RefusalsIn(VerdictsOf(opts, pod, answers), pod.name), reason) <==>
            BlocksFor(opts, pod, answers, reason)
  {
    hide BlocksFor;
    var verdicts := VerdictsOf(opts, pod, answers);
    RefusalsInHold(verdicts, pod.name, reason);
    RefusedForMeans(opts, pod, answers, reason);
    assert forall rank | 0 <= rank < FILTERS :: verdicts[rank] == Filter(rank, opts, pod, answers);
  }

  lemma {:induction false} RefusalsGiven(opts: Options, pods: seq<Pod>, answers: seq<Answers>, reason: Message)
    requires |pods| == |answers|
    ensures Given(Refusals(opts, pods, answers), reason) <==>
            exists i | 0 <= i < |pods| :: BlocksFor(opts, pods[i], answers[i], reason)
  {
    hide BlocksFor, Given, RefusalsIn, VerdictsOf;
    if pods == [] {
      NothingGiven(reason);
    } else {
      var n := |pods| - 1;
      RefusalsGiven(opts, pods[..n], answers[..n], reason);
      assert forall i | 0 <= i < n :: pods[..n][i] == pods[i] && answers[..n][i] == answers[i];
      RefusalsOfPod(opts, pods[n], answers[n], reason);
      GivenInEither(Refusals(opts, pods[..n], answers[..n]),
                    RefusalsIn(VerdictsOf(opts, pods[n], answers[n]), pods[n].name), reason);
    }
  }

  /** The error of a failed plan gives exactly the reasons for which some listed pod blocks it. */
  lemma FailuresAreReasons(opts: Options, pods: seq<Pod>, answers: seq<Answers>, reason: Message)
    requires |pods| == |answers|
    ensures reason in GroupAll(Refusals(opts, pods, answers)) <==>
            exists i | 0 <= i < |pods| :: BlocksFor(opts, pods[i], answers[i], reason)
  {
    GroupsHoldTheRemarks(Refusals(opts, pods, answers), reason);
    RefusalsGiven(opts, pods, answers, reason);
  }

  /** The error of a failed plan names a pod exactly when some filter refuses some pod. */
  lemma {:induction false} RefusalsEmpty(opts: Options, pods: seq<Pod>, answers: seq<Answers>)
    requires |pods| == |answers|
    ensures Refusals(opts, pods, answers) == [] <==>
            forall i | 0 <= i < |pods| :: !Refused(opts, pods[i], answers[i])
  {
    if pods != [] {
      var n := |pods| - 1;
      RefusalsEmpty(opts, pods[..n], answers[..n]);
      var verdicts := VerdictsOf(opts, pods[n], answers[n]);
      RefusalsInEmpty(verdicts, pods[n].name);
      assert forall rank | 0 <= rank < FILTERS :: verdicts[rank] == Filter(rank, opts, pods[n], answers[n]);
      assert forall i | 0 <= i < n :: pods[..n][i] == pods[i] && answers[..n][i] == answers[i];
    }
  }
}
