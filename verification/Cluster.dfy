/**
 The Kubernetes cluster and the clock, as a drain sees them.

 Other actors may change the cluster, and time may pass, before every call.
 `history` lists every state the cluster went through and `trace` every call
 that was made to it; each event is stamped with the index in `history` of the
 state that answered it.
 */
module Cluster {
  import opened Results

  datatype Kind = DaemonSet | OtherKind(kind: string)

  datatype OwnerRef = OwnerRef(kind: Kind, name: string, apiVersion: string, controller: bool)

  datatype Phase = Pending | Running | Succeeded | FailedPhase | Unknown

  // `ConfigMirror` is the key that marks static pods, "kubernetes.io/config.mirror".
  datatype Annotation = ConfigMirror | OtherAnnotation(key: string)

  // `annotations` holds the annotation keys; `volumes` says, volume by volume,
  // whether it is an `emptyDir`, and is absent when the specification lists none.
  datatype Pod = Pod(
    namespace: string, name: string, uid: string, node: string, phase: Phase,
    annotations: set<Annotation>, volumes: Option<seq<bool>>, owners: seq<OwnerRef>)

  datatype PodRef = PodRef(namespace: string, name: string)

  datatype ControllerKey = ControllerKey(namespace: string, kind: Kind, name: string, apiVersion: string)

  datatype State = State(pods: map<PodRef, Pod>, controllers: set<ControllerKey>) {
    predicate WellFormed() {
      forall ref | ref in pods :: RefOf(pods[ref]) == ref
    }

    function UidOf(ref: PodRef): Option<string> {
      if ref in pods then Some(pods[ref].uid) else None
    }

    /** This very pod, by its uid, is in its place. */
    predicate Holds(pod: Pod) {
      var ref := PodRef(namespace := pod.namespace, name := pod.name);
      ref in pods && pods[ref].uid == pod.uid
    }
  }

  datatype Answer = Found | Missing | Failed

  // `Unreadable` asks to try again later, as `TooManyRequests` does, but without a message that can be read.
  datatype Reply = Created | NotFound | TooManyRequests | Unreadable | Rejected

  datatype Event =
    | Cordoned(at: nat)
    | Listed(node: string, pods: seq<Pod>, at: nat)
    | Queried(key: ControllerKey, answer: Answer, at: nat)
    | Evicting(ref: PodRef, reply: Reply, at: nat)
    | Polling(pods: seq<Pod>, at: nat)
    | Read(ref: PodRef, uid: Option<string>, at: nat)
    | CallFailed(at: nat)

  function RefOf(pod: Pod): PodRef {
    PodRef(pod.namespace, pod.name)
  }

  /** `pods` is the list, in some order, of the pods that `state` runs on `node`. */
  ghost predicate IsListing(state: State, node: string, pods: seq<Pod>) {
    && (forall i | 0 <= i < |pods| :: RefOf(pods[i]) in state.pods && state.pods[RefOf(pods[i])] == pods[i]
                                      && pods[i].node == node)
    && (forall ref | ref in state.pods && state.pods[ref].node == node :: state.pods[ref] in pods)
    && (forall i, j | 0 <= i < j < |pods| :: RefOf(pods[i]) != RefOf(pods[j]))
  }

  /** `pods` lists the pods that `state` runs on `node`, but for those that are still to be listed. */
  ghost predicate IsListingBut(state: State, node: string, pods: seq<Pod>, todo: set<PodRef>) {
    && (forall ref | ref in todo :: ref in state.pods && state.pods[ref].node == node)
    && (forall i | 0 <= i < |pods| ::
          && RefOf(pods[i]) in state.pods && state.pods[RefOf(pods[i])] == pods[i]
          && pods[i].node == node && RefOf(pods[i]) !in todo)
    && (forall ref | ref in state.pods && state.pods[ref].node == node :: ref in todo || state.pods[ref] in pods)
    && (forall i, j | 0 <= i < j < |pods| :: RefOf(pods[i]) != RefOf(pods[j]))
  }

  lemma ListingStarts(state: State, node: string, todo: set<PodRef>)
    requires todo == set ref | ref in state.pods && state.pods[ref].node == node
    ensures IsListingBut(state, node, [], todo)
  {
  }

  lemma ListingGrows(state: State, node: string, pods: seq<Pod>, todo: set<PodRef>, ref: PodRef)
    requires state.WellFormed() && IsListingBut(state, node, pods, todo) && ref in todo
    ensures ref in state.pods && IsListingBut(state, node, pods + [state.pods[ref]], todo - {ref})
  {
    var more := pods + [state.pods[ref]];
    forall other | other in state.pods && state.pods[other].node == node
      ensures other in todo - {ref} || state.pods[other] in more
    {
      assert other == ref ==> more[|pods|] == state.pods[other];
    }
  }

  lemma ListingEnds(state: State, node: string, pods: seq<Pod>)
    requires IsListingBut(state, node, pods, {})
    ensures IsListing(state, node, pods)
  {
  }

  /** What the state that answered an event says about that event. */
  ghost predicate Truthful(e: Event, state: State) {
    match e
    case Listed(node, pods, _) => IsListing(state, node, pods)
    case Queried(key, answer, _) => answer.Failed? || (answer.Found? <==> key in state.controllers)
    case Read(ref, uid, _) => (uid.Some? <==> ref in state.pods) && (uid.Some? ==> uid.value == state.pods[ref].uid)
    case _ => true
  }

  /** Every event was answered truthfully by some past state, in order. */
  ghost predicate Consistent(trace: seq<Event>, history: seq<State>) {
    && (forall i {:trigger trace[i].at} | 0 <= i < |trace| ::
          trace[i].at < |history| && Truthful(trace[i], history[trace[i].at]))
    && (forall i, j {:trigger trace[i].at, trace[j].at} | 0 <= i < j < |trace| :: trace[i].at <= trace[j].at)
  }

  /** A uid that left its pod's place never comes back to it. */
  ghost predicate NoUidReuse(history: seq<State>) {
    forall i, j, k, pod: Pod | 0 <= i < j < k < |history| ::
      history[i].Holds(pod) && !history[j].Holds(pod) ==> !history[k].Holds(pod)
  }

  class World {
    var state: State
    var now: real
    ghost var history: seq<State>
    ghost var trace: seq<Event>

    ghost predicate Valid()
      reads this
    {
      && history != []
      && history[|history| - 1] == state
      && state.WellFormed()
      && Consistent(trace, history)
    }

    /** This world comes after `then`: the clock and the history only grew. */
    twostate predicate Later()
      reads this
    {
      && old(now) <= now
      && old(history) <= history
    }

    constructor (initial: State, time: real)
      requires initial.WellFormed()
      ensures Valid() && trace == [] && state == initial && now == time
    {
      state, now, history, trace := initial, time, [initial], [];
    }

    /** Anybody else may change anything, and time passes. */
    method Others()
      requires Valid()
      modifies this
      ensures Valid() && Later() && trace == old(trace)
    {
      var next: State := *;
      var elapsed: real := *;
      if next.WellFormed() {
        state := next;
        history := history + [next];
      }
      if 0.0 < elapsed {
        now := now + elapsed;
      }
    }

    method Sleep(seconds: real)
      requires Valid()
      modifies this
      ensures Valid() && Later() && trace == old(trace)
      ensures old(now) + seconds <= now
    {
      if 0.0 < seconds {
        now := now + seconds;
      }
      Others();
    }

    ghost method Note(e: Event)
      requires Valid() && e.at == |history| - 1 && Truthful(e, state)
      modifies this`trace
      ensures Valid() && trace == old(trace) + [e]
    {
      trace := trace + [e];
    }

    method Cordon() returns (ok: bool, ghost e: Event)
      requires Valid()
      modifies this
      ensures Valid() && Later() && trace == old(trace) + [e]
      ensures e.at < |history|
      ensures if ok then e.Cordoned? else e.CallFailed?
    {
      Others();
      ok := *;
      e := if ok then Cordoned(|history| - 1) else CallFailed(|history| - 1);
      Note(e);
    }

    method ListPods(node: string) returns (r: Option<seq<Pod>>, ghost e: Event)
      requires Valid()
      modifies this
      ensures Valid() && Later() && trace == old(trace) + [e]
      ensures e.at < |history|
      ensures r.Some? ==> e.Listed? && e.node == node && e.pods == r.value && IsListing(history[e.at], node, r.value)
      ensures r.None? ==> e.CallFailed?
    {
      hide Consistent, IsListingBut, IsListing;
      Others();
      var up: bool := *;
      if !up {
        r, e := None, CallFailed(|history| - 1);
        Note(e);
        return;
      }
      var todo := set ref | ref in state.pods && state.pods[ref].node == node;
      var pods: seq<Pod> := [];
      ListingStarts(state, node, todo);
      while todo != {}
        invariant Valid() && Later() && trace == old(trace)
        invariant IsListingBut(state, node, pods, todo)
        decreases |todo|
      {
        var ref :| ref in todo;
        ListingGrows(state, node, pods, todo, ref);
        todo := todo - {ref};
        pods := pods + [state.pods[ref]];
      }
      r, e := Some(pods), Listed(node, pods, |history| - 1);
      ListingEnds(state, node, pods);
      Note(e);
    }

    method QueryController(key: ControllerKey) returns (answer: Answer, ghost e: Event)
      requires Valid()
      modifies this
      ensures Valid() && Later() && trace == old(trace) + [e]
      ensures e.Queried? && e.key == key && e.answer == answer
    {
      Others();
      var up: bool := *;
      answer := if !up then Failed else if key in state.controllers then Found else Missing;
      e := Queried(key, answer, |history| - 1);
      Note(e);
    }

    method CreateEviction(ref: PodRef) returns (reply: Reply, ghost e: Event)
      requires Valid()
      modifies this
      ensures Valid() && Later() && trace == old(trace) + [e]
      ensures e.Evicting? && e.ref == ref && e.reply == reply
    {
      Others();
      reply := *;
      e := Evicting(ref, reply, |history| - 1);
      Note(e);
    }

    method ReadPod(ref: PodRef) returns (r: Result<Option<string>, ()>, ghost e: Event)
      requires Valid()
      modifies this
      ensures Valid() && Later() && trace == old(trace) + [e]
      ensures r.Ok? ==> e.Read? && e.ref == ref && e.uid == r.value
      ensures r.Err? ==> e.CallFailed?
    {
      Others();
      var up: bool := *;
      r := if up then Ok(state.UidOf(ref)) else Err(());
      e := if up then Read(ref, state.UidOf(ref), |history| - 1) else CallFailed(|history| - 1);
      Note(e);
    }
  }
}
