/** Nodes, their annotations and the pods they host.

The annotation contract (pkg/annotations/annotations.go) is a string map in which a missing
key reads as "".  Here it is a record: "" or `NoStamp` for an absent value, `true` for the
value "true", and `Unknown` for an agent state outside the contract.
*/
module Nodes {
  import opened Order

  /** A timestamp annotation: absent, parsed, or present but not a timestamp. */
  datatype Stamp = NoStamp | At(time: int) | Garbled

  datatype AgentState = Unset | Idle | Applying | Done | Failed | Rebooting | Unknown(text: string)

  datatype Phase = Running | Succeeded | PodFailed | OtherPhase

  datatype Owner = Owner(kind: string, controller: bool)

  datatype Pod = Pod(
    name: string, namespace: string, appName: string, controlPlane: string,
    terminating: bool, phase: Phase, mirror: bool, owners: seq<Owner>)

  datatype Node = Node(
    name: string, zone: string, created: int,
    unschedulable: bool, pods: seq<Pod>,
    // written by the controller
    desired: string, pool: string, desiredSetAt: Stamp,
    cordoned: bool, drainStartedAt: Stamp, drainRetryCount: int,
    // written by the agent
    current: string, state: AgentState, rebootPending: bool,
    // written by people
    paused: bool, forceReboot: bool)

  datatype DrainConfig = DrainConfig(ignoreDS: bool, deleteOrphans: bool)

  /** The configuration every drain of a rollout uses. */
  const ROLLOUT_DRAIN := DrainConfig(true, true)

  predicate IsDaemonSetPod(pod: Pod)
  {
    exists i | 0 <= i < |pod.owners| :: pod.owners[i].kind == "DaemonSet"
  }

  predicate HasController(pod: Pod)
  {
    exists i | 0 <= i < |pod.owners| :: pod.owners[i].controller
  }

  predicate IsMCOPod(pod: Pod)
  {
    || pod.namespace == "machine-config-system"
    || (pod.appName == "machine-config" && pod.controlPlane == "controller-manager")
  }

  /** What a drain must still remove from a node. */
  predicate IsEvictable(pod: Pod, config: DrainConfig)
  {
    && !pod.terminating
    && !pod.phase.Succeeded? && !pod.phase.PodFailed?
    && !pod.mirror
    && !(config.ignoreDS && IsDaemonSetPod(pod))
    && !IsMCOPod(pod)
    && (config.deleteOrphans || HasController(pod))
  }

  function Evictable(pods: seq<Pod>): seq<Pod>
  {
    Filter(pods, pod => IsEvictable(pod, ROLLOUT_DRAIN))
  }

  predicate Drained(n: Node)
  {
    Evictable(n.pods) == []
  }

  method FilterEvictablePods(pods: seq<Pod>, config: DrainConfig) returns (result: seq<Pod>)
    ensures result == Filter(pods, pod => IsEvictable(pod, config))
    ensures forall pod :: pod in result <==>
      && pod in pods
      && !pod.terminating && !pod.phase.Succeeded? && !pod.phase.PodFailed? && !pod.mirror
      && !(config.ignoreDS && exists i | 0 <= i < |pod.owners| :: pod.owners[i].kind == "DaemonSet")
      && !(pod.namespace == "machine-config-system" || (pod.appName == "machine-config" && pod.controlPlane == "controller-manager"))
      && (config.deleteOrphans || exists i | 0 <= i < |pod.owners| :: pod.owners[i].controller)
  {
    result := [];
    for i := 0 to |pods|
      invariant result == Filter(pods[..i], pod => IsEvictable(pod, config))
    {
      var pod := pods[i];
      assert pods[..i + 1][..i] == pods[..i];
      if pod.terminating {
        continue;
      }
      if pod.phase.Succeeded? || pod.phase.PodFailed? {
        continue;
      }
      if pod.mirror {
        continue;
      }
      if config.ignoreDS && IsDaemonSetPod(pod) {
        continue;
      }
      if IsMCOPod(pod) {
        continue;
      }
      if !config.deleteOrphans && !HasController(pod) {
        continue;
      }
      result := result + [pod];
    }
    assert pods[..|pods|] == pods;
    FilterMembers(pods, pod => IsEvictable(pod, config));
  }

  /** A rollout takes a node for drained exactly when all that is left on it are pods that are going or gone, static
      ones, those of DaemonSets and the operator's own; a pod without a controller is not spared. */
  lemma DrainedMeans(n: Node)
    ensures Drained(n) <==> forall pod | pod in n.pods ::
      || pod.terminating || pod.phase.Succeeded? || pod.phase.PodFailed? || pod.mirror
      || (exists i | 0 <= i < |pod.owners| :: pod.owners[i].kind == "DaemonSet")
      || pod.namespace == "machine-config-system"
      || (pod.appName == "machine-config" && pod.controlPlane == "controller-manager")
  {
    FilterMembers(n.pods, pod => IsEvictable(pod, ROLLOUT_DRAIN));
    if !Drained(n) {
      assert Evictable(n.pods)[0] in Evictable(n.pods);
    }
  }
}
