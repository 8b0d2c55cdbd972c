/** The Kubeflow preemption task order: among the pods of one gang, which pod
    sorts first (and so is protected longest from preemption). -1 puts the left
    pod first, 1 the right one, 0 leaves them tied. */
module KubeflowTaskOrder {
  import opened Wrappers
  import opened StrConv

  const PodRoleLabelKey: string := "training.kubeflow.org/job-role"
  /** Set by Kubernetes on the pods of an indexed Job; in a TrainJob, index 0 is the coordinator. */
  const JobCompletionIndexAnnotation: string := "batch.kubernetes.io/job-completion-index"
  const MasterRoleValues: seq<string> := ["master", "launcher"]

  /** The parts of a pod the order reads. A nil Go map reads as an empty one. */
  datatype Pod = Pod(labels: map<string, string>, annotations: map<string, string>)

  predicate HasRoleLabel(p: Pod) {
    PodRoleLabelKey in p.labels
  }

  /** The pod carries the role label with a value in the master set (exact match). */
  predicate IsMasterRole(p: Pod) {
    HasRoleLabel(p) && p.labels[PodRoleLabelKey] in MasterRoleValues
  }

  /** `getJobCompletionIndex`: the parsed completion-index annotation, or -1 when
      the annotation is missing or does not parse. It never fails. */
  function GetJobCompletionIndex(p: Pod): (index: int)
    ensures JobCompletionIndexAnnotation !in p.annotations ==> index == -1
    ensures index != -1 ==>
      JobCompletionIndexAnnotation in p.annotations && Atoi(p.annotations[JobCompletionIndexAnnotation]) == Some(index)
    ensures JobCompletionIndexAnnotation in p.annotations && Atoi(p.annotations[JobCompletionIndexAnnotation]).Some? ==>
      index == Atoi(p.annotations[JobCompletionIndexAnnotation]).value
  {
    if JobCompletionIndexAnnotation !in p.annotations then -1
    else
      match Atoi(p.annotations[JobCompletionIndexAnnotation])
      case None => -1
      case Some(index) => index
  }

  /** `TaskOrderFn`: role first, then (only when neither pod has a role label)
      completion index 0 first, else a tie. */
  function TaskOrderFn(l: Pod, r: Pod): (c: int)
    ensures -1 <= c <= 1
  {
    var lMaster := IsMasterRole(l);
    var rMaster := IsMasterRole(r);
    if lMaster && !rMaster then -1
    else if !lMaster && rMaster then 1
    else if HasRoleLabel(l) || HasRoleLabel(r) then 0
    else
      var lIndex := GetJobCompletionIndex(l);
      var rIndex := GetJobCompletionIndex(r);
      if lIndex >= 0 || rIndex >= 0 then
        var lCoordinator := lIndex == 0;
        var rCoordinator := rIndex == 0;
        if lCoordinator && !rCoordinator then -1
        else if !lCoordinator && rCoordinator then 1
        else 0
      else 0
  }

  /** The left pod sorts strictly first. */
  predicate Before(l: Pod, r: Pod) {
    TaskOrderFn(l, r) == -1
  }

  // ---------------------------------------------------------------------------
  // The order as a chain of independent rules, each decisive or inconclusive.

  datatype Verdict = Decided(order: int) | Inconclusive

  /** Role rule: a master pod beats a non-master pod; when the master status is
      equal but some role label exists, the pods are tied. */
  function RoleRule(l: Pod, r: Pod): Verdict {
    if IsMasterRole(l) != IsMasterRole(r) then Decided(if IsMasterRole(l) then -1 else 1)
    else if HasRoleLabel(l) || HasRoleLabel(r) then Decided(0)
    else Inconclusive
  }

  /** Coordinator rule: the pod at completion index 0 beats one that is not. */
  function CoordinatorRule(l: Pod, r: Pod): Verdict {
    var lCoordinator := GetJobCompletionIndex(l) == 0;
    var rCoordinator := GetJobCompletionIndex(r) == 0;
    if lCoordinator != rCoordinator then Decided(if lCoordinator then -1 else 1)
    else Inconclusive
  }

  /** The first decisive verdict, or a tie when none decides. */
  function FirstDecisive(verdicts: seq<Verdict>): int
    decreases |verdicts|
  {
    if verdicts == [] then 0
    else if verdicts[0].Decided? then verdicts[0].order
    else FirstDecisive(verdicts[1..])
  }

  /** The comparator is the role rule followed by the coordinator rule; in
      particular its `lIndex >= 0 || rIndex >= 0` guard never changes the outcome. */
  lemma TaskOrderIsRuleChain(l: Pod, r: Pod)
    ensures TaskOrderFn(l, r) == FirstDecisive([RoleRule(l, r), CoordinatorRule(l, r)])
  {
    var chain := [RoleRule(l, r), CoordinatorRule(l, r)];
    assert chain[1..] == [CoordinatorRule(l, r)];
    assert chain[1..][1..] == [];
    if RoleRule(l, r).Inconclusive? {
      assert FirstDecisive(chain) == FirstDecisive([CoordinatorRule(l, r)]);
      if CoordinatorRule(l, r).Inconclusive? {
        assert FirstDecisive([CoordinatorRule(l, r)]) == FirstDecisive([]);
      }
    }
  }

  // ---------------------------------------------------------------------------
  // Properties of the order.

  /** Swapping the arguments negates the result; a pod ties with itself. */
  lemma TaskOrderAntisymmetric(l: Pod, r: Pod)
    ensures TaskOrderFn(l, r) == -TaskOrderFn(r, l)
    ensures TaskOrderFn(l, l) == 0
  {
  }

  /** A master or launcher pod sorts before a pod without such a role, in either argument order. */
  lemma MasterBeforeNonMaster(l: Pod, r: Pod)
    requires IsMasterRole(l) && !IsMasterRole(r)
    ensures TaskOrderFn(l, r) == -1 && TaskOrderFn(r, l) == 1
  {
  }

  /** With equal master status, any role label on either pod ties them,
      whatever their completion indices. */
  lemma RoleLabelTiesRegardlessOfIndex(l: Pod, r: Pod)
    requires IsMasterRole(l) == IsMasterRole(r)
    requires HasRoleLabel(l) || HasRoleLabel(r)
    ensures TaskOrderFn(l, r) == 0
  {
  }

  /** Without role labels, the order is decided by "completion index is 0" alone. */
  lemma CoordinatorOrder(l: Pod, r: Pod)
    requires !HasRoleLabel(l) && !HasRoleLabel(r)
    ensures TaskOrderFn(l, r) == -1 <==> GetJobCompletionIndex(l) == 0 && GetJobCompletionIndex(r) != 0
    ensures TaskOrderFn(l, r) == 1 <==> GetJobCompletionIndex(l) != 0 && GetJobCompletionIndex(r) == 0
    ensures TaskOrderFn(l, r) == 0 <==> (GetJobCompletionIndex(l) == 0) == (GetJobCompletionIndex(r) == 0)
  {
  }

  /** "Before" in full: a master pod before a non-master one, or, with no role
      labels at all, the coordinator before a non-coordinator. */
  lemma BeforeCharacterization(l: Pod, r: Pod)
    ensures Before(l, r) <==>
      || (IsMasterRole(l) && !IsMasterRole(r))
      || (!HasRoleLabel(l) && !HasRoleLabel(r) && GetJobCompletionIndex(l) == 0 && GetJobCompletionIndex(r) != 0)
  {
  }

  /** "Before" is a strict partial order: irreflexive, asymmetric and transitive. */
  lemma BeforeIsStrictPartialOrder()
    ensures forall p :: !Before(p, p)
    ensures forall a, b :: Before(a, b) ==> !Before(b, a)
    ensures forall a, b, c :: Before(a, b) && Before(b, c) ==> Before(a, c)
  {
  }

  // ---------------------------------------------------------------------------
  // Concrete pods.

  function RolePod(role: string, index: string): Pod {
    Pod(map[PodRoleLabelKey := role], map[JobCompletionIndexAnnotation := index])
  }

  function IndexPod(index: string): Pod {
    Pod(map[], map[JobCompletionIndexAnnotation := index])
  }

  /** Role precedence dominates the index: a master at index 5 sorts before an
      unlabelled coordinator at index 0. */
  lemma RoleDominatesIndex()
    ensures TaskOrderFn(RolePod("master", "5"), IndexPod("0")) == -1
    ensures TaskOrderFn(IndexPod("0"), RolePod("launcher", "5")) == 1
  {
  }

  /** Unlabelled pods: index "0" sorts before "3"; pods with neither label nor
      annotation tie; a missing or unparsable index is not the coordinator. */
  lemma CoordinatorExamples()
    ensures TaskOrderFn(IndexPod("0"), IndexPod("3")) == -1
    ensures TaskOrderFn(Pod(map[], map[]), Pod(map["app" := "x"], map["note" := "y"])) == 0
    ensures TaskOrderFn(IndexPod("abc"), IndexPod("0")) == 1
    ensures GetJobCompletionIndex(IndexPod("abc")) == -1
    ensures GetJobCompletionIndex(IndexPod("")) == -1
  {
  }

  /** The tie relation is not transitive, so the order is not a strict weak
      order: a "worker" pod ties with both unlabelled pods, which are ordered. */
  lemma TieIsNotTransitive()
    ensures TaskOrderFn(RolePod("worker", "1"), IndexPod("0")) == 0
    ensures TaskOrderFn(RolePod("worker", "1"), IndexPod("3")) == 0
    ensures TaskOrderFn(IndexPod("0"), IndexPod("3")) == -1
  {
  }
}
