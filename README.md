# KAI Scheduler: Kubeflow gang size and preemption order, in Dafny

This project models two decision routines of the KAI scheduler's Kubeflow integration and proves properties about them.

- **TrainJob MinAvailable** (`trainjob-grouper.go`). The pod grouper for a Kubeflow TrainJob reads the JobSet that has the TrainJob's name. It sums `replicas × template.spec.parallelism` over `spec.replicatedJobs`, counting each absent field as 1, and accumulates the sum in an int32. It overwrites the default grouper's `MinAvailable` only when that total is positive. Any malformed entry makes the whole computation fail. A missing list is an error, never 0.
- **Preemption task order** (`kubeflow.go`). This is a three-way comparator over two pods. A pod whose `training.kubeflow.org/job-role` label is `master` or `launcher` sorts first. When neither pod has that label, the pod whose `batch.kubernetes.io/job-completion-index` annotation parses to 0 sorts first. Otherwise the pods tie.

Files:
- `wrappers.dfy` (`Wrappers`): `Option` and `Result`.
- `ints.dfy` (`Ints`): Go's `int32`/`int64` and the truncating conversions, written out modulo 2^32 and 2^64.
- `unstructured.dfy` (`Unstructured`): a JSON-like `Value` (object, array, int64, null, anything else). It also models the found, not-found and type-error outcomes of `NestedSlice` and `NestedInt64`.
- `trainjob_grouper.dfy` (`TrainJobGrouper`): the JobSet decoding and its exact-sum specification (`DecodeAll`, `TotalPods`, `MinAvailableSpec`). It also holds the loop method `CalculateMinAvailableFromJobSet`, which is proved equal to that specification truncated to int32, and the in-place override `GetPodGroupMetadata` on a `PodGroupMetadata` object.
- `strconv.dfy` (`StrConv`): `strconv.Atoi` on a 64-bit platform, and `Itoa`; Atoi reads back every int64 that Itoa writes (the converse fails: `"007"` and `"7"` parse alike).
- `kubeflow.dfy` (`KubeflowTaskOrder`): `TaskOrderFn`, `getJobCompletionIndex`, the three constants and the order's properties.

The int32 arithmetic is modelled exactly as written. Each `replicas * parallelism` is an int64 product, which wraps modulo 2^64. `int32(...)` then keeps its low 32 bits, and `+=` wraps the accumulator. The method's result is proved equal to the exact total truncated once to int32, so it is the exact total whenever that total fits. `ExampleTotalWrapsToZero` shows an overflowing case: 65536 × 65536 pods truncate to 0, so the baseline is kept.

Two points about the comparator as written:
- **Role rule.** Once master status ties, the code returns 0 as soon as either pod carries the role label (`kubeflow.go:59-61`); the index is consulted only when neither pod has the label, not when both carry non-master roles.
- **Ordering.** Read as a strict weak order, the comparator fails: because of the role rule above, ties are not transitive (`TieIsNotTransitive`). What holds is that "before" is a strict partial order (`BeforeIsStrictPartialOrder`).

## Model

| member | source | states |
|---|---|---|
| `Ints.ToInt32` | pkg/podgrouper/podgrouper/plugins/kubeflow/trainjob/trainjob-grouper.go:107 | `int32(x)` is the int32 that agrees with x modulo 2^32, and equals x when x fits |
| `Ints.ToInt32OfToInt64` | pkg/podgrouper/podgrouper/plugins/kubeflow/trainjob/trainjob-grouper.go:107 | truncating the int64 (wrapped) product to int32 is the same as truncating the exact product |
| `Ints.ToInt32Add` | pkg/podgrouper/podgrouper/plugins/kubeflow/trainjob/trainjob-grouper.go:107 | an int32 accumulator that wraps on each addition ends at the exact sum truncated once |
| `Unstructured.NestedSlice` | pkg/podgrouper/podgrouper/plugins/kubeflow/trainjob/trainjob-grouper.go:76-82 | the list is found exactly when the path leads to an array; not found exactly when a key is missing or an intermediate is null; otherwise an error |
| `Unstructured.NestedInt64` | pkg/podgrouper/podgrouper/plugins/kubeflow/trainjob/trainjob-grouper.go:91-105 | the integer is present exactly when the path leads to an int64; absent exactly when the path is not found; any other value (null included) is a type error |
| `TrainJobGrouper.DecodeReplicatedJob` | pkg/podgrouper/podgrouper/plugins/kubeflow/trainjob/trainjob-grouper.go:86-105 | a non-object entry fails with its index; a mistyped `replicas` fails with its index; otherwise a mistyped `parallelism` fails with its index; an object whose two fields are each an integer or absent decodes successfully; on success each of replicas and parallelism is the field's value when present and 1 when absent; every error names this entry's index |
| `TrainJobGrouper.MinAvailableSpec` | pkg/podgrouper/podgrouper/plugins/kubeflow/trainjob/trainjob-grouper.go:76-110 | an absent `spec.replicatedJobs` is an error (never 0); a mistyped one is a lookup error; an empty list gives 0 |
| `TrainJobGrouper.DecodeAllSucceedsIff` | pkg/podgrouper/podgrouper/plugins/kubeflow/trainjob/trainjob-grouper.go:84-108 | decoding the list succeeds if and only if every entry decodes, and then yields each entry's replicas and parallelism in order |
| `TrainJobGrouper.DecodeAllFailsAtFirstBadEntry` | pkg/podgrouper/podgrouper/plugins/kubeflow/trainjob/trainjob-grouper.go:85-102 | a failed decoding carries the error of the first entry that does not decode, and every earlier entry decodes |
| `TrainJobGrouper.DecodeAllFailurePersists` | pkg/podgrouper/podgrouper/plugins/kubeflow/trainjob/trainjob-grouper.go:85-102 | once a prefix fails, the whole list fails with the same error: no partial sum survives |
| `TrainJobGrouper.TotalPodsAppend` | pkg/podgrouper/podgrouper/plugins/kubeflow/trainjob/trainjob-grouper.go:84-108 | the exact total of a concatenation of entries is the sum of the two totals |
| `TrainJobGrouper.AccumulateTruncated` | pkg/podgrouper/podgrouper/plugins/kubeflow/trainjob/trainjob-grouper.go:107 | `totalPods += int32(replicas * parallelism)` keeps the accumulator equal to the exact running total truncated to int32 |
| `TrainJobGrouper.AccumulateEntry` | pkg/podgrouper/podgrouper/plugins/kubeflow/trainjob/trainjob-grouper.go:107 | one loop step: the wrapped update of the accumulator equals the exact total of the decoded prefix extended by the entry, truncated to int32 |
| `TrainJobGrouper.DecodeEntry` | pkg/podgrouper/podgrouper/plugins/kubeflow/trainjob/trainjob-grouper.go:91-105 | an entry `{replicas: r, template: {spec: {parallelism: p}}}` built by `Entry(r, Some(p))` decodes to `(r, p)`, and `{replicas: r}` built by `Entry(r, None)` decodes to `(r, 1)` |
| `TrainJobGrouper.JobSetWithTotal` | pkg/podgrouper/podgrouper/plugins/kubeflow/trainjob/trainjob-grouper.go:76-110 | the document `{spec: {replicatedJobs: list}}` built by `JobSetWith`, when its list decodes, gives the exact total of the decoded entries |
| `TrainJobGrouper.CalculateMinAvailableFromJobSet` | pkg/podgrouper/podgrouper/plugins/kubeflow/trainjob/trainjob-grouper.go:60-111 | a fetch failure is an error; otherwise the method fails exactly when the specification fails, with the same error, and on success returns the exact sum of replicas × parallelism truncated to int32 |
| `TrainJobGrouper.GetPodGroupMetadata` | pkg/podgrouper/podgrouper/plugins/kubeflow/trainjob/trainjob-grouper.go:40-58 | the default grouper's error is returned unchanged; a JobSet error gives an error and no metadata; otherwise the same metadata object comes back with MinAvailable overwritten exactly when the total is positive; on any error MinAvailable is untouched; MinAvailable is never lowered to a non-positive value that was not already there; the other fields are unchanged |
| `TrainJobGrouper.ExampleSevenPods` | pkg/podgrouper/podgrouper/plugins/kubeflow/trainjob/trainjob-grouper.go:84-110 | entries `{replicas: 2, parallelism: 3}` and `{replicas: 1}` give 7 |
| `TrainJobGrouper.ExampleTotalWrapsToZero` | pkg/podgrouper/podgrouper/plugins/kubeflow/trainjob/trainjob-grouper.go:107 | one entry of 65536 × 65536 has an exact total of 2^32, which truncates to int32 0, so the baseline is kept |
| `StrConv.Atoi` | pkg/scheduler/plugins/kubeflow/kubeflow.go:92-95 | a parse yields a 64-bit value; the empty string and strings that do not start with a sign or a digit do not parse |
| `StrConv.AtoiItoa` | pkg/scheduler/plugins/kubeflow/kubeflow.go:92-95 | every int64 written in canonical decimal parses back to itself |
| `KubeflowTaskOrder.GetJobCompletionIndex` | pkg/scheduler/plugins/kubeflow/kubeflow.go:82-98 | a missing annotation gives -1; any result other than -1 is the annotation's parsed value; a parsable annotation gives its value |
| `KubeflowTaskOrder.TaskOrderFn` | pkg/scheduler/plugins/kubeflow/kubeflow.go:42-80 | the result is always -1, 0 or 1: the comparator never fails |
| `KubeflowTaskOrder.TaskOrderIsRuleChain` | pkg/scheduler/plugins/kubeflow/kubeflow.go:49-79 | the comparator equals the role rule followed by the coordinator rule, the first decisive one winning; the guard that one index is non-negative never changes the outcome |
| `KubeflowTaskOrder.TaskOrderAntisymmetric` | pkg/scheduler/plugins/kubeflow/kubeflow.go:42-80 | swapping the pods negates the result; a pod ties with itself |
| `KubeflowTaskOrder.MasterBeforeNonMaster` | pkg/scheduler/plugins/kubeflow/kubeflow.go:49-56 | a master or launcher pod is -1 against a pod without such a role, and the swapped call is 1 |
| `KubeflowTaskOrder.RoleLabelTiesRegardlessOfIndex` | pkg/scheduler/plugins/kubeflow/kubeflow.go:59-61 | with equal master status, a role label on either pod gives 0 whatever the indices |
| `KubeflowTaskOrder.CoordinatorOrder` | pkg/scheduler/plugins/kubeflow/kubeflow.go:63-79 | without role labels: -1 iff left is index 0 and right is not, 1 iff the reverse, 0 iff both or neither are index 0 |
| `KubeflowTaskOrder.BeforeCharacterization` | pkg/scheduler/plugins/kubeflow/kubeflow.go:49-79 | "before" holds iff the left pod is master and the right is not, or neither has a role label and only the left is at index 0 |
| `KubeflowTaskOrder.BeforeIsStrictPartialOrder` | pkg/scheduler/plugins/kubeflow/kubeflow.go:49-79 | "before" is irreflexive, asymmetric and transitive |
| `KubeflowTaskOrder.RoleDominatesIndex` | pkg/scheduler/plugins/kubeflow/kubeflow.go:52-77 | a master pod at index 5 sorts before an unlabelled pod at index 0, and a launcher does too in the swapped call |
| `KubeflowTaskOrder.CoordinatorExamples` | pkg/scheduler/plugins/kubeflow/kubeflow.go:63-98 | index "0" before "3"; pods with no label and no annotation tie; an unparsable or empty index reads as -1 and loses to index 0 |
| `KubeflowTaskOrder.TieIsNotTransitive` | pkg/scheduler/plugins/kubeflow/kubeflow.go:59-79 | a "worker" pod ties with an unlabelled pod at index 0 and with one at index 3, while those two are ordered, so ties are not transitive |

## Left out

- The JobSet fetch (`client.Get`, trainjob-grouper.go:61-74) is network I/O. Its outcome, the document or an error, is a parameter of `CalculateMinAvailableFromJobSet` and `GetPodGroupMetadata`.
- `DefaultGrouper.GetPodGroupMetadata` (trainjob-grouper.go:43) is an external collaborator. Its result, a metadata object or an error, is a parameter.
- The metadata's other fields are represented by four opaque fields (name, namespace, queue, priority class). The real record has more, and none of them is read or written here.
- The internals of `unstructured.NestedSlice`, `NestedInt64` and `strconv.Atoi` are library code. The model keeps only their outcomes. The lookups follow apimachinery's behaviour: a null intermediate value is "not found", a non-object intermediate value is an error, and a final value of the wrong type is an error. `Atoi` accepts an optional sign and one or more decimal digits within Go's 64-bit `int`.
- Floating-point, string and boolean JSON values are not told apart (`Value.Other`). The code treats them all as "wrong type".
- Error message text is left out. Errors carry only their kind and the offending entry's index.
- A nil Go map is modelled as an empty map. Both give "key missing" on lookup, so a nil `Annotations` map is covered by the missing-key case.
- The `interface{}` to `*PodInfo` casts (kubeflow.go:43-44) are runtime assertions. The model takes typed pods.
- Plugin wiring is left out: `New`, `Name`, `OnSessionOpen`, `OnSessionClose`, `NewTrainJobGrouper`, the grouper's `Name`, and the RBAC markers.
- The annotation-readback variant of the MinAvailable computation is not part of this model. Its source file is not among the files modelled.
