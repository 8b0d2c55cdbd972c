/** The Kubeflow TrainJob pod grouper: the gang size (MinAvailable) of a
    TrainJob is derived from the JobSet of the same name, as the sum over
    `spec.replicatedJobs` of `replicas * template.spec.parallelism`. */
module TrainJobGrouper {
  import opened Wrappers
  import opened Ints
  import opened Unstructured

  /** Why the JobSet computation failed. Message text is not modelled; each
      per-entry error carries the position of the offending entry. */
  datatype JobSetError =
    | FetchFailed(cause: string)             // the JobSet could not be read
    | ReplicatedJobsLookupFailed             // spec.replicatedJobs is not a list, or spec is not an object
    | ReplicatedJobsNotFound                 // spec.replicatedJobs is absent
    | InvalidReplicatedJob(index: nat)       // the entry is not an object
    | InvalidReplicas(index: nat)            // replicas is present but not an integer
    | InvalidParallelism(index: nat)         // parallelism is present but not an integer, or its path is broken

  /** What `GetPodGroupMetadata` can fail with: the default grouper's own error,
      passed through as it is, or a wrapped JobSet error. */
  datatype GroupingError = DefaultGrouperFailed(reason: string) | JobSetFailed(cause: JobSetError)

  const ReplicatedJobsPath: seq<string> := ["spec", "replicatedJobs"]
  const ReplicasPath: seq<string> := ["replicas"]
  const ParallelismPath: seq<string> := ["template", "spec", "parallelism"]

  /** One entry of spec.replicatedJobs after decoding, absent fields defaulted to 1. */
  datatype ReplicatedJob = ReplicatedJob(replicas: Int64, parallelism: Int64)

  /** The optional-integer policy: absent counts as 1, present is taken as it is. */
  function OrOne(f: Field<Int64>): Int64
    requires !f.TypeError?
  {
    if f.Present? then f.value else 1
  }

  /** Decodes entry `index` of spec.replicatedJobs: it must be an object, and
      each of `replicas` and `template.spec.parallelism` must be an integer or absent. */
  function DecodeReplicatedJob(v: Value, index: nat): (r: Result<ReplicatedJob, JobSetError>)
    ensures !v.Object? ==> r == Failure(InvalidReplicatedJob(index))
    ensures v.Object? && NestedInt64(v.fields, ReplicasPath).TypeError? ==> r == Failure(InvalidReplicas(index))
    ensures v.Object? && !NestedInt64(v.fields, ReplicasPath).TypeError? && NestedInt64(v.fields, ParallelismPath).TypeError? ==>
      r == Failure(InvalidParallelism(index))
    ensures v.Object? && !NestedInt64(v.fields, ReplicasPath).TypeError? && !NestedInt64(v.fields, ParallelismPath).TypeError? ==>
      r.Success?
    ensures r.Failure? ==> r.error in {InvalidReplicatedJob(index), InvalidReplicas(index), InvalidParallelism(index)}
    ensures r.Success? ==>
      && v.Object?
      && (NestedInt64(v.fields, ReplicasPath) == Present(r.value.replicas)
          || (NestedInt64(v.fields, ReplicasPath) == Absent && r.value.replicas == 1))
      && (NestedInt64(v.fields, ParallelismPath) == Present(r.value.parallelism)
          || (NestedInt64(v.fields, ParallelismPath) == Absent && r.value.parallelism == 1))
  {
    if !v.Object? then Failure(InvalidReplicatedJob(index))
    else
      var replicas := NestedInt64(v.fields, ReplicasPath);
      var parallelism := NestedInt64(v.fields, ParallelismPath);
      if replicas.TypeError? then Failure(InvalidReplicas(index))
      else if parallelism.TypeError? then Failure(InvalidParallelism(index))
      else Success(ReplicatedJob(OrOne(replicas), OrOne(parallelism)))
  }

  /** Decodes every entry, all or nothing: the first entry that fails decides the error. */
  function DecodeAll(jobs: seq<Value>): Result<seq<ReplicatedJob>, JobSetError>
    decreases |jobs|
  {
    if jobs == [] then Success([])
    else
      var n := |jobs| - 1;
      match DecodeAll(jobs[..n])
      case Failure(e) => Failure(e)
      case Success(rjs) =>
        match DecodeReplicatedJob(jobs[n], n)
        case Failure(e) => Failure(e)
        case Success(rj) => Success(rjs + [rj])
  }

  /** The pods one entry contributes. */
  function Pods(rj: ReplicatedJob): int {
    rj.replicas * rj.parallelism
  }

  /** The exact (unbounded) number of pods of all entries. */
  function TotalPods(rjs: seq<ReplicatedJob>): int
    decreases |rjs|
  {
    if rjs == [] then 0 else TotalPods(rjs[..|rjs| - 1]) + Pods(rjs[|rjs| - 1])
  }

  /** The exact MinAvailable a JobSet document calls for, or why there is none. */
  function MinAvailableSpec(jobSet: map<string, Value>): (r: Result<int, JobSetError>)
    ensures NestedSlice(jobSet, ReplicatedJobsPath).Absent? ==> r == Failure(ReplicatedJobsNotFound)
    ensures NestedSlice(jobSet, ReplicatedJobsPath).TypeError? ==> r == Failure(ReplicatedJobsLookupFailed)
    ensures NestedSlice(jobSet, ReplicatedJobsPath) == Present([]) ==> r == Success(0)
  {
    match NestedSlice(jobSet, ReplicatedJobsPath)
    case TypeError => Failure(ReplicatedJobsLookupFailed)
    case Absent => Failure(ReplicatedJobsNotFound)
    case Present(jobs) =>
      match DecodeAll(jobs)
      case Failure(e) => Failure(e)
      case Success(rjs) => Success(TotalPods(rjs))
  }

  /** Decoding succeeds exactly when every entry decodes, and then yields each
      entry's decoding in order. */
  lemma {:induction false} DecodeAllSucceedsIff(jobs: seq<Value>)
    ensures DecodeAll(jobs).Success? <==> forall i :: 0 <= i < |jobs| ==> DecodeReplicatedJob(jobs[i], i).Success?
    ensures DecodeAll(jobs).Success? ==>
      && |DecodeAll(jobs).value| == |jobs|
      && forall i :: 0 <= i < |jobs| ==> DecodeAll(jobs).value[i] == DecodeReplicatedJob(jobs[i], i).value
    decreases |jobs|
  {
    if jobs != [] {
      var n := |jobs| - 1;
      var prefix := jobs[..n];
      DecodeAllSucceedsIff(prefix);
      assert forall i :: 0 <= i < n ==> prefix[i] == jobs[i];
    }
  }

  /** A failed decoding names the first entry that does not decode, with that
      entry's own error; no partial result exists. */
  lemma {:induction false} DecodeAllFailsAtFirstBadEntry(jobs: seq<Value>)
    requires DecodeAll(jobs).Failure?
    ensures exists i :: && 0 <= i < |jobs|
                        && DecodeReplicatedJob(jobs[i], i) == Failure(DecodeAll(jobs).error)
                        && forall j :: 0 <= j < i ==> DecodeReplicatedJob(jobs[j], j).Success?
    decreases |jobs|
  {
    var n := |jobs| - 1;
    var prefix := jobs[..n];
    assert forall i :: 0 <= i < n ==> prefix[i] == jobs[i];
    if DecodeAll(prefix).Failure? {
      DecodeAllFailsAtFirstBadEntry(prefix);
      var i :| 0 <= i < |prefix|
        && DecodeReplicatedJob(prefix[i], i) == Failure(DecodeAll(prefix).error)
        && forall j :: 0 <= j < i ==> DecodeReplicatedJob(prefix[j], j).Success?;
      assert DecodeReplicatedJob(jobs[i], i) == Failure(DecodeAll(jobs).error);
    } else {
      DecodeAllSucceedsIff(prefix);
      assert DecodeReplicatedJob(jobs[n], n) == Failure(DecodeAll(jobs).error);
    }
  }

  /** Once a prefix fails to decode, the whole list fails with the same error. */
  lemma {:induction false} DecodeAllFailurePersists(jobs: seq<Value>, k: nat)
    requires k <= |jobs|
    requires DecodeAll(jobs[..k]).Failure?
    ensures DecodeAll(jobs) == DecodeAll(jobs[..k])
    decreases |jobs| - k
  {
    if k < |jobs| {
      assert jobs[..k + 1][..k] == jobs[..k];
      DecodeAllFailurePersists(jobs, k + 1);
    } else {
      assert jobs[..k] == jobs;
    }
  }

  /** The total of a concatenation is the sum of the totals. */
  lemma {:induction false} TotalPodsAppend(a: seq<ReplicatedJob>, b: seq<ReplicatedJob>)
    ensures TotalPods(a + b) == TotalPods(a) + TotalPods(b)
    decreases |b|
  {
    if b != [] {
      var n := |b| - 1;
      assert (a + b)[..|a + b| - 1] == a + b[..n];
      TotalPodsAppend(a, b[..n]);
    } else {
      assert a + b == a;
    }
  }

  /** One more entry decoded: the prefix's decoding grows by that entry's, or
      the entry's error becomes the error of the whole list. */
  lemma {:induction false} DecodeAllStep(jobs: seq<Value>, i: nat, decoded: seq<ReplicatedJob>)
    requires i < |jobs| && DecodeAll(jobs[..i]) == Success(decoded)
    ensures DecodeReplicatedJob(jobs[i], i).Success? ==>
      DecodeAll(jobs[..i + 1]) == Success(decoded + [DecodeReplicatedJob(jobs[i], i).value])
    ensures DecodeReplicatedJob(jobs[i], i).Failure? ==>
      DecodeAll(jobs) == Failure(DecodeReplicatedJob(jobs[i], i).error)
  {
    var longer := jobs[..i + 1];
    assert longer[..i] == jobs[..i] && longer[i] == jobs[i] && |longer| - 1 == i;
    if DecodeReplicatedJob(jobs[i], i).Failure? {
      DecodeAllFailurePersists(jobs, i + 1);
    }
  }

  /** Adding an int64 product, truncated to int32, to an int32 accumulator that
      holds the truncated exact total keeps it the truncated exact total. */
  lemma AccumulateTruncated(total: Int32, exact: int, product: int)
    requires total == ToInt32(exact)
    ensures ToInt32(total + ToInt32(ToInt64(product))) == ToInt32(exact + product)
  {
    ToInt32OfToInt64(product);
    ToInt32Add(product, total);
    ToInt32Add(exact, product);
  }

  /** One loop step on the totals: appending an entry to the decoded prefix adds
      its pods to the exact total, and the wrapped int32 update of line 107
      tracks that total truncated. */
  lemma {:induction false} AccumulateEntry(total: Int32, decoded: seq<ReplicatedJob>, entry: ReplicatedJob)
    requires total == ToInt32(TotalPods(decoded))
    ensures ToInt32(total + ToInt32(ToInt64(entry.replicas * entry.parallelism))) == ToInt32(TotalPods(decoded + [entry]))
  {
    TotalPodsAppend(decoded, [entry]);
    assert TotalPods([entry]) == Pods(entry) by {
      assert [entry][..0] == [];
    }
    AccumulateTruncated(total, TotalPods(decoded), entry.replicas * entry.parallelism);
  }

  /** `calculateMinAvailableFromJobSet`, with the fetched JobSet (or the fetch
      error) as input. The int32 accumulator wraps, and each int64 product is
      truncated to int32 before it is added; the result is the exact total
      truncated once to int32, and every error is the specification's error. */
  method CalculateMinAvailableFromJobSet(fetched: Result<map<string, Value>, string>)
    returns (r: Result<Int32, JobSetError>)
    ensures fetched.Failure? ==> r == Failure(FetchFailed(fetched.error))
    ensures fetched.Success? ==> r.Success? == MinAvailableSpec(fetched.value).Success?
    ensures fetched.Success? && r.Success? ==> r.value == ToInt32(MinAvailableSpec(fetched.value).value)
    ensures fetched.Success? && r.Failure? ==> r.error == MinAvailableSpec(fetched.value).error
  {
    if fetched.Failure? {
      return Failure(FetchFailed(fetched.error));
    }
    var jobSet := fetched.value;
    var found := NestedSlice(jobSet, ReplicatedJobsPath);
    if found.TypeError? {
      return Failure(ReplicatedJobsLookupFailed);
    }
    if found.Absent? {
      return Failure(ReplicatedJobsNotFound);
    }
    var replicatedJobs := found.value;

    var totalPods: Int32 := 0;
    ghost var decoded: seq<ReplicatedJob> := [];
    for i := 0 to |replicatedJobs|
      invariant DecodeAll(replicatedJobs[..i]) == Success(decoded)
      invariant totalPods == ToInt32(TotalPods(decoded))
    {
      var rj := replicatedJobs[i];
      DecodeAllStep(replicatedJobs, i, decoded);
      if !rj.Object? {
        return Failure(InvalidReplicatedJob(i));
      }
      var replicatedJob := rj.fields;

      var replicasField := NestedInt64(replicatedJob, ReplicasPath);
      if replicasField.TypeError? {
        return Failure(InvalidReplicas(i));
      }
      var replicas: Int64 := if replicasField.Present? then replicasField.value else 1;

      var parallelismField := NestedInt64(replicatedJob, ParallelismPath);
      if parallelismField.TypeError? {
        return Failure(InvalidParallelism(i));
      }
      var parallelism: Int64 := if parallelismField.Present? then parallelismField.value else 1;

      ghost var entry := ReplicatedJob(replicas, parallelism);
      assert DecodeReplicatedJob(rj, i) == Success(entry);
      AccumulateEntry(totalPods, decoded, entry);
      totalPods := ToInt32(totalPods + ToInt32(ToInt64(replicas * parallelism)));
      decoded := decoded + [entry];
    }
    assert replicatedJobs[..|replicatedJobs|] == replicatedJobs;
    return Success(totalPods);
  }

  /** The pod-group metadata built by the default grouper. This grouper only
      ever changes MinAvailable; the other fields pass through. */
  class PodGroupMetadata {
    var Name: string
    var Namespace: string
    var Queue: string
    var PriorityClassName: string
    var MinAvailable: Int32

    constructor (name: string, namespace: string, queue: string, priorityClassName: string, minAvailable: Int32)
      ensures Name == name && Namespace == namespace && Queue == queue
      ensures PriorityClassName == priorityClassName && MinAvailable == minAvailable
    {
      Name, Namespace, Queue := name, namespace, queue;
      PriorityClassName, MinAvailable := priorityClassName, minAvailable;
    }
  }

  /** `GetPodGroupMetadata`. `baseline` is what the default grouper returned and
      `fetched` what reading the JobSet named after the top owner returned. The
      default grouper's error passes through unchanged; a JobSet error yields no
      metadata; otherwise MinAvailable is overwritten in place exactly when the
      computed total is positive, and nothing else changes. */
  method GetPodGroupMetadata(baseline: Result<PodGroupMetadata, string>, fetched: Result<map<string, Value>, string>)
    returns (r: Result<PodGroupMetadata, GroupingError>)
    modifies if baseline.Success? then {baseline.value} else {}
    ensures baseline.Failure? ==> r == Failure(DefaultGrouperFailed(baseline.error))
    ensures baseline.Success? && fetched.Failure? ==> r == Failure(JobSetFailed(FetchFailed(fetched.error)))
    ensures baseline.Success? && fetched.Success? && MinAvailableSpec(fetched.value).Failure? ==>
      r == Failure(JobSetFailed(MinAvailableSpec(fetched.value).error))
    ensures baseline.Success? && fetched.Success? && MinAvailableSpec(fetched.value).Success? ==>
      var total := ToInt32(MinAvailableSpec(fetched.value).value);
      && r == Success(baseline.value)
      && baseline.value.MinAvailable == (if total > 0 then total else old(baseline.value.MinAvailable))
    ensures baseline.Success? ==>
      baseline.value.MinAvailable == old(baseline.value.MinAvailable) || baseline.value.MinAvailable > 0
    ensures baseline.Success? && r.Failure? ==> baseline.value.MinAvailable == old(baseline.value.MinAvailable)
    ensures baseline.Success? ==>
      && baseline.value.Name == old(baseline.value.Name)
      && baseline.value.Namespace == old(baseline.value.Namespace)
      && baseline.value.Queue == old(baseline.value.Queue)
      && baseline.value.PriorityClassName == old(baseline.value.PriorityClassName)
  {
    if baseline.Failure? {
      return Failure(DefaultGrouperFailed(baseline.error));
    }
    var podGroupMetadata := baseline.value;

    var minAvailable := CalculateMinAvailableFromJobSet(fetched);
    if minAvailable.Failure? {
      return Failure(JobSetFailed(minAvailable.error));
    }

    if minAvailable.value > 0 {
      podGroupMetadata.MinAvailable := minAvailable.value;
    }
    return Success(podGroupMetadata);
  }

  /** A JobSet document with the given spec.replicatedJobs list. */
  function JobSetWith(replicatedJobs: seq<Value>): map<string, Value> {
    map["spec" := Object(map["replicatedJobs" := Array(replicatedJobs)])]
  }

  /** A replicatedJobs entry with the given replicas and, when given, parallelism. */
  function Entry(replicas: Int64, parallelism: Option<Int64>): Value {
    match parallelism
    case None => Object(map["replicas" := Int(replicas)])
    case Some(p) =>
      Object(map["replicas" := Int(replicas),
                 "template" := Object(map["spec" := Object(map["parallelism" := Int(p)])])])
  }

  /** An entry built from integers decodes to those integers, parallelism
      defaulting to 1 when it is not given. */
  lemma {:induction false} DecodeEntry(replicas: Int64, parallelism: Option<Int64>, index: nat)
    ensures DecodeReplicatedJob(Entry(replicas, parallelism), index)
      == Success(ReplicatedJob(replicas, if parallelism.Some? then parallelism.value else 1))
  {
    var fields := Entry(replicas, parallelism).fields;
    assert NestedField(Object(fields), ReplicasPath) == Found(Int(replicas));
    match parallelism
    case None =>
      assert NestedField(Object(fields), ParallelismPath) == NotFound;
    case Some(p) =>
      var template := fields["template"];
      assert NestedField(template, ParallelismPath[1..]) == NestedField(template.fields["spec"], ParallelismPath[2..]);
      assert NestedField(Object(fields), ParallelismPath) == Found(Int(p));
  }

  /** A JobSet whose list decodes yields the exact total of the decoded entries. */
  lemma {:induction false} JobSetWithTotal(replicatedJobs: seq<Value>, rjs: seq<ReplicatedJob>)
    requires DecodeAll(replicatedJobs) == Success(rjs)
    ensures MinAvailableSpec(JobSetWith(replicatedJobs)) == Success(TotalPods(rjs))
  {
    var spec := JobSetWith(replicatedJobs)["spec"];
    assert NestedField(spec, ReplicatedJobsPath[1..]) == Found(Array(replicatedJobs));
    assert NestedSlice(JobSetWith(replicatedJobs), ReplicatedJobsPath) == Present(replicatedJobs);
  }

  /** The two example entries decode to 2 x 3 and 1 x 1. */
  lemma ExampleSevenPodsDecoded()
    ensures DecodeAll([Entry(2, Some(3)), Entry(1, None)]) == Success([ReplicatedJob(2, 3), ReplicatedJob(1, 1)])
  {
    var jobs := [Entry(2, Some(3)), Entry(1, None)];
    DecodeEntry(2, Some(3), 0);
    DecodeEntry(1, None, 1);
    assert jobs[..0] == [] && jobs[..2] == jobs;
    DecodeAllStep(jobs, 0, []);
    assert [] + [ReplicatedJob(2, 3)] == [ReplicatedJob(2, 3)];
    DecodeAllStep(jobs, 1, [ReplicatedJob(2, 3)]);
    assert [ReplicatedJob(2, 3)] + [ReplicatedJob(1, 1)] == [ReplicatedJob(2, 3), ReplicatedJob(1, 1)];
  }

  /** Two entries, 2 x 3 and 1 with parallelism defaulted: 7 pods. */
  lemma ExampleSevenPods()
    ensures MinAvailableSpec(JobSetWith([Entry(2, Some(3)), Entry(1, None)])) == Success(7)
  {
    var rjs := [ReplicatedJob(2, 3), ReplicatedJob(1, 1)];
    ExampleSevenPodsDecoded();
    JobSetWithTotal([Entry(2, Some(3)), Entry(1, None)], rjs);
    assert rjs[..1] == [ReplicatedJob(2, 3)] && rjs[..1][..0] == [];
    assert TotalPods(rjs[..1]) == 6;
  }

  /** The int32 total wraps: one entry of 65536 x 65536 pods is 2^32 pods, which
      truncates to 0, so the baseline MinAvailable is kept. */
  lemma ExampleTotalWrapsToZero()
    ensures MinAvailableSpec(JobSetWith([Entry(65536, Some(65536))])) == Success(TwoTo32)
    ensures ToInt32(TwoTo32) == 0
  {
    var jobs := [Entry(65536, Some(65536))];
    var rjs := [ReplicatedJob(65536, 65536)];
    DecodeEntry(65536, Some(65536), 0);
    assert jobs[..0] == [] && jobs[..1] == jobs && [] + rjs == rjs;
    DecodeAllStep(jobs, 0, []);
    JobSetWithTotal(jobs, rjs);
    assert rjs[..0] == [];
  }
}
