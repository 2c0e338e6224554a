/** The pod manifest `get_pod_object` builds for one benchmark: a single sysbench
    container that runs the benchmark's command through `bash -c`, never restarted,
    labelled so that the runner can find and delete it afterwards. The Kubernetes
    client's `V1Pod`, `V1PodSpec`, `V1Container`, `V1ResourceRequirements` and
    `V1ObjectMeta` are plain records here. */
module Pods {
  import opened Strings
  import opened Benchmarks

  /** `V1ResourceRequirements`. */
  datatype ResourceRequirements = ResourceRequirements(requests: map<string, string>, limits: map<string, string>)

  /** `V1Container`, with the fields the builder sets. */
  datatype Container = Container(
    name: string,
    image: string,
    imagePullPolicy: string,
    command: seq<string>,
    args: seq<string>,
    resources: ResourceRequirements)

  /** `V1PodSpec`. */
  datatype PodSpec = PodSpec(containers: seq<Container>, restartPolicy: string)

  /** `V1ObjectMeta`. */
  datatype ObjectMeta = ObjectMeta(name: string, namespace: string, labels: map<string, string>)

  /** `V1Pod`. */
  datatype Pod = Pod(metadata: ObjectMeta, spec: PodSpec)

  /** The class attributes of `BenchmarkRunner` the builder reads. */
  datatype Runner = Runner(image: string, namespace: string, labels: map<string, string>)

  /** `BenchmarkRunner`'s image, namespace and labels. */
  function DefaultRunner(): Runner {
    Runner("severalnines/sysbench", "default", map["sysbench-runner" := "true"])
  }

  /** The label that names the benchmark a pod runs. */
  const TestLabel: string := "sysbench-test"

  /** What `get_pod_object` reads off its `test` argument: the class name, the argv of
      `get_command()` called without arguments, and the two resource dicts. */
  datatype Descriptor = Descriptor(
    className: string,
    command: seq<string>,
    requests: map<string, string>,
    limits: map<string, string>)

  /** The descriptor of an instance of one of the three benchmark classes. */
  function Describe(kind: Kind): Descriptor {
    Descriptor(ClassName(kind), DefaultCommand(kind), ResourceRequests(kind), ResourceLimits(kind))
  }

  /** `_labels = runner.LABELS.copy(); _labels.update({"sysbench-test": name})`: the
      runner's labels with the test label set to the class name, whatever the runner's
      labels held under that key before. The runner's own map is a value and is left
      as it was. */
  function MergeLabels(base: map<string, string>, className: string): (r: map<string, string>)
    ensures r.Keys == base.Keys + {TestLabel}
    ensures r[TestLabel] == className
    ensures forall k :: k in base && k != TestLabel ==> r[k] == base[k]
  {
    base[TestLabel := className]
  }

  /** `get_pod_object(name, test, runner)`: one container running the test's argv,
      joined with spaces, as the script of `bash -c`. `str.split()` gives the argv back
      from that script when its words are tokens. */
  function GetPodObject(name: string, test: Descriptor, runner: Runner): (pod: Pod)
    ensures |pod.spec.containers| == 1
    ensures pod.spec.restartPolicy == "Never"
    ensures pod.metadata.name == name && pod.metadata.namespace == runner.namespace
    ensures pod.metadata.labels.Keys == runner.labels.Keys + {TestLabel}
    ensures pod.metadata.labels[TestLabel] == test.className
    ensures forall k :: k in runner.labels && k != TestLabel ==> pod.metadata.labels[k] == runner.labels[k]
    ensures var c := pod.spec.containers[0];
      && c.name == "sysbench" && c.image == runner.image && c.imagePullPolicy == "IfNotPresent"
      && c.command == ["bash", "-c"] && c.args == [Join(" ", test.command)]
      && (AllTokens(test.command) ==> Split(c.args[0]) == test.command)
      && c.resources.requests == test.requests && c.resources.limits == test.limits
  {
    var container := Container(
      "sysbench", runner.image, "IfNotPresent", ["bash", "-c"], [Join(" ", test.command)],
      ResourceRequirements(test.requests, test.limits));
    var spec := PodSpec([container], "Never");
    var pod := Pod(ObjectMeta(name, runner.namespace, MergeLabels(runner.labels, test.className)), spec);
    if AllTokens(test.command) then SplitJoin(test.command); pod else pod
  }

  /** The pod of one of the three benchmarks: its script splits back into the benchmark's
      argv and is the `command` entry of the benchmark's report, its test label is the
      class name, and it requests and limits no resources. */
  lemma BenchmarkPod(name: string, kind: Kind, runner: Runner)
    ensures var c := GetPodObject(name, Describe(kind), runner).spec.containers[0];
      && Split(c.args[0]) == DefaultCommand(kind)
      && c.args == [CommandText(kind)]
      && c.resources == ResourceRequirements(map[], map[])
    ensures GetPodObject(name, Describe(kind), runner).metadata.labels[TestLabel] == ClassName(kind)
  {
  }

  /** The shell line a pod runs is the `command` entry of the benchmark's results. */
  lemma PodRunsReportedCommand(name: string, kind: Kind, runner: Runner, output: string)
    requires GetResults(kind, output).Success?
    ensures GetPodObject(name, Describe(kind), runner).spec.containers[0].args == [GetResults(kind, output).value["command"]]
  {
  }

  /** With the runner's own attributes, a pod carries exactly two labels: the runner's,
      which the cleanup's selector `sysbench-runner=true` matches, and the class name;
      it pulls the sysbench image into the `default` namespace. */
  lemma DefaultRunnerPod(name: string, test: Descriptor)
    ensures var pod := GetPodObject(name, test, DefaultRunner());
      && pod.metadata.labels == map["sysbench-runner" := "true", TestLabel := test.className]
      && pod.metadata.namespace == "default"
      && pod.spec.containers[0].image == "severalnines/sysbench"
  {
    var labels := GetPodObject(name, test, DefaultRunner()).metadata.labels;
    assert labels.Keys == {"sysbench-runner", TestLabel};
  }

  /** Pods for two benchmarks of different classes are told apart by their test label. */
  lemma PodsOfKindsDiffer(name: string, kind1: Kind, kind2: Kind, runner: Runner)
    requires kind1 != kind2
    ensures GetPodObject(name, Describe(kind1), runner).metadata.labels[TestLabel]
      != GetPodObject(name, Describe(kind2), runner).metadata.labels[TestLabel]
  {
    assert ClassName(kind1)[0] != ClassName(kind2)[0];
  }
}
