# sysbench benchmarks on Kubernetes: descriptors, report parsers and the pod manifest

`k8s_container_perf` runs three sysbench benchmarks (CPU, memory, file I/O) as one-shot
Kubernetes pods and turns each pod's log into a flat dictionary of metrics. This
project models the pure core of that program and proves properties of it:

- **`Strings`**: the text primitives the core relies on. It covers Python's whitespace
  (`str.isspace`, which is also what the `\s` of a `re` pattern over `str` matches),
  `" ".join`, argument-less `str.split()` and `str(int)`. The lemmas prove that join
  and split are inverse on token lists and that decimal formatting round-trips.
- **`Patterns`**: the three regular-expression shapes the parsers use, and
  `re.findall(pattern, output)[0]` over them.
  - The shapes are `<title>\s*(.*)\s`, `\s*(.*)\stransferred` and `transferred\s*\((.*)\)`.
  - They are instances of one shape, `lead\s*open(.*)tail`. A matcher written in
    Python's backtracking order is proved to pick the declarative "first match":
    leftmost start, then the longest `\s*`, then the longest group.
  - The lemmas state what each shape extracts: the rest of the line after a title,
    the text before ` transferred`, and the text inside the parentheses.
  - They also state when each shape finds nothing, which is when `[0]` raises `IndexError`.
- **`Benchmarks`**: `CPUBenchmark`, `MemoryBenchmark` and `FileIOBenchmark`.
  - `get_command` with any arguments. FileIO's argv is the whitespace split of one
    formatted line.
  - `get_results` is a sequence of first-match extractions. It either fails on the first
    missing metric or returns a map holding every metric and `"command"`.
  - The base class's empty resource dicts.
- **`Pods`**: `get_pod_object`. It builds a single `bash -c` container running the joined
  argv, with restart policy `Never`, and labels from a copy of the runner's labels plus
  the test label. The runner constants of `BenchmarkRunner` are modelled too.

Dafny's `int` is unbounded, and so is Python's, so no integer width is modelled. Strings
are sequences of Dafny `char`, which is a Unicode scalar value. A Python `str` is a
sequence of code points, which may also include lone surrogates; those cannot be
represented here (see "Left out").

## Model

| member | source | states |
|---|---|---|
| Strings.IsSpace | k8s_container_perf/tests.py:41 | definition only: the characters Python's `str.isspace` and the `\s` of a `str` pattern accept (ASCII whitespace, the separators `\x1c`-`\x1f`, and the Unicode space characters) |
| Strings.Join | k8s_container_perf/tests.py:58 | definition only: `sep.join(xs)`, the elements with `sep` between neighbours; `JoinAppend` and `SplitJoin` state its properties |
| Strings.Split | k8s_container_perf/tests.py:115-117 | `str.split()` yields only non-empty, whitespace-free tokens |
| Strings.SplitJoin | k8s_container_perf/tests.py:115-117 | splitting a space-joined list of tokens gives the list back (`" ".join` and `str.split()` are inverse on tokens) |
| Strings.SplitToken | k8s_container_perf/tests.py:115-117 | a token followed by nothing or by whitespace is split off as the first element |
| Strings.JoinAppend | k8s_container_perf/tests.py:58 | joining two non-empty lists with spaces is joining each and putting one space between |
| Strings.IntToDecimal | k8s_container_perf/tests.py:24 | `str(n)` inside an f-string is a single token (digits, with a leading `-` for negatives) |
| Strings.NatToDecimal | k8s_container_perf/tests.py:24 | `str(n)` for n >= 0 is at least one decimal digit, with no leading zero |
| Strings.DecimalRoundTrip | k8s_container_perf/tests.py:24 | reading back the digits of `str(n)` gives n |
| Strings.SkipSpaces | k8s_container_perf/tests.py:41 | greedy `\s*` consumes only whitespace and stops before a non-whitespace character or at the end |
| Strings.LineEnd | k8s_container_perf/tests.py:41 | greedy `.*` stops at the first newline or at the end, and consumes no newline |
| Patterns.LabelPattern | k8s_container_perf/tests.py:41-48 | definition only: `<title>\s*(.*)\s` as lead `title`, no opening literal, and a whitespace tail |
| Patterns.TransferredAmount | k8s_container_perf/tests.py:92 | definition only: `\s*(.*)\stransferred` as empty lead, no opening literal, and a tail of one whitespace then `transferred` |
| Patterns.TransferredRate | k8s_container_perf/tests.py:93 | definition only: `transferred\s*\((.*)\)` as lead `transferred`, opening literal `(`, and a `)` tail |
| Patterns.TrySpaces | k8s_container_perf/tests.py:41 | backtracking `\s*` from its longest end: the first end from which the rest matches, with the longest group there, and no match from any longer end |
| Patterns.MatchAt | k8s_container_perf/tests.py:41 | the match found at a start position is the greedy one (longest `\s*`, then longest group); none means no match starts there |
| Patterns.Search | k8s_container_perf/tests.py:41 | start positions tried left to right: the result is greedy and no match starts further left |
| Patterns.FindFirst | k8s_container_perf/tests.py:41 | `re.findall(p, s)[0]` is defined exactly when some match of `p` exists in `s` |
| Patterns.FindFirstIs | k8s_container_perf/tests.py:41 | the first match (leftmost, then greedy) determines the value: its group |
| Patterns.FirstMatchOf | k8s_container_perf/tests.py:41 | every value findall returns first is the group of the first match |
| Patterns.FirstMatchIs | k8s_container_perf/tests.py:41 | at the first occurrence of the lead, the longest `\s*` followed by the longest group is what findall returns first |
| Patterns.FoundOnOneLine | k8s_container_perf/tests.py:41-48 | a value never contains a newline |
| Patterns.FoundBeforeTail | k8s_container_perf/tests.py:92 | a value occurs in the output directly before a match of the pattern's tail (for the amount: a whitespace and `transferred`) |
| Patterns.LabelValueIsRestOfLine | k8s_container_perf/tests.py:41-48 | with the first occurrence of a title, when the line the value starts on ends in a newline, the value is the rest of that line after the whitespace that follows the title, newlines included in that whitespace |
| Patterns.LabelFoundIff | k8s_container_perf/tests.py:41-48 | on newline-terminated output, a titled metric is found if and only if its title occurs |
| Patterns.LabelLineValue | k8s_container_perf/tests.py:31-35 | a line `title`, padding, `value`, newline at the start of the output yields `value`, whatever follows |
| Patterns.LabelMatchAt | k8s_container_perf/tests.py:41-48 | on newline-terminated output, every occurrence of a title starts a match of its pattern |
| Patterns.TransferredAmountFoundIff | k8s_container_perf/tests.py:92 | the amount is found if and only if some whitespace character is directly followed by `transferred` |
| Patterns.TransferredRateFoundIff | k8s_container_perf/tests.py:93 | the rate is found if and only if some `transferred` is followed by whitespace, a `(` and, later on the same line, a `)` |
| Patterns.AmountAfterBlankRun | k8s_container_perf/tests.py:92 | when a whitespace run opens the output or follows a non-blank and holds a newline, no earlier whitespace is followed by `transferred`, and the line after the run has such whitespace, the amount is the text from the end of the run to the last such whitespace on that line: the `\s*` swallows newlines and indentation |
| Patterns.TransferredRateIsParenthesized | k8s_container_perf/tests.py:93 | after the first `transferred`, whitespace and `(`, the rate is the text up to the last `)` on that line |
| Patterns.TransferredLineAmount | k8s_container_perf/tests.py:92 | the output is earlier text, a whitespace run, the line `<amount> transferred (<rate>)`, a newline and the rest. The earlier text holds no `tr`, does not end in `t` or whitespace, and is followed by a run holding a newline (or both are empty). The amount is non-empty and starts with a non-blank; neither the amount nor the rate holds a `t` or a newline; the rest does not start with `t`. Then the amount pattern yields exactly `<amount>`, without the indentation |
| Patterns.TransferredLineRate | k8s_container_perf/tests.py:93 | under the same hypotheses on the earlier text, the whitespace run, the amount, the rate and the rest, the rate pattern yields `<rate>` |
| Benchmarks.ClassName | k8s_container_perf/utils.py:26 | definition only: the class names `CPUBenchmark`, `MemoryBenchmark` and `FileIOBenchmark` |
| Benchmarks.ResourceRequests | k8s_container_perf/tests.py:18-19 | definition only: the empty dict every benchmark class inherits |
| Benchmarks.ResourceLimits | k8s_container_perf/tests.py:15-16 | definition only: the empty dict every benchmark class inherits |
| Benchmarks.CpuCommand | k8s_container_perf/tests.py:23-24 | the CPU argv has four words and, for any time, survives being joined with spaces and split again |
| Benchmarks.MemoryCommand | k8s_container_perf/tests.py:63-64 | the memory argv has four words and survives being joined and split when the size holds no whitespace |
| Benchmarks.FileIOCommandLine | k8s_container_perf/tests.py:115-117 | definition only: the formatted line before `.split()`; `JoinWords` states its words |
| Benchmarks.FileIOCommand | k8s_container_perf/tests.py:114-117 | the FileIO argv, being the whitespace split of a line, survives being joined and split for any arguments |
| Benchmarks.DefaultCommand | k8s_container_perf/tests.py:58 | `get_command()` with its defaults, for each class, survives being joined with spaces and split again |
| Benchmarks.CommandText | k8s_container_perf/tests.py:58 | the recorded `"command"` splits back into the argv the benchmark runs |
| Benchmarks.DefaultCpuCommand | k8s_container_perf/tests.py:23-24 | with its default argument the CPU argv is exactly `sysbench --test=cpu --time=60 run` |
| Benchmarks.DefaultMemoryCommand | k8s_container_perf/tests.py:63-64 | with its default argument the memory argv is exactly `sysbench --test=memory --memory-total-size=500G run` |
| Benchmarks.FileIOCommandWords | k8s_container_perf/tests.py:114-117 | for a whitespace-free size the FileIO argv is 14 words: `prepare` and `&&` come before the second `sysbench`, the argv ends in `run`, and joining it with spaces reproduces the formatted line |
| Benchmarks.WordsAreTokens | k8s_container_perf/tests.py:114-117 | every word of the FileIO line is a token when the size has no whitespace |
| Benchmarks.JoinWords | k8s_container_perf/tests.py:115-117 | the 14 words joined with single spaces are exactly the formatted FileIO line |
| Benchmarks.DefaultFileIOCommand | k8s_container_perf/tests.py:114-117 | with its default arguments the FileIO argv is the 14 listed words (5 files, 5G, 100 seconds) |
| Benchmarks.CpuFields | k8s_container_perf/tests.py:41-48 | definition only: the CPU metric keys with their titled patterns, in extraction order |
| Benchmarks.MemoryFields | k8s_container_perf/tests.py:90-98 | definition only: the memory metric keys with their patterns, the amount and rate patterns third and fourth |
| Benchmarks.FileIOFields | k8s_container_perf/tests.py:147-158 | definition only: the FileIO metric keys with their titled patterns, in extraction order |
| Benchmarks.Extract | k8s_container_perf/tests.py:41-48 | the findall calls in order: success exactly when no pattern misses, and then every key maps to its pattern's first match |
| Benchmarks.ExtractKeys | k8s_container_perf/tests.py:49-59 | a successful extraction holds exactly the fields' keys |
| Benchmarks.ExtractError | k8s_container_perf/tests.py:41-48 | a failed extraction raises for the first field, in source order, whose pattern finds nothing |
| Benchmarks.FieldsDistinct | k8s_container_perf/tests.py:159-173 | the metric keys of each report are pairwise distinct |
| Benchmarks.NoCommandField | k8s_container_perf/tests.py:99-110 | no metric is stored under `"command"` |
| Benchmarks.GetResults | k8s_container_perf/tests.py:90-110 | success exactly when every pattern finds a value; then `"command"` holds the joined default argv, whatever the output, and each metric key holds its pattern's first match, unconverted |
| Benchmarks.ResultKeys | k8s_container_perf/tests.py:49-59 | the report's keys are the metric keys plus `"command"` |
| Benchmarks.ResultKeyCount | k8s_container_perf/tests.py:159-173 | a report has 9 keys for CPU, 10 for memory and 13 for FileIO |
| Benchmarks.ResultError | k8s_container_perf/tests.py:147-158 | on failure, the error names the first metric, in extraction order, whose pattern finds nothing; no partial map is returned |
| Benchmarks.LabelFieldFound | k8s_container_perf/tests.py:41-48 | on newline-terminated output, a titled metric is found if and only if its title occurs |
| Benchmarks.CpuLabelFields | k8s_container_perf/tests.py:41-48 | every CPU metric is read by a `<title>\s*(.*)\s` pattern whose title ends in a colon |
| Benchmarks.MemoryLabelFields | k8s_container_perf/tests.py:90-98 | every memory metric except the two around `transferred` is a titled metric |
| Benchmarks.FileIOLabelFields | k8s_container_perf/tests.py:147-158 | every FileIO metric is a titled metric |
| Benchmarks.TitledResultsFoundIff | k8s_container_perf/tests.py:147-158 | on newline-terminated output, the CPU and FileIO reports parse if and only if every title occurs |
| Benchmarks.TitledFieldsFound | k8s_container_perf/tests.py:41-48 | on newline-terminated output, a table of titled fields is all found if and only if every title occurs |
| Benchmarks.MemoryTitlesFound | k8s_container_perf/tests.py:90-98 | on newline-terminated output, the seven titled memory metrics are all found if and only if all their titles occur |
| Benchmarks.MemoryTransferFound | k8s_container_perf/tests.py:92-93 | the amount is found if and only if some whitespace is followed by `transferred`; the rate if and only if some `transferred` is followed by whitespace, `(` and a later `)` on that line |
| Benchmarks.MemoryResultsFoundIff | k8s_container_perf/tests.py:90-98 | on newline-terminated output, the memory report parses if and only if every title occurs, some whitespace is followed by `transferred`, and some `transferred` is followed by whitespace, `(` and a later `)` on the same line |
| Benchmarks.CpuPercentileSample | k8s_container_perf/tests.py:34 | the fixture line `95th percentile: 1.32` yields `"1.32"` |
| Benchmarks.CpuSumSample | k8s_container_perf/tests.py:35 | the fixture line `sum: 9991.44` yields `"9991.44"` |
| Benchmarks.FileIOThroughputSample | k8s_container_perf/tests.py:129 | the fixture line `read, MiB/s: 3.72` yields `"3.72"` |
| Benchmarks.MemoryTransferSample | k8s_container_perf/tests.py:70-72 | the fixture's `Total operations` line, a blank line, any indentation and then `34514.69 MiB transferred (3450.69 MiB/sec)` yield `"34514.69 MiB"` and `"3450.69 MiB/sec"` |
| Pods.DefaultRunner | k8s_container_perf/runner.py:8-10 | definition only: `SYSBENCH_IMAGE`, `NAMESPACE` and `LABELS` of `BenchmarkRunner` |
| Pods.Describe | k8s_container_perf/utils.py:16-26 | definition only: what the builder reads off a benchmark instance (class name, default argv, resource dicts) |
| Pods.MergeLabels | k8s_container_perf/utils.py:25-26 | the copied labels are the runner's labels plus `sysbench-test` set to the class name; every other runner label is unchanged |
| Pods.GetPodObject | k8s_container_perf/utils.py:11-33 | one container `sysbench` with the runner's image, pull policy `IfNotPresent`, command `bash -c`, exactly one argument which is the argv joined with single spaces (and splits back into it when the argv is tokens), and the test's resource dicts; restart policy `Never`; the given name, the runner's namespace and the merged labels |
| Pods.BenchmarkPod | k8s_container_perf/utils.py:16-20 | for each benchmark class the script is the joined default argv and splits back into it, and the resource requests and limits are empty |
| Pods.PodRunsReportedCommand | k8s_container_perf/utils.py:16 | the pod runs exactly the line a successful report records under `"command"` |
| Pods.DefaultRunnerPod | k8s_container_perf/runner.py:8-10 | with the runner's constants the labels are exactly `{sysbench-runner: "true", sysbench-test: <class>}`, the namespace is `default` and the image is `severalnines/sysbench` |
| Pods.PodsOfKindsDiffer | k8s_container_perf/utils.py:26 | pods of different benchmark classes carry different `sysbench-test` labels |

## Left out

- The run loop of `BenchmarkRunner.run` (k8s_container_perf/runner.py:24-66) is cluster I/O: it creates a pod, waits on a watch stream, reads the log and deletes the pod. Its retry loop `while _i <= 10` allows eleven attempts, and when every attempt fails `_output` is unbound or stale from the previous benchmark. Both are quirks of that loop and are not modelled.
- `BenchmarkRunner.cleanup` (k8s_container_perf/runner.py:14-22) only lists and deletes pods through the API. `DefaultRunnerPod` states the label its selector relies on.
- `k8s_container_perf/run.py` (kubeconfig loading, interrupt handling, `pprint`, writing `results.json`) is process and file I/O.
- Python's general `re` engine is not modelled. Only the pattern shape `lead\s*open(.*)tail` that the parsers use is, with `findall(...)[0]` read as the group of the first match. Every pattern in the parsers has exactly one group, so findall's list holds groups.
- The Kubernetes client classes are plain datatypes with the fields the builder sets. Other fields keep the library's defaults and are not represented.
- Benchmarks.ExtractError: Python's `IndexError` carries no metric name. The model's `IndexError(key)` adds the key of the first missing metric so that the failure can be stated. Nothing else depends on the key.
- Benchmarks.GetResults: a Python dict keeps insertion order and `json` writes it in that order. Dafny maps are unordered, so key order is not modelled.
- Benchmarks.LabelFieldFound: the equivalence is stated only for output that ends in a newline. Without one, a title at the very end of the output occurs, yet the `\s` after the group has nothing to match. The model's `FindFirst` still gives the value in every case, but no lemma characterises that one.
- Patterns.LabelLineValue: it places the titled line at the start of the output. `LabelValueIsRestOfLine` states the general case, the first occurrence of the title at any position.
- Pods.GetPodObject: `get_pod_object` duck-types its `test` argument. The model takes the four things it reads (class name, default argv, request and limit dicts) as a `Descriptor`; `Describe` gives them for the three benchmark classes.
- Strings: a Python `str` may hold lone surrogate code points; Dafny's `char` is a Unicode scalar value, so such strings are not represented. sysbench's output and the argv are ASCII, so no modelled behaviour depends on them.
- Patterns.TransferredLineAmount and Patterns.TransferredLineRate: they keep `t` out of the earlier text's `tr` pairs, the amount and the rate, so that no other `transferred` can compete. Other layouts are covered by `AmountAfterBlankRun` and `TransferredRateIsParenthesized`, which state the value from character-level facts. With a second `transferred` on the line or at the start of the next one, the greedy `(.*)` in both Python and the model runs up to the last one.
- Patterns.LabelValueIsRestOfLine: the lemma covers only a value line that ends in a newline. On the last line without one, the final `\s` must still match a whitespace character, so the match backtracks and the value is shorter than the rest of the line; on `min: 1.09` it is empty.
