/** The three sysbench benchmarks the runner executes (CPUBenchmark, MemoryBenchmark,
    FileIOBenchmark): the argv each one runs, and `get_results`, which turns the
    output of that command into a flat map from metric names to unconverted text. */
module Benchmarks {
  import opened Strings
  import opened Patterns

  /** The benchmark classes. */
  datatype Kind = Cpu | Memory | FileIO

  /** The class name, `test.__class__.__name__`. */
  function ClassName(kind: Kind): string {
    match kind
    case Cpu => "CPUBenchmark"
    case Memory => "MemoryBenchmark"
    case FileIO => "FileIOBenchmark"
  }

  /** `get_resource_requests()`: no class overrides the base class's empty dict. */
  function ResourceRequests(kind: Kind): map<string, string> {
    map[]
  }

  /** `get_resource_limits()`: no class overrides the base class's empty dict. */
  function ResourceLimits(kind: Kind): map<string, string> {
    map[]
  }

  // ---------------------------------------------------------------------------
  // Commands

  /** `CPUBenchmark.get_command(time)`: four words, which `str.split()` gives back from
      the space-joined line, whatever the time. */
  function CpuCommand(time: int): (argv: seq<string>)
    ensures |argv| == 4 && Split(Join(" ", argv)) == argv
  {
    var argv := ["sysbench", "--test=cpu", "--time=" + IntToDecimal(time), "run"];
    assert IsToken("--test=cpu") && IsToken("--time=");
    FlagCommandSplitsBack("--test=cpu", "--time=", IntToDecimal(time));
    argv
  }

  /** `MemoryBenchmark.get_command(size)`: four words, which `str.split()` gives back
      from the space-joined line when the size holds no whitespace. */
  function MemoryCommand(size: string): (argv: seq<string>)
    ensures |argv| == 4 && (NoSpace(size) ==> Split(Join(" ", argv)) == argv)
  {
    var argv := ["sysbench", "--test=memory", "--memory-total-size=" + size, "run"];
    assert IsToken("--test=memory") && IsToken("--memory-total-size=");
    FlagCommandSplitsBack("--test=memory", "--memory-total-size=", size);
    argv
  }

  /** The one string `FileIOBenchmark.get_command` formats before splitting it: a
      `prepare` run and the measured `run`, chained with `&&`. */
  function FileIOCommandLine(size: string, numFiles: int, time: int): string {
    "sysbench --test=fileio --file-num=" + IntToDecimal(numFiles) + " --file-total-size=" + size
    + " prepare && sysbench " + "--test=fileio --file-total-size=" + size
    + " --file-num=" + IntToDecimal(numFiles) + " --file-test-mode=rndrw --time=" + IntToDecimal(time)
    + " " + "--max-requests=0 run"
  }

  /** `FileIOBenchmark.get_command(size, num_files, time)`: the command line, split on
      whitespace, which `str.split()` gives back from the space-joined words. */
  function FileIOCommand(size: string, numFiles: int, time: int): (argv: seq<string>)
    ensures Split(Join(" ", argv)) == argv
  {
    var argv := Split(FileIOCommandLine(size, numFiles, time));
    SplitJoin(argv);
    argv
  }

  /** The words of the FileIO command line, as a reader counts them. */
  function FileIOWords(size: string, numFiles: int, time: int): seq<string> {
    var files := IntToDecimal(numFiles);
    [ "sysbench", "--test=fileio", "--file-num=" + files, "--file-total-size=" + size, "prepare", "&&",
      "sysbench", "--test=fileio", "--file-total-size=" + size, "--file-num=" + files,
      "--file-test-mode=rndrw", "--time=" + IntToDecimal(time), "--max-requests=0", "run" ]
  }

  /** `get_command()` with its default arguments, as `get_results` and the pod builder
      call it: an argv that survives being joined with spaces and split again. */
  function DefaultCommand(kind: Kind): (argv: seq<string>)
    ensures Split(Join(" ", argv)) == argv
  {
    match kind
    case Cpu => CpuCommand(60)
    case Memory => assert NoSpace("500G"); MemoryCommand("500G")
    case FileIO => FileIOCommand("5G", 5, 100)
  }

  /** For a size without whitespace, the FileIO command is fourteen words: the `prepare`
      run, `&&`, then the measured run ending in `run`; joining them with single spaces
      gives back the command line they were split from. */
  lemma FileIOCommandWords(size: string, numFiles: int, time: int)
    requires NoSpace(size)
    ensures FileIOCommand(size, numFiles, time) == FileIOWords(size, numFiles, time)
    ensures Join(" ", FileIOCommand(size, numFiles, time)) == FileIOCommandLine(size, numFiles, time)
    ensures var argv := FileIOCommand(size, numFiles, time);
      && |argv| == 14
      && argv[0] == argv[6] == "sysbench"
      && argv[4] == "prepare" && argv[5] == "&&" && argv[13] == "run"
  {
    var words := FileIOWords(size, numFiles, time);
    WordsAreTokens(size, numFiles, time);
    JoinWords(size, numFiles, time);
    SplitJoin(words);
  }

  /** Every FileIO word is a token when the size has no whitespace. */
  lemma WordsAreTokens(size: string, numFiles: int, time: int)
    requires NoSpace(size)
    ensures AllTokens(FileIOWords(size, numFiles, time))
  {
    var files, secs := IntToDecimal(numFiles), IntToDecimal(time);
    TokenAfterFlag("--file-num=", files);
    TokenAfterFlag("--file-total-size=", size);
    TokenAfterFlag("--time=", secs);
    RunWordsAreTokens();
    FlagWordsAreTokens();
    var r13 := ["run"];                              TokensCons("run", []);
    var r12 := ["--max-requests=0"] + r13;           TokensCons("--max-requests=0", r13);
    var r11 := ["--time=" + secs] + r12;             TokensCons("--time=" + secs, r12);
    var r10 := ["--file-test-mode=rndrw"] + r11;     TokensCons("--file-test-mode=rndrw", r11);
    var r9 := ["--file-num=" + files] + r10;         TokensCons("--file-num=" + files, r10);
    var r8 := ["--file-total-size=" + size] + r9;    TokensCons("--file-total-size=" + size, r9);
    var r7 := ["--test=fileio"] + r8;                TokensCons("--test=fileio", r8);
    var r6 := ["sysbench"] + r7;                     TokensCons("sysbench", r7);
    var r5 := ["&&"] + r6;                           TokensCons("&&", r6);
    var r4 := ["prepare"] + r5;                      TokensCons("prepare", r5);
    var r3 := ["--file-total-size=" + size] + r4;    TokensCons("--file-total-size=" + size, r4);
    var r2 := ["--file-num=" + files] + r3;          TokensCons("--file-num=" + files, r3);
    var r1 := ["--test=fileio"] + r2;                TokensCons("--test=fileio", r2);
    var r0 := ["sysbench"] + r1;                     TokensCons("sysbench", r1);
    assert r0 == FileIOWords(size, numFiles, time);
  }

  /** The literal words around the runs of the FileIO command line are tokens. */
  lemma RunWordsAreTokens()
    ensures IsToken("sysbench") && IsToken("--test=fileio") && IsToken("prepare") && IsToken("&&")
    ensures IsToken("run")
  {
  }

  /** The literal flags of the FileIO command line are tokens. */
  lemma FlagWordsAreTokens()
    ensures IsToken("--file-test-mode=rndrw") && IsToken("--max-requests=0")
    ensures IsToken("--file-num=") && IsToken("--file-total-size=") && IsToken("--time=")
  {
  }

  /** The FileIO words joined with single spaces are the FileIO command line. The
      words are joined in three groups, each of which is compared with the line's
      text in short literal pieces. */
  lemma JoinWords(size: string, numFiles: int, time: int)
    ensures Join(" ", FileIOWords(size, numFiles, time)) == FileIOCommandLine(size, numFiles, time)
  {
    var files, secs := IntToDecimal(numFiles), IntToDecimal(time);
    var a := ["sysbench", "--test=fileio", "--file-num=" + files, "--file-total-size=" + size];
    var b := ["prepare", "&&", "sysbench", "--test=fileio", "--file-total-size=" + size];
    var c := ["--file-num=" + files, "--file-test-mode=rndrw", "--time=" + secs, "--max-requests=0", "run"];
    assert FileIOWords(size, numFiles, time) == (a + b) + c;
    JoinAppend(a, b);
    JoinAppend(a + b, c);
    JoinPrepareFlags(size, files);
    JoinRunFlags(size);
    JoinMeasuredFlags(files, secs);
    RegroupLine(size, files, secs);
  }

  /** The first four words: the `prepare` run's flags. */
  lemma JoinPrepareFlags(size: string, files: string)
    ensures Join(" ", ["sysbench", "--test=fileio", "--file-num=" + files, "--file-total-size=" + size])
      == "sysbench --test=fileio --file-num=" + files + " --file-total-size=" + size
  {
    var r3 := ["--file-total-size=" + size];
    var r2 := ["--file-num=" + files] + r3;  JoinCons("--file-num=" + files, r3);
    var r1 := ["--test=fileio"] + r2;        JoinCons("--test=fileio", r2);
    var r0 := ["sysbench"] + r1;             JoinCons("sysbench", r1);
    assert r0 == ["sysbench", "--test=fileio", "--file-num=" + files, "--file-total-size=" + size];
    PrepareFlagsText(size, files);
  }

  /** The next five words: `prepare && sysbench` and the measured run's first flags. */
  lemma JoinRunFlags(size: string)
    ensures Join(" ", ["prepare", "&&", "sysbench", "--test=fileio", "--file-total-size=" + size])
      == "prepare && sysbench " + "--test=fileio --file-total-size=" + size
  {
    var r4 := ["--file-total-size=" + size];
    var r3 := ["--test=fileio"] + r4;  JoinCons("--test=fileio", r4);
    var r2 := ["sysbench"] + r3;       JoinCons("sysbench", r3);
    var r1 := ["&&"] + r2;             JoinCons("&&", r2);
    var r0 := ["prepare"] + r1;        JoinCons("prepare", r1);
    assert r0 == ["prepare", "&&", "sysbench", "--test=fileio", "--file-total-size=" + size];
    RunFlagsText(size);
  }

  /** The last five words: the rest of the measured run. */
  lemma JoinMeasuredFlags(files: string, secs: string)
    ensures Join(" ", ["--file-num=" + files, "--file-test-mode=rndrw", "--time=" + secs, "--max-requests=0", "run"])
      == "--file-num=" + files + " --file-test-mode=rndrw --time=" + secs + " " + "--max-requests=0 run"
  {
    var r4 := ["run"];
    var r3 := ["--max-requests=0"] + r4;        JoinCons("--max-requests=0", r4);
    var r2 := ["--time=" + secs] + r3;          JoinCons("--time=" + secs, r3);
    var r1 := ["--file-test-mode=rndrw"] + r2;  JoinCons("--file-test-mode=rndrw", r2);
    var r0 := ["--file-num=" + files] + r1;     JoinCons("--file-num=" + files, r1);
    assert r0 == ["--file-num=" + files, "--file-test-mode=rndrw", "--time=" + secs, "--max-requests=0", "run"];
    MeasuredFlagsText(files, secs);
  }

  /** Regrouping the joined words into the line's literal pieces. */
  lemma PrepareFlagsText(size: string, files: string)
    ensures "sysbench" + " " + ("--test=fileio" + " " + ("--file-num=" + files + " " + ("--file-total-size=" + size)))
      == "sysbench --test=fileio --file-num=" + files + " --file-total-size=" + size
  {
  }

  /** Regrouping the joined words into the line's literal pieces. */
  lemma RunFlagsText(size: string)
    ensures "prepare" + " " + ("&&" + " " + ("sysbench" + " " + ("--test=fileio" + " " + ("--file-total-size=" + size))))
      == "prepare && sysbench " + "--test=fileio --file-total-size=" + size
  {
  }

  /** Regrouping the joined words into the line's literal pieces. */
  lemma MeasuredFlagsText(files: string, secs: string)
    ensures "--file-num=" + files + " " + ("--file-test-mode=rndrw" + " " + ("--time=" + secs + " " + ("--max-requests=0" + " " + "run")))
      == "--file-num=" + files + " --file-test-mode=rndrw --time=" + secs + " " + "--max-requests=0 run"
  {
  }

  /** The command line is the three groups with a space between each. */
  lemma RegroupLine(size: string, files: string, secs: string)
    ensures "sysbench --test=fileio --file-num=" + files + " --file-total-size=" + size
      + " prepare && sysbench " + "--test=fileio --file-total-size=" + size
      + " --file-num=" + files + " --file-test-mode=rndrw --time=" + secs
      + " " + "--max-requests=0 run"
      == ("sysbench --test=fileio --file-num=" + files + " --file-total-size=" + size) + " "
      + ("prepare && sysbench " + "--test=fileio --file-total-size=" + size) + " "
      + ("--file-num=" + files + " --file-test-mode=rndrw --time=" + secs + " " + "--max-requests=0 run")
  {
    assert " prepare && sysbench " == " " + "prepare && sysbench ";
    assert " --file-num=" == " " + "--file-num=";
  }

  /** A flag followed by a token is a token. */
  lemma TokenAfterFlag(flag: string, value: string)
    requires IsToken(flag) && NoSpace(value)
    ensures IsToken(flag + value)
  {
    var t := flag + value;
    forall k | 0 <= k < |t| ensures !IsSpace(t[k]) {
      if k < |flag| { assert t[k] == flag[k]; } else { assert t[k] == value[k - |flag|]; }
    }
  }

  /** A command `sysbench <test> <flag><value> run` splits back into its four words when
      the value holds no whitespace. */
  lemma FlagCommandSplitsBack(test: string, flag: string, value: string)
    requires IsToken(test) && IsToken(flag)
    ensures var argv := ["sysbench", test, flag + value, "run"];
      NoSpace(value) ==> Split(Join(" ", argv)) == argv
  {
    if NoSpace(value) {
      TokenAfterFlag(flag, value);
      assert IsToken("sysbench") && IsToken("run");
      assert AllTokens(["sysbench", test, flag + value, "run"]);
      SplitJoin(["sysbench", test, flag + value, "run"]);
    }
  }

  /** With default arguments the CPU command runs for sixty seconds. */
  lemma DefaultCpuCommand()
    ensures DefaultCommand(Cpu) == ["sysbench", "--test=cpu", "--time=60", "run"]
  {
    assert IntToDecimal(60) == "60";
    assert "--time=" + "60" == "--time=60";
  }

  /** With default arguments the memory command transfers 500G. */
  lemma DefaultMemoryCommand()
    ensures DefaultCommand(Memory) == ["sysbench", "--test=memory", "--memory-total-size=500G", "run"]
  {
    assert "--memory-total-size=" + "500G" == "--memory-total-size=500G";
  }

  /** With default arguments the FileIO command prepares and then runs five files
      totalling 5G for a hundred seconds. */
  lemma DefaultFileIOCommand()
    ensures DefaultCommand(FileIO) ==
      [ "sysbench", "--test=fileio", "--file-num=5", "--file-total-size=5G", "prepare", "&&",
        "sysbench", "--test=fileio", "--file-total-size=5G", "--file-num=5",
        "--file-test-mode=rndrw", "--time=100", "--max-requests=0", "run" ]
  {
    assert NoSpace("5G");
    FileIOCommandWords("5G", 5, 100);
    DefaultFileIOWords();
  }

  lemma DefaultFileIOWords()
    ensures FileIOWords("5G", 5, 100) ==
      [ "sysbench", "--test=fileio", "--file-num=5", "--file-total-size=5G", "prepare", "&&",
        "sysbench", "--test=fileio", "--file-total-size=5G", "--file-num=5",
        "--file-test-mode=rndrw", "--time=100", "--max-requests=0", "run" ]
  {
    assert IntToDecimal(5) == "5";
    assert IntToDecimal(100) == "100";
    assert "--file-num=" + "5" == "--file-num=5";
    assert "--file-total-size=" + "5G" == "--file-total-size=5G";
    assert "--time=" + "100" == "--time=100";
  }

  // ---------------------------------------------------------------------------
  // Results

  /** One metric of a report: the key it is stored under and the pattern whose first
      match is its value. */
  datatype Field = Field(key: string, pattern: Pattern)

  /** The exception `get_results` raises: `re.findall(...)[0]` on an empty list. The
      key says which metric's pattern found nothing. */
  datatype ParseError = IndexError(key: string)

  /** The CPU report's metrics, in the order `CPUBenchmark.get_results` extracts them. */
  function CpuFields(): seq<Field> {
    [
      Field("total_time", LabelPattern("total time:")),
      Field("total_events", LabelPattern("total number of events:")),
      Field("events_per_second", LabelPattern("events per second:")),
      Field("latency_min", LabelPattern("min:")),
      Field("latency_avg", LabelPattern("avg:")),
      Field("latency_max", LabelPattern("max:")),
      Field("latency_95th", LabelPattern("95th percentile:")),
      Field("latency_sum", LabelPattern("sum:"))
    ]
  }

  /** The memory report's metrics, in the order `MemoryBenchmark.get_results` extracts them. */
  function MemoryFields(): seq<Field> {
    [
      Field("total_time", LabelPattern("total time:")),
      Field("total_events", LabelPattern("total number of events:")),
      Field("transferred", TransferredAmount()),
      Field("write_per_sec", TransferredRate()),
      Field("latency_min", LabelPattern("min:")),
      Field("latency_avg", LabelPattern("avg:")),
      Field("latency_max", LabelPattern("max:")),
      Field("latency_95th", LabelPattern("95th percentile:")),
      Field("latency_sum", LabelPattern("sum:"))
    ]
  }

  /** The FileIO report's metrics, in the order `FileIOBenchmark.get_results` extracts them. */
  function FileIOFields(): seq<Field> {
    [
      Field("throughput_read", LabelPattern("read, MiB/s:")),
      Field("throughput_write", LabelPattern("written, MiB/s:")),
      Field("fileops_read", LabelPattern("reads/s:")),
      Field("fileops_write", LabelPattern("writes/s:")),
      Field("fileops_fsync", LabelPattern("fsyncs/s:")),
      Field("total_time", LabelPattern("total time:")),
      Field("total_events", LabelPattern("total number of events:")),
      Field("latency_min", LabelPattern("min:")),
      Field("latency_avg", LabelPattern("avg:")),
      Field("latency_max", LabelPattern("max:")),
      Field("latency_sum", LabelPattern("sum:")),
      Field("latency_95th", LabelPattern("95th percentile:"))
    ]
  }

  function Fields(kind: Kind): seq<Field> {
    match kind
    case Cpu => CpuFields()
    case Memory => MemoryFields()
    case FileIO => FileIOFields()
  }

  /** The keys of a list of fields. */
  function KeysOf(fields: seq<Field>): set<string> {
    set f | f in fields :: f.key
  }

  /** The keys of a non-empty list are its first key and the keys of the rest. */
  lemma KeysOfCons(fields: seq<Field>)
    requires fields != []
    ensures KeysOf(fields) == {fields[0].key} + KeysOf(fields[1..])
  {
    assert forall f :: f in fields <==> f == fields[0] || f in fields[1..];
  }

  /** No two fields share a key, as in a dict display whose keys are all different. */
  predicate DistinctKeys(fields: seq<Field>) {
    forall i, j :: 0 <= i < j < |fields| ==> fields[i].key != fields[j].key
  }

  /** The field's pattern finds nothing in the output. */
  predicate Missing(f: Field, output: string) {
    FindFirst(f.pattern, output).None?
  }

  /** Field `i` is the first whose pattern finds nothing. */
  predicate FirstMissing(fields: seq<Field>, output: string, i: int) {
    0 <= i < |fields| && Missing(fields[i], output) && forall j :: 0 <= j < i ==> !Missing(fields[j], output)
  }

  /** The `findall(...)[0]` calls of a `get_results`, one field after another: the first
      field whose pattern finds nothing raises, and otherwise every key maps to the first
      match of its pattern. */
  function Extract(fields: seq<Field>, output: string): (r: Result<map<string, string>, ParseError>)
    requires DistinctKeys(fields)
    ensures r.Success? <==> forall i :: 0 <= i < |fields| ==> !Missing(fields[i], output)
    ensures r.Success? ==> forall i :: 0 <= i < |fields| ==>
      fields[i].key in r.value && r.value[fields[i].key] == FindFirst(fields[i].pattern, output).value
  {
    if fields == [] then Success(map[])
    else
      match FindFirst(fields[0].pattern, output)
      case None => Failure(IndexError(fields[0].key))
      case Some(v) =>
        match Extract(fields[1..], output)
        case Failure(e) => Failure(e)
        case Success(m) => Success(m[fields[0].key := v])
  }

  /** A successful extraction holds exactly the fields' keys. */
  lemma {:induction false} ExtractKeys(fields: seq<Field>, output: string)
    requires DistinctKeys(fields)
    requires Extract(fields, output).Success?
    ensures Extract(fields, output).value.Keys == KeysOf(fields)
  {
    if fields != [] {
      ExtractKeys(fields[1..], output);
      KeysOfCons(fields);
    }
  }

  /** A failed extraction raises for the first field, in extraction order, whose
      pattern finds nothing. */
  lemma {:induction false} ExtractError(fields: seq<Field>, output: string)
    requires DistinctKeys(fields)
    requires Extract(fields, output).Failure?
    ensures exists i :: FirstMissing(fields, output, i) && Extract(fields, output).error == IndexError(fields[i].key)
  {
    if !Missing(fields[0], output) {
      ExtractError(fields[1..], output);
      var i :| FirstMissing(fields[1..], output, i) && Extract(fields[1..], output).error == IndexError(fields[1..][i].key);
      assert FirstMissing(fields, output, i + 1);
    } else {
      assert FirstMissing(fields, output, 0);
    }
  }

  /** The field tables have no repeated key. */
  lemma FieldsDistinct(kind: Kind)
    ensures DistinctKeys(Fields(kind))
  {
    match kind
    case Cpu => CpuFieldsDistinct();
    case Memory => MemoryFieldsDistinct();
    case FileIO => FileIOFieldsDistinct();
  }

  lemma CpuFieldsDistinct()
    ensures DistinctKeys(CpuFields())
  {
  }

  lemma MemoryFieldsDistinct()
    ensures DistinctKeys(MemoryFields())
  {
  }

  lemma FileIOFieldsDistinct()
    ensures DistinctKeys(FileIOFields())
  {
    FileIOKeysDistinctFrom(0, 4);
    FileIOKeysDistinctFrom(4, 8);
    FileIOKeysDistinctFrom(8, 12);
  }

  /** The keys of the FileIO fields in [lo, hi) differ from every later key. */
  lemma FileIOKeysDistinctFrom(lo: nat, hi: nat)
    requires (lo, hi) == (0, 4) || (lo, hi) == (4, 8) || (lo, hi) == (8, 12)
    ensures forall i, j :: lo <= i < hi && i < j < |FileIOFields()| ==> FileIOFields()[i].key != FileIOFields()[j].key
  {
  }


  /** No field is stored under `"command"`, the key the report adds last. */
  lemma NoCommandField(kind: Kind)
    ensures forall i :: 0 <= i < |Fields(kind)| ==> Fields(kind)[i].key != "command"
  {
  }

  /** `" ".join(self.get_command())`: the command line a report records. */
  function CommandText(kind: Kind): (line: string)
    ensures Split(line) == DefaultCommand(kind)
  {
    Join(" ", DefaultCommand(kind))
  }

  /** `get_results(output)` of each benchmark class: the metrics its patterns find in the
      output, or the `IndexError` of the first metric they miss, plus the command line
      under `"command"`. */
  function GetResults(kind: Kind, output: string): (r: Result<map<string, string>, ParseError>)
    ensures r.Success? <==> forall i :: 0 <= i < |Fields(kind)| ==> !Missing(Fields(kind)[i], output)
    ensures r.Success? ==> "command" in r.value && r.value["command"] == CommandText(kind)
    ensures r.Success? ==> forall i :: 0 <= i < |Fields(kind)| ==>
      Fields(kind)[i].key in r.value && r.value[Fields(kind)[i].key] == FindFirst(Fields(kind)[i].pattern, output).value
  {
    FieldsDistinct(kind);
    NoCommandField(kind);
    match Extract(Fields(kind), output)
    case Failure(e) => Failure(e)
    case Success(m) => Success(m["command" := CommandText(kind)])
  }

  /** A report holds the fields' keys and `"command"`. */
  lemma ResultKeys(kind: Kind, output: string)
    requires GetResults(kind, output).Success?
    ensures GetResults(kind, output).value.Keys == KeysOf(Fields(kind)) + {"command"}
  {
    FieldsDistinct(kind);
    ExtractKeys(Fields(kind), output);
    var m := Extract(Fields(kind), output).value;
    assert GetResults(kind, output).value == m["command" := CommandText(kind)];
  }

  /** A report has nine keys for the CPU, ten for memory and thirteen for FileIO. */
  lemma ResultKeyCount(kind: Kind, output: string)
    requires GetResults(kind, output).Success?
    ensures |GetResults(kind, output).value| == match kind case Cpu => 9 case Memory => 10 case FileIO => 13
  {
    ResultKeys(kind, output);
    FieldsDistinct(kind);
    NoCommandField(kind);
    CommandKeyCount(Fields(kind));
  }

  /** Distinct field keys, none of them `"command"`, plus `"command"`: one key more than
      there are fields. */
  lemma CommandKeyCount(fields: seq<Field>)
    requires DistinctKeys(fields)
    requires forall i :: 0 <= i < |fields| ==> fields[i].key != "command"
    ensures |KeysOf(fields) + {"command"}| == |fields| + 1
  {
    DistinctKeyCount(fields);
    assert "command" !in KeysOf(fields);
  }

  /** Distinct keys: as many keys as fields. */
  lemma {:induction false} DistinctKeyCount(fields: seq<Field>)
    requires DistinctKeys(fields)
    ensures |KeysOf(fields)| == |fields|
  {
    if fields != [] {
      KeysOfCons(fields);
      DistinctKeyCount(fields[1..]);
      assert fields[0].key !in KeysOf(fields[1..]);
    }
  }

  /** A failed `get_results` raises for the first metric, in the order the method
      extracts them, whose pattern finds nothing in the output. */
  lemma ResultError(kind: Kind, output: string)
    requires GetResults(kind, output).Failure?
    ensures exists i ::
      FirstMissing(Fields(kind), output, i) && GetResults(kind, output).error == IndexError(Fields(kind)[i].key)
  {
    FieldsDistinct(kind);
    ExtractError(Fields(kind), output);
  }

  /** A field read by `r"<title>\s*(.*)\s"`, with a title that ends in a colon. */
  predicate IsLabelField(f: Field) {
    f.pattern == LabelPattern(f.pattern.lead) && f.pattern.lead != [] && f.pattern.lead[|f.pattern.lead| - 1] == ':'
  }

  /** With output that ends in a newline, a titled field is found exactly when its
      title occurs. */
  lemma LabelFieldFound(f: Field, output: string)
    requires IsLabelField(f)
    requires |output| > 0 && output[|output| - 1] == '\n'
    ensures !Missing(f, output) <==> Occurs(output, f.pattern.lead)
  {
    LabelFoundIff(f.pattern.lead, output);
  }

  /** Every CPU and FileIO field is a titled field, and so is every memory field but
      the two around `transferred`. */
  lemma CpuLabelFields()
    ensures forall i :: 0 <= i < |CpuFields()| ==> IsLabelField(CpuFields()[i])
  {
  }

  lemma MemoryLabelFields()
    ensures forall i :: 0 <= i < |MemoryFields()| && i != 2 && i != 3 ==> IsLabelField(MemoryFields()[i])
  {
  }

  lemma FileIOLabelFields()
    ensures forall i :: 0 <= i < |FileIOFields()| ==> IsLabelField(FileIOFields()[i])
  {
  }

  /** On output that ends in a newline, the CPU and FileIO reports parse exactly when
      every one of their titles occurs in the output. */
  lemma TitledResultsFoundIff(kind: Kind, output: string)
    requires kind != Memory
    requires |output| > 0 && output[|output| - 1] == '\n'
    ensures GetResults(kind, output).Success? <==>
      forall i :: 0 <= i < |Fields(kind)| ==> Occurs(output, Fields(kind)[i].pattern.lead)
  {
    if kind == Cpu {
      CpuLabelFields();
      TitledFieldsFound(CpuFields(), output);
    } else {
      FileIOLabelFields();
      TitledFieldsFound(FileIOFields(), output);
    }
  }

  /** A table of titled fields is found exactly when every title occurs. */
  lemma TitledFieldsFound(fields: seq<Field>, output: string)
    requires forall i :: 0 <= i < |fields| ==> IsLabelField(fields[i])
    requires |output| > 0 && output[|output| - 1] == '\n'
    ensures (forall i :: 0 <= i < |fields| ==> !Missing(fields[i], output)) <==>
      (forall i :: 0 <= i < |fields| ==> Occurs(output, fields[i].pattern.lead))
  {
    forall i | 0 <= i < |fields|
      ensures !Missing(fields[i], output) <==> Occurs(output, fields[i].pattern.lead)
    {
      LabelFieldFound(fields[i], output);
    }
  }

  /** On output that ends in a newline, the memory report parses exactly when its titles
      occur, some whitespace character is directly followed by `transferred`, and some
      `transferred` is followed by whitespace, a `(` and, later on that line, a `)`. */
  lemma MemoryResultsFoundIff(output: string)
    requires |output| > 0 && output[|output| - 1] == '\n'
    ensures GetResults(Memory, output).Success? <==>
      && (forall i :: 0 <= i < |MemoryFields()| && i != 2 && i != 3 ==> Occurs(output, MemoryFields()[i].pattern.lead))
      && (exists j: nat :: j < |output| && IsSpace(output[j]) && StartsAt(output, j + 1, "transferred"))
      && (exists p: nat, q: nat, e: nat ::
           && StartsAt(output, p, "transferred") && p + 11 <= q < e < |output|
           && SpacesBetween(output, p + 11, q) && output[q] == '('
           && NoNewlineBetween(output, q + 1, e) && output[e] == ')')
  {
    MemoryTitlesFound(output);
    MemoryTransferFound(output);
    assert Fields(Memory) == MemoryFields();
    assert (forall i :: 0 <= i < |MemoryFields()| ==> !Missing(MemoryFields()[i], output)) <==>
      && (forall i :: 0 <= i < |MemoryFields()| && i != 2 && i != 3 ==> !Missing(MemoryFields()[i], output))
      && !Missing(MemoryFields()[2], output) && !Missing(MemoryFields()[3], output);
  }

  /** The titled memory fields are found exactly when their titles occur. */
  lemma MemoryTitlesFound(output: string)
    requires |output| > 0 && output[|output| - 1] == '\n'
    ensures (forall i :: 0 <= i < |MemoryFields()| && i != 2 && i != 3 ==> !Missing(MemoryFields()[i], output)) <==>
      (forall i :: 0 <= i < |MemoryFields()| && i != 2 && i != 3 ==> Occurs(output, MemoryFields()[i].pattern.lead))
  {
    MemoryLabelFields();
    forall i | 0 <= i < |MemoryFields()| && i != 2 && i != 3
      ensures !Missing(MemoryFields()[i], output) <==> Occurs(output, MemoryFields()[i].pattern.lead)
    {
      LabelFieldFound(MemoryFields()[i], output);
    }
  }

  /** When the amount and the rate of the memory report are found. */
  lemma MemoryTransferFound(output: string)
    ensures !Missing(MemoryFields()[2], output) <==>
      exists j: nat :: j < |output| && IsSpace(output[j]) && StartsAt(output, j + 1, "transferred")
    ensures !Missing(MemoryFields()[3], output) <==>
      exists p: nat, q: nat, e: nat ::
        && StartsAt(output, p, "transferred") && p + 11 <= q < e < |output|
        && SpacesBetween(output, p + 11, q) && output[q] == '('
        && NoNewlineBetween(output, q + 1, e) && output[e] == ')'
  {
    assert MemoryFields()[2].pattern == TransferredAmount() && MemoryFields()[3].pattern == TransferredRate();
    TransferredAmountFoundIff(output);
    TransferredRateFoundIff(output);
  }

  // ---------------------------------------------------------------------------
  // Sample report lines

  /** The CPU report's 95th-percentile line reads as `1.32`, whatever follows it. */
  lemma CpuPercentileSample(rest: string)
    ensures FindFirst(LabelPattern("95th percentile:"), "95th percentile:" + Spaces(24) + "1.32" + "\n" + rest) == Some("1.32")
  {
    assert '\n' !in "1.32";
    LabelLineValue("95th percentile:", Spaces(24), "1.32", rest);
  }

  /** The CPU report's latency sum line reads as `9991.44`. */
  lemma CpuSumSample(rest: string)
    ensures FindFirst(LabelPattern("sum:"), "sum:" + Spaces(33) + "9991.44" + "\n" + rest) == Some("9991.44")
  {
    assert '\n' !in "9991.44";
    LabelLineValue("sum:", Spaces(33), "9991.44", rest);
  }

  /** The FileIO report's read throughput line reads as `3.72`. */
  lemma FileIOThroughputSample(rest: string)
    ensures FindFirst(LabelPattern("read, MiB/s:"), "read, MiB/s:" + Spaces(18) + "3.72" + "\n" + rest) == Some("3.72")
  {
    assert '\n' !in "3.72";
    LabelLineValue("read, MiB/s:", Spaces(18), "3.72", rest);
  }

  /** The memory report as the fixture shows it: after the `Total operations` line, a
      blank line and `n` blanks of indentation, the line `34514.69 MiB transferred
      (3450.69 MiB/sec)` gives the amount `34514.69 MiB` and the rate `3450.69 MiB/sec`;
      the amount pattern's `\s*` swallows the newlines and the indentation. */
  lemma MemoryTransferSample(n: nat, rest: string)
    requires rest == [] || rest[0] != 't'
    ensures var output := "Total operations: 35343044 (3533507.23 per second)" + ("\n\n" + Spaces(n))
        + "34514.69 MiB" + " transferred (" + "3450.69 MiB/sec" + ")\n" + rest;
      && FindFirst(TransferredAmount(), output) == Some("34514.69 MiB")
      && FindFirst(TransferredRate(), output) == Some("3450.69 MiB/sec")
  {
    var text := "Total operations: 35343044 (3533507.23 per second)";
    var blank := "\n\n" + Spaces(n);
    SamplePreamble(n);
    assert 't' !in "34514.69 MiB" && '\n' !in "34514.69 MiB";
    assert 't' !in "3450.69 MiB/sec" && '\n' !in "3450.69 MiB/sec";
    TransferredLineAmount(text, blank, "34514.69 MiB", "3450.69 MiB/sec", rest);
    TransferredLineRate(text, blank, "34514.69 MiB", "3450.69 MiB/sec", rest);
  }

  /** The `Total operations` line and the blank run after it, `n` blanks of indentation
      included, may precede the memory line. */
  lemma SamplePreamble(n: nat)
    ensures Preamble("Total operations: 35343044 (3533507.23 per second)", "\n\n" + Spaces(n))
  {
    var text := "Total operations: 35343044 (3533507.23 per second)";
    var blank := "\n\n" + Spaces(n);
    assert text == "Total operations: 35343044" + " (3533507.23 per second)";
    assert NoTrIn("Total operations: 35343044") && NoTrIn(" (3533507.23 per second)");
    NoTrInJoin("Total operations: 35343044", " (3533507.23 per second)");
    forall k | 0 <= k < |blank| ensures IsSpace(blank[k]) {
      if k >= 2 { assert blank[k] == Spaces(n)[k - 2]; }
    }
    assert blank[0] == '\n';
  }
}
