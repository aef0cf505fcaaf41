/** One call of `GenProto(source, require)`: which `_pb2.py` file a `.proto`
    file is compiled to, whether that file has to be regenerated, and what
    the call then does to the process (lines printed, messages written to
    standard error, the compiler command spawned, the exit requested) and
    to the file system (the output the compiler writes). */
module ProtoGen {
  import opened Wrappers
  import opened Text
  import opened FileSystem

  /** `source.replace('.proto', '_pb2.py').replace('../src/', '')`. */
  function OutputName(source: string): string {
    ReplaceAll(ReplaceAll(source, ".proto", "_pb2.py"), "../src/", "")
  }

  /** The compiler's arguments: both include roots, Python output into the
      current directory, and the source. */
  function ProtocCommand(protoc: string, source: string): (c: seq<string>)
    ensures |c| == 5 && c[0] == protoc && c[4] == source
  {
    [protoc, "-I../src", "-I.", "--python_out=.", source]
  }

  /** The output must be (re)generated: it is missing, or its source exists
      and was modified after it. */
  predicate Stale(files: Files, source: string, output: string) {
    output !in files || (source in files && files[source] > files[output])
  }

  /** The path `GenProto` takes. */
  datatype Decision =
    | Skip                                         // optional source that does not exist
    | UpToDate(output: string)                     // nothing to regenerate
    | MissingSource(source: string, output: string) // required source is missing
    | NoCompiler(output: string)                   // no `protoc` was found
    | Invoke(output: string, command: seq<string>) // the compiler is spawned

  function Decide(files: Files, protoc: Option<string>, source: string, require: bool): Decision {
    if !require && source !in files then Skip
    else
      var output := OutputName(source);
      if !Stale(files, source, output) then UpToDate(output)
      else if source !in files then MissingSource(source, output)
      else if protoc.None? then NoCompiler(output)
      else Invoke(output, ProtocCommand(protoc.value, source))
  }

  /** What a script run has done so far: the lines printed to standard
      output (without their newline), the writes to standard error, the
      commands spawned, and the status passed to `sys.exit`, if any. */
  datatype Effect = Effect(stdout: seq<string>, stderr: seq<string>, spawned: seq<seq<string>>, exit: Option<int>)
  {
    /** `this` followed by `next`; nothing follows an exit. */
    function Then(next: Effect): Effect {
      if exit.Some? then this
      else Effect(stdout + next.stdout, stderr + next.stderr, spawned + next.spawned, next.exit)
    }
  }

  const NO_EFFECT := Effect([], [], [], None)

  const NO_PROTOC_MESSAGE := "protoc is not installed nor found in ../src.  Please compile it or install the binary package.\n"

  function GeneratingLine(output: string): string {
    "Generating " + output + "..."
  }

  function MissingSourceMessage(source: string): string {
    "Can't find required file: " + source + "\n"
  }

  /** The effect of a decision, given the status the compiler would exit
      with. Every failure exits with -1, whatever the compiler returned. */
  function Apply(d: Decision, childStatus: int): Effect {
    match d
    case Skip => NO_EFFECT
    case UpToDate(_) => NO_EFFECT
    case MissingSource(source, output) =>
      Effect([GeneratingLine(output)], [MissingSourceMessage(source)], [], Some(-1))
    case NoCompiler(output) =>
      Effect([GeneratingLine(output)], [NO_PROTOC_MESSAGE], [], Some(-1))
    case Invoke(output, command) =>
      Effect([GeneratingLine(output)], [], [command], if childStatus == 0 then None else Some(-1))
  }

  /** The file system after a decision: a compiler that succeeds has written
      the output, stamped with the time `now`. */
  function Written(files: Files, d: Decision, childStatus: int, now: int): Files {
    if d.Invoke? && childStatus == 0 then files[d.output := now] else files
  }

  // ---------------------------------------------------------------------
  // Output names

  /** No occurrence of `.proto` starts inside `root + p` when `p` has no dot. */
  lemma ProtoSuffixReplaced(root: string, p: string)
    requires root == "" || root == "../src/"
    requires '.' !in p
    ensures ReplaceAll(root + p + ".proto", ".proto", "_pb2.py") == root + p + "_pb2.py"
  {
    ProtoSuffixOfName(p);
    if root == "../src/" {
      assert root + p + ".proto" == root + (p + ".proto");
      assert root + p + "_pb2.py" == root + (p + "_pb2.py");
      SrcRootKept(p + ".proto");
    } else {
      assert root + p + ".proto" == p + ".proto";
      assert root + p + "_pb2.py" == p + "_pb2.py";
    }
  }

  /** A dot-free name followed by `.proto` has its one suffix replaced. */
  lemma ProtoSuffixOfName(p: string)
    requires '.' !in p
    ensures ReplaceAll(p + ".proto", ".proto", "_pb2.py") == p + "_pb2.py"
  {
    var s := p + ".proto";
    forall i: nat | i < |p|
      ensures !OccursAt(s, ".proto", i)
    {
      assert s[i] == p[i];
      NotOccursAt(s, ".proto", i, 0);
    }
    ReplaceAllKeepsPrefix(s, |p|, ".proto", "_pb2.py");
    assert s[..|p|] == p;
    assert s[|p|..] == ".proto" + [];
    ReplaceAllAtStart(".proto", [], "_pb2.py");
  }

  /** No occurrence of `.proto` starts inside the root `../src/`. */
  lemma SrcRootKept(t: string)
    ensures ReplaceAll("../src/" + t, ".proto", "_pb2.py") == "../src/" + ReplaceAll(t, ".proto", "_pb2.py")
  {
    var s := "../src/" + t;
    assert s[..7] == "../src/";
    forall i: nat | i < 7
      ensures !OccursAt(s, ".proto", i)
    {
      assert s[i] == "../src/"[i];
      if i < 2 {
        assert s[i + 1] == "../src/"[i + 1];
        NotOccursAt(s, ".proto", i, 1);
      } else {
        NotOccursAt(s, ".proto", i, 0);
      }
    }
    ReplaceAllKeepsPrefix(s, 7, ".proto", "_pb2.py");
    assert s[7..] == t;
  }

  /** `../src/` cannot occur in a dot-free name followed by `_pb2.py`. */
  lemma PbNameKeepsNoRoot(p: string)
    requires '.' !in p
    ensures ReplaceAll(p + "_pb2.py", "../src/", "") == p + "_pb2.py"
  {
    var t := p + "_pb2.py";
    forall i: nat | i <= |t|
      ensures !OccursAt(t, "../src/", i)
    {
      if i + 7 <= |t| {
        if i < |p| {
          assert t[i] == p[i];
        } else {
          assert t[i] == '_';
        }
        NotOccursAt(t, "../src/", i, 0);
      }
    }
    ReplaceAllAbsent(t, "../src/", "");
  }

  /** A `.proto` file under `../src/` is compiled to the same relative path
      in the current directory, and one elsewhere next to itself, with its
      extension turned into `_pb2.py`. */
  lemma OutputNameOfProto(root: string, p: string)
    requires root == "" || root == "../src/"
    requires '.' !in p
    ensures OutputName(root + p + ".proto") == p + "_pb2.py"
  {
    ProtoSuffixReplaced(root, p);
    if root == "../src/" {
      assert root + p + "_pb2.py" == "../src/" + (p + "_pb2.py");
      ReplaceAllAtStart("../src/", p + "_pb2.py", "");
    } else {
      assert root + p + "_pb2.py" == p + "_pb2.py";
    }
    PbNameKeepsNoRoot(p);
  }

  // ---------------------------------------------------------------------
  // One call

  /** An optional source that does not exist is passed over silently. */
  lemma OptionalMissingSkipped(files: Files, protoc: Option<string>, source: string, childStatus: int, now: int)
    requires source !in files
    ensures Apply(Decide(files, protoc, source, false), childStatus) == NO_EFFECT
    ensures Written(files, Decide(files, protoc, source, false), childStatus, now) == files
  {
  }

  /** Nothing happens when the output exists and its source is missing or
      not newer, required or not; in particular equal times count as up to
      date. */
  lemma NothingWhenUpToDate(files: Files, protoc: Option<string>, source: string, require: bool, childStatus: int, now: int)
    requires OutputName(source) in files
    requires source in files ==> files[source] <= files[OutputName(source)]
    ensures Apply(Decide(files, protoc, source, require), childStatus) == NO_EFFECT
    ensures Written(files, Decide(files, protoc, source, require), childStatus, now) == files
  {
  }

  /** A required source that is missing, with no output, exits with -1 after
      announcing the output and naming the source, and does so before the
      compiler is even looked at. */
  lemma MissingSourceFails(files: Files, protoc: Option<string>, source: string, childStatus: int)
    requires source !in files && OutputName(source) !in files
    ensures Apply(Decide(files, protoc, source, true), childStatus)
            == Effect([GeneratingLine(OutputName(source))], [MissingSourceMessage(source)], [], Some(-1))
  {
  }

  /** A stale output with no compiler exits with -1 after announcing it. */
  lemma NoCompilerFails(files: Files, source: string, require: bool, childStatus: int)
    requires source in files && Stale(files, source, OutputName(source))
    ensures Apply(Decide(files, None, source, require), childStatus)
            == Effect([GeneratingLine(OutputName(source))], [NO_PROTOC_MESSAGE], [], Some(-1))
  {
  }

  /** A stale output with an existing source and a compiler is regenerated by
      exactly one compiler call; the run goes on only when that call returns
      0, and otherwise exits with -1, not with the compiler's status. */
  lemma StaleRegenerated(files: Files, protoc: string, source: string, require: bool, childStatus: int, now: int)
    requires source in files && Stale(files, source, OutputName(source))
    ensures var e := Apply(Decide(files, Some(protoc), source, require), childStatus);
            && e.stdout == [GeneratingLine(OutputName(source))]
            && e.stderr == []
            && e.spawned == [ProtocCommand(protoc, source)]
            && (e.exit.None? <==> childStatus == 0)
            && (e.exit.Some? ==> e.exit.value == -1)
    ensures childStatus == 0 ==>
            Written(files, Decide(files, Some(protoc), source, require), childStatus, now) == files[OutputName(source) := now]
  {
  }

  /** A call exits, if at all, with -1, and spawns nothing but the compiler
      on its own source. */
  lemma OnlyCompilerOnSource(files: Files, protoc: Option<string>, source: string, require: bool, childStatus: int)
    ensures var e := Apply(Decide(files, protoc, source, require), childStatus);
            && (e.exit.None? || e.exit == Some(-1))
            && (e.spawned == [] || (protoc.Some? && e.spawned == [ProtocCommand(protoc.value, source)]))
  {
  }

  /** The compiler is spawned exactly when the source exists, the output is
      stale and a compiler was found. */
  lemma InvokeExactly(files: Files, protoc: Option<string>, source: string, require: bool)
    ensures Decide(files, protoc, source, require).Invoke?
            <==> source in files && Stale(files, source, OutputName(source)) && protoc.Some?
  {
  }

  /** Once the compiler has written the output at a time no earlier than the
      source's, the same call finds nothing to do. */
  lemma RegeneratedIsUpToDate(files: Files, protoc: Option<string>, source: string, require: bool, now: int)
    requires Decide(files, protoc, source, require).Invoke?
    requires files[source] <= now
    ensures Decide(Written(files, Decide(files, protoc, source, require), 0, now), protoc, source, require)
            == UpToDate(OutputName(source))
  {
  }
}
