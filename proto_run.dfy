/** A sequence of `GenProto` calls in one script run, as `build_py` makes
    them: twelve required core protos, then the optional unittest protos of
    `GenerateUnittestProtos`. The first call that exits ends the run. */
module ProtoRun {
  import opened Wrappers
  import opened FileSystem
  import opened ProtoGen

  /** One `GenProto(source, require)` call. */
  datatype Task = Task(source: string, require: bool)

  /** The process effects so far together with the file system. */
  datatype Outcome = Outcome(effect: Effect, files: Files)

  /** One call made on a process that has not exited. */
  function Step(o: Outcome, protoc: Option<string>, t: Task, childStatus: int, now: int): Outcome {
    var d := Decide(o.files, protoc, t.source, t.require);
    Outcome(o.effect.Then(Apply(d, childStatus)), Written(o.files, d, childStatus, now))
  }

  /** The remaining calls, each with the status its compiler would return;
      once the process has exited no further call is made. */
  function Resume(o: Outcome, protoc: Option<string>, tasks: seq<Task>, statuses: seq<int>, now: int): Outcome
    requires |statuses| == |tasks|
    decreases |tasks|
  {
    if o.effect.exit.Some? || tasks == [] then o
    else Resume(Step(o, protoc, tasks[0], statuses[0], now), protoc, tasks[1..], statuses[1..], now)
  }

  /** A whole run started on `files`. */
  function Stage(files: Files, protoc: Option<string>, tasks: seq<Task>, statuses: seq<int>, now: int): Outcome
    requires |statuses| == |tasks|
  {
    Resume(Outcome(NO_EFFECT, files), protoc, tasks, statuses, now)
  }

  const CORE_TASKS: seq<Task> := [
    Task("../src/google/protobuf/descriptor.proto", true),
    Task("../src/google/protobuf/compiler/plugin.proto", true),
    Task("../src/google/protobuf/any.proto", true),
    Task("../src/google/protobuf/api.proto", true),
    Task("../src/google/protobuf/duration.proto", true),
    Task("../src/google/protobuf/empty.proto", true),
    Task("../src/google/protobuf/field_mask.proto", true),
    Task("../src/google/protobuf/source_context.proto", true),
    Task("../src/google/protobuf/struct.proto", true),
    Task("../src/google/protobuf/timestamp.proto", true),
    Task("../src/google/protobuf/type.proto", true),
    Task("../src/google/protobuf/wrappers.proto", true)
  ]

  const UNITTEST_TASKS: seq<Task> := [
    Task("../src/google/protobuf/any_test.proto", false),
    Task("../src/google/protobuf/map_proto2_unittest.proto", false),
    Task("../src/google/protobuf/map_unittest.proto", false),
    Task("../src/google/protobuf/test_messages_proto3.proto", false),
    Task("../src/google/protobuf/test_messages_proto2.proto", false),
    Task("../src/google/protobuf/unittest_arena.proto", false),
    Task("../src/google/protobuf/unittest.proto", false),
    Task("../src/google/protobuf/unittest_custom_options.proto", false),
    Task("../src/google/protobuf/unittest_import.proto", false),
    Task("../src/google/protobuf/unittest_import_public.proto", false),
    Task("../src/google/protobuf/unittest_mset.proto", false),
    Task("../src/google/protobuf/unittest_mset_wire_format.proto", false),
    Task("../src/google/protobuf/unittest_no_generic_services.proto", false),
    Task("../src/google/protobuf/unittest_proto3_arena.proto", false),
    Task("../src/google/protobuf/util/json_format.proto", false),
    Task("../src/google/protobuf/util/json_format_proto3.proto", false),
    Task("_google/protobuf/internal/any_test.proto", false),
    Task("_google/protobuf/internal/descriptor_pool_test1.proto", false),
    Task("_google/protobuf/internal/descriptor_pool_test2.proto", false),
    Task("_google/protobuf/internal/factory_test1.proto", false),
    Task("_google/protobuf/internal/factory_test2.proto", false),
    Task("_google/protobuf/internal/file_options_test.proto", false),
    Task("_google/protobuf/internal/import_test_package/import_public.proto", false),
    Task("_google/protobuf/internal/import_test_package/import_public_nested.proto", false),
    Task("_google/protobuf/internal/import_test_package/inner.proto", false),
    Task("_google/protobuf/internal/import_test_package/outer.proto", false),
    Task("_google/protobuf/internal/missing_enum_values.proto", false),
    Task("_google/protobuf/internal/message_set_extensions.proto", false),
    Task("_google/protobuf/internal/more_extensions.proto", false),
    Task("_google/protobuf/internal/more_extensions_dynamic.proto", false),
    Task("_google/protobuf/internal/more_messages.proto", false),
    Task("_google/protobuf/internal/no_package.proto", false),
    Task("_google/protobuf/internal/packed_field_test.proto", false),
    Task("_google/protobuf/internal/test_bad_identifiers.proto", false),
    Task("_google/protobuf/internal/test_proto3_optional.proto", false),
    Task("_google/protobuf/pyext/python.proto", false)
  ]

  /** The script process as `GenProto` changes it: what it printed, wrote to
      standard error and spawned, and the status it exited with. */
  class Process {
    var stdout: seq<string>
    var stderr: seq<string>
    var spawned: seq<seq<string>>
    var exitCode: Option<int>

    constructor ()
      ensures Trace() == NO_EFFECT
    {
      stdout, stderr, spawned, exitCode := [], [], [], None;
    }

    function Trace(): Effect
      reads this
    {
      Effect(stdout, stderr, spawned, exitCode)
    }

    /** `GenProto(source, require)` with the protocol compiler `protoc`;
        `childStatus` is what `subprocess.call` would return and `now` the
        time at which the compiler writes the output. */
    method GenProto(disk: Disk, protoc: Option<string>, source: string, require: bool, childStatus: int, now: int)
      requires exitCode.None?
      modifies this, disk
      ensures Outcome(Trace(), disk.files)
              == Step(old(Outcome(Trace(), disk.files)), protoc, Task(source, require), childStatus, now)
    {
      if !require && source !in disk.files {
        return;
      }
      var output := OutputName(source);
      if output !in disk.files || (source in disk.files && disk.files[source] > disk.files[output]) {
        stdout := stdout + [GeneratingLine(output)];
        if source !in disk.files {
          stderr := stderr + [MissingSourceMessage(source)];
          exitCode := Some(-1);
          return;
        }
        if protoc.None? {
          stderr := stderr + [NO_PROTOC_MESSAGE];
          exitCode := Some(-1);
          return;
        }
        var command := [protoc.value, "-I../src", "-I.", "--python_out=.", source];
        spawned := spawned + [command];
        if childStatus != 0 {
          exitCode := Some(-1);
          return;
        }
        disk.files := disk.files[output := now];
      }
    }

    /** Calls `GenProto` for each task in turn until one exits. */
    method GenProtos(disk: Disk, protoc: Option<string>, tasks: seq<Task>, statuses: seq<int>, now: int)
      requires |statuses| == |tasks|
      modifies this, disk
      ensures Outcome(Trace(), disk.files)
              == Resume(old(Outcome(Trace(), disk.files)), protoc, tasks, statuses, now)
    {
      var i := 0;
      while i < |tasks| && exitCode.None?
        invariant i <= |tasks|
        invariant Resume(Outcome(Trace(), disk.files), protoc, tasks[i..], statuses[i..], now)
                  == Resume(old(Outcome(Trace(), disk.files)), protoc, tasks, statuses, now)
      {
        assert tasks[i..][1..] == tasks[i + 1..] && statuses[i..][1..] == statuses[i + 1..];
        GenProto(disk, protoc, tasks[i].source, tasks[i].require, statuses[i], now);
        i := i + 1;
      }
    }

    /** `GenerateUnittestProtos()`. */
    method GenerateUnittestProtos(disk: Disk, protoc: Option<string>, statuses: seq<int>, now: int)
      requires |statuses| == |UNITTEST_TASKS|
      modifies this, disk
      ensures Outcome(Trace(), disk.files)
              == Resume(old(Outcome(Trace(), disk.files)), protoc, UNITTEST_TASKS, statuses, now)
    {
      GenProtos(disk, protoc, UNITTEST_TASKS, statuses, now);
    }

    /** The generation part of `BuildPyCmd.run`: the core protos, then the
        unittest protos. */
    method BuildPyGenerate(disk: Disk, protoc: Option<string>, statuses: seq<int>, now: int)
      requires |statuses| == |CORE_TASKS| + |UNITTEST_TASKS|
      modifies this, disk
      ensures Outcome(Trace(), disk.files)
              == Resume(old(Outcome(Trace(), disk.files)), protoc, CORE_TASKS + UNITTEST_TASKS, statuses, now)
    {
      ghost var start := Outcome(Trace(), disk.files);
      var n := |CORE_TASKS|;
      GenProtos(disk, protoc, CORE_TASKS, statuses[..n], now);
      GenerateUnittestProtos(disk, protoc, statuses[n..], now);
      ResumeAppend(start, protoc, CORE_TASKS, UNITTEST_TASKS, statuses[..n], statuses[n..], now);
      assert statuses[..n] + statuses[n..] == statuses;
    }
  }

  // ---------------------------------------------------------------------
  // Properties of a run

  /** Running two lists of calls one after the other is running their
      concatenation. */
  lemma {:induction false} ResumeAppend(o: Outcome, protoc: Option<string>, a: seq<Task>, b: seq<Task>,
                                        sa: seq<int>, sb: seq<int>, now: int)
    requires |sa| == |a| && |sb| == |b|
    ensures Resume(o, protoc, a + b, sa + sb, now)
            == Resume(Resume(o, protoc, a, sa, now), protoc, b, sb, now)
    decreases |a|
  {
    if o.effect.exit.None? && a != [] {
      assert (a + b)[1..] == a[1..] + b && (sa + sb)[1..] == sa[1..] + sb;
      ResumeAppend(Step(o, protoc, a[0], sa[0], now), protoc, a[1..], b, sa[1..], sb, now);
    } else if a == [] {
      assert a + b == b && sa + sb == sb;
    }
  }

  /** The sources of a list of calls. */
  function Sources(tasks: seq<Task>): set<string> {
    set i | 0 <= i < |tasks| :: tasks[i].source
  }

  /** Every exit is `sys.exit(-1)`, and every spawned command is the
      compiler found by the lookup run on one of the given sources. */
  predicate OnlyCompilerCalls(e: Effect, protoc: Option<string>, srcs: set<string>) {
    && (e.exit.None? || e.exit == Some(-1))
    && forall c | c in e.spawned :: protoc.Some? && |c| == 5 && c == ProtocCommand(protoc.value, c[4]) && c[4] in srcs
  }

  lemma {:induction false} ResumeOnlyCompilerCalls(o: Outcome, protoc: Option<string>, tasks: seq<Task>,
                                                   statuses: seq<int>, now: int, srcs: set<string>)
    requires |statuses| == |tasks|
    requires OnlyCompilerCalls(o.effect, protoc, srcs)
    requires Sources(tasks) <= srcs
    ensures OnlyCompilerCalls(Resume(o, protoc, tasks, statuses, now).effect, protoc, srcs)
    decreases |tasks|
  {
    if o.effect.exit.None? && tasks != [] {
      SourcesTail(tasks);
      StepOnlyCompilerCalls(o, protoc, tasks[0], statuses[0], now, srcs);
      ResumeOnlyCompilerCalls(Step(o, protoc, tasks[0], statuses[0], now), protoc, tasks[1..], statuses[1..], now, srcs);
    }
  }

  /** One call keeps the property: it spawns, if anything, the compiler on
      its own source, and fails, if at all, with -1. */
  lemma StepOnlyCompilerCalls(o: Outcome, protoc: Option<string>, t: Task, childStatus: int, now: int, srcs: set<string>)
    requires OnlyCompilerCalls(o.effect, protoc, srcs) && t.source in srcs
    ensures OnlyCompilerCalls(Step(o, protoc, t, childStatus, now).effect, protoc, srcs)
  {
    var e := Apply(Decide(o.files, protoc, t.source, t.require), childStatus);
    OnlyCompilerOnSource(o.files, protoc, t.source, t.require, childStatus);
    assert Step(o, protoc, t, childStatus, now).effect == o.effect.Then(e);
    if o.effect.exit.None? {
      assert o.effect.Then(e).spawned == o.effect.spawned + e.spawned;
    }
  }

  lemma SourcesTail(tasks: seq<Task>)
    requires tasks != []
    ensures tasks[0].source in Sources(tasks)
    ensures Sources(tasks[1..]) <= Sources(tasks)
  {
    forall s | s in Sources(tasks[1..]) ensures s in Sources(tasks) {
      var i :| 0 <= i < |tasks[1..]| && tasks[1..][i].source == s;
      assert tasks[i + 1].source == s;
    }
  }

  /** A run exits, if at all, with -1, and spawns nothing but the compiler
      with the fixed include roots and output directory, on sources of its
      own calls. */
  lemma StageOnlyCompilerCalls(files: Files, protoc: Option<string>, tasks: seq<Task>, statuses: seq<int>, now: int)
    requires |statuses| == |tasks|
    ensures OnlyCompilerCalls(Stage(files, protoc, tasks, statuses, now).effect, protoc, Sources(tasks))
  {
    ResumeOnlyCompilerCalls(Outcome(NO_EFFECT, files), protoc, tasks, statuses, now, Sources(tasks));
  }

  /** The call has nothing to do. */
  predicate Quiet(files: Files, protoc: Option<string>, t: Task) {
    var d := Decide(files, protoc, t.source, t.require);
    d.Skip? || d.UpToDate?
  }

  predicate AllQuiet(files: Files, protoc: Option<string>, tasks: seq<Task>) {
    forall i | 0 <= i < |tasks| :: Quiet(files, protoc, tasks[i])
  }

  /** When every call has nothing to do, a run changes nothing. */
  lemma {:induction false} QuietResume(o: Outcome, protoc: Option<string>, tasks: seq<Task>, statuses: seq<int>, now: int)
    requires |statuses| == |tasks|
    requires o.effect.exit.None? && AllQuiet(o.files, protoc, tasks)
    ensures Resume(o, protoc, tasks, statuses, now) == o
    decreases |tasks|
  {
    if tasks != [] {
      assert Quiet(o.files, protoc, tasks[0]);
      assert Step(o, protoc, tasks[0], statuses[0], now) == o;
      assert forall i | 0 <= i < |tasks[1..]| :: tasks[1..][i] == tasks[i + 1];
      QuietResume(o, protoc, tasks[1..], statuses[1..], now);
    }
  }

  /** A call with nothing to do keeps having nothing to do when the compiler
      writes, at a time no earlier than its source, some file that is not its
      source. */
  lemma QuietAfterWrite(files: Files, protoc: Option<string>, t: Task, out: string, now: int)
    requires Quiet(files, protoc, t)
    requires out != t.source
    requires t.source in files ==> files[t.source] <= now
    ensures Quiet(files[out := now], protoc, t)
  {
    var f' := files[out := now];
    var output := OutputName(t.source);
    if out == output {
      assert !Stale(f', t.source, output);
    } else {
      assert Decide(f', protoc, t.source, t.require) == Decide(files, protoc, t.source, t.require);
    }
  }

  /** Sources whose times are no later than `now` stay so: the compiler only
      ever stamps files with `now`. */
  predicate SourcesNotAfter(files: Files, tasks: seq<Task>, now: int) {
    forall i | 0 <= i < |tasks| && tasks[i].source in files :: files[tasks[i].source] <= now
  }

  /** No call's output is another call's source. */
  predicate OutputsAreNotSources(tasks: seq<Task>) {
    forall i, j | 0 <= i < |tasks| && 0 <= j < |tasks| :: tasks[i].source != OutputName(tasks[j].source)
  }

  /** One call, when it does not end the run, leaves itself and every call
      before it with nothing to do. */
  lemma StepQuiets(o: Outcome, protoc: Option<string>, done: seq<Task>, t: Task, childStatus: int, now: int)
    requires o.effect.exit.None?
    requires OutputsAreNotSources(done + [t])
    requires SourcesNotAfter(o.files, done + [t], now)
    requires AllQuiet(o.files, protoc, done)
    requires Step(o, protoc, t, childStatus, now).effect.exit.None?
    ensures AllQuiet(Step(o, protoc, t, childStatus, now).files, protoc, done + [t])
    ensures SourcesNotAfter(Step(o, protoc, t, childStatus, now).files, done + [t], now)
  {
    var all := done + [t];
    var d := Decide(o.files, protoc, t.source, t.require);
    var f' := Step(o, protoc, t, childStatus, now).files;
    assert all[|done|] == t;
    if d.Invoke? {
      var out := OutputName(t.source);
      assert f' == o.files[out := now];
      forall i | 0 <= i < |all|
        ensures Quiet(f', protoc, all[i])
      {
        assert all[i].source != OutputName(all[|done|].source);
        if i < |done| {
          assert all[i] == done[i];
          QuietAfterWrite(o.files, protoc, done[i], out, now);
        } else {
          RegeneratedIsUpToDate(o.files, protoc, t.source, t.require, now);
        }
      }
    } else {
      assert f' == o.files;
      forall i | 0 <= i < |all|
        ensures Quiet(f', protoc, all[i])
      {
        if i < |done| {
          assert all[i] == done[i];
        }
      }
    }
  }

  lemma {:induction false} ResumeQuiets(o: Outcome, protoc: Option<string>, done: seq<Task>, todo: seq<Task>,
                                        statuses: seq<int>, now: int)
    requires |statuses| == |todo|
    requires o.effect.exit.None?
    requires OutputsAreNotSources(done + todo)
    requires SourcesNotAfter(o.files, done + todo, now)
    requires AllQuiet(o.files, protoc, done)
    requires Resume(o, protoc, todo, statuses, now).effect.exit.None?
    ensures AllQuiet(Resume(o, protoc, todo, statuses, now).files, protoc, done + todo)
    decreases |todo|
  {
    if todo == [] {
      assert done + todo == done;
    } else {
      var t := todo[0];
      var o' := Step(o, protoc, t, statuses[0], now);
      var done' := done + [t];
      assert done' + todo[1..] == done + todo;
      assert OutputsAreNotSources(done') by {
        forall i, j | 0 <= i < |done'| && 0 <= j < |done'|
          ensures done'[i].source != OutputName(done'[j].source)
        {
          assert done'[i] == (done + todo)[i] && done'[j] == (done + todo)[j];
        }
      }
      assert SourcesNotAfter(o.files, done', now) by {
        forall i | 0 <= i < |done'| && done'[i].source in o.files
          ensures o.files[done'[i].source] <= now
        {
          assert done'[i] == (done + todo)[i];
        }
      }
      assert Resume(o, protoc, todo, statuses, now) == Resume(o', protoc, todo[1..], statuses[1..], now);
      assert o'.effect.exit.None?;
      StepQuiets(o, protoc, done, t, statuses[0], now);
      assert SourcesNotAfter(o'.files, done + todo, now) by {
        forall i | 0 <= i < |done + todo| && (done + todo)[i].source in o'.files
          ensures o'.files[(done + todo)[i].source] <= now
        {
          var src := (done + todo)[i].source;
          if src in o.files {
            assert o.files[src] <= now;
          }
        }
      }
      ResumeQuiets(o', protoc, done', todo[1..], statuses[1..], now);
    }
  }

  /** Building twice does nothing the second time: after a run that did not
      exit, with the compiler's writes stamped no earlier than any source,
      every call finds its output up to date or its optional source absent,
      so a second run prints nothing, spawns nothing, does not exit and
      leaves the file system as it was. */
  lemma SecondRunQuiet(files: Files, protoc: Option<string>, tasks: seq<Task>, statuses: seq<int>,
                       again: seq<int>, now: int)
    requires |statuses| == |tasks| && |again| == |tasks|
    requires OutputsAreNotSources(tasks)
    requires SourcesNotAfter(files, tasks, now)
    requires Stage(files, protoc, tasks, statuses, now).effect.exit.None?
    ensures var first := Stage(files, protoc, tasks, statuses, now);
            Stage(first.files, protoc, tasks, again, now) == Outcome(NO_EFFECT, first.files)
  {
    var first := Stage(files, protoc, tasks, statuses, now);
    assert [] + tasks == tasks;
    ResumeQuiets(Outcome(NO_EFFECT, files), protoc, [], tasks, statuses, now);
    QuietResume(Outcome(NO_EFFECT, first.files), protoc, tasks, again, now);
  }
}
