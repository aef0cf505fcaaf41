/** The process argument list `sys.argv` and the four operations of the
    build script that consult it: `GetOptionFromArgv`, which consumes a
    token in place, and `_GetFlagValues`, `HasStaticLibprotobufOpt` and
    `HasLibraryDirsOpt`, which only read it. */
module Argv {
  import opened FlagGrammar

  /** Python's `list.remove(x)`: the first occurrence of `x` taken out, the
      rest kept in order. Python raises `ValueError` on a list without `x`;
      the model returns such a list unchanged, a case the script never
      reaches because it calls `remove` only after checking `x in list`. */
  function RemoveFirst(s: seq<string>, x: string): (r: seq<string>)
    ensures x !in s ==> r == s
    ensures x in s ==> |r| == |s| - 1
  {
    if s == [] then []
    else if s[0] == x then s[1..]
    else [s[0]] + RemoveFirst(s[1..], x)
  }

  /** The index of the first occurrence of `x`. */
  function FirstIndex(s: seq<string>, x: string): (i: nat)
    requires x in s
    ensures i < |s| && s[i] == x && x !in s[..i]
  {
    if s[0] == x then 0 else 1 + FirstIndex(s[1..], x)
  }

  /** `list.remove` deletes exactly the first occurrence: everything before
      it and everything after it stays, in order. */
  lemma {:induction false} RemoveFirstAt(pre: seq<string>, x: string, post: seq<string>)
    requires x !in pre
    ensures RemoveFirst(pre + [x] + post, x) == pre + post
  {
    var s := pre + [x] + post;
    if pre == [] {
      assert s == [x] + post;
    } else {
      assert s[0] == pre[0] && pre[0] in pre;
      assert s[1..] == pre[1..] + [x] + post;
      assert x !in pre[1..];
      assert RemoveFirst(s, x) == [pre[0]] + RemoveFirst(s[1..], x);
      RemoveFirstAt(pre[1..], x, post);
      assert (pre + post)[1..] == pre[1..] + post;
    }
  }

  /** `list.remove` takes out one copy of `x` and nothing else. */
  lemma RemoveFirstMultiset(s: seq<string>, x: string)
    requires x in s
    ensures multiset(RemoveFirst(s, x)) + multiset{x} == multiset(s)
  {
    var i := FirstIndex(s, x);
    assert s == s[..i] + [x] + s[i + 1..];
    RemoveFirstAt(s[..i], x, s[i + 1..]);
  }

  /** Python's `any(values)` over strings: true when some value is a
      non-empty string. */
  function AnyTruthy(values: seq<string>): (b: bool)
    ensures b <==> exists i :: 0 <= i < |values| && values[i] != ""
  {
    if values == [] then false
    else if values[0] != "" then true
    else
      var rest := AnyTruthy(values[1..]);
      assert rest <==> exists i :: 1 <= i < |values| && values[i] != "" by {
        assert forall i :: 1 <= i < |values| ==> values[i] == values[1..][i - 1];
      }
      rest
  }

  /** Whether some `link-objects=`/`O` value names a protobuf archive. */
  predicate StaticLibRequested(argv: seq<string>) {
    var values := FlagValues(argv, "link-objects=", "O");
    exists i :: 0 <= i < |values| && LibMatch(values[i])
  }

  /** `-O/path/to/libprotobuf.a` asks for the static protobuf archive. */
  lemma StaticLibRequestedAccepts()
    ensures StaticLibRequested(["-O/path/to/libprotobuf.a"])
  {
    LinkObjectsShortExample();
    LibMatchPathAccepts();
    var values := FlagValues(["-O/path/to/libprotobuf.a"], "link-objects=", "O");
    assert LibMatch(values[0]);
  }

  /** `-O/path/to/other.so` does not. */
  lemma StaticLibRequestedRejects()
    ensures !StaticLibRequested(["-O/path/to/other.so"])
  {
    var pats := Patterns("link-objects=", "O");
    var args := ["-O/path/to/other.so"];
    assert args[0] == "-" + "O" + "/path/to/other.so";
    ShortValueForm("link-objects=", "O", "/path/to/other.so");
    ScanUnpended(args, [["/path/to/other.so"]], pats, true);
    assert FlagValues(args, "link-objects=", "O") == ["/path/to/other.so"];
    LibMatchRejectsOther();
  }

  /** `sys.argv`: the one list the script changes in place. */
  class CommandLine {
    var argv: seq<string>

    constructor (args: seq<string>)
      ensures argv == args
    {
      argv := args;
    }

    /** `GetOptionFromArgv(option_str)`: true exactly when the option is in
        the argument list, and then its first occurrence is removed. */
    method GetOptionFromArgv(option: string) returns (found: bool)
      modifies this
      ensures found <==> option in old(argv)
      ensures found ==> argv == old(argv)[..FirstIndex(old(argv), option)]
                                + old(argv)[FirstIndex(old(argv), option) + 1..]
      ensures !found ==> argv == old(argv)
      ensures argv == RemoveFirst(old(argv), option)
    {
      if option in argv {
        var i := FirstIndex(argv, option);
        assert argv == argv[..i] + [option] + argv[i + 1..];
        RemoveFirstAt(argv[..i], option, argv[i + 1..]);
        argv := RemoveFirst(argv, option);
        return true;
      }
      return false;
    }

    /** `_GetFlagValues(flag_long, flag_short)`: the values the generator
        yields, collected in order. Nothing is modified: the argument list is
        only read. */
    method GetFlagValues(flagLong: string, flagShort: string) returns (values: seq<string>)
      ensures values == FlagValues(argv, flagLong, flagShort)
    {
      var expectValue := ExpectsValue(flagLong);
      var flagRes := Patterns(flagLong, flagShort);
      values := [];
      var flagMatch := false;
      for i := 0 to |argv|
        invariant values == Scan(argv[..i], flagRes, expectValue, false)
        invariant flagMatch == PendingAfter(argv[..i], flagRes, expectValue, false)
      {
        var arg := argv[i];
        ScanSnoc(argv, flagRes, expectValue, i);
        if flagMatch {
          // the argument after a bare flag is its value
          values := values + [arg];
          flagMatch := false;
        } else {
          var yielded;
          yielded, flagMatch := MatchArg(arg, flagRes, expectValue);
          values := values + yielded;
        }
      }
      assert argv[..|argv|] == argv;
    }

    /** The inner loop of `_GetFlagValues` over the compiled expressions, for
        one argument read with no match pending. */
    static method MatchArg(arg: string, flagRes: seq<FlagPattern>, expectValue: bool)
      returns (yielded: seq<string>, flagMatch: bool)
      ensures yielded == ArgYields(arg, flagRes, expectValue)
      ensures flagMatch == ArgBare(arg, flagRes, expectValue)
    {
      yielded, flagMatch := [], false;
      for j := 0 to |flagRes|
        invariant yielded == ArgYields(arg, flagRes[..j], expectValue)
        invariant flagMatch == ArgBare(arg, flagRes[..j], expectValue)
      {
        var m := Classify(flagRes[j], arg, expectValue);
        ArgSnoc(arg, flagRes, expectValue, j);
        if m.Yield? {
          yielded := yielded + [m.value];
        } else if m.Bare? {
          flagMatch := true;
        }
      }
      assert flagRes[..|flagRes|] == flagRes;
    }

    /** `HasStaticLibprotobufOpt()`: whether a `--link-objects`/`-O` value
        names libprotobuf's static archive. Stops at the first such value. */
    method HasStaticLibprotobufOpt() returns (found: bool)
      ensures found == StaticLibRequested(argv)
    {
      var values := GetFlagValues("link-objects=", "O");
      for i := 0 to |values|
        invariant forall k :: 0 <= k < i ==> !LibMatch(values[k])
      {
        if LibMatch(values[i]) {
          return true;
        }
      }
      return false;
    }

    /** `HasLibraryDirsOpt()`: whether some `--library-dirs`/`-L` value is
        non-empty. */
    function HasLibraryDirsOpt(): (b: bool)
      reads this
      ensures b <==> exists i :: 0 <= i < |FlagValues(argv, "library-dirs=", "L")|
                                 && FlagValues(argv, "library-dirs=", "L")[i] != ""
    {
      AnyTruthy(FlagValues(argv, "library-dirs=", "L"))
    }
  }

  /** Consuming `--cpp_implementation` from
      `setup.py --cpp_implementation --library-dirs=/x:/y build` keeps the
      other three arguments in order. */
  lemma CppImplementationConsumed()
    ensures var argv := ["setup.py", "--cpp_implementation", "--library-dirs=/x:/y", "build"];
            && "--cpp_implementation" in argv
            && RemoveFirst(argv, "--cpp_implementation") == ["setup.py", "--library-dirs=/x:/y", "build"]
            && "--cpp_implementation" !in RemoveFirst(argv, "--cpp_implementation")
  {
    var x := "--cpp_implementation";
    var argv := ["setup.py", x, "--library-dirs=/x:/y", "build"];
    var rest := ["setup.py", "--library-dirs=/x:/y", "build"];
    assert rest[0][0] != x[0] && rest[1][2] != x[2] && rest[2][0] != x[0];
    assert argv == [rest[0]] + [x] + rest[1..];
    RemoveFirstAt([rest[0]], x, rest[1..]);
  }

  /** `setup.py --cpp_implementation --library-dirs=/x:/y build`:
      `--cpp_implementation` is consumed, the rest of the list is kept, and a
      later scan still sees `--library-dirs=/x:/y`. */
  method CppImplementationExample() returns (cpp: bool, dirs: seq<string>, again: bool)
    ensures cpp && dirs == ["/x:/y"] && !again
  {
    var cl := new CommandLine(["setup.py", "--cpp_implementation", "--library-dirs=/x:/y", "build"]);
    CppImplementationConsumed();
    cpp := cl.GetOptionFromArgv("--cpp_implementation");
    assert cl.argv == ["setup.py", "--library-dirs=/x:/y", "build"];
    dirs := cl.GetFlagValues("library-dirs=", "L");
    LibraryDirsExample();
    again := cl.GetOptionFromArgv("--cpp_implementation");
  }
}
