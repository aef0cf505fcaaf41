/** The distutils-style flag grammar that `_GetFlagValues` recognises in
    `sys.argv`, and the archive-name pattern of `HasStaticLibprotobufOpt`,
    as functions on strings.

    `_GetFlagValues(flag_long, flag_short)` compiles up to two regular
    expressions, both applied with `re.match` (anchored at the start only):
      - `--?NAME(=(.*))?`, where NAME is `flag_long` without its trailing `=`;
      - `-X(.*)?`, where X is `flag_short`, when `flag_short` is not empty.
    Flag names are inserted into the regular expressions verbatim; the model
    reads them as literal text, which they are for every name the script
    passes (`link-objects=`, `O`, `library-dirs=`, `L`). */
module FlagGrammar {
  import opened Wrappers
  import opened Text

  /** One compiled regular expression of `_GetFlagValues`. */
  datatype FlagPattern =
    | Long(name: string)    // --?NAME(=(.*))?
    | Short(letter: string) // -X(.*)?

  /** What one regular expression makes of one argument. */
  datatype Match =
    | NoMatch
    | Yield(value: string)  // the generator yields `value`
    | Bare                  // `flag_match = m`: the next argument is the value

  /** A flag that takes a value is written with a trailing `=`. */
  predicate ExpectsValue(flagLong: string) {
    EndsWith(flagLong, "=")
  }

  function LongName(flagLong: string): string {
    if ExpectsValue(flagLong) then flagLong[..|flagLong| - 1] else flagLong
  }

  function Patterns(flagLong: string, flagShort: string): seq<FlagPattern> {
    [Long(LongName(flagLong))] + if flagShort != "" then [Short(flagShort)] else []
  }

  /** The text after `--NAME` or `-NAME` at the start of `arg`. The greedy
      `--?` tries two dashes first and falls back to one. */
  function LongRest(arg: string, name: string): Option<string> {
    if StartsWith(arg, "--" + name) then Some(arg[|name| + 2..])
    else if StartsWith(arg, "-" + name) then Some(arg[|name| + 1..])
    else None
  }

  /** One iteration of the inner `for flag_re in flag_res` loop. For a long
      match the groups are `('=v', 'v')` when `=` follows the name and
      `(None, None)` otherwise; for a short match the one group is whatever
      `(.*)` captured, possibly `''`. A value is yielded when
      `groups[0] or groups[-1]` is truthy. */
  function Classify(pat: FlagPattern, arg: string, expectValue: bool): Match {
    match pat
    case Long(name) =>
      (match LongRest(arg, name)
       case None => NoMatch
       case Some(rest) =>
         if !expectValue then Yield(arg)
         else if StartsWith(rest, "=") then Yield(LineHead(rest[1..]))
         else Bare)
    case Short(letter) =>
      if !StartsWith(arg, "-" + letter) then NoMatch
      else if !expectValue then Yield(arg)
      else
        var group := LineHead(arg[|letter| + 1..]);
        if group != "" then Yield(group) else Bare
  }

  function YieldOf(m: Match): seq<string> {
    if m.Yield? then [m.value] else []
  }

  /** The values the inner loop yields for one argument, in pattern order. */
  function ArgYields(arg: string, pats: seq<FlagPattern>, expectValue: bool): seq<string> {
    if pats == [] then []
    else YieldOf(Classify(pats[0], arg, expectValue)) + ArgYields(arg, pats[1..], expectValue)
  }

  /** Whether the inner loop leaves `flag_match` set after this argument. */
  predicate ArgBare(arg: string, pats: seq<FlagPattern>, expectValue: bool) {
    pats != [] && (Classify(pats[0], arg, expectValue).Bare? || ArgBare(arg, pats[1..], expectValue))
  }

  /** The values the outer loop yields for `args`, entered with `flag_match`
      set (`pending`) or not. An argument read while a match is pending is
      yielded as it is and never classified. */
  function Scan(args: seq<string>, pats: seq<FlagPattern>, expectValue: bool, pending: bool): seq<string>
    decreases |args|
  {
    if args == [] then []
    else if pending then [args[0]] + Scan(args[1..], pats, expectValue, false)
    else ArgYields(args[0], pats, expectValue) + Scan(args[1..], pats, expectValue, ArgBare(args[0], pats, expectValue))
  }

  /** Whether a match is pending once the outer loop has read `args`. */
  predicate PendingAfter(args: seq<string>, pats: seq<FlagPattern>, expectValue: bool, pending: bool)
    decreases |args|
  {
    if args == [] then pending
    else if pending then PendingAfter(args[1..], pats, expectValue, false)
    else PendingAfter(args[1..], pats, expectValue, ArgBare(args[0], pats, expectValue))
  }

  /** The inner loop over two runs of patterns is the loop over the first
      run, then over the second. */
  lemma {:induction false} ArgAppend(arg: string, a: seq<FlagPattern>, b: seq<FlagPattern>, ev: bool)
    ensures ArgYields(arg, a + b, ev) == ArgYields(arg, a, ev) + ArgYields(arg, b, ev)
    ensures ArgBare(arg, a + b, ev) == (ArgBare(arg, a, ev) || ArgBare(arg, b, ev))
    decreases |a|
  {
    if a == [] {
      assert a + b == b;
    } else {
      assert (a + b)[0] == a[0] && (a + b)[1..] == a[1..] + b;
      ArgAppend(arg, a[1..], b, ev);
      var y := YieldOf(Classify(a[0], arg, ev));
      assert y + (ArgYields(arg, a[1..], ev) + ArgYields(arg, b, ev))
          == (y + ArgYields(arg, a[1..], ev)) + ArgYields(arg, b, ev);
    }
  }

  /** One step of the inner loop: pattern `j` after the first `j`. */
  lemma ArgSnoc(arg: string, pats: seq<FlagPattern>, ev: bool, j: nat)
    requires j < |pats|
    ensures ArgYields(arg, pats[..j + 1], ev) == ArgYields(arg, pats[..j], ev) + YieldOf(Classify(pats[j], arg, ev))
    ensures ArgBare(arg, pats[..j + 1], ev) == (ArgBare(arg, pats[..j], ev) || Classify(pats[j], arg, ev).Bare?)
  {
    assert pats[..j + 1] == pats[..j] + [pats[j]];
    ArgAppend(arg, pats[..j], [pats[j]], ev);
    assert [pats[j]][1..] == [];
  }

  /** Reading a concatenation leaves the state that reading the second part
      leaves, entered in the state the first part left behind. */
  lemma {:induction false} PendingAppend(a: seq<string>, b: seq<string>, pats: seq<FlagPattern>, ev: bool, pending: bool)
    ensures PendingAfter(a + b, pats, ev, pending) == PendingAfter(b, pats, ev, PendingAfter(a, pats, ev, pending))
    decreases |a|
  {
    if a == [] {
      assert a + b == b;
    } else {
      assert (a + b)[0] == a[0];
      assert (a + b)[1..] == a[1..] + b;
      var next := if pending then false else ArgBare(a[0], pats, ev);
      PendingAppend(a[1..], b, pats, ev, next);
    }
  }

  /** One step of the outer loop: argument `i` after the first `i`. */
  lemma ScanSnoc(args: seq<string>, pats: seq<FlagPattern>, ev: bool, i: nat)
    requires i < |args|
    ensures Scan(args[..i + 1], pats, ev, false)
         == Scan(args[..i], pats, ev, false)
            + if PendingAfter(args[..i], pats, ev, false) then [args[i]] else ArgYields(args[i], pats, ev)
    ensures PendingAfter(args[..i + 1], pats, ev, false)
         == (!PendingAfter(args[..i], pats, ev, false) && ArgBare(args[i], pats, ev))
  {
    assert args[..i + 1] == args[..i] + [args[i]];
    ScanAppend(args[..i], [args[i]], pats, ev, false);
    PendingAppend(args[..i], [args[i]], pats, ev, false);
    assert [args[i]][1..] == [];
  }

  /** Everything `_GetFlagValues(flagLong, flagShort)` yields over `argv`. */
  function FlagValues(argv: seq<string>, flagLong: string, flagShort: string): seq<string> {
    Scan(argv, Patterns(flagLong, flagShort), ExpectsValue(flagLong), false)
  }

  /** A value-taking flag whose two spellings cannot both match one argument:
      true of `link-objects=`/`O` and of `library-dirs=`/`L`. */
  predicate ValueFlag(flagLong: string, flagShort: string) {
    && ExpectsValue(flagLong)
    && |flagLong| > 1 && flagLong[0] != '-'
    && flagShort != "" && flagShort[0] != '-' && flagShort[0] != flagLong[0]
  }

  /** Scanning a concatenation is scanning the first part, then the second
      part in the state the first part left behind. */
  lemma {:induction false} ScanAppend(a: seq<string>, b: seq<string>, pats: seq<FlagPattern>, ev: bool, pending: bool)
    ensures Scan(a + b, pats, ev, pending)
         == Scan(a, pats, ev, pending) + Scan(b, pats, ev, PendingAfter(a, pats, ev, pending))
    decreases |a|
  {
    if a == [] {
      assert a + b == b;
    } else {
      assert (a + b)[0] == a[0];
      assert (a + b)[1..] == a[1..] + b;
      var next := if pending then false else ArgBare(a[0], pats, ev);
      var head := if pending then [a[0]] else ArgYields(a[0], pats, ev);
      ScanAppend(a[1..], b, pats, ev, next);
      assert Scan(a + b, pats, ev, pending) == head + Scan(a[1..] + b, pats, ev, next);
      assert Scan(a, pats, ev, pending) == head + Scan(a[1..], pats, ev, next);
      assert PendingAfter(a, pats, ev, pending) == PendingAfter(a[1..], pats, ev, next);
      assert head + (Scan(a[1..], pats, ev, next) + Scan(b, pats, ev, PendingAfter(a[1..], pats, ev, next)))
          == (head + Scan(a[1..], pats, ev, next)) + Scan(b, pats, ev, PendingAfter(a[1..], pats, ev, next));
    }
  }

  /** An argument that does not start with `-` matches neither expression. */
  lemma NoDashNoMatch(arg: string, pats: seq<FlagPattern>, ev: bool)
    requires arg == [] || arg[0] != '-'
    ensures ArgYields(arg, pats, ev) == [] && !ArgBare(arg, pats, ev)
    decreases |pats|
  {
    if pats != [] {
      NoDashNoMatch(arg, pats[1..], ev);
    }
  }

  /** Under `ValueFlag`, an argument that the long expression matches is not
      matched by the short one, and the other way round. */
  lemma SpellingsExclusive(flagLong: string, flagShort: string, arg: string)
    requires ValueFlag(flagLong, flagShort)
    ensures LongRest(arg, LongName(flagLong)).Some? ==> !StartsWith(arg, "-" + flagShort)
  {
    var name := LongName(flagLong);
    assert name[0] == flagLong[0];
    if LongRest(arg, name).Some? {
      if StartsWith(arg, "--" + name) {
        assert arg[..|name| + 2][1] == arg[1] == '-';
      } else {
        assert arg[..|name| + 1][1] == arg[1] == name[0];
      }
      assert arg[1] != flagShort[0];
      if |arg| > |flagShort| {
        assert arg[..|flagShort| + 1][1] == arg[1];
      }
    }
  }

  /** The yields and the pending state of one argument, for the two patterns
      of a value-taking flag. */
  lemma ValueFlagArg(flagLong: string, flagShort: string, arg: string)
    requires ValueFlag(flagLong, flagShort)
    ensures var pats := Patterns(flagLong, flagShort);
            && ArgYields(arg, pats, true)
               == YieldOf(Classify(pats[0], arg, true)) + YieldOf(Classify(pats[1], arg, true))
            && (ArgBare(arg, pats, true)
                <==> Classify(pats[0], arg, true).Bare? || Classify(pats[1], arg, true).Bare?)
  {
    var pats := Patterns(flagLong, flagShort);
    assert pats[1..] == [pats[1]] && pats[1..][1..] == [];
    assert ArgYields(arg, pats[1..], true) == YieldOf(Classify(pats[1], arg, true)) + ArgYields(arg, [], true);
    assert ArgBare(arg, pats[1..], true) <==> Classify(pats[1], arg, true).Bare? || ArgBare(arg, [], true);
  }

  /** `--name=v` and `-name=v` yield `v` (so `--name=` yields the empty
      string), and leave no match pending. */
  lemma LongValueForm(flagLong: string, flagShort: string, dashes: string, v: string)
    requires ValueFlag(flagLong, flagShort)
    requires dashes == "-" || dashes == "--"
    requires '\n' !in v
    ensures var arg := dashes + LongName(flagLong) + "=" + v;
            && ArgYields(arg, Patterns(flagLong, flagShort), true) == [v]
            && !ArgBare(arg, Patterns(flagLong, flagShort), true)
  {
    var name := LongName(flagLong);
    var arg := dashes + name + "=" + v;
    var pats := Patterns(flagLong, flagShort);
    ValueFlagArg(flagLong, flagShort, arg);
    assert name[0] == flagLong[0];
    if dashes == "--" {
      assert arg[..|name| + 2] == "--" + name;
      assert arg[|name| + 2..] == "=" + v;
    } else {
      assert arg[1] == name[0] != '-';
      assert arg[..|name| + 1] == "-" + name;
      assert arg[|name| + 1..] == "=" + v;
    }
    var rest := "=" + v;
    assert LongRest(arg, name) == Some(rest);
    assert StartsWith(rest, "=") && rest[1..] == v;
    LineHeadNoNewline(v);
    SpellingsExclusive(flagLong, flagShort, arg);
  }

  /** `-Xv` with a non-empty `v` yields `v` and leaves no match pending. */
  lemma ShortValueForm(flagLong: string, flagShort: string, v: string)
    requires ValueFlag(flagLong, flagShort)
    requires v != "" && '\n' !in v
    ensures var arg := "-" + flagShort + v;
            && ArgYields(arg, Patterns(flagLong, flagShort), true) == [v]
            && !ArgBare(arg, Patterns(flagLong, flagShort), true)
  {
    var name := LongName(flagLong);
    var arg := "-" + flagShort + v;
    ValueFlagArg(flagLong, flagShort, arg);
    assert arg[..|flagShort| + 1] == "-" + flagShort;
    assert arg[|flagShort| + 1..] == v;
    LineHeadNoNewline(v);
    SpellingsExclusive(flagLong, flagShort, arg);
  }

  /** A bare match, for a value-taking flag: `--name` or `-name` followed by
      anything but `=`, or `-X` with nothing (up to a newline) after it.
      A bare match yields nothing by itself. */
  lemma BareForms(flagLong: string, flagShort: string, arg: string)
    requires ValueFlag(flagLong, flagShort)
    ensures var pats := Patterns(flagLong, flagShort);
            ArgBare(arg, pats, true)
            <==> (|| (LongRest(arg, LongName(flagLong)).Some?
                      && !StartsWith(LongRest(arg, LongName(flagLong)).value, "="))
                  || (StartsWith(arg, "-" + flagShort) && LineHead(arg[|flagShort| + 1..]) == ""))
    ensures ArgBare(arg, Patterns(flagLong, flagShort), true)
            ==> ArgYields(arg, Patterns(flagLong, flagShort), true) == []
  {
    ValueFlagArg(flagLong, flagShort, arg);
    SpellingsExclusive(flagLong, flagShort, arg);
  }

  /** After a bare match the next argument is yielded verbatim, whatever it
      looks like, and scanning resumes after it with no match pending. */
  lemma BareTakesNext(arg: string, next: string, rest: seq<string>, pats: seq<FlagPattern>, ev: bool)
    requires ArgBare(arg, pats, ev)
    ensures Scan([arg, next] + rest, pats, ev, false)
         == ArgYields(arg, pats, ev) + [next] + Scan(rest, pats, ev, false)
  {
    var s := [arg, next] + rest;
    assert s[0] == arg && s[1..] == [next] + rest;
    assert ([next] + rest)[0] == next && ([next] + rest)[1..] == rest;
  }

  /** A bare value-taking flag in last position yields nothing. */
  lemma BareFlagLast(flagLong: string, flagShort: string, args: seq<string>, arg: string)
    requires ValueFlag(flagLong, flagShort)
    requires !PendingAfter(args, Patterns(flagLong, flagShort), true, false)
    requires ArgBare(arg, Patterns(flagLong, flagShort), true)
    ensures FlagValues(args + [arg], flagLong, flagShort) == FlagValues(args, flagLong, flagShort)
  {
    var pats := Patterns(flagLong, flagShort);
    ScanAppend(args, [arg], pats, true, false);
    BareForms(flagLong, flagShort, arg);
    assert Scan([arg], pats, true, false) == ArgYields(arg, pats, true) + Scan([], pats, true, true);
  }

  /** A scan of arguments that each yield a known list and leave nothing
      pending is the concatenation of those lists. */
  lemma {:induction false} ScanUnpended(args: seq<string>, outs: seq<seq<string>>, pats: seq<FlagPattern>, ev: bool)
    requires |outs| == |args|
    requires forall i :: 0 <= i < |args| ==> ArgYields(args[i], pats, ev) == outs[i] && !ArgBare(args[i], pats, ev)
    ensures Scan(args, pats, ev, false) == Concat(outs)
    decreases |args|
  {
    if args != [] {
      ScanUnpended(args[1..], outs[1..], pats, ev);
    }
  }

  function Concat(xs: seq<seq<string>>): seq<string> {
    if xs == [] then [] else xs[0] + Concat(xs[1..])
  }

  /** The argument list `setup.py --library-dirs=/x:/y build` yields exactly
      `/x:/y` for `library-dirs=`/`L`. */
  lemma LibraryDirsExample()
    ensures FlagValues(["setup.py", "--library-dirs=/x:/y", "build"], "library-dirs=", "L") == ["/x:/y"]
  {
    var pats := Patterns("library-dirs=", "L");
    var args := ["setup.py", "--library-dirs=/x:/y", "build"];
    var outs: seq<seq<string>> := [[], ["/x:/y"], []];
    forall i | 0 <= i < 3
      ensures ArgYields(args[i], pats, true) == outs[i] && !ArgBare(args[i], pats, true)
    {
      if i == 1 {
        assert LongName("library-dirs=") == "library-dirs";
        assert args[1] == "--" + "library-dirs" + "=" + "/x:/y";
        LongValueForm("library-dirs=", "L", "--", "/x:/y");
      } else {
        NoDashNoMatch(args[i], pats, true);
      }
    }
    ScanUnpended(args, outs, pats, true);
    assert Concat(outs) == ["/x:/y"];
  }

  /** `-O/path/to/libprotobuf.a` yields `/path/to/libprotobuf.a`. */
  lemma LinkObjectsShortExample()
    ensures FlagValues(["-O/path/to/libprotobuf.a"], "link-objects=", "O") == ["/path/to/libprotobuf.a"]
  {
    var pats := Patterns("link-objects=", "O");
    var args := ["-O/path/to/libprotobuf.a"];
    assert args[0] == "-" + "O" + "/path/to/libprotobuf.a";
    ShortValueForm("link-objects=", "O", "/path/to/libprotobuf.a");
    ScanUnpended(args, [["/path/to/libprotobuf.a"]], pats, true);
  }

  // ---------------------------------------------------------------------
  // The archive-name pattern `(.*[/\\])?(lib)?protobuf([.]pic)?[.](a|lib)`,
  // applied with `re.match`: a prefix of the value must match.

  /** `(.*[/\\])?`: empty, or a newline-free run ending in a slash or a
      backslash. */
  predicate DirPart(d: string) {
    d == [] || ((d[|d| - 1] == '/' || d[|d| - 1] == '\\') && '\n' !in d)
  }

  /** `[.](a|lib)` at the start of `r`. */
  predicate ArchiveExt(r: string) {
    StartsWith(r, ".a") || StartsWith(r, ".lib")
  }

  /** `([.]pic)?[.](a|lib)` at the start of `r`. */
  predicate PicArchiveExt(r: string) {
    ArchiveExt(r) || (StartsWith(r, ".pic") && ArchiveExt(r[4..]))
  }

  /** `protobuf([.]pic)?[.](a|lib)` at the start of `r`. */
  predicate ProtobufArchive(r: string) {
    StartsWith(r, "protobuf") && PicArchiveExt(r[8..])
  }

  /** `(lib)?protobuf([.]pic)?[.](a|lib)` at the start of `r`. */
  predicate LibArchive(r: string) {
    ProtobufArchive(r) || (StartsWith(r, "lib") && ProtobufArchive(r[3..]))
  }

  /** `lib_re.match(value)` succeeds. */
  predicate LibMatch(value: string) {
    exists k: nat | k <= |value| :: DirPart(value[..k]) && LibArchive(value[k..])
  }

  /** Without a slash or backslash the directory part is empty, so the file
      name itself must match. */
  lemma LibMatchNoDir(value: string)
    requires '/' !in value && '\\' !in value
    ensures LibMatch(value) <==> LibArchive(value)
  {
    if LibMatch(value) {
      var k: nat :| k <= |value| && DirPart(value[..k]) && LibArchive(value[k..]);
      if k > 0 {
        assert false;
      }
      assert value[0..] == value;
    } else {
      assert value[..0] == [] && value[0..] == value;
    }
  }

  /** Any directory part may precede a matching archive name. */
  lemma LibMatchInDir(dir: string, name: string)
    requires DirPart(dir) && LibArchive(name)
    ensures LibMatch(dir + name)
  {
    var v := dir + name;
    assert v[..|dir|] == dir && v[|dir|..] == name;
  }

  /** A prefix survives appending. */
  lemma StartsWithAppend(s: string, prefix: string, tail: string)
    requires StartsWith(s, prefix)
    ensures StartsWith(s + tail, prefix) && (s + tail)[|prefix|..] == s[|prefix|..] + tail
  {
    assert (s + tail)[..|prefix|] == s[..|prefix|];
  }

  lemma ArchiveExtAppend(r: string, tail: string)
    requires PicArchiveExt(r)
    ensures PicArchiveExt(r + tail)
  {
    if StartsWith(r, ".a") {
      StartsWithAppend(r, ".a", tail);
    } else if StartsWith(r, ".lib") {
      StartsWithAppend(r, ".lib", tail);
    } else {
      StartsWithAppend(r, ".pic", tail);
      var t := r[4..];
      if StartsWith(t, ".a") {
        StartsWithAppend(t, ".a", tail);
      } else {
        StartsWithAppend(t, ".lib", tail);
      }
    }
  }

  lemma LibArchiveAppend(r: string, tail: string)
    requires LibArchive(r)
    ensures LibArchive(r + tail)
  {
    if ProtobufArchive(r) {
      StartsWithAppend(r, "protobuf", tail);
      ArchiveExtAppend(r[8..], tail);
    } else {
      StartsWithAppend(r, "lib", tail);
      var t := r[3..];
      StartsWithAppend(t, "protobuf", tail);
      ArchiveExtAppend(t[8..], tail);
    }
  }

  /** `re.match` is anchored at the start only: anything may follow. */
  lemma LibMatchExtends(value: string, tail: string)
    requires LibMatch(value)
    ensures LibMatch(value + tail)
  {
    var k: nat :| k <= |value| && DirPart(value[..k]) && LibArchive(value[k..]);
    var v := value + tail;
    assert v[..k] == value[..k];
    assert v[k..] == value[k..] + tail;
    LibArchiveAppend(value[k..], tail);
  }

  lemma LibArchiveHasB(r: string)
    requires LibArchive(r)
    ensures 'b' in r
  {
    if ProtobufArchive(r) {
      assert r[..8] == "protobuf";
      assert r[..8][5] == r[5] == 'b';
    } else {
      assert r[3..][..8] == "protobuf";
      assert r[3..][..8][5] == r[8] == 'b';
    }
  }

  /** Every value the pattern accepts contains `b` (from `protobuf`). */
  lemma LibMatchHasB(value: string)
    requires LibMatch(value)
    ensures 'b' in value
  {
    var k: nat :| k <= |value| && DirPart(value[..k]) && LibArchive(value[k..]);
    LibArchiveHasB(value[k..]);
    var i :| 0 <= i < |value[k..]| && value[k..][i] == 'b';
    assert value[k + i] == 'b';
  }

  /** `libprotobuf.a` is an archive name the pattern accepts. */
  lemma LibArchiveName()
    ensures LibArchive("libprotobuf.a")
  {
    var name := "libprotobuf.a";
    assert name[..3] == "lib" && name[3..] == "protobuf.a";
    assert name[3..][..8] == "protobuf" && name[3..][8..] == ".a";
  }

  lemma LibMatchAccepts()
    ensures LibMatch("/x/libprotobuf.a")
  {
    var name := "libprotobuf.a";
    LibArchiveName();
    assert DirPart("/x/");
    LibMatchInDir("/x/", name);
    assert "/x/libprotobuf.a" == "/x/" + name;
  }

  lemma LibMatchPathAccepts()
    ensures LibMatch("/path/to/libprotobuf.a")
  {
    var v := "/path/to/libprotobuf.a";
    assert v[..9] == "/path/to/";
    assert v[9..] == "libprotobuf.a";
    LibArchiveName();
    assert DirPart(v[..9]);
  }

  lemma LibMatchRejectsLite()
    ensures !LibMatch("libprotobuf-lite.a")
  {
    var v := "libprotobuf-lite.a";
    assert !LibArchive(v) by {
      assert v[0] != "protobuf"[0];
      assert v[3..] == "protobuf-lite.a";
      assert v[3..][8..] == "-lite.a";
      assert v[3..][8..][0] == '-';
    }
    assert '/' !in v && '\\' !in v;
    LibMatchNoDir(v);
  }

  lemma LibMatchRejectsOther()
    ensures !LibMatch("/path/to/other.so")
  {
    if LibMatch("/path/to/other.so") {
      LibMatchHasB("/path/to/other.so");
    }
  }
}
