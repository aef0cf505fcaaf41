/** `BuildPyCmd.find_package_modules`: the modules the distutils base class
    finds, less those whose file matches one of four exclude globs, in the
    order found. */
module PackageModules {
  import opened Text
  import opened Glob

  /** A `(package, module, file)` triple. */
  datatype Module = Module(package: string, name: string, file: string)

  const EXCLUDES: seq<string> := [
    "*test*",
    "_google/protobuf/internal/*_pb2.py",
    "_google/protobuf/internal/_parameterized.py",
    "_google/protobuf/pyext/python_pb2.py"
  ]

  /** `any(fnmatch.fnmatchcase(fil, pat=pat) for pat in pats)`. */
  function AnyMatch(file: string, pats: seq<string>): (b: bool)
    ensures b <==> exists i :: 0 <= i < |pats| && GlobMatch(file, pats[i])
  {
    if pats == [] then false
    else if GlobMatch(file, pats[0]) then true
    else
      var rest := AnyMatch(file, pats[1..]);
      assert forall i :: 1 <= i < |pats| ==> pats[i] == pats[1..][i - 1];
      rest
  }

  predicate Excluded(file: string) {
    AnyMatch(file, EXCLUDES)
  }

  /** The list comprehension: the modules whose file is not excluded. */
  function FindPackageModules(modules: seq<Module>): (r: seq<Module>)
    ensures |r| <= |modules|
    ensures forall m :: m in r <==> m in modules && !Excluded(m.file)
  {
    if modules == [] then []
    else
      var rest := FindPackageModules(modules[1..]);
      assert forall m :: m in modules <==> m == modules[0] || m in modules[1..];
      if Excluded(modules[0].file) then rest else [modules[0]] + rest
  }

  /** The filter keeps the order found: filtering a concatenation is
      concatenating the filtered parts. */
  lemma {:induction false} FindPackageModulesAppend(a: seq<Module>, b: seq<Module>)
    ensures FindPackageModules(a + b) == FindPackageModules(a) + FindPackageModules(b)
  {
    if a == [] {
      assert a + b == b;
    } else {
      assert (a + b)[0] == a[0] && (a + b)[1..] == a[1..] + b;
      FindPackageModulesAppend(a[1..], b);
    }
  }

  /** The four excludes in plain terms: any file whose path contains `test`;
      a generated `_pb2.py` directly or indirectly under
      `_google/protobuf/internal/`; and two named files. */
  lemma ExcludedIff(file: string)
    ensures Excluded(file) <==>
              || Contains(file, "test")
              || (StartsWith(file, "_google/protobuf/internal/") && EndsWith(file, "_pb2.py")
                  && |file| >= |"_google/protobuf/internal/"| + |"_pb2.py"|)
              || file == "_google/protobuf/internal/_parameterized.py"
              || file == "_google/protobuf/pyext/python_pb2.py"
  {
    assert EXCLUDES[0] == "*" + "test" + "*";
    assert EXCLUDES[1] == "_google/protobuf/internal/" + "*" + "_pb2.py";
    assert '*' !in "test";
    assert '*' !in "_google/protobuf/internal/";
    assert '*' !in "_pb2.py";
    assert '*' !in EXCLUDES[2];
    assert '*' !in EXCLUDES[3];
    GlobContains(file, "test");
    GlobAround(file, "_google/protobuf/internal/", "_pb2.py");
    GlobLiteral(file, EXCLUDES[2]);
    GlobLiteral(file, EXCLUDES[3]);
    assert Excluded(file) <==> GlobMatch(file, EXCLUDES[0]) || GlobMatch(file, EXCLUDES[1])
                               || GlobMatch(file, EXCLUDES[2]) || GlobMatch(file, EXCLUDES[3]);
  }
}
