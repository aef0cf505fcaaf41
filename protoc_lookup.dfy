/** Where the build script looks for the protocol compiler: the module-level
    `if`/`elif` chain that sets `protoc`. Each branch tests one path with
    `os.path.exists` and assigns one path; the first branch whose test
    succeeds wins, and `find_executable('protoc')` (a search of `PATH`, given
    here as its result) is the last resort. */
module ProtocLookup {
  import opened Wrappers
  import opened FileSystem

  /** One `elif` branch: the path it tests and the value it assigns. */
  datatype Candidate = Candidate(checked: string, chosen: string)

  /** The branches after the `PROTOC` override, in the order written. Two of
      them test a path in the current directory but assign one in the parent
      directory. */
  const CANDIDATES: seq<Candidate> := [
    Candidate("../bazel-bin/protoc", "../bazel-bin/protoc"),
    Candidate("../bazel-bin/protoc.exe", "../bazel-bin/protoc.exe"),
    Candidate("protoc", "../protoc"),
    Candidate("protoc.exe", "../protoc.exe"),
    Candidate("../vsprojects/Debug/protoc.exe", "../vsprojects/Debug/protoc.exe"),
    Candidate("../vsprojects/Release/protoc.exe", "../vsprojects/Release/protoc.exe")
  ]

  /** The same branches with every assigned path equal to the tested one. */
  const CHECKED_CANDIDATES: seq<Candidate> := [
    Candidate("../bazel-bin/protoc", "../bazel-bin/protoc"),
    Candidate("../bazel-bin/protoc.exe", "../bazel-bin/protoc.exe"),
    Candidate("protoc", "protoc"),
    Candidate("protoc.exe", "protoc.exe"),
    Candidate("../vsprojects/Debug/protoc.exe", "../vsprojects/Debug/protoc.exe"),
    Candidate("../vsprojects/Release/protoc.exe", "../vsprojects/Release/protoc.exe")
  ]

  /** The index of the first branch whose tested path exists. */
  function FirstHit(cands: seq<Candidate>, files: Files): (r: Option<nat>)
    ensures r.Some? ==> r.value < |cands| && cands[r.value].checked in files
    ensures r.Some? ==> forall j :: 0 <= j < r.value ==> cands[j].checked !in files
    ensures r.None? ==> forall j :: 0 <= j < |cands| ==> cands[j].checked !in files
  {
    if cands == [] then None
    else if cands[0].checked in files then Some(0)
    else
      match FirstHit(cands[1..], files)
      case None => None
      case Some(i) => Some(i + 1)
  }

  /** The whole chain over a given branch table. */
  function Lookup(cands: seq<Candidate>, env: map<string, string>, files: Files, onPath: Option<string>): Option<string> {
    if "PROTOC" in env && env["PROTOC"] in files then Some(env["PROTOC"])
    else
      match FirstHit(cands, files)
      case Some(i) => Some(cands[i].chosen)
      case None => onPath
  }

  /** The value of `protoc` as the script computes it. */
  function FindProtoc(env: map<string, string>, files: Files, onPath: Option<string>): Option<string> {
    Lookup(CANDIDATES, env, files, onPath)
  }

  /** The chain with each branch assigning the path it tested. */
  function FindProtocChecked(env: map<string, string>, files: Files, onPath: Option<string>): Option<string> {
    Lookup(CHECKED_CANDIDATES, env, files, onPath)
  }

  /** A branch whose path exists, after branches whose paths do not, is the
      first hit. */
  lemma {:induction false} FirstHitAt(cands: seq<Candidate>, files: Files, i: nat)
    requires i < |cands| && cands[i].checked in files
    requires forall j :: 0 <= j < i ==> cands[j].checked !in files
    ensures FirstHit(cands, files) == Some(i)
  {
    if i > 0 {
      assert cands[0].checked !in files;
      assert forall j :: 0 <= j < i - 1 ==> cands[1..][j] == cands[j + 1];
      FirstHitAt(cands[1..], files, i - 1);
    }
  }

  /** The chain is an ordered choice: an existing `PROTOC` override wins;
      otherwise the first branch whose tested path exists decides; only when
      none exists does the `PATH` search decide. */
  lemma LookupPriority(cands: seq<Candidate>, env: map<string, string>, files: Files, onPath: Option<string>, i: nat)
    requires i < |cands| && cands[i].checked in files
    requires forall j :: 0 <= j < i ==> cands[j].checked !in files
    ensures !("PROTOC" in env && env["PROTOC"] in files) ==> Lookup(cands, env, files, onPath) == Some(cands[i].chosen)
    ensures "PROTOC" in env && env["PROTOC"] in files ==> Lookup(cands, env, files, onPath) == Some(env["PROTOC"])
  {
    FirstHitAt(cands, files, i);
  }

  /** An existing `PROTOC` override wins whatever else exists, including
      when no branch's tested path does. */
  lemma OverrideWins(cands: seq<Candidate>, env: map<string, string>, files: Files, onPath: Option<string>)
    requires "PROTOC" in env && env["PROTOC"] in files
    ensures Lookup(cands, env, files, onPath) == Some(env["PROTOC"])
  {
  }

  /** With nothing on disk and no override, the `PATH` search decides. */
  lemma LookupFallsBack(cands: seq<Candidate>, env: map<string, string>, files: Files, onPath: Option<string>)
    requires forall j :: 0 <= j < |cands| ==> cands[j].checked !in files
    requires !("PROTOC" in env && env["PROTOC"] in files)
    ensures Lookup(cands, env, files, onPath) == onPath
  {
  }

  /** A Bazel build output is preferred to every later location. */
  lemma BazelProtocPreferred(env: map<string, string>, files: Files, onPath: Option<string>)
    requires "../bazel-bin/protoc" in files
    requires "PROTOC" !in env
    ensures FindProtoc(env, files, onPath) == Some("../bazel-bin/protoc")
  {
    LookupPriority(CANDIDATES, env, files, onPath, 0);
  }

  /** As written, a compiler found as `protoc` in the current directory is
      recorded as `../protoc`, a path that need not exist. */
  lemma FindProtocAssignsUnchecked()
    ensures var files: Files := map["protoc" := 0];
            && FindProtoc(map[], files, None) == Some("../protoc")
            && "../protoc" !in files
  {
    var files: Files := map["protoc" := 0];
    assert CANDIDATES[0].checked !in files && CANDIDATES[1].checked !in files;
    LookupPriority(CANDIDATES, map[], files, None, 2);
  }

  /** Every branch assigns the path it tests. */
  predicate AssignsTested(cands: seq<Candidate>) {
    forall i :: 0 <= i < |cands| ==> cands[i].chosen == cands[i].checked
  }

  /** With every branch assigning what it tested, a compiler taken from the
      chain always exists; only the `PATH` search can give anything else.
      This holds for any such table, whichever way the two mismatched
      branches are corrected. */
  lemma LookupCheckedExists(cands: seq<Candidate>, env: map<string, string>, files: Files, onPath: Option<string>)
    requires AssignsTested(cands)
    ensures Lookup(cands, env, files, onPath).Some?
            ==> Lookup(cands, env, files, onPath).value in files
                || Lookup(cands, env, files, onPath) == onPath
  {
    var h := FirstHit(cands, files);
    if h.Some? {
      assert cands[h.value].chosen == cands[h.value].checked;
    }
  }

  /** The table with the branches assigning the bare names they test. */
  lemma FindProtocCheckedExists(env: map<string, string>, files: Files, onPath: Option<string>)
    ensures FindProtocChecked(env, files, onPath).Some?
            ==> FindProtocChecked(env, files, onPath).value in files
                || FindProtocChecked(env, files, onPath) == onPath
  {
    assert AssignsTested(CHECKED_CANDIDATES);
    LookupCheckedExists(CHECKED_CANDIDATES, env, files, onPath);
  }
}
