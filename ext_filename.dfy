/** `BuildExtCmd.get_ext_filename`: the extension file name the distutils
    base class computes, with its `EXT_SUFFIX` swapped for the value of
    `PROTOCOL_BUFFERS_OVERRIDE_EXT_SUFFIX` when that is set, so that a
    cross-compiled wheel names its library for the target platform. */
module ExtFilename {
  import opened Wrappers
  import opened Text

  /** Python's `s[:-n]`: for `n == 0` this is `s[:0]`, the empty string. */
  function DropLast(s: string, n: nat): string {
    if n == 0 || n >= |s| then [] else s[..|s| - n]
  }

  /** `override` is the environment variable (absent or a string), and
      `origSuffix` the interpreter's `EXT_SUFFIX`. */
  function GetExtFilename(filename: string, origSuffix: string, override: Option<string>): string {
    if override.Some? && override.value != "" && EndsWith(filename, origSuffix) then
      DropLast(filename, |origSuffix|) + override.value
    else filename
  }

  /** With a non-empty override and a name ending in the suffix, the suffix
      alone is replaced: the stem is kept and the name now ends with the
      override. */
  lemma ExtSuffixReplaced(filename: string, origSuffix: string, newSuffix: string)
    requires newSuffix != "" && origSuffix != "" && EndsWith(filename, origSuffix)
    ensures GetExtFilename(filename, origSuffix, Some(newSuffix))
            == filename[..|filename| - |origSuffix|] + newSuffix
    ensures EndsWith(GetExtFilename(filename, origSuffix, Some(newSuffix)), newSuffix)
  {
    var r := GetExtFilename(filename, origSuffix, Some(newSuffix));
    if |origSuffix| == |filename| {
      assert filename[..0] == [];
    }
    assert r[|r| - |newSuffix|..] == newSuffix;
  }

  /** Without an override, with an empty one, or with a name that does not
      end in the suffix, the name is returned unchanged. */
  lemma ExtUnchanged(filename: string, origSuffix: string, override: Option<string>)
    requires override.None? || override.value == "" || !EndsWith(filename, origSuffix)
    ensures GetExtFilename(filename, origSuffix, override) == filename
  {
  }

  /** Rewriting one suffix to another and back restores the name. */
  lemma ExtRoundTrip(filename: string, a: string, b: string)
    requires a != "" && b != "" && EndsWith(filename, a)
    ensures GetExtFilename(GetExtFilename(filename, a, Some(b)), b, Some(a)) == filename
  {
    ExtSuffixReplaced(filename, a, b);
    var mid := GetExtFilename(filename, a, Some(b));
    var stem := filename[..|filename| - |a|];
    ExtSuffixReplaced(mid, b, a);
    assert mid[..|mid| - |b|] == stem;
    assert stem + a == filename;
  }

  /** An empty `EXT_SUFFIX` is a suffix of every name, and `s[:-0]` is empty,
      so the whole name is replaced by the override. */
  lemma EmptyExtSuffixReplacesName(filename: string, newSuffix: string)
    requires newSuffix != ""
    ensures GetExtFilename(filename, "", Some(newSuffix)) == newSuffix
  {
  }
}
