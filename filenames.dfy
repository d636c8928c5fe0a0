/**
 * How `takeSnap` (PiBeamProfiler.py) turns the two user-typed names into the
 * paths it writes: the pattern `.txt|.png` compiled at line 212 and searched
 * with `re.search` at lines 229 and 244, the empty-name test at lines 232 and
 * 251, and the appended extension at lines 236 and 257.
 */
module FileNames {
  import opened Options

  /** The extensions appended to a name that does not match the pattern. */
  const PngExt := ".png"
  const TxtExt := ".txt"

  predicate IsExt(ext: string)
  {
    ext == PngExt || ext == TxtExt
  }

  /**
   * The pattern `.txt|.png` matches at position p. The dot is not escaped, so
   * it stands for any character except a newline, and the pattern may occur
   * anywhere in the name: it is not a test of the name's suffix.
   */
  predicate MatchAt(s: string, p: nat)
  {
    p + 4 <= |s| && s[p] != '\n' && (s[p + 1..p + 4] == "txt" || s[p + 1..p + 4] == "png")
  }

  /** `re.search` from position `from`: the leftmost position where the pattern matches. */
  function SearchFrom(s: string, from: nat): (r: Option<nat>)
    ensures r.Some? ==> from <= r.value && MatchAt(s, r.value)
    ensures r.Some? ==> forall q :: from <= q < r.value ==> !MatchAt(s, q)
    ensures r.None? ==> forall q :: from <= q ==> !MatchAt(s, q)
    decreases |s| - from
  {
    if |s| < from + 4 then None
    else if MatchAt(s, from) then Some(from)
    else SearchFrom(s, from + 1)
  }

  /** The truth value of `re.search(matchstring, name)`: the pattern occurs somewhere in the name. */
  function PatternOccurs(s: string): (b: bool)
    ensures b <==> exists p :: MatchAt(s, p)
  {
    SearchFrom(s, 0).Some?
  }

  /**
   * Any name followed by one of the appended extensions matches the pattern:
   * the extension's dot is a non-newline character followed by `png` or `txt`.
   */
  lemma AppendedExtensionMatches(name: string, ext: string)
    requires IsExt(ext)
    ensures PatternOccurs(name + ext)
  {
    var s := name + ext;
    assert s[|name|] == '.';
    assert s[|name| + 1..|name| + 4] == ext[1..4];
    assert MatchAt(s, |name|);
  }

  /**
   * The path written for a user-typed name (lines 229-236 for the picture with
   * `.png`, lines 244-258 for the matrix with `.txt`). `re.fullmatch('', name)`
   * holds only of the empty name, which gets no path (a warning instead).
   */
  function ExportPath(name: string, ext: string): Option<string>
    requires IsExt(ext)
  {
    if PatternOccurs(name) then Some(name)
    else if name == "" then None
    else Some(name + ext)
  }

  /**
   * Exactly the non-empty names get a path; that path is the name itself or
   * the name with the extension appended, and the pattern occurs in it.
   */
  lemma ExportPathSpec(name: string, ext: string)
    requires IsExt(ext)
    ensures ExportPath(name, ext).Some? <==> name != ""
    ensures ExportPath(name, ext).Some? ==> PatternOccurs(ExportPath(name, ext).value)
    ensures ExportPath(name, ext).Some? ==>
      ExportPath(name, ext).value == name || ExportPath(name, ext).value == name + ext
  {
    if !PatternOccurs(name) && name != "" {
      AppendedExtensionMatches(name, ext);
    }
  }

  /** A non-empty name is written unchanged exactly when the pattern occurs in it. */
  lemma ExportPathUnchangedIff(name: string, ext: string)
    requires IsExt(ext) && name != ""
    ensures ExportPath(name, ext) == Some(name) <==> PatternOccurs(name)
    ensures !PatternOccurs(name) ==> ExportPath(name, ext) == Some(name + ext)
  {
  }

  /**
   * Normalisation is idempotent: a path that was produced for some name is
   * itself written unchanged, whichever extension would be appended.
   */
  lemma ExportPathIdempotent(name: string, ext: string, ext': string)
    requires IsExt(ext) && IsExt(ext') && name != ""
    ensures ExportPath(ExportPath(name, ext).value, ext') == ExportPath(name, ext)
  {
    ExportPathSpec(name, ext);
  }

  /** Every name that ends in `.png` or `.txt` matches: the suffix test is stronger than the search. */
  lemma SuffixImpliesMatch(name: string, ext: string)
    requires IsExt(ext) && |name| >= 4 && name[|name| - 4..] == ext
    ensures PatternOccurs(name)
  {
    var p := |name| - 4;
    assert name[p] == ext[0];
    assert name[p + 1..p + 4] == ext[1..4];
    assert MatchAt(name, p);
  }

  /**
   * The converse fails: `datatxtfile` has no extension, yet the pattern occurs
   * in it at position 3, so `datatxtfile` is passed to the picture save unchanged.
   */
  lemma UnanchoredMatchKeepsName()
    ensures ExportPath("datatxtfile", PngExt) == Some("datatxtfile")
  {
    var s := "datatxtfile";
    assert s[4..7] == "txt";
    assert MatchAt(s, 3);
  }

  /** A newline before `png` does not match the dot, so the extension is appended. */
  lemma NewlineDoesNotMatchDot()
    ensures ExportPath("\npng", PngExt) == Some("\npng.png")
  {
    var s := "\npng";
    forall q | true ensures !MatchAt(s, q) {
      if q == 0 { assert s[0] == '\n'; }
    }
    assert !PatternOccurs(s);
    assert s + PngExt == "\npng.png";
  }
}
