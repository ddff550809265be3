/**
 * The path conventions shared by the generate and push services: a project file
 * `X.csproj` has a shadow sibling `X.Shadow.csproj`.  Conversion is a plain,
 * case-sensitive replacement of every occurrence of the marker; recognition is a
 * case-insensitive suffix test.
 */
module ShadowPaths {
  import opened Wrappers
  import opened Errors
  import opened Text

  const CsprojExt: string := ".csproj"
  const ShadowCsprojExt: string := ".Shadow.csproj"

  /** The path names a shadow project file, ignoring case. */
  predicate IsShadowProjectFilePath(path: string) {
    EndsWithIgnoreCase(path, ShadowCsprojExt)
  }

  function ConvertToShadowProjectFilePath(projectPath: string): string {
    ReplaceAll(projectPath, CsprojExt, ShadowCsprojExt)
  }

  function ConvertFromShadowToProjectFilePath(projectPath: string): string {
    ReplaceAll(projectPath, ShadowCsprojExt, CsprojExt)
  }

  // The three helpers as the service exposes them, where the argument is a
  // reference that may be null.

  function CheckedIsShadowProjectFilePath(path: Option<string>): (r: Result<bool, Error>)
    ensures r.Err? <==> path == None
    ensures r.Err? ==> r.error == NullArgument("path")
    ensures r.Ok? ==> (r.value <==> IsShadowProjectFilePath(path.value))
  {
    match path
    case None => Err(NullArgument("path"))
    case Some(p) => Ok(IsShadowProjectFilePath(p))
  }

  function CheckedConvertToShadowProjectFilePath(projectPath: Option<string>): (r: Result<string, Error>)
    ensures r.Err? <==> projectPath == None
    ensures r.Err? ==> r.error == NullArgument("projectPath")
    ensures r.Ok? && !Contains(projectPath.value, CsprojExt) ==> r.value == projectPath.value
  {
    match projectPath
    case None => Err(NullArgument("projectPath"))
    case Some(p) =>
      if Contains(p, CsprojExt) then Ok(ConvertToShadowProjectFilePath(p))
      else ReplaceAllAbsent(p, CsprojExt, ShadowCsprojExt); Ok(ConvertToShadowProjectFilePath(p))
  }

  function CheckedConvertFromShadowToProjectFilePath(projectPath: Option<string>): (r: Result<string, Error>)
    ensures r.Err? <==> projectPath == None
    ensures r.Err? ==> r.error == NullArgument("projectPath")
    ensures r.Ok? && !Contains(projectPath.value, ShadowCsprojExt) ==> r.value == projectPath.value
  {
    match projectPath
    case None => Err(NullArgument("projectPath"))
    case Some(p) =>
      if Contains(p, ShadowCsprojExt) then Ok(ConvertFromShadowToProjectFilePath(p))
      else ReplaceAllAbsent(p, ShadowCsprojExt, CsprojExt); Ok(ConvertFromShadowToProjectFilePath(p))
  }

  /** Texts whose first characters differ cannot overlap. */
  lemma LeadCharsDiffer(u: string, v: string)
    requires |u| > 0 && |v| > 0 && u[0] != v[0]
    ensures !Overlaps(u, v)
  {
    var n := if |u| < |v| then |u| else |v|;
    assert u[..n][0] != v[..n][0];
  }

  /** No occurrence of ".csproj" can straddle a seam followed by a '.'. */
  lemma CsprojDoesNotStraddle(t: string)
    requires |t| > 0 && t[0] == '.'
    ensures forall j :: 0 < j < |CsprojExt| ==> !Overlaps(CsprojExt[j..], t)
  {
    forall j | 0 < j < |CsprojExt|
      ensures !Overlaps(CsprojExt[j..], t)
    {
      assert CsprojExt[j..][0] == CsprojExt[j] != '.';
      LeadCharsDiffer(CsprojExt[j..], t);
    }
  }

  /** A copy of ".Shadow.csproj" cannot begin inside another copy, past its first character. */
  lemma ShadowMarkerDoesNotSelfOverlap()
    ensures forall i :: 1 <= i < |ShadowCsprojExt| ==> !Overlaps(ShadowCsprojExt[i..], ShadowCsprojExt)
  {
    forall i | 1 <= i < |ShadowCsprojExt|
      ensures !Overlaps(ShadowCsprojExt[i..], ShadowCsprojExt)
    {
      if i == 7 {
        assert ShadowCsprojExt[7..][..7] == CsprojExt;
        assert ShadowCsprojExt[..7] == ".Shadow";
      } else {
        assert ShadowCsprojExt[i..][0] == ShadowCsprojExt[i] != '.';
        LeadCharsDiffer(ShadowCsprojExt[i..], ShadowCsprojExt);
      }
    }
  }

  /**
   * Converting to a shadow path and back gives the original path, as long as the
   * original does not itself contain the shadow marker.
   */
  lemma ShadowRoundTrip(p: string)
    requires !Contains(p, ShadowCsprojExt)
    ensures ConvertFromShadowToProjectFilePath(ConvertToShadowProjectFilePath(p)) == p
  {
    ShadowMarkerDoesNotSelfOverlap();
    ReplaceAllRoundTrip(p, CsprojExt, ShadowCsprojExt);
  }

  /** A path ending in ".csproj" converts to one that the recogniser accepts. */
  lemma ConvertedIsShadow(p: string)
    requires EndsWith(p, CsprojExt)
    ensures EndsWith(ConvertToShadowProjectFilePath(p), ShadowCsprojExt)
    ensures IsShadowProjectFilePath(ConvertToShadowProjectFilePath(p))
  {
    var stem := p[..|p| - |CsprojExt|];
    assert p == stem + CsprojExt;
    CsprojDoesNotStraddle(CsprojExt);
    ReplaceAllAppend(stem, CsprojExt, CsprojExt, ShadowCsprojExt);
    assert ReplaceAll(CsprojExt, CsprojExt, ShadowCsprojExt) == ShadowCsprojExt;
    var q := ConvertToShadowProjectFilePath(p);
    assert q[|q| - |ShadowCsprojExt|..] == ShadowCsprojExt;
  }

  /**
   * The case asymmetry of the service: the recogniser accepts an upper-case shadow
   * extension, but conversion only matches the lower-case marker, so an
   * upper-case ".CSPROJ" extension is carried over untouched.
   */
  lemma UpperCaseExtensionNotConverted(p: string)
    ensures ConvertToShadowProjectFilePath(p + ".CSPROJ") == ConvertToShadowProjectFilePath(p) + ".CSPROJ"
    ensures IsShadowProjectFilePath(p + ".SHADOW.CSPROJ")
  {
    CsprojDoesNotStraddle(".CSPROJ");
    ReplaceAllAppend(p, ".CSPROJ", CsprojExt, ShadowCsprojExt);
    SevenCharsNotMarker(".CSPROJ");
    var u := p + ".SHADOW.CSPROJ";
    assert u[|u| - |ShadowCsprojExt|..] == ".SHADOW.CSPROJ";
  }

  lemma MarkerConverts()
    ensures ConvertToShadowProjectFilePath(CsprojExt) == ShadowCsprojExt
  {
    assert CsprojExt[|CsprojExt|..] == "";
  }

  /** A seven-character text that differs from ".csproj" in its second character is left alone. */
  lemma SevenCharsNotMarker(t: string)
    requires |t| == 7 && t[1] != 'c'
    ensures ConvertToShadowProjectFilePath(t) == t
  {
    assert t[..7][1] != CsprojExt[1];
    assert !StartsWith(t, CsprojExt);
    assert ReplaceAll(t[1..], CsprojExt, ShadowCsprojExt) == t[1..];
    assert t == [t[0]] + t[1..];
  }

  /** A path whose only ".csproj" is its extension gets the shadow extension. */
  lemma ConvertProjectPath(stem: string)
    requires !Contains(stem, CsprojExt)
    ensures ConvertToShadowProjectFilePath(stem + CsprojExt) == stem + ShadowCsprojExt
  {
    CsprojDoesNotStraddle(CsprojExt);
    MarkerConverts();
    ReplaceAllAbsent(stem, CsprojExt, ShadowCsprojExt);
    ReplaceAllAppend(stem, CsprojExt, CsprojExt, ShadowCsprojExt);
  }

  /**
   * Converting twice stacks the marker: this is why the generator shadows the
   * existing references before it inserts its own, already shadowed, ones.
   */
  lemma DoubleConversion(stem: string)
    requires !Contains(stem, CsprojExt)
    ensures ConvertToShadowProjectFilePath(stem + ShadowCsprojExt) == stem + ".Shadow" + ShadowCsprojExt
  {
    var once := stem + ".Shadow";
    MarkedStemUnchanged(stem);
    ConvertAppendDotted(once, CsprojExt);
    MarkerConverts();
    assert once + CsprojExt == stem + ShadowCsprojExt;
  }

  /** Conversion distributes over a seam followed by a dot: no ".csproj" can straddle it. */
  lemma ConvertAppendDotted(p: string, t: string)
    requires |t| > 0 && t[0] == '.'
    ensures ConvertToShadowProjectFilePath(p + t) == ConvertToShadowProjectFilePath(p) + ConvertToShadowProjectFilePath(t)
  {
    CsprojDoesNotStraddle(t);
    ReplaceAllAppend(p, t, CsprojExt, ShadowCsprojExt);
  }

  /** A stem without ".csproj", followed by ".Shadow", is left alone. */
  lemma MarkedStemUnchanged(stem: string)
    requires !Contains(stem, CsprojExt)
    ensures ConvertToShadowProjectFilePath(stem + ".Shadow") == stem + ".Shadow"
  {
    ReplaceAllAbsent(stem, CsprojExt, ShadowCsprojExt);
    SevenCharsNotMarker(".Shadow");
    ConvertAppendDotted(stem, ".Shadow");
  }
}
