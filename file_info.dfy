/** FileInfo.cs: a remote file's local path components, its download link,
    and the filesystem-safe form of those components (forbidden characters
    replaced, over-long components shortened to fit a 240-byte budget). */
module LocalPath {
  import opened Wrappers
  import opened Text

  /** One downloadable file. The C# class assigns its three fields once, in
      its constructor, and never changes them, so it is a value here. */
  datatype FileInfo = FileInfo(pathComponents: seq<string>, uid: string, downloadLink: string)

  /** The exceptions thrown by FileInfo.cs. */
  datatype PathError =
    | InvalidRelpath(serverRelpath: string)
    | InvalidApiUrl(apiUrl: string)
    | CannotTruncate(name: string)

  /** The API base names a personal site or a team site. */
  predicate IsSiteApi(apiUrl: string)
  {
    IndexOf(apiUrl, "/personal/") >= 0 || IndexOf(apiUrl, "/sites/") >= 0
  }

  /** The constructor `FileInfo(server_relpath, api_url, uid)`. */
  function NewFileInfo(serverRelpath: string, apiUrl: string, uid: string): (r: Result<FileInfo, PathError>)
    ensures !StartsWith(serverRelpath, "/") ==> r == Err(InvalidRelpath(serverRelpath))
    ensures StartsWith(serverRelpath, "/") && !IsSiteApi(apiUrl) ==> r == Err(InvalidApiUrl(apiUrl))
    ensures r.Ok? <==> StartsWith(serverRelpath, "/") && IsSiteApi(apiUrl)
    ensures r.Ok? ==> "/" + Join(r.value.pathComponents, '/') == serverRelpath
    ensures r.Ok? ==> |r.value.pathComponents| >= 1
    ensures r.Ok? ==> forall i :: 0 <= i < |r.value.pathComponents| ==> '/' !in r.value.pathComponents[i]
    ensures r.Ok? ==> r.value.uid == uid
    ensures r.Ok? ==> r.value.downloadLink == apiUrl + "/web/GetFileById('" + uid + "')/$value"
  {
    if !StartsWith(serverRelpath, "/") then Err(InvalidRelpath(serverRelpath))
    else if !IsSiteApi(apiUrl) then Err(InvalidApiUrl(apiUrl))
    else
      var parts := Split(serverRelpath[1..], '/');
      JoinSplit(serverRelpath[1..], '/');
      assert serverRelpath == "/" + serverRelpath[1..];
      Ok(FileInfo(parts, uid, apiUrl + "/web/GetFileById('" + uid + "')/$value"))
  }

  // ---------------------------------------------------------------------
  // Forbidden characters
  // ---------------------------------------------------------------------

  /** The nine characters Windows refuses in a file name. */
  predicate IsForbidden(c: char)
  {
    c in "<>:\"/\\|?*"
  }

  predicate NoForbidden(s: string)
  {
    forall i :: 0 <= i < |s| ==> !IsForbidden(s[i])
  }

  lemma NoForbiddenConcat(a: string, b: string)
    ensures NoForbidden(a + b) <==> NoForbidden(a) && NoForbidden(b)
  {
    if NoForbidden(a + b) {
      forall i | 0 <= i < |a| ensures !IsForbidden(a[i]) {
        assert a[i] == (a + b)[i];
      }
      forall i | 0 <= i < |b| ensures !IsForbidden(b[i]) {
        assert b[i] == (a + b)[|a| + i];
      }
    }
    if NoForbidden(a) && NoForbidden(b) {
      forall i | 0 <= i < |a + b| ensures !IsForbidden((a + b)[i]) {
        if i < |a| {
          assert (a + b)[i] == a[i];
        } else {
          assert (a + b)[i] == b[i - |a|];
        }
      }
    }
  }

  /** The look-alike that stands in for each forbidden character. */
  function Substitute(c: char): char
  {
    match c
    case '<' => '\U{FF1C}'
    case '>' => '\U{FF1E}'
    case ':' => '\U{FF1A}'
    case '"' => '\U{201D}'
    case '/' => '\U{FF0F}'
    case '\\' => '\U{FF3C}'
    case '|' => '\U{FF5C}'
    case '?' => '\U{FF1F}'
    case '*' => '\U{FF0A}'
    case _ => c
  }

  /** The chain of nine `Replace` calls in `GetSafePath`. */
  function Sanitize(s: string): (r: string)
    ensures |r| == |s|
    ensures forall i :: 0 <= i < |s| ==> r[i] == Substitute(s[i])
    ensures NoForbidden(r)
    ensures NoForbidden(s) ==> r == s
  {
    var s1 := Replace(s, '<', '\U{FF1C}');
    ReplaceAt(s, '<', '\U{FF1C}');
    var s2 := Replace(s1, '>', '\U{FF1E}');
    ReplaceAt(s1, '>', '\U{FF1E}');
    var s3 := Replace(s2, ':', '\U{FF1A}');
    ReplaceAt(s2, ':', '\U{FF1A}');
    var s4 := Replace(s3, '"', '\U{201D}');
    ReplaceAt(s3, '"', '\U{201D}');
    var s5 := Replace(s4, '/', '\U{FF0F}');
    ReplaceAt(s4, '/', '\U{FF0F}');
    var s6 := Replace(s5, '\\', '\U{FF3C}');
    ReplaceAt(s5, '\\', '\U{FF3C}');
    var s7 := Replace(s6, '|', '\U{FF5C}');
    ReplaceAt(s6, '|', '\U{FF5C}');
    var s8 := Replace(s7, '?', '\U{FF1F}');
    ReplaceAt(s7, '?', '\U{FF1F}');
    ReplaceAt(s8, '*', '\U{FF0A}');
    var r := Replace(s8, '*', '\U{FF0A}');
    assert forall i :: 0 <= i < |s| ==> r[i] == Substitute(s[i]);
    SubstitutedIsSafe(s, r);
    r
  }

  /** A character-by-character substitution leaves no forbidden character,
      and changes nothing in a name that had none. */
  lemma SubstitutedIsSafe(s: string, r: string)
    requires |r| == |s| && forall i :: 0 <= i < |s| ==> r[i] == Substitute(s[i])
    ensures NoForbidden(r)
    ensures NoForbidden(s) ==> r == s
  {
    forall i | 0 <= i < |r| ensures !IsForbidden(r[i]) {
      assert r[i] == Substitute(s[i]);
    }
  }

  // ---------------------------------------------------------------------
  // Truncation to the byte budget
  // ---------------------------------------------------------------------

  /** A name must take fewer than this many bytes in UTF-8. */
  const MaxNameBytes := 240

  /** The marker put where characters were cut. */
  const OmitMarker := "(omit)"

  predicate Fits(t: string)
  {
    Utf8Length(t) < MaxNameBytes
  }

  /** The part of `s` that may be shortened and the part kept after the
      marker: the extension (from the last `.`) when `keepExt` holds and
      `s` has a dot, nothing otherwise. */
  function StemAndSuffix(s: string, keepExt: bool): (string, string)
  {
    var dotPos := LastIndexOf(s, '.');
    if keepExt && dotPos >= 0 then (s[..dotPos], s[dotPos..]) else (s, "")
  }

  /** The name tried with `k` characters of the stem. */
  function Candidate(stem: string, k: nat, suffix: string): string
    requires k <= |stem|
  {
    stem[..k] + OmitMarker + suffix
  }

  /** The candidate with the longest stem prefix, no longer than `k`, that
      fits; stem length 0 is never tried. */
  function FirstFit(stem: string, suffix: string, k: nat): Option<string>
    requires k <= |stem|
    decreases k
  {
    if k == 0 then None
    else if Fits(Candidate(stem, k, suffix)) then Some(Candidate(stem, k, suffix))
    else FirstFit(stem, suffix, k - 1)
  }

  /** What `TruncateIfTooLong(s, keepExt)` returns, `None` where it throws. */
  function Truncated(s: string, keepExt: bool): Option<string>
  {
    if Fits(s) then Some(s)
    else
      var (stem, suffix) := StemAndSuffix(s, keepExt);
      FirstFit(stem, suffix, |stem|)
  }

  lemma StemAndSuffixSpec(s: string, keepExt: bool)
    ensures StemAndSuffix(s, keepExt).0 + StemAndSuffix(s, keepExt).1 == s
    ensures StemAndSuffix(s, keepExt).1 == "" <==> !keepExt || '.' !in s
    ensures StemAndSuffix(s, keepExt).1 != "" ==>
              StemAndSuffix(s, keepExt).1[0] == '.' && '.' !in StemAndSuffix(s, keepExt).1[1..]
  {
    var dotPos := LastIndexOf(s, '.');
    if keepExt && dotPos >= 0 {
      assert s[dotPos..][1..] == s[dotPos + 1..];
    }
  }

  lemma {:induction false} FirstFitSpec(stem: string, suffix: string, k: nat)
    requires k <= |stem|
    ensures FirstFit(stem, suffix, k).None? <==>
              forall j :: 1 <= j <= k ==> !Fits(Candidate(stem, j, suffix))
    ensures FirstFit(stem, suffix, k).Some? ==>
              exists j :: 1 <= j <= k && FirstFit(stem, suffix, k).value == Candidate(stem, j, suffix)
                && Fits(Candidate(stem, j, suffix))
                && forall i :: j < i <= k ==> !Fits(Candidate(stem, i, suffix))
    decreases k
  {
    if k > 0 && !Fits(Candidate(stem, k, suffix)) {
      FirstFitSpec(stem, suffix, k - 1);
    }
  }

  /** `TruncateIfTooLong`: a short name is kept; a long one becomes the
      longest-stemmed `<stem prefix>(omit)<suffix>` that fits, and fails
      exactly when no stem length from |stem| down to 1 fits. */
  lemma TruncatedSpec(s: string, keepExt: bool)
    ensures Fits(s) ==> Truncated(s, keepExt) == Some(s)
    ensures Truncated(s, keepExt).Some? ==> Fits(Truncated(s, keepExt).value)
    ensures !Fits(s) ==>
              var (stem, suffix) := StemAndSuffix(s, keepExt);
              (Truncated(s, keepExt).None? <==>
                 forall k :: 1 <= k <= |stem| ==> !Fits(Candidate(stem, k, suffix)))
              && (Truncated(s, keepExt).Some? ==>
                 exists k :: 1 <= k <= |stem| && Truncated(s, keepExt).value == Candidate(stem, k, suffix)
                   && forall j :: k < j <= |stem| ==> !Fits(Candidate(stem, j, suffix)))
  {
    var (stem, suffix) := StemAndSuffix(s, keepExt);
    FirstFitSpec(stem, suffix, |stem|);
  }

  /** A name whose only dot is its first character cannot be shortened when
      its extension is kept: its stem is empty and stem length 0 is never
      tried. */
  lemma LeadingDotNameFails(s: string)
    requires |s| > 0 && s[0] == '.' && '.' !in s[1..] && !Fits(s)
    ensures Truncated(s, true).None?
  {
  }

  /** Nor can one whose extension leaves no room for marker and one byte. */
  lemma LongExtensionFails(s: string)
    requires !Fits(s)
    requires Utf8Length(StemAndSuffix(s, true).1) + |OmitMarker| + 1 >= MaxNameBytes
    ensures Truncated(s, true).None?
  {
    var (stem, suffix) := StemAndSuffix(s, true);
    forall k | 1 <= k <= |stem| ensures !Fits(Candidate(stem, k, suffix)) {
      Utf8LengthAppend(stem[..k] + OmitMarker, suffix);
      Utf8LengthAppend(stem[..k], OmitMarker);
      Utf8LengthAtLeastLength(stem[..k]);
      Utf8LengthAtLeastLength(OmitMarker);
    }
    TruncatedSpec(s, true);
  }

  /** `TruncateIfTooLong(s, keepExt)`: a name that fits is returned as it
      is; otherwise the stem and suffix are split off and the stem length is
      counted down until a candidate fits. */
  method TruncateIfTooLong(s: string, keepExt: bool) returns (r: Option<string>)
    ensures r == Truncated(s, keepExt)
  {
    if Utf8Length(s) < MaxNameBytes {
      return Some(s);
    }
    var stem, suffix := s, "";
    if keepExt {
      var dotPos := LastIndexOf(s, '.');
      if dotPos >= 0 {
        stem := s[..dotPos];
        suffix := s[dotPos..];
      }
    }
    assert (stem, suffix) == StemAndSuffix(s, keepExt);
    r := ShortenStem(stem, suffix);
  }

  /** The countdown loop of `TruncateIfTooLong`: tries stem lengths from the
      full stem down to 1 and returns the first candidate that fits. */
  method ShortenStem(stem: string, suffix: string) returns (r: Option<string>)
    ensures r == FirstFit(stem, suffix, |stem|)
  {
    var stemLen := |stem|;
    while stemLen > 0
      invariant 0 <= stemLen <= |stem|
      invariant FirstFit(stem, suffix, stemLen) == FirstFit(stem, suffix, |stem|)
    {
      var ret := stem[..stemLen] + OmitMarker + suffix;
      assert ret == Candidate(stem, stemLen, suffix);
      if Utf8Length(ret) < MaxNameBytes {
        return Some(ret);
      }
      stemLen := stemLen - 1;
    }
    return None;
  }

  // ---------------------------------------------------------------------
  // GetSafePath
  // ---------------------------------------------------------------------

  /** Component `i` made safe: forbidden characters replaced, then
      truncated, keeping the extension of the last component only. */
  function SafeComponent(components: seq<string>, i: nat): Option<string>
    requires i < |components|
  {
    Truncated(Sanitize(components[i]), i == |components| - 1)
  }

  lemma {:induction false} FirstFitNoForbidden(stem: string, suffix: string, k: nat)
    requires k <= |stem| && NoForbidden(stem) && NoForbidden(suffix)
    ensures FirstFit(stem, suffix, k).Some? ==> NoForbidden(FirstFit(stem, suffix, k).value)
    decreases k
  {
    if k > 0 {
      if Fits(Candidate(stem, k, suffix)) {
        assert NoForbidden(stem[..k]);
        assert NoForbidden(OmitMarker);
        NoForbiddenConcat(stem[..k], OmitMarker);
        NoForbiddenConcat(stem[..k] + OmitMarker, suffix);
      } else {
        FirstFitNoForbidden(stem, suffix, k - 1);
      }
    }
  }

  /** A safe name has no forbidden character and fits the budget; a name
      that already has both properties is left as it is. */
  lemma SafeNameSpec(s: string, keepExt: bool)
    ensures Truncated(Sanitize(s), keepExt).Some? ==>
              Fits(Truncated(Sanitize(s), keepExt).value) && NoForbidden(Truncated(Sanitize(s), keepExt).value)
    ensures NoForbidden(s) && Fits(s) ==> Truncated(Sanitize(s), keepExt) == Some(s)
  {
    var w := Sanitize(s);
    var (stem, suffix) := StemAndSuffix(w, keepExt);
    FirstFitSpec(stem, suffix, |stem|);
    StemAndSuffixSpec(w, keepExt);
    NoForbiddenConcat(stem, suffix);
    FirstFitNoForbidden(stem, suffix, |stem|);
  }

  /** Every component `GetSafePath` produces is safe; only the last one
      keeps its extension; a safe component is kept unchanged. */
  lemma SafeComponentSpec(components: seq<string>, i: nat)
    requires i < |components|
    ensures SafeComponent(components, i).Some? ==>
              var t := SafeComponent(components, i).value;
              Fits(t) && NoForbidden(t)
    ensures SafeComponent(components, i) ==
              Truncated(Sanitize(components[i]), i == |components| - 1)
    ensures NoForbidden(components[i]) && Fits(components[i]) ==>
              SafeComponent(components, i) == Some(components[i])
  {
    SafeNameSpec(components[i], i == |components| - 1);
  }

  /** Component `i` is the first that cannot be made safe. */
  predicate FirstUnsafeAt(components: seq<string>, i: int)
  {
    0 <= i < |components| && SafeComponent(components, i).None?
    && forall j :: 0 <= j < i ==> SafeComponent(components, j).Some?
  }

  /** `GetSafePath()`: fills a fresh array with the safe form of each path
      component; fails, like the C# method, at the first component that
      cannot be truncated. */
  method GetSafePath(f: FileInfo) returns (r: Result<seq<string>, PathError>)
    ensures r.Ok? <==> forall i :: 0 <= i < |f.pathComponents| ==> SafeComponent(f.pathComponents, i).Some?
    ensures r.Ok? ==> |r.value| == |f.pathComponents|
    ensures r.Ok? ==> forall i :: 0 <= i < |r.value| ==> Some(r.value[i]) == SafeComponent(f.pathComponents, i)
    ensures r.Err? ==> exists i :: FirstUnsafeAt(f.pathComponents, i)
                                  && r.error == CannotTruncate(Sanitize(f.pathComponents[i]))
  {
    var components := f.pathComponents;
    var ret := new string[|components|];
    ghost var done: seq<string> := [];
    for i := 0 to |components|
      invariant ret[..i] == done
      invariant forall k :: 0 <= k < i ==> Some(done[k]) == SafeComponent(components, k)
    {
      var winReplaced := Sanitize(components[i]);
      var t := TruncateIfTooLong(winReplaced, i == |components| - 1);
      assert t == SafeComponent(components, i);
      if t.None? {
        return Err(CannotTruncate(winReplaced));
      }
      ret[i] := t.value;
      done := done + [t.value];
    }
    assert ret[..] == ret[..|components|];
    return Ok(ret[..]);
  }
}
