/**
 * The file service of backend/file_service/storage.py: finding a task's MP3, describing
 * it, serving it under a safe name with a download counter, and the two sweeps that
 * remove old temporary and output files.
 */
module Storage {
  import opened Wrappers
  import opened Text
  import opened Disk
  import opened MetadataCodec
  import opened TaskStore

  // ---------------------------------------------------------------- file metadata

  /** `size_str`: the size in MB with two decimals from one MB on, in KB below. */
  function SizeText(size: nat): string {
    var kb := size as real / 1024.0;
    var mb := kb / 1024.0;
    if mb >= 1.0 then FormatFixed(mb, 2) + " MB" else FormatFixed(kb, 2) + " KB"
  }

  /**
   * The unit is MB exactly when the file has at least 1048576 bytes, and the number in
   * front of it reads back as the size in that unit rounded to two decimals.
   */
  lemma SizeTextReadsBack(size: nat)
    ensures |SizeText(size)| >= 3
    ensures SizeText(size)[|SizeText(size)| - 3..] == " MB" <==> size >= 1048576
    ensures ParseReal(SizeText(size)[..|SizeText(size)| - 3]) == Some(Rounded(size as real / SizeUnit(size), 2))
  {
    SizeTextIs(size);
    UnitReadsBack(size as real / SizeUnit(size), UnitName(size), SizeText(size));
  }

  /** The unit `SizeText` writes after the number. */
  function UnitName(size: nat): string {
    if size >= 1048576 then " MB" else " KB"
  }

  lemma SizeTextIs(size: nat)
    ensures SizeText(size) == FormatFixed(size as real / SizeUnit(size), 2) + UnitName(size)
  {
    var kb := size as real / 1024.0;
    MebiThreshold(size, kb, kb / 1024.0);
  }

  /** The bytes in the unit `SizeText` writes. */
  function SizeUnit(size: nat): real {
    if size >= 1048576 then 1048576.0 else 1024.0
  }

  lemma MebiThreshold(size: nat, kb: real, mb: real)
    requires kb == size as real / 1024.0 && mb == kb / 1024.0
    ensures mb == size as real / 1048576.0
    ensures mb >= 1.0 <==> size >= 1048576
  {
  }

  /** A number formatted with two decimals and followed by a unit splits back into the two. */
  lemma UnitReadsBack(x: real, unit: string, t: string)
    requires |unit| == 3 && t == FormatFixed(x, 2) + unit
    ensures |t| >= 3 && t[|t| - 3..] == unit && ParseReal(t[..|t| - 3]) == Some(Rounded(x, 2))
  {
    var num := FormatFixed(x, 2);
    FormatFixedRoundTrip(x, 2);
    assert t[..|t| - 3] == num;
    assert t[|t| - 3..] == unit;
  }

  /**
   * `get_file_metadata(path)`: `{}` for an empty or missing path, else the size, its
   * text, the creation time as `isoformat` writes it, and the file name.
   */
  function FileMetadataOf(path: string, files: map<string, FileEntry>, isoformat: int -> string): (m: FileMetadata)
    ensures m.NoMetadata? <==> path == "" || path !in files
    ensures m.Metadata? ==> m.fileSize == files[path].Size() && m.filename == Basename(path)
  {
    if path == "" || path !in files then NoMetadata
    else
      var f := files[path];
      Metadata(f.Size(), SizeText(f.Size()), isoformat(f.ctime), Basename(path))
  }

  // ---------------------------------------------------------------- the download name

  /** The characters the download name must not hold. */
  const UnsafeChars := "/\\:?*\"<>|"

  /**
   * The texts the loop of `serve_file` replaces, as Python reads that list: the two
   * quotes after the corner brackets form one triple-quoted string, ", ".
   */
  const ProblemTextsAsWritten: seq<string> := ["?", "*", "\"", "<", ">", "|", "\U{300c}", "\U{300d}", ", ", "\"", "\""]

  /** The list as evidently meant: the corner brackets and the four curly quotes. */
  const ProblemTexts: seq<string> :=
    ["?", "*", "\"", "<", ">", "|", "\U{300c}", "\U{300d}", "\U{2018}", "\U{2019}", "\U{201c}", "\U{201d}"]

  /** `for char in pats: s = s.replace(char, '_')`. */
  function ReplaceEach(s: string, pats: seq<string>): string
    requires forall i :: 0 <= i < |pats| ==> |pats[i]| > 0
    decreases |pats|
  {
    if |pats| == 0 then s else ReplaceEach(Replace(s, pats[0], "_"), pats[1..])
  }

  /** The non-ASCII characters at the start of `s` dropped. */
  function SkipNonAscii(s: string): (r: string)
    ensures |r| <= |s| && (|r| > 0 ==> r[0] < '\U{80}')
  {
    if |s| > 0 && s[0] >= '\U{80}' then SkipNonAscii(s[1..]) else s
  }

  /** `re.sub(r'[^\x00-\x7F]+', '_', s)`: each maximal run of non-ASCII characters becomes one '_'. */
  function CollapseNonAscii(s: string): (r: string)
    ensures IsAscii(r) && |r| <= |s|
    decreases |s|
  {
    if |s| == 0 then ""
    else if s[0] < '\U{80}' then [s[0]] + CollapseNonAscii(s[1..])
    else "_" + CollapseNonAscii(SkipNonAscii(s[1..]))
  }

  /** The title rewritten as `serve_file` does before using it as the download name, with the list `pats`. */
  function SanitiseWith(title: string, pats: seq<string>): string
    requires forall i :: 0 <= i < |pats| ==> |pats[i]| > 0
  {
    var t := Replace(Replace(Replace(title, "/", "_"), "\\", "_"), ":", "_");
    var u := CollapseNonAscii(ReplaceEach(t, pats));
    if |u| > 100 then u[..97] + "..." else u
  }

  /** The sanitiser with the list of problem texts as evidently meant. */
  function Sanitise(title: string): string {
    SanitiseWith(title, ProblemTexts)
  }

  /** The sanitiser as written, with ", " among the problem texts. */
  function SanitiseAsWritten(title: string): string {
    SanitiseWith(title, ProblemTextsAsWritten)
  }

  /** Replacing keeps out every character that neither the text nor the replacement holds. */
  lemma {:induction false} ReplaceEachKeepsOut(s: string, pats: seq<string>, c: char)
    requires forall i :: 0 <= i < |pats| ==> |pats[i]| > 0
    requires c !in s && c != '_'
    ensures c !in ReplaceEach(s, pats)
    decreases |pats|
  {
    if |pats| > 0 {
      ReplaceKeepsOut(s, pats[0], "_", c);
      ReplaceEachKeepsOut(Replace(s, pats[0], "_"), pats[1..], c);
    }
  }

  /** A one-character pattern of the list is gone after the loop. */
  lemma {:induction false} ReplaceEachRemoves(s: string, pats: seq<string>, k: nat, c: char)
    requires forall i :: 0 <= i < |pats| ==> |pats[i]| > 0
    requires k < |pats| && pats[k] == [c] && c != '_'
    ensures c !in ReplaceEach(s, pats)
    decreases |pats|
  {
    if k == 0 {
      ReplaceRemovesChar(s, c, "_");
      ReplaceEachKeepsOut(Replace(s, [c], "_"), pats[1..], c);
    } else {
      ReplaceEachRemoves(Replace(s, pats[0], "_"), pats[1..], k - 1, c);
    }
  }

  lemma {:induction false} CollapseKeepsOut(s: string, c: char)
    requires c !in s && c != '_'
    ensures c !in CollapseNonAscii(s)
    decreases |s|
  {
    if |s| > 0 {
      if s[0] < '\U{80}' {
        CollapseKeepsOut(s[1..], c);
      } else {
        var t := SkipNonAscii(s[1..]);
        SkipIsSuffix(s[1..]);
        assert c !in t;
        CollapseKeepsOut(t, c);
      }
    }
  }

  lemma {:induction false} SkipIsSuffix(s: string)
    ensures SkipNonAscii(s) == s[|s| - |SkipNonAscii(s)|..]
  {
    if |s| > 0 && s[0] >= '\U{80}' {
      SkipIsSuffix(s[1..]);
      assert s[1..][|s| - 1 - |SkipNonAscii(s)|..] == s[|s| - |SkipNonAscii(s)|..];
    }
  }

  /** The three replacements in front of the loop remove '/', '\' and ':'. */
  lemma FrontReplacements(title: string)
    ensures var t := Replace(Replace(Replace(title, "/", "_"), "\\", "_"), ":", "_");
      '/' !in t && '\\' !in t && ':' !in t
  {
    var a := Replace(title, "/", "_");
    var b := Replace(a, "\\", "_");
    ReplaceRemovesChar(title, '/', "_");
    ReplaceKeepsOut(a, "\\", "_", '/');
    ReplaceRemovesChar(a, '\\', "_");
    ReplaceKeepsOut(b, ":", "_", '/');
    ReplaceKeepsOut(b, ":", "_", '\\');
    ReplaceRemovesChar(b, ':', "_");
  }

  /** None of the characters a file name must not hold occurs in `s`. */
  predicate FreeOfUnsafe(s: string) {
    forall i :: 0 <= i < |UnsafeChars| ==> UnsafeChars[i] !in s
  }

  lemma FreeOfUnsafeByChars(s: string)
    requires forall j :: 0 <= j < |s| ==> s[j] !in {'/', '\\', ':', '?', '*', '"', '<', '>', '|'}
    ensures FreeOfUnsafe(s)
  {
    assert forall i :: 0 <= i < |UnsafeChars| ==> UnsafeChars[i] in {'/', '\\', ':', '?', '*', '"', '<', '>', '|'};
  }

  /**
   * A list of problem texts, none empty, whose first six are the last six unsafe
   * characters: both the list as written and the list as meant are of this kind.
   */
  predicate ReplacesUnsafe(pats: seq<string>) {
    (forall k :: 0 <= k < |pats| ==> |pats[k]| > 0)
    && |pats| >= 6 && forall k :: 3 <= k < |UnsafeChars| ==> pats[k - 3] == [UnsafeChars[k]]
  }

  /**
   * With any such list the name is ASCII, at most 100 characters long and free of the
   * unsafe characters.
   */
  lemma SanitisedWithIsSafe(title: string, pats: seq<string>)
    requires ReplacesUnsafe(pats)
    ensures var s := SanitiseWith(title, pats); IsAscii(s) && |s| <= 100 && FreeOfUnsafe(s)
  {
    var t := Replace(Replace(Replace(title, "/", "_"), "\\", "_"), ":", "_");
    var v := ReplaceEach(t, pats);
    FrontReplacements(title);
    assert UnsafeChars[0] == '/' && UnsafeChars[1] == '\\' && UnsafeChars[2] == ':';
    forall i | 0 <= i < |UnsafeChars|
      ensures UnsafeChars[i] !in CollapseNonAscii(v)
    {
      UnsafeGoneWith(t, pats, i);
    }
    var u := CollapseNonAscii(v);
    if |u| > 100 {
      TruncateKeepsSafe(u);
    }
  }

  /**
   * The name `serve_file` builds is ASCII, at most 100 characters long and free of the
   * unsafe characters, with the list as written and with the list as meant alike.
   */
  lemma SanitisedIsSafe(title: string)
    ensures IsAscii(SanitiseAsWritten(title)) && |SanitiseAsWritten(title)| <= 100
      && FreeOfUnsafe(SanitiseAsWritten(title))
    ensures IsAscii(Sanitise(title)) && |Sanitise(title)| <= 100 && FreeOfUnsafe(Sanitise(title))
  {
    assert ReplacesUnsafe(ProblemTextsAsWritten);
    assert ReplacesUnsafe(ProblemTexts);
    SanitisedWithIsSafe(title, ProblemTextsAsWritten);
    SanitisedWithIsSafe(title, ProblemTexts);
  }

  /** The same for any list of problem texts that starts with the last six unsafe characters. */
  lemma UnsafeGoneWith(t: string, pats: seq<string>, i: nat)
    requires forall k :: 0 <= k < |pats| ==> |pats[k]| > 0
    requires |pats| >= 6 && forall k :: 3 <= k < |UnsafeChars| ==> pats[k - 3] == [UnsafeChars[k]]
    requires forall k :: 0 <= k < 3 ==> UnsafeChars[k] !in t && UnsafeChars[k] != '_'
    requires i < |UnsafeChars|
    ensures UnsafeChars[i] !in CollapseNonAscii(ReplaceEach(t, pats))
  {
    var c := UnsafeChars[i];
    if i < 3 {
      ReplaceEachKeepsOut(t, pats, c);
    } else {
      ReplaceEachRemoves(t, pats, i - 3, c);
    }
    CollapseKeepsOut(ReplaceEach(t, pats), c);
  }

  /** Cutting to 97 characters and appending "..." keeps a safe ASCII text safe. */
  lemma TruncateKeepsSafe(u: string)
    requires |u| > 100 && IsAscii(u) && FreeOfUnsafe(u)
    ensures IsAscii(u[..97] + "...") && FreeOfUnsafe(u[..97] + "...")
  {
    var r := u[..97] + "...";
    assert forall j :: 0 <= j < |r| ==> r[j] == if j < 97 then u[j] else '.';
  }

  /** A text in which a pattern never occurs is left alone by the replacement. */
  lemma {:induction false} ReplaceAbsent(s: string, pat: string, rep: string)
    requires |pat| > 0 && forall j: nat :: !OccursAt(s, pat, j)
    ensures Replace(s, pat, rep) == s
    decreases |s|
  {
    if |s| >= |pat| {
      assert !OccursAt(s, pat, 0);
      OccursShift(s, pat);
      forall j: nat
        ensures !OccursAt(s[1..], pat, j)
      {
        assert !OccursAt(s, pat, j + 1);
      }
      ReplaceAbsent(s[1..], pat, rep);
      assert [s[0]] + s[1..] == s;
    }
  }

  lemma CharAbsent(s: string, c: char)
    requires c !in s
    ensures forall j: nat :: !OccursAt(s, [c], j)
  {
    IndexOfAbsent(s, c);
  }

  lemma {:induction false} ReplaceEachAbsent(s: string, pats: seq<string>)
    requires forall i :: 0 <= i < |pats| ==> |pats[i]| > 0
    requires forall i :: 0 <= i < |pats| ==> !Contains(s, pats[i])
    ensures ReplaceEach(s, pats) == s
    decreases |pats|
  {
    if |pats| > 0 {
      ReplaceAbsent(s, pats[0], "_");
      ReplaceEachAbsent(s, pats[1..]);
    }
  }

  lemma {:induction false} CollapseAscii(s: string)
    requires IsAscii(s)
    ensures CollapseNonAscii(s) == s
    decreases |s|
  {
    if |s| > 0 {
      CollapseAscii(s[1..]);
      assert [s[0]] + s[1..] == s;
    }
  }

  /** The three replacements in front of the loop leave a text without '/', '\' and ':' alone. */
  lemma FrontUnchanged(title: string)
    requires '/' !in title && '\\' !in title && ':' !in title
    ensures Replace(Replace(Replace(title, "/", "_"), "\\", "_"), ":", "_") == title
  {
    CharAbsent(title, '/');
    ReplaceAbsent(title, "/", "_");
    CharAbsent(title, '\\');
    ReplaceAbsent(title, "\\", "_");
    CharAbsent(title, ':');
    ReplaceAbsent(title, ":", "_");
  }

  /** The sanitiser's result when the front replacements change nothing and the loop yields a short ASCII text. */
  lemma SanitiseWithIs(title: string, pats: seq<string>, v: string)
    requires forall i :: 0 <= i < |pats| ==> |pats[i]| > 0
    requires '/' !in title && '\\' !in title && ':' !in title
    requires ReplaceEach(title, pats) == v && IsAscii(v) && |v| <= 100
    ensures SanitiseWith(title, pats) == v
  {
    FrontUnchanged(title);
    CollapseAscii(v);
  }

  /**
   * A title that is already a safe name (ASCII, at most 100 characters, none of the
   * unsafe characters) is served under its own name.
   */
  lemma SafeTitleUnchanged(title: string)
    requires IsAscii(title) && |title| <= 100 && FreeOfUnsafe(title)
    ensures Sanitise(title) == title
  {
    assert UnsafeChars[0] == '/' && UnsafeChars[1] == '\\' && UnsafeChars[2] == ':';
    forall i | 0 <= i < |ProblemTexts|
      ensures !Contains(title, ProblemTexts[i])
    {
      var c := ProblemTexts[i][0];
      assert ProblemTexts[i] == [c];
      if i >= 6 {
        assert c >= '\U{80}';
      } else {
        assert c == UnsafeChars[i + 3];
      }
      assert c !in title;
      IndexOfAbsent(title, c);
    }
    ReplaceEachAbsent(title, ProblemTexts);
    SanitiseWithIs(title, ProblemTexts, title);
  }

  /**
   * As written, the sanitiser also rewrites a ", " between two otherwise safe parts: the
   * title "a, b" is served as "a_b.mp3"; with the list as meant the title is kept.
   */
  lemma CommaSpaceReplacedAsWritten(x: string, y: string)
    requires IsAscii(x) && IsAscii(y) && FreeOfUnsafe(x) && FreeOfUnsafe(y)
    requires ',' !in x && ',' !in y && |x| + |y| <= 97
    ensures SanitiseAsWritten(x + ", " + y) == x + "_" + y
    ensures Sanitise(x + ", " + y) == x + ", " + y
  {
    var title := x + ", " + y;
    SafeParts(x, ", ", y);
    SafeParts(x, "_", y);
    AsWrittenLoop(x, y, title, x + "_" + y);
    TextsNonEmpty();
    SanitiseWithIs(title, ProblemTextsAsWritten, x + "_" + y);
    SafeTitleUnchanged(title);
  }

  /** Two safe ASCII parts around ", " or "_" make a safe ASCII text. */
  lemma SafeParts(x: string, sep: string, y: string)
    requires IsAscii(x) && IsAscii(y) && FreeOfUnsafe(x) && FreeOfUnsafe(y)
    requires sep == ", " || sep == "_"
    ensures IsAscii(x + sep + y) && FreeOfUnsafe(x + sep + y)
    ensures '/' !in x + sep + y && '\\' !in x + sep + y && ':' !in x + sep + y
  {
    var t := x + sep + y;
    assert IsAscii(sep);
    AsciiAppend(x, sep);
    AsciiAppend(x + sep, y);
    assert forall j :: 0 <= j < |t| ==>
      t[j] == if j < |x| then x[j] else if j < |x| + |sep| then sep[j - |x|] else y[j - |x| - |sep|];
    forall i | 0 <= i < |UnsafeChars|
      ensures UnsafeChars[i] !in t
    {
      assert UnsafeChars[i] !in sep;
    }
    assert UnsafeChars[0] == '/' && UnsafeChars[1] == '\\' && UnsafeChars[2] == ':';
  }

  /** A text without the first character of `pat` holds no occurrence of `pat`. */
  lemma FirstCharAbsent(s: string, pat: string)
    requires |pat| > 0 && pat[0] !in s
    ensures forall j: nat :: !OccursAt(s, pat, j)
  {
  }

  /** The replacement meets the pattern right after a prefix that lacks its first character. */
  lemma {:induction false} ReplaceAfter(x: string, pat: string, y: string, rep: string)
    requires |pat| > 0 && pat[0] !in x
    ensures Replace(x + pat + y, pat, rep) == x + rep + Replace(y, pat, rep)
    decreases |x|
  {
    var s := x + pat + y;
    if |x| == 0 {
      assert s == pat + y;
      assert s[..|pat|] == pat;
      assert s[|pat|..] == y;
    } else {
      assert s[..|pat|][0] == x[0];
      assert s[1..] == x[1..] + pat + y;
      ReplaceAfter(x[1..], pat, y, rep);
      assert [x[0]] + (x[1..] + rep + Replace(y, pat, rep)) == x + rep + Replace(y, pat, rep);
    }
  }

  lemma TextsNonEmpty()
    ensures forall i :: 0 <= i < |ProblemTextsAsWritten| ==> |ProblemTextsAsWritten[i]| > 0
  {
  }

  /** The loop as written turns the ", " into "_" and leaves the rest alone. */
  lemma AsWrittenLoop(x: string, y: string, title: string, mid: string)
    requires title == x + ", " + y && mid == x + "_" + y
    requires ',' !in x && ',' !in y
    requires IsAscii(title) && FreeOfUnsafe(title) && FreeOfUnsafe(mid)
    ensures ReplaceEach(title, ProblemTextsAsWritten) == mid
  {
    var pats := ProblemTextsAsWritten;
    TextsNonEmpty();
    AsWrittenHeadAbsent(title);
    ReplaceEachAbsent(title, pats[..8]);
    ReplaceAfter(x, ", ", y, "_");
    FirstCharAbsent(y, ", ");
    ReplaceAbsent(y, ", ", "_");
    AsWrittenTailAbsent(mid);
    ReplaceEachAbsent(mid, pats[9..]);
    ReplaceEachSplit(title, pats, 8);
    assert pats[8..][1..] == pats[9..];
  }

  /** The eight one-character texts in front of ", " do not occur in a safe ASCII title. */
  lemma AsWrittenHeadAbsent(title: string)
    requires IsAscii(title) && FreeOfUnsafe(title)
    ensures forall i :: 0 <= i < 8 ==> !Contains(title, ProblemTextsAsWritten[..8][i])
  {
    var pats := ProblemTextsAsWritten;
    forall i | 0 <= i < 8
      ensures !Contains(title, pats[i])
    {
      var c := pats[i][0];
      assert pats[i] == [c];
      if i >= 6 {
        assert c >= '\U{80}';
      } else {
        assert c == UnsafeChars[i + 3];
      }
      assert c !in title;
      IndexOfAbsent(title, c);
    }
  }

  /** The two quotes after ", " do not occur in a text free of the unsafe characters. */
  lemma AsWrittenTailAbsent(mid: string)
    requires FreeOfUnsafe(mid)
    ensures forall i :: 0 <= i < |ProblemTextsAsWritten[9..]| ==> !Contains(mid, ProblemTextsAsWritten[9..][i])
  {
    var rest := ProblemTextsAsWritten[9..];
    forall i | 0 <= i < |rest|
      ensures !Contains(mid, rest[i])
    {
      assert rest[i] == [UnsafeChars[5]];
      IndexOfAbsent(mid, UnsafeChars[5]);
    }
  }

  /** The loop over a list is the loop over its first `k` texts, then over the rest. */
  lemma {:induction false} ReplaceEachSplit(s: string, pats: seq<string>, k: nat)
    requires forall i :: 0 <= i < |pats| ==> |pats[i]| > 0
    requires k <= |pats|
    ensures ReplaceEach(s, pats) == ReplaceEach(ReplaceEach(s, pats[..k]), pats[k..])
    decreases k
  {
    if k > 0 {
      assert pats[..k][1..] == pats[1..][..k - 1];
      assert pats[k..] == pats[1..][k - 1..];
      ReplaceEachSplit(Replace(s, pats[0], "_"), pats[1..], k - 1);
    }
  }

  /**
   * The name the file is served under: the stripped title sanitised with the list as
   * written, with ".mp3", and `audio_<id>.mp3` should that not be ASCII; the file's own
   * name without a title.
   */
  function DownloadName(title: Option<string>, id: string, filename: string): string {
    var t := Strip(title.GetOr(""));
    if t != "" then
      var name := SanitiseAsWritten(t) + ".mp3";
      if IsAscii(name) then name else "audio_" + id + ".mp3"
    else filename
  }

  /** The fallback to `audio_<id>.mp3` is never taken: a sanitised title is always ASCII. */
  lemma TitleAlwaysUsed(title: Option<string>, id: string, filename: string)
    requires Strip(title.GetOr("")) != ""
    ensures DownloadName(title, id, filename) == SanitiseAsWritten(Strip(title.GetOr(""))) + ".mp3"
  {
    var t := Strip(title.GetOr(""));
    SanitisedIsSafe(t);
    Mp3Ascii(SanitiseAsWritten(t));
  }

  lemma Mp3Ascii(s: string)
    requires IsAscii(s)
    ensures IsAscii(s + ".mp3")
  {
    assert IsAscii(".mp3");
    AsciiAppend(s, ".mp3");
  }

  // ---------------------------------------------------------------- resolving a task's file

  /** `task_id in f and f.endswith(".mp3")`. */
  predicate Accepts(id: string, name: string) {
    Contains(name, id) && EndsWith(name, ".mp3")
  }

  /** `potential_files`: the accepted names of the output directory, as paths, in listing order. */
  function Candidates(id: string, names: seq<string>): (ps: seq<string>)
    ensures |ps| <= |names|
  {
    if |names| == 0 then []
    else (if Accepts(id, names[0]) then [Join(StorageDir, names[0])] else []) + Candidates(id, names[1..])
  }

  /** There is a candidate exactly when some name is accepted, and the first candidate is the first such name. */
  lemma {:induction false} FirstCandidate(id: string, names: seq<string>)
    ensures |Candidates(id, names)| > 0 <==> exists k :: 0 <= k < |names| && Accepts(id, names[k])
    ensures |Candidates(id, names)| > 0 ==>
      exists k :: 0 <= k < |names| && Accepts(id, names[k]) && Candidates(id, names)[0] == Join(StorageDir, names[k])
        && forall j :: 0 <= j < k ==> !Accepts(id, names[j])
  {
    if |names| > 0 && !Accepts(id, names[0]) {
      FirstCandidate(id, names[1..]);
      assert Candidates(id, names) == Candidates(id, names[1..]);
      if |Candidates(id, names)| > 0 {
        var k :| 0 <= k < |names[1..]| && Accepts(id, names[1..][k])
          && Candidates(id, names[1..])[0] == Join(StorageDir, names[1..][k])
          && forall j :: 0 <= j < k ==> !Accepts(id, names[1..][j]);
        assert names[k + 1] == names[1..][k];
        assert forall j :: 1 <= j < k + 1 ==> names[j] == names[1..][j - 1];
        assert 0 <= k + 1 < |names| && Accepts(id, names[k + 1])
          && Candidates(id, names)[0] == Join(StorageDir, names[k + 1])
          && forall j :: 0 <= j < k + 1 ==> !Accepts(id, names[j]);
      } else {
        assert forall k :: 1 <= k < |names| ==> names[k] == names[1..][k - 1];
      }
    }
  }

  /** Where `get_file_for_task` finds the file, and the path it writes back to the record, if any. */
  datatype Resolution = Resolution(path: Option<string>, recovered: Option<string>)

  /**
   * `get_file_for_task` on the record `r` as `get_task` returns it: the stored path if
   * that file exists; else the first candidate of the output directory, which is then
   * written back; a path is returned only when its file exists.
   */
  function ResolveFile(r: TaskRecord, files: map<string, FileEntry>, id: string, names: seq<string>): (res: Resolution)
    ensures res.path.Some? ==> res.path.value in files
    ensures r.IsEmpty() ==> res == Resolution(None, None)
    ensures !r.IsEmpty() && r.filePath.Some? && r.filePath.value != "" && r.filePath.value in files ==>
      res == Resolution(r.filePath, None)
    ensures res.recovered.Some? ==> |Candidates(id, names)| > 0 && res.recovered == Some(Candidates(id, names)[0])
    ensures res.path.Some? ==> res.path == if res.recovered.Some? then res.recovered else r.filePath
    ensures res.path.Some? ==> res.path.value != ""
  {
    if r.IsEmpty() then Resolution(None, None)
    else if r.filePath.Some? && r.filePath.value != "" && r.filePath.value in files then Resolution(r.filePath, None)
    else
      var cands := Candidates(id, names);
      var p := if |cands| > 0 then Some(cands[0]) else r.filePath;
      Resolution(if p.Some? && p.value != "" && p.value in files then p else None,
                 if |cands| > 0 then Some(cands[0]) else None)
  }

  /**
   * When the stored path is unusable and some name is accepted, the first accepted name
   * is written back, and it is the path returned exactly when its file exists.
   */
  lemma RecoveryWritesBack(r: TaskRecord, files: map<string, FileEntry>, id: string, names: seq<string>)
    requires !r.IsEmpty() && !(r.filePath.Some? && r.filePath.value != "" && r.filePath.value in files)
    requires exists k :: 0 <= k < |names| && Accepts(id, names[k])
    ensures var res := ResolveFile(r, files, id, names);
      res.recovered.Some? && res.path == if res.recovered.value in files then res.recovered else None
  {
    FirstCandidate(id, names);
    var k :| 0 <= k < |names| && Accepts(id, names[k]) && Candidates(id, names)[0] == Join(StorageDir, names[k]);
    JoinNonEmpty(StorageDir, names[k]);
  }

  lemma JoinNonEmpty(dir: string, name: string)
    requires |dir| > 0
    ensures Join(dir, name) != ""
  {
  }

  /** The write `get_file_for_task` makes: the recovered path, if there is one. */
  function RecoveryPatches(res: Resolution): (ps: seq<Patch>)
    ensures |ps| <= 1
  {
    if res.recovered.Some? then [Patch(filePath := res.recovered)] else []
  }

  /** After the write-back the record holds the recovered path. */
  lemma RecoveredPathStored(st: StoreState, id: string, res: Resolution, now: int)
    requires res.recovered.Some?
    ensures Lookup(UpdateAll(st, id, RecoveryPatches(res), now), id, now).filePath == res.recovered
  {
    UpdateAllThenLookup(st, id, RecoveryPatches(res), now);
  }

  /**
   * `get_file_for_task(task_id)`, with `names` the listing of the output directory: the
   * path `ResolveFile` picks, and the store updated with the recovered path.
   */
  method GetFileForTask(store: TaskStoreServer, fs: FileSystem, id: string, names: seq<string>, now: int)
    returns (path: Option<string>)
    modifies store
    ensures var res := ResolveFile(Lookup(old(store.State()), id, now), fs.files, id, names);
      path == res.path && store.State() == UpdateAll(old(store.State()), id, RecoveryPatches(res), now)
  {
    ghost var st0 := store.State();
    var r := store.GetTask(id, now);
    if r.IsEmpty() {
      return None;
    }
    var filePath := r.filePath;
    if !(filePath.Some? && filePath.value != "" && fs.Exists(filePath.value)) {
      var cands := Candidates(id, names);
      if |cands| > 0 {
        filePath := Some(cands[0]);
        store.UpdateTask(id, Patch(filePath := filePath), now);
        UpdateAllSnoc(st0, id, [], Patch(filePath := filePath), now);
        assert [] + [Patch(filePath := filePath)] == RecoveryPatches(ResolveFile(r, fs.files, id, names));
      }
    }
    path := if filePath.Some? && filePath.value != "" && fs.Exists(filePath.value) then filePath else None;
  }

  // ---------------------------------------------------------------- serving a file

  /** The response of `serve_file`: an HTTP error, or the file with the name it is downloaded under. */
  datatype ServeOutcome = HttpError(code: int, detail: string) | Served(path: string, downloadName: string)

  /** A response and the writes to the task record made on the way to it, in order. */
  datatype ServePlan = ServePlan(outcome: ServeOutcome, patches: seq<Patch>)

  /** The status as the f-string of the 400 detail writes it. */
  function StatusText(s: Option<TaskStatus>): string {
    match s
    case None => "None"
    case Some(v) => v.Value()
  }

  /** The count read from the record, 0 if absent, plus one. */
  function NextCount(r: TaskRecord): int {
    ReadDownloadCount(r).GetOr(0) + 1
  }

  /** The counter write. */
  function CountPatch(r: TaskRecord): Patch {
    Patch(downloadCount := Some(NextCount(r)))
  }

  /** The metadata write, made only when `get_file_metadata` returns a non-empty dict. */
  function MetadataPatches(m: FileMetadata): seq<Patch> {
    if m.Metadata? then [Patch(fileMetadata := Some(m))] else []
  }

  /**
   * `serve_file(task_id)` on the record `r`: 404 for a missing task, 400 for one not
   * completed, 404 when no file is found; otherwise the file, served after the recovered
   * path, the metadata and the incremented counter are written.
   */
  function Serving(r: TaskRecord, files: map<string, FileEntry>, id: string, names: seq<string>,
                   isoformat: int -> string): (plan: ServePlan)
    ensures plan.outcome.Served? <==>
      !r.IsEmpty() && r.status == Some(Completed) && ResolveFile(r, files, id, names).path.Some?
    ensures plan.outcome.Served? ==> plan.outcome.path in files
    ensures plan.outcome.HttpError? ==>
      plan.outcome.code in {400, 404}
      && plan.patches == if r.status == Some(Completed) then RecoveryPatches(ResolveFile(r, files, id, names)) else []
  {
    if r.IsEmpty() then ServePlan(HttpError(404, "Task " + id + " not found"), [])
    else if r.status != Some(Completed) then
      ServePlan(HttpError(400, "Task " + id + " is not completed (status: " + StatusText(r.status) + ")"), [])
    else
      var res := ResolveFile(r, files, id, names);
      if res.path.None? then ServePlan(HttpError(404, "File not found for task " + id), RecoveryPatches(res))
      else
        var path := res.path.value;
        ServePlan(Served(path, DownloadName(r.title, id, Basename(path))),
                  RecoveryPatches(res) + MetadataPatches(FileMetadataOf(path, files, isoformat)) + [CountPatch(r)])
  }

  /**
   * `serve_file(task_id)`, with `names` the listing of the output directory: the store
   * receives the plan's writes and the served file's modification and change times become `now`.
   */
  method ServeFile(store: TaskStoreServer, fs: FileSystem, id: string, names: seq<string>,
                   isoformat: int -> string, now: int)
    returns (outcome: ServeOutcome)
    modifies store, fs
    ensures var plan := Serving(Lookup(old(store.State()), id, now), old(fs.files), id, names, isoformat);
      outcome == plan.outcome && store.State() == UpdateAll(old(store.State()), id, plan.patches, now)
    ensures fs.undeletable == old(fs.undeletable)
    ensures fs.files == if outcome.Served?
      then old(fs.files)[outcome.path := old(fs.files)[outcome.path].(ctime := now, mtime := now)]
      else old(fs.files)
  {
    ghost var st0 := store.State();
    var r := store.GetTask(id, now);
    if r.IsEmpty() {
      return HttpError(404, "Task " + id + " not found");
    }
    if r.status != Some(Completed) {
      return HttpError(400, "Task " + id + " is not completed (status: " + StatusText(r.status) + ")");
    }
    var path := GetFileForTask(store, fs, id, names, now);
    ghost var found := RecoveryPatches(ResolveFile(r, fs.files, id, names));
    if path.None? || !fs.Exists(path.value) {
      return HttpError(404, "File not found for task " + id);
    }
    var name := DownloadName(r.title, id, Basename(path.value));
    var meta := FileMetadataOf(path.value, fs.files, isoformat);
    ghost var written := found;
    if meta.Metadata? {
      store.UpdateTask(id, Patch(fileMetadata := Some(meta)), now);
      UpdateAllSnoc(st0, id, found, Patch(fileMetadata := Some(meta)), now);
      written := found + [Patch(fileMetadata := Some(meta))];
    }
    assert written == found + MetadataPatches(meta);
    fs.Touch(path.value, now);
    store.UpdateTask(id, CountPatch(r), now);
    UpdateAllSnoc(st0, id, written, CountPatch(r), now);
    outcome := Served(path.value, name);
  }

  /**
   * A served file leaves the record completed, holding the served path, the file's
   * metadata as it reads back, and a download count one above the one read before.
   */
  lemma ServeRecordsDownload(st: StoreState, id: string, files: map<string, FileEntry>, names: seq<string>,
                             isoformat: int -> string, now: int, plan: ServePlan)
    requires plan == Serving(Lookup(st, id, now), files, id, names, isoformat) && plan.outcome.Served?
    ensures var after := Lookup(UpdateAll(st, id, plan.patches, now), id, now);
      after.status == Some(Completed)
      && after.filePath == Some(plan.outcome.path)
      && ReadFileMetadata(after) == Some(FileMetadataOf(plan.outcome.path, files, isoformat))
      && ReadDownloadCount(after) == Some(NextCount(Lookup(st, id, now)))
  {
    var r := Lookup(st, id, now);
    var res := ResolveFile(r, files, id, names);
    ServePatchesAre(r, files, id, names, isoformat);
    var meta := FileMetadataOf(plan.outcome.path, files, isoformat);
    assert plan.patches == RecoveryPatches(res) + [Patch(fileMetadata := Some(meta))] + [CountPatch(r)];
    UpdateAllThenLookup(st, id, plan.patches, now);
    var after := Lookup(UpdateAll(st, id, plan.patches, now), id, now);
    ServeWritesRead(r, res, meta, after);
  }

  /** The writes of a successful serve: the recovered path, the metadata, the counter. */
  lemma ServePatchesAre(r: TaskRecord, files: map<string, FileEntry>, id: string, names: seq<string>,
                        isoformat: int -> string)
    requires Serving(r, files, id, names, isoformat).outcome.Served?
    ensures var res := ResolveFile(r, files, id, names);
      var plan := Serving(r, files, id, names, isoformat);
      res.path.Some? && plan.outcome.path == res.path.value
      && FileMetadataOf(res.path.value, files, isoformat).Metadata?
      && plan.patches == RecoveryPatches(res) + [Patch(fileMetadata := Some(FileMetadataOf(res.path.value, files, isoformat)))]
                         + [CountPatch(r)]
  {
  }

  /** The record those writes leave, read field by field. */
  lemma ServeWritesRead(r: TaskRecord, res: Resolution, meta: FileMetadata, after: TaskRecord)
    requires res.path.Some? && r.status == Some(Completed)
    requires res.recovered.Some? ==> res.recovered == res.path
    requires res.recovered.None? ==> r.filePath == res.path
    requires after == ApplyAll(r, RecoveryPatches(res) + [Patch(fileMetadata := Some(meta))] + [CountPatch(r)])
    ensures after.status == Some(Completed) && after.filePath == res.path
      && ReadFileMetadata(after) == Some(meta)
      && ReadDownloadCount(after) == Some(NextCount(r))
  {
    var found := RecoveryPatches(res);
    var metaPatch := Patch(fileMetadata := Some(meta));
    ApplyAllSnoc(r, found + [metaPatch], CountPatch(r));
    ApplyAllSnoc(r, found, metaPatch);
    var withPath := ApplyAll(r, found);
    if res.recovered.Some? {
      assert found[1..] == [];
      assert withPath == ApplyPatch(r, Patch(filePath := res.recovered));
    }
    var withMeta := ApplyPatch(withPath, metaPatch);
    FileMetadataRoundTrip(withPath, metaPatch);
    DownloadCountRoundTrip(withMeta, CountPatch(r));
  }

  /**
   * A served file goes out under a safe ASCII name ending in ".mp3" when the task has a
   * title, and under its own base name otherwise.
   */
  lemma ServedNameIsSafe(r: TaskRecord, files: map<string, FileEntry>, id: string, names: seq<string>,
                         isoformat: int -> string)
    requires Serving(r, files, id, names, isoformat).outcome.Served?
    ensures var o := Serving(r, files, id, names, isoformat).outcome;
      if Strip(r.title.GetOr("")) != "" then
        IsAscii(o.downloadName) && FreeOfUnsafe(o.downloadName) && EndsWith(o.downloadName, ".mp3")
        && |o.downloadName| <= 104
      else o.downloadName == Basename(o.path)
  {
    var t := Strip(r.title.GetOr(""));
    if t != "" {
      TitleAlwaysUsed(r.title, id, Basename(ResolveFile(r, files, id, names).path.value));
      SanitisedIsSafe(t);
      SafeWithExtension(SanitiseAsWritten(t));
    }
  }

  lemma SafeWithExtension(s: string)
    requires IsAscii(s) && FreeOfUnsafe(s)
    ensures IsAscii(s + ".mp3") && FreeOfUnsafe(s + ".mp3") && EndsWith(s + ".mp3", ".mp3")
  {
    Mp3Ascii(s);
    var t := s + ".mp3";
    assert forall j :: 0 <= j < |t| ==> t[j] == if j < |s| then s[j] else ".mp3"[j - |s|];
    forall i | 0 <= i < |UnsafeChars|
      ensures UnsafeChars[i] !in t
    {
      assert UnsafeChars[i] !in ".mp3";
    }
    assert t[|t| - 4..] == ".mp3";
  }

  // ---------------------------------------------------------------- the sweeps

  /** Files older than this many seconds (by modification time) are temporary leftovers. */
  const TempMaxAge := 24 * 3600

  /** What a sweep has done so far: the files left, the paths it removed in order, the bytes freed. */
  datatype Sweep = Sweep(files: map<string, FileEntry>, gone: seq<string>, freed: nat)

  /**
   * The age test of a sweep: the modification time for the temporary files, the later of
   * the status-change and modification times for the output files.
   */
  predicate Stale(f: FileEntry, cutoff: int, byLastChange: bool) {
    (if byLastChange && f.ctime > f.mtime then f.ctime else f.mtime) < cutoff
  }

  /**
   * One path of a sweep: a stale file is measured and removed, and counted only when the
   * removal succeeds; a missing file is passed over, its error caught.
   */
  /** Whether the step for `path` removes it: its file is there, stale and deletable. */
  predicate Removes(files: map<string, FileEntry>, path: string, undeletable: set<string>, cutoff: int, byLastChange: bool) {
    path in files && Stale(files[path], cutoff, byLastChange) && path !in undeletable
  }

  function SweepStep(s: Sweep, path: string, undeletable: set<string>, cutoff: int, byLastChange: bool): Sweep {
    if Removes(s.files, path, undeletable, cutoff, byLastChange)
    then Sweep(s.files - {path}, s.gone + [path], s.freed + s.files[path].Size())
    else s
  }

  /** A sweep over the paths in order, starting from `files`. */
  function SweepOf(files: map<string, FileEntry>, paths: seq<string>, undeletable: set<string>,
                   cutoff: int, byLastChange: bool): Sweep
    decreases |paths|
  {
    if |paths| == 0 then Sweep(files, [], 0)
    else SweepStep(SweepOf(files, paths[..|paths| - 1], undeletable, cutoff, byLastChange),
                   paths[|paths| - 1], undeletable, cutoff, byLastChange)
  }

  /** Whether the sweep removes `p`: a stale, deletable file whose path it visits. */
  predicate Removable(files: map<string, FileEntry>, paths: seq<string>, undeletable: set<string>,
                      cutoff: int, byLastChange: bool, p: string)
  {
    p in files && p in paths && Stale(files[p], cutoff, byLastChange) && p !in undeletable
  }

  /** The sizes of the files at the given paths, added up. */
  function SizeSum(files: map<string, FileEntry>, ps: seq<string>): nat
    requires forall i :: 0 <= i < |ps| ==> ps[i] in files
    decreases |ps|
  {
    if |ps| == 0 then 0 else SizeSum(files, ps[..|ps| - 1]) + files[ps[|ps| - 1]].Size()
  }

  /** The sweep's invariant: what it has removed and freed, stated against the files it started from. */
  ghost predicate SweepAccounts(files: map<string, FileEntry>, paths: seq<string>, undeletable: set<string>,
                          cutoff: int, byLastChange: bool, s: Sweep)
  {
    (forall p :: p in s.files <==> p in files && !Removable(files, paths, undeletable, cutoff, byLastChange, p))
    && (forall p :: p in s.files ==> s.files[p] == files[p])
    && (forall i :: 0 <= i < |s.gone| ==> Removable(files, paths, undeletable, cutoff, byLastChange, s.gone[i]))
    && (forall p :: Removable(files, paths, undeletable, cutoff, byLastChange, p) ==> p in s.gone)
    && (forall i, j :: 0 <= i < j < |s.gone| ==> s.gone[i] != s.gone[j])
    && s.freed == SizeSum(files, s.gone)
  }

  /**
   * A sweep removes exactly the stale, deletable files on its paths, each once, leaves
   * every other file as it was, and frees the sum of the removed files' sizes.
   */
  lemma {:induction false} SweepRemovesStale(files: map<string, FileEntry>, paths: seq<string>,
                                               undeletable: set<string>, cutoff: int, byLastChange: bool)
    ensures SweepAccounts(files, paths, undeletable, cutoff, byLastChange,
                          SweepOf(files, paths, undeletable, cutoff, byLastChange))
    decreases |paths|
  {
    if |paths| > 0 {
      var init := paths[..|paths| - 1];
      SweepRemovesStale(files, init, undeletable, cutoff, byLastChange);
      SweepStepAccounts(files, init, paths[|paths| - 1], undeletable, cutoff, byLastChange,
                        SweepOf(files, init, undeletable, cutoff, byLastChange));
      assert init + [paths[|paths| - 1]] == paths;
    }
  }

  lemma SweepStepAccounts(files: map<string, FileEntry>, init: seq<string>, path: string,
                          undeletable: set<string>, cutoff: int, byLastChange: bool, s: Sweep)
    requires SweepAccounts(files, init, undeletable, cutoff, byLastChange, s)
    ensures SweepAccounts(files, init + [path], undeletable, cutoff, byLastChange,
                          SweepStep(s, path, undeletable, cutoff, byLastChange))
  {
    var paths := init + [path];
    var s' := SweepStep(s, path, undeletable, cutoff, byLastChange);
    RemovableSnoc(files, init, path, undeletable, cutoff, byLastChange);
    if path in s.files && Stale(s.files[path], cutoff, byLastChange) && path !in undeletable {
      GoneSnoc(files, s.gone, path);
    }
  }

  /** Visiting one more path makes that path removable, if its file is stale and deletable, and nothing else. */
  lemma RemovableSnoc(files: map<string, FileEntry>, init: seq<string>, path: string,
                      undeletable: set<string>, cutoff: int, byLastChange: bool)
    ensures forall p :: Removable(files, init + [path], undeletable, cutoff, byLastChange, p) <==>
      Removable(files, init, undeletable, cutoff, byLastChange, p)
      || (p == path && p in files && Stale(files[p], cutoff, byLastChange) && p !in undeletable)
  {
    assert forall p :: p in init + [path] <==> p in init || p == path;
  }

  /** One more removed path, not removed before, keeps the list free of repeats and adds its size. */
  lemma GoneSnoc(files: map<string, FileEntry>, gone: seq<string>, path: string)
    requires forall i :: 0 <= i < |gone| ==> gone[i] in files
    requires path in files && path !in gone
    requires forall i, j :: 0 <= i < j < |gone| ==> gone[i] != gone[j]
    ensures forall i, j :: 0 <= i < j < |gone + [path]| ==> (gone + [path])[i] != (gone + [path])[j]
    ensures SizeSum(files, gone + [path]) == SizeSum(files, gone) + files[path].Size()
  {
    assert (gone + [path])[..|gone|] == gone;
  }

  /** The count a sweep reports and the files left add up to the files it started from. */
  lemma {:induction false} SweepCounts(files: map<string, FileEntry>, paths: seq<string>,
                                         undeletable: set<string>, cutoff: int, byLastChange: bool)
    ensures var s := SweepOf(files, paths, undeletable, cutoff, byLastChange);
      |s.gone| + |s.files| == |files|
    decreases |paths|
  {
    if |paths| > 0 {
      var init := paths[..|paths| - 1];
      SweepCounts(files, init, undeletable, cutoff, byLastChange);
      var s := SweepOf(files, init, undeletable, cutoff, byLastChange);
      var path := paths[|paths| - 1];
      if path in s.files && Stale(s.files[path], cutoff, byLastChange) && path !in undeletable {
        assert (s.files - {path}).Keys == s.files.Keys - {path};
      }
    }
  }

  /** A sweep that finds nothing to remove changes nothing. */
  lemma {:induction false} SweepOfNothing(files: map<string, FileEntry>, paths: seq<string>,
                                            undeletable: set<string>, cutoff: int, byLastChange: bool)
    requires forall i :: 0 <= i < |paths| ==> !Removable(files, paths, undeletable, cutoff, byLastChange, paths[i])
    ensures SweepOf(files, paths, undeletable, cutoff, byLastChange) == Sweep(files, [], 0)
    decreases |paths|
  {
    if |paths| > 0 {
      var init := paths[..|paths| - 1];
      assert forall i :: 0 <= i < |init| ==> init[i] == paths[i];
      SweepOfNothing(files, init, undeletable, cutoff, byLastChange);
      assert !Removable(files, paths, undeletable, cutoff, byLastChange, paths[|paths| - 1]);
    }
  }

  /** Sweeping again at the same cutoff removes nothing more. */
  lemma SweepIdempotent(files: map<string, FileEntry>, paths: seq<string>, undeletable: set<string>,
                        cutoff: int, byLastChange: bool)
    ensures var s := SweepOf(files, paths, undeletable, cutoff, byLastChange);
      SweepOf(s.files, paths, undeletable, cutoff, byLastChange) == Sweep(s.files, [], 0)
  {
    var s := SweepOf(files, paths, undeletable, cutoff, byLastChange);
    SweepRemovesStale(files, paths, undeletable, cutoff, byLastChange);
    forall i | 0 <= i < |paths|
      ensures !Removable(s.files, paths, undeletable, cutoff, byLastChange, paths[i])
    {
      if paths[i] in s.files {
        assert s.files[paths[i]] == files[paths[i]];
      }
    }
    SweepOfNothing(s.files, paths, undeletable, cutoff, byLastChange);
  }

  /**
   * `cleanup_temp_files()` without a task id, with `paths` the files `os.walk(TEMP_DIR)`
   * yields: every file last modified more than 24 hours before `now` is removed.
   */
  method CleanupTempFiles(fs: FileSystem, paths: seq<string>, now: int) returns (removed: nat, freed: nat)
    modifies fs
    ensures var s := SweepOf(old(fs.files), paths, fs.undeletable, now - TempMaxAge, false);
      fs.files == s.files && removed == |s.gone| && freed == s.freed
    ensures fs.undeletable == old(fs.undeletable)
  {
    var cutoff := now - TempMaxAge;
    removed, freed := 0, 0;
    var i := 0;
    while i < |paths|
      invariant 0 <= i <= |paths| && fs.undeletable == old(fs.undeletable)
      invariant var s := SweepOf(old(fs.files), paths[..i], fs.undeletable, cutoff, false);
        fs.files == s.files && removed == |s.gone| && freed == s.freed
    {
      var path := paths[i];
      if fs.Exists(path) && fs.files[path].mtime < cutoff {
        var size := fs.files[path].Size();
        var ok := fs.Remove(path);
        if ok {
          removed := removed + 1;
          freed := freed + size;
        }
      }
      assert paths[..i + 1][..i] == paths[..i];
      i := i + 1;
    }
    assert paths[..i] == paths;
  }

  /** `file.split("_")[0]` for an output file named `task-…_…`; None for any other name. */
  function TaskIdOf(name: string): (id: Option<string>)
    ensures id.Some? ==> StartsWith(id.value, "task-") && '_' !in id.value
  {
    if StartsWith(name, "task-") && '_' in name then
      var id := Split(name, '_')[0];
      assert StartsWith(id, "task-") by {
        TaskIdPrefix(name);
      }
      Some(id)
    else None
  }

  /** The text before the first '_' of a name that starts with "task-" starts with it too. */
  lemma TaskIdPrefix(name: string)
    requires StartsWith(name, "task-") && '_' in name
    ensures StartsWith(Split(name, '_')[0], "task-")
  {
    var k := CharIndex(name, '_');
    assert Split(name, '_')[0] == name[..k];
    assert name[..k][..5] == name[..5];
  }

  /** A name written as `<id>_<rest>` for a task id yields that id back. */
  lemma TaskIdRoundTrip(id: string, rest: string)
    requires StartsWith(id, "task-") && '_' !in id
    ensures TaskIdOf(id + "_" + rest) == Some(id)
  {
    var name := id + "_" + rest;
    StartsWithAppend(id, "_", rest);
    assert name[..5] == id[..5];
    assert name[|id|] == '_';
    SplitAt(id, rest, '_');
    assert id + ['_'] + rest == name;
  }

  /** The output paths `scheduled_cleanup` visits: each listed name under the output directory. */
  function OutputPaths(names: seq<string>): (ps: seq<string>)
    ensures |ps| == |names| && forall i :: 0 <= i < |names| ==> ps[i] == Join(StorageDir, names[i])
  {
    if |names| == 0 then [] else OutputPaths(names[..|names| - 1]) + [Join(StorageDir, names[|names| - 1])]
  }

  /** The write that marks a task whose file the output sweep removed. */
  const ExpiredPatch := Patch(status := Some(Expired), message := Some("File expired and was removed from server"))

  /** What the output sweep has done so far: the sweep itself and the tasks it marked expired, in order. */
  datatype OutputSweep = OutputSweep(sweep: Sweep, expired: seq<string>)

  /** One listed name: a removed file also marks the task its name carries, if any. */
  function OutputStep(o: OutputSweep, name: string, undeletable: set<string>, cutoff: int): OutputSweep {
    var path := Join(StorageDir, name);
    if Removes(o.sweep.files, path, undeletable, cutoff, true) then
      OutputSweep(SweepStep(o.sweep, path, undeletable, cutoff, true),
                  o.expired + if TaskIdOf(name).Some? then [TaskIdOf(name).value] else [])
    else o
  }

  /** `scheduled_cleanup()` over the listed names in order, starting from `files`. */
  function OutputSweepOf(files: map<string, FileEntry>, names: seq<string>, undeletable: set<string>, cutoff: int): OutputSweep
    decreases |names|
  {
    if |names| == 0 then OutputSweep(Sweep(files, [], 0), [])
    else OutputStep(OutputSweepOf(files, names[..|names| - 1], undeletable, cutoff), names[|names| - 1], undeletable, cutoff)
  }

  /** The files the output sweep removes are those of the generic sweep over the output paths. */
  lemma {:induction false} OutputSweepIsSweep(files: map<string, FileEntry>, names: seq<string>, undeletable: set<string>, cutoff: int)
    ensures OutputSweepOf(files, names, undeletable, cutoff).sweep == SweepOf(files, OutputPaths(names), undeletable, cutoff, true)
    decreases |names|
  {
    if |names| > 0 {
      var init := names[..|names| - 1];
      OutputSweepIsSweep(files, init, undeletable, cutoff);
      assert OutputPaths(names)[..|names| - 1] == OutputPaths(init);
    }
  }

  /** The sweep marks at most one task for each file it removes. */
  lemma {:induction false} ExpiredAtMostGone(files: map<string, FileEntry>, names: seq<string>, undeletable: set<string>, cutoff: int)
    ensures |OutputSweepOf(files, names, undeletable, cutoff).expired| <= |OutputSweepOf(files, names, undeletable, cutoff).sweep.gone|
    decreases |names|
  {
    if |names| > 0 {
      ExpiredAtMostGone(files, names[..|names| - 1], undeletable, cutoff);
    }
  }

  /** A second `scheduled_cleanup()` at the same instant removes nothing and marks no task. */
  lemma OutputSweepIdempotent(files: map<string, FileEntry>, names: seq<string>, undeletable: set<string>, cutoff: int)
    ensures var o := OutputSweepOf(files, names, undeletable, cutoff);
      OutputSweepOf(o.sweep.files, names, undeletable, cutoff) == OutputSweep(Sweep(o.sweep.files, [], 0), [])
  {
    var o := OutputSweepOf(files, names, undeletable, cutoff);
    OutputSweepIsSweep(files, names, undeletable, cutoff);
    OutputSweepIsSweep(o.sweep.files, names, undeletable, cutoff);
    SweepIdempotent(files, OutputPaths(names), undeletable, cutoff, true);
    ExpiredAtMostGone(o.sweep.files, names, undeletable, cutoff);
  }

  /** Some listed name whose file was removed carries the task id `id`. */
  ghost predicate NamedByRemoved(names: seq<string>, id: string, gone: seq<string>) {
    exists i :: 0 <= i < |names| && TaskIdOf(names[i]) == Some(id) && Join(StorageDir, names[i]) in gone
  }

  /** Every task the sweep marks is named by a file it removed. */
  lemma {:induction false} ExpiredNamedByRemoved(files: map<string, FileEntry>, names: seq<string>, undeletable: set<string>, cutoff: int)
    ensures forall k :: 0 <= k < |OutputSweepOf(files, names, undeletable, cutoff).expired| ==>
      NamedByRemoved(names, OutputSweepOf(files, names, undeletable, cutoff).expired[k],
                     OutputSweepOf(files, names, undeletable, cutoff).sweep.gone)
    decreases |names|
  {
    if |names| > 0 {
      var init := names[..|names| - 1];
      var o := OutputSweepOf(files, init, undeletable, cutoff);
      var o' := OutputSweepOf(files, names, undeletable, cutoff);
      ExpiredNamedByRemoved(files, init, undeletable, cutoff);
      assert forall k :: 0 <= k < |o.expired| ==> NamedByRemoved(init, o.expired[k], o.sweep.gone);
      forall k | 0 <= k < |o'.expired|
        ensures NamedByRemoved(names, o'.expired[k], o'.sweep.gone)
      {
        if k < |o.expired| {
          assert o'.expired[k] == o.expired[k];
          assert NamedByRemoved(init, o.expired[k], o.sweep.gone);
          var i :| 0 <= i < |init| && TaskIdOf(init[i]) == Some(o.expired[k]) && Join(StorageDir, init[i]) in o.sweep.gone;
          assert names[i] == init[i];
        } else {
          assert TaskIdOf(names[|names| - 1]) == Some(o'.expired[k]);
        }
      }
    }
  }

  /** `update_task(id, status="expired", message=…)` for each id in turn. */
  function ExpireAll(st: StoreState, ids: seq<string>, now: int): StoreState
    decreases |ids|
  {
    if |ids| == 0 then st else Update(ExpireAll(st, ids[..|ids| - 1], now), ids[|ids| - 1], ExpiredPatch, now)
  }

  /** After the marking every listed task reads as expired, and every other task is untouched. */
  lemma {:induction false} ExpireAllMarks(st: StoreState, ids: seq<string>, now: int)
    ensures forall k :: 0 <= k < |ids| ==>
      var r := Lookup(ExpireAll(st, ids, now), ids[k], now);
      r.status == Some(Expired) && r.message == ExpiredPatch.message
    ensures forall other :: other !in ids ==> Lookup(ExpireAll(st, ids, now), other, now) == Lookup(st, other, now)
    decreases |ids|
  {
    if |ids| > 0 {
      var init := ids[..|ids| - 1];
      var last := ids[|ids| - 1];
      var before := ExpireAll(st, init, now);
      ExpireAllMarks(st, init, now);
      UpdateThenLookup(before, last, ExpiredPatch, now);
      forall other | other != last
        ensures Lookup(ExpireAll(st, ids, now), other, now) == Lookup(before, other, now)
      {
        UpdateFrames(before, last, other, ExpiredPatch, now, now);
      }
      forall k | 0 <= k < |ids|
        ensures Lookup(ExpireAll(st, ids, now), ids[k], now).status == Some(Expired)
        ensures Lookup(ExpireAll(st, ids, now), ids[k], now).message == ExpiredPatch.message
      {
        if ids[k] != last {
          assert ids[k] == init[k];
        }
      }
      forall other | other !in ids
        ensures Lookup(ExpireAll(st, ids, now), other, now) == Lookup(st, other, now)
      {
        assert other !in init;
      }
    }
  }

  lemma OutputSweepSnoc(files: map<string, FileEntry>, names: seq<string>, i: nat, undeletable: set<string>, cutoff: int)
    requires i < |names|
    ensures OutputSweepOf(files, names[..i + 1], undeletable, cutoff)
      == OutputStep(OutputSweepOf(files, names[..i], undeletable, cutoff), names[i], undeletable, cutoff)
  {
    assert names[..i + 1][..i] == names[..i];
  }

  lemma ExpireAllSnoc(st: StoreState, ids: seq<string>, id: string, now: int)
    ensures ExpireAll(st, ids + [id], now) == Update(ExpireAll(st, ids, now), id, ExpiredPatch, now)
  {
    assert (ids + [id])[..|ids|] == ids;
  }

  /**
   * The body of the loop of `scheduled_cleanup()` for one listed name: a stale file is
   * removed and, when its name carries a task id, that task is marked expired.
   */
  method SweepOutputFile(store: TaskStoreServer, fs: FileSystem, name: string, cutoff: int, now: int)
    returns (gone: bool, size: nat)
    modifies store, fs
    ensures var path := Join(StorageDir, name);
      (gone <==> Removes(old(fs.files), path, fs.undeletable, cutoff, true))
      && fs.files == (if gone then old(fs.files) - {path} else old(fs.files))
      && (gone ==> size == old(fs.files)[path].Size())
    ensures store.State() == if gone && TaskIdOf(name).Some?
      then Update(old(store.State()), TaskIdOf(name).value, ExpiredPatch, now)
      else old(store.State())
    ensures fs.undeletable == old(fs.undeletable)
  {
    gone, size := false, 0;
    var path := Join(StorageDir, name);
    if !fs.Exists(path) {
      return;
    }
    var f := fs.files[path];
    var lastChange := if f.ctime > f.mtime then f.ctime else f.mtime;
    if lastChange < cutoff {
      size := f.Size();
      var taskId := TaskIdOf(name);
      gone := fs.Remove(path);
      if gone && taskId.Some? {
        store.UpdateTask(taskId.value, ExpiredPatch, now);
      }
    }
  }

  /**
   * `scheduled_cleanup()`, with `names` the listing of the output directory: every file
   * whose last change is more than 7 days before `now` is removed, and each task named in
   * a removed file's name is marked expired.
   */
  method ScheduledCleanup(store: TaskStoreServer, fs: FileSystem, names: seq<string>, now: int)
    returns (removed: nat, freed: nat)
    modifies store, fs
    ensures var o := OutputSweepOf(old(fs.files), names, fs.undeletable, now - FileRetention);
      fs.files == o.sweep.files && removed == |o.sweep.gone| && freed == o.sweep.freed
      && store.State() == ExpireAll(old(store.State()), o.expired, now)
    ensures fs.undeletable == old(fs.undeletable)
  {
    var cutoff := now - FileRetention;
    ghost var undeletable := fs.undeletable;
    removed, freed := 0, 0;
    var i := 0;
    while i < |names|
      invariant 0 <= i <= |names| && fs.undeletable == undeletable
      invariant var o := OutputSweepOf(old(fs.files), names[..i], undeletable, cutoff);
        fs.files == o.sweep.files && removed == |o.sweep.gone| && freed == o.sweep.freed
        && store.State() == ExpireAll(old(store.State()), o.expired, now)
    {
      ghost var o := OutputSweepOf(old(fs.files), names[..i], undeletable, cutoff);
      OutputSweepSnoc(old(fs.files), names, i, undeletable, cutoff);
      var gone, size := SweepOutputFile(store, fs, names[i], cutoff, now);
      if gone && TaskIdOf(names[i]).Some? {
        ExpireAllSnoc(old(store.State()), o.expired, TaskIdOf(names[i]).value, now);
      } else {
        assert o.expired + [] == o.expired;
      }
      if gone {
        removed := removed + 1;
        freed := freed + size;
      }
      i := i + 1;
    }
    assert names[..i] == names;
  }
}
