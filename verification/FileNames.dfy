/** The cleaning of associated-file names and their storage paths (app/services/extra_files.py). */
module FileNames {
  import opened Wrappers
  import opened AttrKeys

  predicate IsSafe(c: char) {
    'A' <= c <= 'Z' || 'a' <= c <= 'z' || '0' <= c <= '9' || c == '.' || c == '_' || c == '-'
  }

  predicate IsSlash(c: char) {
    c == '/' || c == '\\'
  }

  predicate IsEdge(c: char) {
    c == ' ' || c == '.'
  }

  function Take(s: string, n: nat): string {
    if |s| <= n then s else s[..n]
  }

  /** The part after the last slash. */
  function BaseName(s: string): string {
    if s == "" || IsSlash(s[|s| - 1]) then "" else BaseName(s[..|s| - 1]) + [s[|s| - 1]]
  }

  function Slashed(s: string): string {
    if s == "" then "" else [if IsSlash(s[0]) then '_' else s[0]] + Slashed(s[1..])
  }

  /** Replace every run of unsafe characters by one underscore. `inRun` says the character before belonged to one. */
  function Squeeze(s: string, inRun: bool): string {
    if s == "" then ""
    else if IsSafe(s[0]) then [s[0]] + Squeeze(s[1..], false)
    else (if inRun then "" else "_") + Squeeze(s[1..], true)
  }

  /** `safe_segment`. */
  function Segment(value: string, default: string): string {
    var text := Strip(value);
    if text == "" then default else Squeeze(Slashed(text), false)
  }

  /** The index of the last dot, or the length when there is none. */
  function LastDot(s: string): (d: nat)
    ensures d <= |s| && (d < |s| ==> s[d] == '.') && forall i :: d < i < |s| ==> s[i] != '.'
    ensures d == |s| ==> forall i :: 0 <= i < |s| ==> s[i] != '.'
  {
    if s == "" then 0
    else if s[|s| - 1] == '.' then |s| - 1
    else
      var d := LastDot(s[..|s| - 1]);
      assert forall i :: 0 <= i < |s| - 1 ==> s[..|s| - 1][i] == s[i];
      if d == |s| - 1 then |s| else d
  }

  datatype Split = Split(stem: string, ext: string)

  /** The extension starts at the last dot, if that has something other than dots before it. */
  function SplitExt(s: string): Split {
    var d := LastDot(s);
    if d < |s| && exists i :: 0 <= i < d && s[i] != '.' then Split(s[..d], s[d..]) else Split(s, "")
  }

  function Shortened(value: string): string {
    var parts := SplitExt(Take(value, 180));
    Take(parts.stem, 150) + Take(parts.ext, 20)
  }

  /** The name without the dots and blanks at its ends. */
  function Trimmed(raw: string): string {
    var value := Trim(Segment(BaseName(raw), "file"), IsEdge);
    if value == "" then "file" else value
  }

  /** `safe_filename`. */
  function SafeFilename(raw: string): string {
    Shortened(Trimmed(raw))
  }

  function Suffix(name: string): string {
    var d := LastDot(name);
    if 0 < d < |name| - 1 then name[d..] else ""
  }

  predicate IsDangerous(ext: string) {
    ext in [".app", ".bat", ".cmd", ".com", ".cpl", ".dll", ".exe", ".hta", ".htm", ".html", ".jar", ".js", ".jse", ".lnk",
            ".msi", ".msp", ".php", ".ps1", ".py", ".scr", ".sh", ".vb", ".vbe", ".vbs", ".wsf"]
  }

  predicate IsReserved(name: string) {
    name in ["con", "prn", "aux", "nul", "com1", "lpt1"]
  }

  /** `validated_upload_filename`; None is the refusal. */
  function Validated(raw: string): Option<string> {
    if raw == "" || exists i :: 0 <= i < |raw| && raw[i] < ' ' then None
    else
      var name := SafeFilename(raw);
      if IsDangerous(Lower(Suffix(name))) || IsReserved(Lower(name)) then None else Some(name)
  }

  /** `extra_rel_path`. */
  function RelPath(pn: string, rev: string, name: string): string {
    "extra/" + Segment(pn, "unknown") + "/" + Segment(if rev == "" then "__no_rev__" else rev, "unknown") + "/"
    + SafeFilename(name)
  }

  // ----- What cleaning leaves -----

  ghost predicate AllSafe(s: string) {
    forall i :: 0 <= i < |s| ==> IsSafe(s[i])
  }

  lemma {:induction false} SqueezeIsSafe(s: string, inRun: bool)
    ensures AllSafe(Squeeze(s, inRun))
  {
    if s != "" {
      SqueezeIsSafe(s[1..], !IsSafe(s[0]));
    }
  }

  lemma {:induction false} SqueezeKeepsSafe(s: string)
    requires AllSafe(s)
    ensures Squeeze(s, false) == s
  {
    if s != "" {
      SqueezeKeepsSafe(s[1..]);
    }
  }

  lemma {:induction false} SlashedKeepsSafe(s: string)
    requires AllSafe(s)
    ensures Slashed(s) == s
  {
    if s != "" {
      SlashedKeepsSafe(s[1..]);
    }
  }

  lemma {:induction false} BaseNameKeepsSafe(s: string)
    requires AllSafe(s)
    ensures BaseName(s) == s
  {
    if s != "" {
      BaseNameKeepsSafe(s[..|s| - 1]);
    }
  }

  lemma SegmentKeepsSafe(s: string, default: string)
    requires AllSafe(s) && s != ""
    ensures Segment(s, default) == s
  {
    assert !IsSpace(s[0]) && !IsSpace(s[|s| - 1]);
    assert Strip(s) == s;
    SlashedKeepsSafe(s);
    SqueezeKeepsSafe(s);
  }

  lemma {:induction false} TrimLeftEdges(s: string)
    requires AllSafe(s)
    ensures AllSafe(TrimLeft(s, IsEdge)) && (TrimLeft(s, IsEdge) != "" ==> !IsEdge(TrimLeft(s, IsEdge)[0]))
  {
    if s != "" && IsEdge(s[0]) {
      TrimLeftEdges(s[1..]);
    }
  }

  lemma {:induction false} TrimRightEdges(s: string)
    requires AllSafe(s) && (s != "" ==> !IsEdge(s[0]))
    ensures var r := TrimRight(s, IsEdge);
            && AllSafe(r) && |r| <= |s| && (r != "" ==> r[0] == s[0] && !IsEdge(r[|r| - 1]))
            && (s != "" ==> r != "") && (s != "" && IsEdge(s[|s| - 1]) ==> |r| < |s|)
  {
    if s != "" && IsEdge(s[|s| - 1]) {
      TrimRightEdges(s[..|s| - 1]);
    }
  }

  /** A non-empty safe name that begins with no dot: what stands before the shortening, and after it. */
  ghost predicate Stripped(s: string) {
    AllSafe(s) && s != "" && !IsEdge(s[0])
  }

  lemma SplitStripped(v: string)
    requires Stripped(v)
    ensures Stripped(SplitExt(v).stem) && AllSafe(SplitExt(v).ext) && |SplitExt(v).stem| + |SplitExt(v).ext| == |v|
  {
    var d := LastDot(v);
    assert d > 0;
  }

  lemma JoinStripped(a: string, b: string)
    requires Stripped(a) && AllSafe(b)
    ensures Stripped(a + b)
  {
    forall i | 0 <= i < |a + b| ensures IsSafe((a + b)[i]) {
      assert (a + b)[i] == if i < |a| then a[i] else b[i - |a|];
    }
  }

  lemma ShortenedStripped(value: string)
    requires Stripped(value)
    ensures Stripped(Shortened(value)) && |Shortened(value)| <= |value|
  {
    var v := Take(value, 180);
    SplitStripped(v);
    JoinStripped(Take(SplitExt(v).stem, 150), Take(SplitExt(v).ext, 20));
  }

  lemma TrimmedIsStripped(raw: string)
    ensures Stripped(Trimmed(raw))
  {
    var text := Strip(BaseName(raw));
    SqueezeIsSafe(Slashed(text), false);
    assert AllSafe("file");
    TrimLeftEdges(Segment(BaseName(raw), "file"));
    TrimRightEdges(TrimLeft(Segment(BaseName(raw), "file"), IsEdge));
  }

  /** A cleaned name is safe, not empty and begins with no dot. */
  lemma CleanedIsStripped(raw: string)
    ensures Stripped(SafeFilename(raw))
  {
    TrimmedIsStripped(raw);
    ShortenedStripped(Trimmed(raw));
  }

  /** Cleaning such a name trims dots at its end and shortens it. */
  lemma CleaningStripped(s: string)
    requires Stripped(s)
    ensures SafeFilename(s) == Shortened(TrimRight(s, IsEdge)) && Stripped(TrimRight(s, IsEdge))
    ensures IsEdge(s[|s| - 1]) ==> |TrimRight(s, IsEdge)| < |s|
  {
    BaseNameKeepsSafe(s);
    SegmentKeepsSafe(s, "file");
    TrimRightEdges(s);
    assert TrimLeft(s, IsEdge) == s;
  }

  /** A short stem and a short extension that ends in no dot are left as they are. */
  ghost predicate Short(a: string, b: string) {
    && 0 < |a| <= 150 && a[0] != '.' && |b| <= 20
    && (if b == "" then forall i :: 0 <= i < |a| ==> a[i] != '.'
        else b[0] == '.' && |b| > 1 && forall i :: 1 <= i < |b| ==> b[i] != '.')
  }

  lemma ShortStays(a: string, b: string)
    requires Short(a, b)
    ensures Shortened(a + b) == a + b
  {
    var y := a + b;
    assert y[0] == a[0];
    if b == "" {
      assert y == a && LastDot(y) == |y|;
    } else {
      assert y[|a|] == b[0];
      assert forall i :: |a| < i < |y| ==> y[i] == b[i - |a|];
      assert LastDot(y) == |a|;
      assert y[..|a|] == a && y[|a|..] == b;
    }
  }

  lemma ShortenedIsShort(value: string) returns (a: string, b: string)
    requires Stripped(value) && var y := Shortened(value); y != "" && y[|y| - 1] != '.'
    ensures Short(a, b) && Shortened(value) == a + b
  {
    var v := Take(value, 180);
    var d := LastDot(v);
    assert v[0] != '.';
    a, b := Take(SplitExt(v).stem, 150), Take(SplitExt(v).ext, 20);
    if d < |v| {
      assert SplitExt(v).ext == v[d..];
      assert (a + b)[|a + b| - 1] == b[|b| - 1];
    }
  }

  /** Cleaning a cleaned name leaves it alone if and only if it does not end in a dot. */
  lemma CleanedTwiceIff(raw: string)
    ensures var y := SafeFilename(raw); y != "" && (SafeFilename(y) == y <==> y[|y| - 1] != '.')
  {
    var y := SafeFilename(raw);
    CleanedIsStripped(raw);
    CleaningStripped(y);
    TrimmedIsStripped(raw);
    if y[|y| - 1] == '.' {
      ShortenedStripped(TrimRight(y, IsEdge));
    } else {
      var a, b := ShortenedIsShort(Trimmed(raw));
      ShortStays(a, b);
    }
  }

  /** Two names have one path exactly when cleaning takes them to one name. */
  lemma SamePathIff(pn: string, rev: string, a: string, b: string)
    ensures RelPath(pn, rev, a) == RelPath(pn, rev, b) <==> SafeFilename(a) == SafeFilename(b)
  {
    var head := "extra/" + Segment(pn, "unknown") + "/" + Segment(if rev == "" then "__no_rev__" else rev, "unknown") + "/";
    assert RelPath(pn, rev, a)[|head|..] == SafeFilename(a);
    assert RelPath(pn, rev, b)[|head|..] == SafeFilename(b);
  }

  ghost predicate EndsInDot(name: string) {
    name != "" && name[|name| - 1] == '.'
  }

  /** Cleaned names that do not end in a dot have different paths when they are different. */
  lemma DotlessNamesApart(pn: string, rev: string, x: string, y: string)
    requires !EndsInDot(SafeFilename(x)) && !EndsInDot(SafeFilename(y))
    ensures RelPath(pn, rev, SafeFilename(x)) == RelPath(pn, rev, SafeFilename(y)) <==> SafeFilename(x) == SafeFilename(y)
  {
    CleanedTwiceIff(x);
    CleanedTwiceIff(y);
    SamePathIff(pn, rev, SafeFilename(x), SafeFilename(y));
  }

  // ----- Each step of the cleaning, read off its input and result -----

  /** The characters that are kept: sixty-five of them. */
  lemma SafeAre(c: char)
    ensures IsSafe(c) <==> 65 <= c as int <= 90 || 97 <= c as int <= 122 || 48 <= c as int <= 57 || c as int in {45, 46, 95}
  {
  }

  /** What stands after the last slash of either kind. */
  lemma {:induction false} BaseNameMeaning(s: string) returns (front: string)
    ensures s == front + BaseName(s)
    ensures front != "" ==> front[|front| - 1] == '/' || front[|front| - 1] == '\\'
    ensures forall k :: 0 <= k < |BaseName(s)| ==> BaseName(s)[k] != '/' && BaseName(s)[k] != '\\'
  {
    front := s;
    if s != "" && !IsSlash(s[|s| - 1]) {
      front := BaseNameMeaning(s[..|s| - 1]);
    }
  }

  /** A safe segment from left to right: kept characters stay, a slash gives an underscore of its own, and every run of
      other characters gives one. */
  function SegmentOnePass(s: string, inRun: bool): string {
    if s == "" then ""
    else if s[0] in "/\\" then "_" + SegmentOnePass(s[1..], false)
    else if IsSafe(s[0]) then [s[0]] + SegmentOnePass(s[1..], false)
    else (if inRun then "" else "_") + SegmentOnePass(s[1..], true)
  }

  lemma {:induction false} SlashesFirst(s: string, inRun: bool)
    ensures Squeeze(Slashed(s), inRun) == SegmentOnePass(s, inRun)
  {
    if s != "" {
      var t := Slashed(s);
      assert t[1..] == Slashed(s[1..]);
      SlashesFirst(s[1..], if IsSlash(s[0]) then false else !IsSafe(s[0]));
    }
  }

  lemma SegmentMeaning(value: string, default: string)
    ensures Segment(value, default) == if forall i :: 0 <= i < |value| ==> IsSpace(value[i]) then default
                                       else SegmentOnePass(Strip(value), false)
  {
    SlashesFirst(Strip(value), false);
    var front, back := TrimMeaning(value, IsSpace);
    if Strip(value) == "" {
      forall i | 0 <= i < |value| ensures IsSpace(value[i]) {
        assert value == front + back;
      }
    } else {
      assert value[|front|] == Strip(value)[0];
    }
  }

  /** A cleaned name is the start of a stem and the start of the extension of the first 180 characters, 150 and 20 at
      most. The extension begins at the last dot, unless only dots stand before it. */
  lemma CutMeaning(value: string) returns (stem: string, ext: string)
    ensures stem + ext == value[..if |value| < 180 then |value| else 180]
    ensures ext == "" ==> forall i, j :: 0 <= i < j < |stem| && stem[j] == '.' ==> stem[i] == '.'
    ensures ext != "" ==> ext[0] == '.' && (forall i :: 1 <= i < |ext| ==> ext[i] != '.') && exists i :: 0 <= i < |stem| && stem[i] != '.'
    ensures Shortened(value) == stem[..if |stem| < 150 then |stem| else 150] + ext[..if |ext| < 20 then |ext| else 20]
  {
    var parts := SplitExt(Take(value, 180));
    stem, ext := parts.stem, parts.ext;
    var d := LastDot(Take(value, 180));
    if ext != "" {
      assert ext == Take(value, 180)[d..];
    }
  }

  /** Before that, the part after the last slash is made a segment, and dots at its ends go; nothing left gives "file". */
  lemma TrimmedMeaning(raw: string) returns (front: string, back: string)
    ensures SafeFilename(raw) == Shortened(Trimmed(raw))
    ensures (forall i :: 0 <= i < |front| ==> IsEdge(front[i])) && forall i :: 0 <= i < |back| ==> IsEdge(back[i])
    ensures IsTrimmed(Segment(BaseName(raw), "file"), front, Trimmed(raw), back)
  {
    front, back := EdgesGo(Segment(BaseName(raw), "file"), Trimmed(raw));
  }

  lemma EdgesAre(c: char)
    ensures IsEdge(c) <==> c as int in {32, 46}
  {
  }

  ghost predicate IsTrimmed(text: string, front: string, value: string, back: string) {
    if text == front + back then value == "file"
    else text == front + value + back && value != "" && !IsEdge(value[0]) && !IsEdge(value[|value| - 1])
  }

  lemma EdgesGo(text: string, name: string) returns (front: string, back: string)
    requires name == if Trim(text, IsEdge) == "" then "file" else Trim(text, IsEdge)
    ensures (forall i :: 0 <= i < |front| ==> IsEdge(front[i])) && forall i :: 0 <= i < |back| ==> IsEdge(back[i])
    ensures IsTrimmed(text, front, name, back)
  {
    front, back := TrimMeaning(text, IsEdge);
    assert |text| == |front| + |Trim(text, IsEdge)| + |back|;
  }  ghost predicate EndsWith(s: string, e: string) {
    |e| <= |s| && s[|s| - |e|..] == e
  }

  /** An extension is a suffix exactly when the name ends with it after its first character. */
  lemma SuffixIff(name: string, e: string)
    requires name != "" && name[0] != '.' && |e| >= 2 && e[0] == '.' && forall i :: 1 <= i < |e| ==> e[i] != '.'
    ensures Lower(Suffix(name)) == e <==> EndsWith(Lower(name), e)
  {
    var d := LastDot(name);
    var low := Lower(name);
    assert forall i :: 0 <= i < |name| ==> (low[i] == '.' <==> name[i] == '.');
    if Lower(Suffix(name)) == e {
      assert Suffix(name) == name[d..] && low[d..] == Lower(name[d..]);
    }
    if EndsWith(low, e) {
      var at := |low| - |e|;
      assert low[at] == low[at..][0];
      assert forall i :: at < i < |low| ==> low[i] == low[at..][i - at];
      assert at == d;
      assert low[d..] == Lower(name[d..]);
    }
  }

  /** The endings refused, whatever the case of the letters. */
  ghost function Refused(): set<string> {
    {".app", ".bat", ".cmd", ".com", ".cpl", ".dll", ".exe", ".hta", ".htm", ".html", ".jar", ".js", ".jse", ".lnk",
     ".msi", ".msp", ".php", ".ps1", ".py", ".scr", ".sh", ".vb", ".vbe", ".vbs", ".wsf"}
  }

  lemma RefusedAre(e: string)
    ensures e in Refused() <==> IsDangerous(e)
    ensures e in Refused() ==> |e| >= 2 && e[0] == '.' && forall i :: 1 <= i < |e| ==> e[i] != '.'
  {
  }

  /** A file name is accepted exactly when it is not blank, has no control character, does not end in one of those and
      is no device name once cleaned; and then it is the cleaned name. */
  lemma ValidatedIff(raw: string)
    ensures Validated(raw) == None || Validated(raw) == Some(SafeFilename(raw))
    ensures Validated(raw) == None <==> raw == "" || HasControl(raw) || IsRefused(SafeFilename(raw))
  {
    CleanedIsStripped(raw);
    RefusedIff(SafeFilename(raw));
    ControlIff(raw);
  }

  ghost predicate HasControl(raw: string) {
    exists i :: 0 <= i < |raw| && raw[i] as int < 32
  }

  /** Ending in one of those, or a device name. */
  ghost predicate IsRefused(name: string) {
    || (exists e :: e in Refused() && EndsWith(Lower(name), e))
    || Lower(name) in {"con", "prn", "aux", "nul", "com1", "lpt1"}
  }

  lemma ControlIff(raw: string)
    ensures HasControl(raw) <==> exists i :: 0 <= i < |raw| && raw[i] < ' '
  {
    if HasControl(raw) {
      var i :| 0 <= i < |raw| && raw[i] as int < 32;
      assert raw[i] < ' ';
    }
  }

  lemma EndingsIff(name: string)
    requires name != "" && name[0] != '.'
    ensures forall e | e in Refused() :: Lower(Suffix(name)) == e <==> EndsWith(Lower(name), e)
  {
    forall e | e in Refused() ensures Lower(Suffix(name)) == e <==> EndsWith(Lower(name), e) {
      RefusedAre(e);
      SuffixIff(name, e);
    }
  }

  lemma OneEnds(low: string, suffix: string, refused: set<string>)
    requires forall e | e in refused :: suffix == e <==> EndsWith(low, e)
    ensures (exists e :: e in refused && EndsWith(low, e)) <==> suffix in refused
  {
  }

  lemma ReservedAre(low: string)
    ensures low in {"con", "prn", "aux", "nul", "com1", "lpt1"} <==> IsReserved(low)
  {
  }

  lemma RefusedIff(name: string)
    requires name != "" && name[0] != '.'
    ensures IsRefused(name) <==> IsDangerous(Lower(Suffix(name))) || IsReserved(Lower(name))
  {
    EndingsIff(name);
    OneEnds(Lower(name), Lower(Suffix(name)), Refused());
    RefusedAre(Lower(Suffix(name)));
    ReservedAre(Lower(name));
  }  /** A path is the segments of the part, its revision and the name under one folder; a blank revision and a blank part
      have their stand-ins. */
  lemma RelPathMeaning(pn: string, rev: string, name: string)
    ensures rev != "" ==> RelPath(pn, rev, name) == Folder(Segment(pn, "unknown"), Segment(rev, "unknown")) + SafeFilename(name)
    ensures RelPath(pn, "", name) == RelPath(pn, "__no_rev__", name) && Segment("", "unknown") == "unknown"
  {
    assert Strip("") == "";
  }

  ghost function Folder(part: string, rev: string): string {
    "extra/" + part + "/" + rev + "/"
  }
  // ----- Two cleaned names with one path -----

  function Times(c: char, n: nat): string {
    seq(n, _ => c)
  }

  /** A long name cut after its dot keeps the dot, and loses it when it is cleaned once more. */
  lemma DottedAccepted(x: string, a: string)
    requires x == Times('a', 179) + ".x" && a == Times('a', 150) + "."
    ensures Validated(x) == Some(a)
  {
    LongCleaned(x);
    LongAccepted(x, a);
  }

  lemma DottedAgain(a: string, b: string)
    requires b == Times('a', 150) && a == b + "."
    ensures SafeFilename(a) == b
  {
    assert a[..150] == b && a[150] == '.';
    CleaningStripped(a);
    ShortCleaned(b);
    assert TrimRight(a, IsEdge) == TrimRight(b, IsEdge);
  }

  lemma PlainAccepted(y: string)
    requires y == Times('a', 150)
    ensures Validated(y) == Some(y) && SafeFilename(y) == y
  {
    ShortCleaned(y);
    LongAccepted(y, y);
  }

  lemma LongCleaned(x: string)
    requires x == Times('a', 179) + ".x"
    ensures SafeFilename(x) == Times('a', 150) + "."
  {
    CleaningStripped(x);
    assert x[180] == 'x' && TrimRight(x, IsEdge) == x;
    assert x[..180] == Times('a', 179) + ".";
    CutAtDot(x[..180], Times('a', 179));
    assert Times('a', 179)[..150] == Times('a', 150);
  }

  lemma CutAtDot(v: string, stem: string)
    requires v == stem + "." && stem != "" && stem[0] != '.'
    ensures SplitExt(v) == Split(stem, ".")
  {
    assert v[0] == stem[0] && v[|stem|] == '.' && LastDot(v) == |stem|;
  }

  lemma ShortCleaned(x: string)
    requires x == Times('a', 150)
    ensures SafeFilename(x) == x && TrimRight(x, IsEdge) == x
  {
    assert x[149] == 'a';
    CleaningStripped(x);
    assert Short(x, "") && x + "" == x;
    ShortStays(x, "");
  }

  /** Two names the program accepts as different, cleaned, on one path. */
  lemma TwoNamesOnePath(pn: string, rev: string) returns (x: string, y: string, a: string, b: string)
    ensures x == Times('a', 179) + ".x" && Validated(x) == Some(a) && a == Times('a', 150) + "."
    ensures y == Times('a', 150) && Validated(y) == Some(b) && b == y
    ensures Lower(a) != Lower(b) && RelPath(pn, rev, a) == RelPath(pn, rev, b)
  {
    x, y, a := Times('a', 179) + ".x", Times('a', 150), Times('a', 150) + ".";
    b := y;
    DottedAccepted(x, a);
    PlainAccepted(y);
    DottedAgain(a, b);
    OnePath(pn, rev, a, b);
  }

  lemma OnePath(pn: string, rev: string, a: string, b: string)
    requires |a| != |b| && SafeFilename(a) == SafeFilename(b)
    ensures Lower(a) != Lower(b) && RelPath(pn, rev, a) == RelPath(pn, rev, b)
  {
    SamePathIff(pn, rev, a, b);
    assert |Lower(a)| != |Lower(b)|;
  }

  lemma ListedAreShort(s: string)
    ensures IsDangerous(s) ==> s != ""
    ensures IsReserved(s) ==> |s| <= 4
  {
  }

  lemma LongAccepted(raw: string, name: string)
    requires raw != "" && SafeFilename(raw) == name && |name| >= 150
    requires forall i :: 0 <= i < |raw| ==> raw[i] >= '.'
    requires forall i :: 0 <= i < |name| - 1 ==> name[i] != '.'
    ensures Validated(raw) == Some(name)
  {
    assert Suffix(name) == "";
    ListedAreShort(Lower(Suffix(name)));
    ListedAreShort(Lower(name));
  }
}
