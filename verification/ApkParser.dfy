/** The name, version and search-output parser of pkg/apk/parser.go, and the
    parser of installed packages of pkg/apk/apk.go, which reads the same lines. */
module ApkParser {
  import opened Prelude

  // ----- The string functions the parser calls -----

  /** strings.LastIndex of a one-character string. */
  function LastIndex(s: string, c: char): (r: int)
    ensures -1 <= r < |s| && (r >= 0 ==> s[r] == c)
    ensures forall j :: r < j < |s| ==> s[j] != c
  {
    if s == "" then -1
    else if s[|s| - 1] == c then |s| - 1
    else LastIndex(s[..|s| - 1], c)
  }

  predicate HasAt(s: string, pat: string, i: nat) {
    i + |pat| <= |s| && s[i..i + |pat|] == pat
  }

  /** strings.Index, counted from position i. */
  function IndexFrom(s: string, pat: string, i: nat): (r: int)
    requires i <= |s|
    ensures r == -1 || i <= r <= |s|
    ensures r >= 0 ==> HasAt(s, pat, r) && forall k :: i <= k < r ==> !HasAt(s, pat, k)
    ensures r == -1 ==> forall k :: i <= k <= |s| ==> !HasAt(s, pat, k)
    decreases |s| - i
  {
    if HasAt(s, pat, i) then i
    else if i == |s| then -1
    else IndexFrom(s, pat, i + 1)
  }

  predicate IsSpace(c: char) {
    c == ' ' || c == '\t' || c == '\n' || c == '\r' || c == '\U{000B}' || c == '\U{000C}'
  }

  function TrimLeft(s: string): string {
    if s != "" && IsSpace(s[0]) then TrimLeft(s[1..]) else s
  }

  function TrimRight(s: string): string {
    if s != "" && IsSpace(s[|s| - 1]) then TrimRight(s[..|s| - 1]) else s
  }

  function TrimSpace(s: string): string {
    TrimRight(TrimLeft(s))
  }

  /** strings.Split on newlines. */
  function Lines(s: string): (r: seq<string>)
    ensures r != []
  {
    if s == "" then [""]
    else if s[0] == '\n' then [""] + Lines(s[1..])
    else var rest := Lines(s[1..]); [[s[0]] + rest[0]] + rest[1..]
  }

  // ----- Names and versions -----

  predicate AllDigits(s: string) {
    forall i :: 0 <= i < |s| ==> '0' <= s[i] <= '9'
  }

  /** A release such as r6. */
  predicate IsRelease(s: string) {
    |s| > 1 && s[0] == 'r' && AllDigits(s[1..])
  }

  /** stripVersion: the string itself, or what stands before one of its dashes. */
  function Stripped(s: string): (r: string)
    ensures r == s || (|r| < |s| && r == s[..|r|] && s[|r|] == '-')
  {
    var lastDash := LastIndex(s, '-');
    if lastDash <= 0 || !IsRelease(s[lastDash + 1..]) then s
    else
      var rest := s[..lastDash];
      var versionDash := LastIndex(rest, '-');
      if versionDash > 0 then rest[..versionDash] else rest
  }

  method OnlyDigits(s: string) returns (allDigits: bool)
    ensures allDigits == AllDigits(s)
  {
    allDigits := true;
    for i := 0 to |s|
      invariant allDigits && forall j :: 0 <= j < i ==> '0' <= s[j] <= '9'
    {
      if s[i] < '0' || s[i] > '9' {
        return false;
      }
    }
  }

  method StripVersion(s: string) returns (r: string)
    ensures r == Stripped(s)
  {
    var lastDash := LastIndex(s, '-');
    if lastDash <= 0 {
      return s;
    }
    var after := s[lastDash + 1..];
    if |after| > 1 && after[0] == 'r' {
      var allDigits := OnlyDigits(after[1..]);
      if allDigits {
        var rest := s[..lastDash];
        var versionDash := LastIndex(rest, '-');
        if versionDash > 0 {
          return rest[..versionDash];
        }
        return rest;
      }
    }
    return s;
  }

  function ExtractVersion(s: string): string {
    var name := Stripped(s);
    if name == "" || name == s then "" else s[|name| + 1..]
  }

  lemma LastIndexIs(s: string, c: char, i: nat)
    requires i < |s| && s[i] == c && forall j :: i < j < |s| ==> s[j] != c
    ensures LastIndex(s, c) == i
  {
  }

  /** A string cut at a dash of which it has no later one. */
  lemma Cut(a: string, b: string)
    ensures (a + "-" + b)[..|a|] == a && (a + "-" + b)[|a| + 1..] == b
    ensures '-' !in b ==> LastIndex(a + "-" + b, '-') == |a|
  {
    var s := a + "-" + b;
    assert s[|a|] == '-' && s[|a| + 1..] == b;
    if '-' !in b {
      forall j | |a| < j < |s| ensures s[j] != '-' {
        assert s[j] == b[j - |a| - 1];
      }
      LastIndexIs(s, '-', |a|);
    }
  }

  lemma NoDashInRelease(release: string)
    requires IsRelease(release)
    ensures '-' !in release
  {
    forall i | 0 < i < |release| ensures release[i] != '-' {
      assert release[i] == release[1..][i - 1];
    }
  }

  /** name-version-release falls apart into its name and its version, whatever dashes the name has. */
  lemma StripRoundTrip(name: string, version: string, release: string)
    requires name != "" && '-' !in version && IsRelease(release)
    ensures Stripped(name + "-" + version + "-" + release) == name
    ensures ExtractVersion(name + "-" + version + "-" + release) == version + "-" + release
  {
    hide LastIndex;
    var rest, s := name + "-" + version, name + "-" + version + "-" + release;
    NoDashInRelease(release);
    Cut(rest, release);
    Cut(name, version);
    assert Stripped(s) == name;
    assert s == name + "-" + (version + "-" + release);
    Cut(name, version + "-" + release);
  }

  /** The string ends in a dash and a release, after something. */
  ghost predicate EndsInRelease(s: string) {
    exists k :: 0 < k < |s| && s[k] == '-' && IsRelease(s[k + 1..])
  }

  lemma ReleaseDashIsLast(s: string, k: nat)
    requires k < |s| && s[k] == '-' && IsRelease(s[k + 1..])
    ensures LastIndex(s, '-') == k
  {
    NoDashInRelease(s[k + 1..]);
    forall j | k < j < |s| ensures s[j] != '-' {
      assert s[j] == s[k + 1..][j - k - 1];
    }
    LastIndexIs(s, '-', k);
  }

  /** A version is extracted exactly from strings that end in a release after something; then the string
      is the name, a dash and the version, and otherwise the whole string is the name. */
  lemma ExtractSplits(s: string)
    ensures ExtractVersion(s) != "" <==> EndsInRelease(s)
    ensures EndsInRelease(s) ==> s == Stripped(s) + "-" + ExtractVersion(s)
    ensures !EndsInRelease(s) ==> Stripped(s) == s
  {
    hide IsRelease;
    if EndsInRelease(s) {
      var k :| 0 < k < |s| && s[k] == '-' && IsRelease(s[k + 1..]);
      ReleaseDashIsLast(s, k);
      var name := Stripped(s);
      assert name != "" && |name| <= k;
      Mend(s, |name|);
      LongerThanADash(s, k, |name|);
    } else {
      assert LastIndex(s, '-') > 0 ==> !IsRelease(s[LastIndex(s, '-') + 1..]);
    }
  }

  lemma Mend(s: string, k: nat)
    requires k < |s| && s[k] == '-'
    ensures s == s[..k] + "-" + s[k + 1..]
  {
  }

  lemma LongerThanADash(s: string, k: nat, n: nat)
    requires n <= k < |s| && IsRelease(s[k + 1..])
    ensures s[n + 1..] != ""
  {
  }

  // ----- Search output -----

  datatype PackageInfo = PackageInfo(name: string, version: string, description: string, installed: bool)

  /** One trimmed, non-empty line. */
  function ParseHead(line: string): (string, string) {
    var idx := IndexFrom(line, " - ", 0);
    if idx > 0 then (line[..idx], TrimSpace(line[idx + 3..])) else (line, "")
  }

  function ParseLine(raw: string, installed: bool): seq<PackageInfo> {
    var line := TrimSpace(raw);
    var (head, desc) := ParseHead(line);
    if line == "" || Stripped(head) == "" then []
    else [PackageInfo(Stripped(head), ExtractVersion(head), desc, installed)]
  }

  function ParseLines(lines: seq<string>, installed: bool): seq<PackageInfo> {
    if lines == [] then [] else ParseLines(lines[..|lines| - 1], installed) + ParseLine(lines[|lines| - 1], installed)
  }

  lemma ParseLinesNext(lines: seq<string>, i: nat, installed: bool)
    requires i < |lines|
    ensures ParseLines(lines[..i + 1], installed) == ParseLines(lines[..i], installed) + ParseLine(lines[i], installed)
  {
    hide ParseLine;
    assert lines[..i + 1][..i] == lines[..i];
  }

  lemma ParseLinesEnds(lines: seq<string>, installed: bool)
    ensures ParseLines(lines[..0], installed) == [] && lines[..|lines|] == lines
  {
  }

  /** parseSearch, and with installed set parseInstalledVerbose. */
  method ParsePackages(output: string, installed: bool) returns (pkgs: seq<PackageInfo>)
    ensures pkgs == ParseLines(Lines(output), installed)
  {
    hide Lines, TrimSpace, Stripped, ExtractVersion, IndexFrom, ParseLines;
    pkgs := [];
    var lines := Lines(output);
    ParseLinesEnds(lines, installed);
    for i := 0 to |lines|
      invariant pkgs == ParseLines(lines[..i], installed)
    {
      ParseLinesNext(lines, i, installed);
      var line := TrimSpace(lines[i]);
      if line == "" {
        continue;
      }
      var head, desc := line, "";
      var idx := IndexFrom(line, " - ", 0);
      if idx > 0 {
        head := line[..idx];
        desc := TrimSpace(line[idx + 3..]);
      }
      var name := StripVersion(head);
      if name == "" {
        continue;
      }
      pkgs := pkgs + [PackageInfo(name, ExtractVersion(head), desc, installed)];
    }
  }

  // ----- Printing and parsing back -----

  predicate NoSpace(s: string) {
    forall i :: 0 <= i < |s| ==> !IsSpace(s[i])
  }

  /** A version: anything without dashes and spaces, then a release. */
  predicate IsVersion(s: string) {
    exists k :: 0 <= k < |s| && s[k] == '-' && '-' !in s[..k] && NoSpace(s[..k]) && IsRelease(s[k + 1..])
  }

  /** A package with or without a version and a description. Without a version, the name must not look as if
      it had one. */
  ghost predicate Printable(p: PackageInfo) {
    && p.name != "" && NoSpace(p.name) && (if p.version == "" then !EndsInRelease(p.name) else IsVersion(p.version))
    && TrimSpace(p.description) == p.description && '\n' !in p.description
  }

  function Head(p: PackageInfo): string {
    if p.version == "" then p.name else p.name + "-" + p.version
  }

  function Printed(p: PackageInfo): string {
    if p.description == "" then Head(p) else Head(p) + " - " + p.description
  }

  function Print(ps: seq<PackageInfo>): string {
    if ps == [] then "" else Printed(ps[0]) + "\n" + Print(ps[1..])
  }

  lemma {:induction false} TrimShortens(s: string)
    ensures |TrimLeft(s)| <= |s| && |TrimRight(s)| <= |s|
    decreases |s|
  {
    if s == "" {
    } else {
      TrimShortens(s[1..]);
      TrimShortens(s[..|s| - 1]);
    }
  }

  /** A non-empty string is trimmed exactly when neither end is a space. */
  lemma TrimmedEnds(s: string)
    requires s != ""
    ensures TrimSpace(s) == s <==> !IsSpace(s[0]) && !IsSpace(s[|s| - 1])
  {
    TrimShortens(s);
    TrimShortens(s[1..]);
    TrimShortens(s[..|s| - 1]);
    TrimShortens(TrimLeft(s));
  }

  lemma VersionParts(v: string) returns (base: string, release: string)
    requires IsVersion(v)
    ensures v == base + "-" + release && '-' !in base && NoSpace(base) && IsRelease(release)
  {
    hide IsRelease, NoSpace;
    var k :| 0 <= k < |v| && v[k] == '-' && '-' !in v[..k] && NoSpace(v[..k]) && IsRelease(v[k + 1..]);
    base, release := v[..k], v[k + 1..];
    Mend(v, k);
  }

  lemma ReleaseHasNoSpace(release: string)
    requires IsRelease(release)
    ensures NoSpace(release)
  {
    forall i | 0 < i < |release| ensures !IsSpace(release[i]) {
      assert release[i] == release[1..][i - 1];
    }
  }

  lemma Joined(a: string, b: string)
    requires NoSpace(a) && NoSpace(b)
    ensures NoSpace(a + "-" + b)
  {
  }

  lemma VersionShape(p: PackageInfo)
    requires p.name != "" && NoSpace(p.name) && if p.version == "" then !EndsInRelease(p.name) else IsVersion(p.version)
    ensures NoSpace(Head(p)) && Stripped(Head(p)) == p.name && ExtractVersion(Head(p)) == p.version
  {
    hide IsVersion, IsRelease, NoSpace, Stripped, ExtractVersion;
    if p.version == "" {
      ExtractSplits(p.name);
    } else {
      var base, release := VersionParts(p.version);
      ReleaseHasNoSpace(release);
      Joined(base, release);
      Joined(p.name, p.version);
      StripRoundTrip(p.name, base, release);
      assert Head(p) == p.name + "-" + base + "-" + release;
    }
  }

  lemma ParseHeadPrinted(head: string, desc: string)
    requires head != "" && NoSpace(head) && TrimSpace(desc) == desc
    ensures ParseHead(head + " - " + desc) == (head, desc)
  {
    hide TrimSpace;
    var s, n := head + " - " + desc, |head|;
    assert s[n..n + 3] == " - ";
    assert HasAt(s, " - ", n);
    forall k | 0 <= k < n ensures !HasAt(s, " - ", k) {
      assert s[k] == head[k];
      assert s[k..k + 3][0] == s[k];
    }
    assert IndexFrom(s, " - ", 0) == n;
    assert s[..n] == head && s[n + 3..] == desc;
  }

  lemma PrintedIsTrimmed(head: string, desc: string)
    requires head != "" && NoSpace(head) && desc != "" && TrimSpace(desc) == desc
    ensures TrimSpace(head + " - " + desc) == head + " - " + desc
  {
    hide TrimSpace;
    var s := head + " - " + desc;
    TrimmedEnds(desc);
    TrimmedEnds(s);
    assert s[0] == head[0] && s[|s| - 1] == desc[|desc| - 1];
  }

  lemma PrintedIsOneLine(head: string, desc: string)
    requires NoSpace(head) && '\n' !in desc
    ensures '\n' !in head + " - " + desc
  {
  }

  lemma BareHead(head: string)
    requires head != "" && NoSpace(head)
    ensures ParseHead(head) == (head, "") && TrimSpace(head) == head && '\n' !in head
  {
    hide TrimSpace;
    TrimmedEnds(head);
    forall k | 0 <= k <= |head| ensures !HasAt(head, " - ", k) {
      if k + 3 <= |head| {
        assert head[k..k + 3][0] == head[k];
      }
    }
  }

  lemma ParseLinePrinted(p: PackageInfo, installed: bool)
    requires Printable(p)
    ensures ParseLine(Printed(p), installed) == [p.(installed := installed)]
    ensures '\n' !in Printed(p)
  {
    hide IsVersion, NoSpace, Stripped, ExtractVersion, TrimSpace, ParseHead;
    VersionShape(p);
    if p.description == "" {
      BareHead(Head(p));
    } else {
      ParseHeadPrinted(Head(p), p.description);
      PrintedIsTrimmed(Head(p), p.description);
      PrintedIsOneLine(Head(p), p.description);
    }
  }

  /** Trimming takes exactly the white space at both ends away. */
  lemma TrimIsMiddle(s: string) returns (i: nat, j: nat)
    ensures i <= j <= |s| && TrimSpace(s) == s[i..j]
    ensures forall k :: 0 <= k < i || j <= k < |s| ==> IsSpace(s[k])
    ensures i < j ==> !IsSpace(s[i]) && !IsSpace(s[j - 1])
  {
    i := LeftEnd(s);
    var n := RightEnd(s[i..]);
    j := i + n;
    assert s[i..][..n] == s[i..j];
    forall k | j <= k < |s| ensures IsSpace(s[k]) {
      assert s[k] == s[i..][k - i];
    }
  }

  lemma {:induction false} LeftEnd(s: string) returns (i: nat)
    ensures i <= |s| && TrimLeft(s) == s[i..] && (i < |s| ==> !IsSpace(s[i]))
    ensures forall k :: 0 <= k < i ==> IsSpace(s[k])
  {
    if s == "" || !IsSpace(s[0]) {
      i := 0;
    } else {
      var n := LeftEnd(s[1..]);
      i := n + 1;
      assert s[1..][n..] == s[i..];
    }
  }

  lemma {:induction false} RightEnd(s: string) returns (j: nat)
    ensures j <= |s| && TrimRight(s) == s[..j] && (j > 0 ==> !IsSpace(s[j - 1]))
    ensures forall k :: j <= k < |s| ==> IsSpace(s[k])
  {
    if s == "" || !IsSpace(s[|s| - 1]) {
      j := |s|;
    } else {
      j := RightEnd(s[..|s| - 1]);
      assert s[..|s| - 1][..j] == s[..j];
    }
  }

  /** The lines, with newlines between them. */
  function Joins(lines: seq<string>): string {
    if lines == [] then "" else if |lines| == 1 then lines[0] else lines[0] + "\n" + Joins(lines[1..])
  }

  lemma JoinsLonger(c: char, lines: seq<string>)
    requires lines != []
    ensures Joins([[c] + lines[0]] + lines[1..]) == [c] + Joins(lines)
  {
    var more := [[c] + lines[0]] + lines[1..];
    assert more[1..] == lines[1..];
  }

  lemma JoinsNext(lines: seq<string>)
    requires lines != []
    ensures Joins([""] + lines) == "\n" + Joins(lines)
  {
    assert ([""] + lines)[1..] == lines;
  }

  /** Splitting loses nothing and leaves no newline. */
  lemma {:induction false} LinesJoinBack(s: string)
    ensures Joins(Lines(s)) == s && forall l :: l in Lines(s) ==> '\n' !in l
  {
    hide Joins;
    if s == "" {
      assert Joins([""]) == "" by {
        JoinsOne("");
      }
    } else {
      var rest := Lines(s[1..]);
      LinesJoinBack(s[1..]);
      JoinsNext(rest);
      JoinsLonger(s[0], rest);
      assert rest[0] in rest && forall l :: l in rest[1..] ==> l in rest;
      assert s == [s[0]] + s[1..];
    }
  }

  lemma JoinsOne(line: string)
    ensures Joins([line]) == line
  {
  }

  /** A trimmed line is cut at its first " - ", which cannot be at its start; a line without one is all head. */
  lemma HeadAndDescription(line: string)
    requires line != "" && TrimSpace(line) == line
    ensures var (head, desc) := ParseHead(line);
      && head != ""
      && if exists k: nat :: HasAt(line, " - ", k)
         then |head| + 3 <= |line| && line == head + " - " + line[|head| + 3..]
              && desc == TrimSpace(line[|head| + 3..]) && (forall k :: 0 <= k < |head| ==> !HasAt(line, " - ", k))
         else head == line && desc == ""
  {
    hide TrimSpace;
    TrimmedEnds(line);
    var i := IndexFrom(line, " - ", 0);
    if i >= 0 {
      assert line[i..i + 3][0] == line[i];
      assert i > 0;
      assert line == line[..i] + line[i..i + 3] + line[i + 3..];
    } else {
      forall k: nat ensures !HasAt(line, " - ", k) {
      }
    }
  }

  /** Every line that is not blank gives one package. */
  lemma OnlyBlankLinesAreSkipped(raw: string, installed: bool)
    ensures ParseLine(raw, installed) == [] <==> forall k :: 0 <= k < |raw| ==> IsSpace(raw[k])
  {
    hide TrimSpace, ParseHead, Stripped;
    var i, j := TrimIsMiddle(raw);
    var line := TrimSpace(raw);
    if line != "" {
      TrimmedTwice(raw, i, j);
      HeadAndDescription(line);
      NameOfHead(ParseHead(line).0);
      assert !IsSpace(raw[i]);
    }
  }

  lemma TrimmedTwice(s: string, i: nat, j: nat)
    requires i < j <= |s| && TrimSpace(s) == s[i..j] && !IsSpace(s[i]) && !IsSpace(s[j - 1])
    ensures TrimSpace(TrimSpace(s)) == TrimSpace(s)
  {
    hide TrimSpace;
    TrimmedEnds(s[i..j]);
  }

  lemma NameOfHead(head: string)
    requires head != ""
    ensures Stripped(head) != ""
  {
  }

  lemma {:induction false} LinesCons(line: string, rest: string)
    requires '\n' !in line
    ensures Lines(line + "\n" + rest) == [line] + Lines(rest)
  {
    var s := line + "\n" + rest;
    if line == "" {
      assert s[1..] == rest;
    } else {
      assert s[1..] == line[1..] + "\n" + rest;
      LinesCons(line[1..], rest);
      assert [s[0]] + line[1..] == line;
    }
  }

  lemma {:induction false} ParseLinesCons(line: string, lines: seq<string>, installed: bool)
    ensures ParseLines([line] + lines, installed) == ParseLine(line, installed) + ParseLines(lines, installed)
  {
    hide ParseLine;
    if lines == [] {
      assert ([line] + lines)[..0] == [];
    } else {
      var all := [line] + lines;
      assert all[..|all| - 1] == [line] + lines[..|lines| - 1];
      ParseLinesCons(line, lines[..|lines| - 1], installed);
      assert all[|all| - 1] == lines[|lines| - 1];
    }
  }

  function Marked(ps: seq<PackageInfo>, installed: bool): seq<PackageInfo> {
    if ps == [] then [] else [ps[0].(installed := installed)] + Marked(ps[1..], installed)
  }

  /** Printing a list of packages and parsing the output returns the same list. */
  lemma {:induction false} SearchRoundTrip(ps: seq<PackageInfo>, installed: bool)
    requires forall p :: p in ps ==> Printable(p)
    ensures ParseLines(Lines(Print(ps)), installed) == Marked(ps, installed)
  {
    if ps == [] {
      assert [""][..0] == [];
      assert ParseLines([], installed) == [];
    } else {
      assert ps[0] in ps;
      ParseLinePrinted(ps[0], installed);
      LinesCons(Printed(ps[0]), Print(ps[1..]));
      ParseLinesCons(Printed(ps[0]), Lines(Print(ps[1..])), installed);
      SearchRoundTrip(ps[1..], installed);
    }
  }
}
