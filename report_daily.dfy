/**
 * The combined daily report of report-daily.js `combineReports`: the
 * "commits per developer" section of the Git report is hoisted to the top,
 * then one block per team with the team's Jira section and Git section.
 *
 * The regular expressions of the script are written out as string scans.
 * A team section begins at the leftmost `## ` followed on the same line by
 * the marker, its heading runs to the last occurrence of the marker on that
 * line, and the section runs lazily to the first `\n## ` after it or to the
 * end of the text. The heading strip removes the first line only when the
 * text starts with `## ` and that line ends with `\n`.
 */
module ReportDaily {
  import opened Wrappers
  import opened Text
  import DailyReport

  /** The configuration defaults when no environment variable is set. */
  const DefaultTeams: seq<string> := ["E201", "E202", "E203", "E204", "E205", "E206", "E207"]
  const DefaultRepoPrefix: string := "S12P31"
  const DefaultRepoPathPrefix: string := "/s12-final/"

  /** The report files of one day: the two inputs, and the output as `path.join` normalises it (no leading `./`). */
  function GitReportPath(today: string): string {
    "./daily-git" + "/" + "일일보고서용-Git" + "-" + today + ".md"
  }

  function JiraReportPath(today: string): string {
    "./daily-jira" + "/" + "일일보고서용-Jira" + "-" + today + ".md"
  }

  function CombinedReportPath(today: string): string {
    "daily-report" + "/" + "일일보고서" + "-" + today + ".md"
  }

  const SummaryHeading: string := "## 팀별 개발자 커밋 수"
  const SectionBreak: string := "\n## "
  const HeadingStart: string := "## "

  /* ------------------------------------------------------ section scanning */

  /** Where a lazy section body stops: the first `\n## ` at or after `from`, or the end of the text. */
  function SectionEnd(s: string, from: nat): (e: nat)
    requires from <= |s|
    ensures from <= e <= |s|
    ensures e == |s| || OccursAt(s, SectionBreak, e)
    ensures forall j :: from <= j < e ==> !OccursAt(s, SectionBreak, j)
  {
    match FirstOccurrence(s, SectionBreak, from)
    case Some(e) => e
    case None => |s|
  }

  /** The last index in `[lo, hi]` where `m` occurs, searching down from `hi`. */
  function LastMarker(s: string, m: string, lo: nat, hi: nat): (r: Option<nat>)
    requires lo <= hi <= |s|
    ensures r.Some? ==> lo <= r.value <= hi && OccursAt(s, m, r.value)
    ensures r.Some? ==> forall j :: r.value < j <= hi ==> !OccursAt(s, m, j)
    ensures r.None? ==> forall j :: lo <= j <= hi ==> !OccursAt(s, m, j)
    decreases hi - lo
  {
    if OccursAt(s, m, hi) then Some(hi)
    else if hi == lo then None
    else LastMarker(s, m, lo, hi - 1)
  }

  /** No line terminator in `s[lo..hi]`: the `.*` of a pattern can span it. */
  predicate OnOneLine(s: string, lo: nat, hi: nat)
    requires lo <= hi <= |s|
  {
    forall i :: lo <= i < hi ==> !IsLineTerminator(s[i])
  }

  /**
   * The end of the section pattern's match for marker `m` that starts at
   * `k`, if the line that starts there contains `m`.
   */
  function HeadingMatch(s: string, m: string, k: nat): (r: Option<nat>)
    requires OccursAt(s, HeadingStart, k)
    ensures r.Some? ==> k + 3 <= r.value <= |s|
  {
    var lo := k + 3;
    match LastMarker(s, m, lo, LineEnd(s, lo))
    case None => None
    case Some(j) => Some(SectionEnd(s, j + |m|))
  }

  /** The line holding `## ` at `k` contains the marker: the regular expression can match at `k`. */
  lemma HeadingMatchIff(s: string, m: string, k: nat)
    requires OccursAt(s, HeadingStart, k)
    ensures HeadingMatch(s, m, k).Some? <==>
      exists j :: k + 3 <= j <= |s| && OnOneLine(s, k + 3, j) && OccursAt(s, m, j)
  {
    var lo := k + 3;
    var hi := LineEnd(s, lo);
    if exists j :: lo <= j <= |s| && OnOneLine(s, lo, j) && OccursAt(s, m, j) {
      var j :| lo <= j <= |s| && OnOneLine(s, lo, j) && OccursAt(s, m, j);
      OnOneLineWithinLine(s, lo, j);
    }
    if HeadingMatch(s, m, k).Some? {
      var j := LastMarker(s, m, lo, hi).value;
      assert OnOneLine(s, lo, j);
    }
  }

  /** A stretch without line terminators ends no later than the line does. */
  lemma OnOneLineWithinLine(s: string, lo: nat, j: nat)
    requires lo <= j <= |s| && OnOneLine(s, lo, j)
    ensures j <= LineEnd(s, lo)
    decreases j - lo
  {
    if lo < j {
      assert !IsLineTerminator(s[lo]);
      OnOneLineWithinLine(s, lo + 1, j);
    }
  }

  /** `k` is at the start of a line: what `^` sees with the `m` flag. */
  predicate LineStart(s: string, k: nat)
    requires k <= |s|
  {
    k == 0 || IsLineTerminator(s[k - 1])
  }

  /** The regular expression matches at `k`; with `anchored`, only at the start of a line. */
  predicate MatchesAt(s: string, m: string, anchored: bool, k: nat) {
    && OccursAt(s, HeadingStart, k)
    && (!anchored || LineStart(s, k))
    && HeadingMatch(s, m, k).Some?
  }

  /** The least index in `[lo, hi]` satisfying `p`, searching upward. */
  function FirstWhere(p: nat -> bool, lo: nat, hi: nat): (r: Option<nat>)
    requires lo <= hi
    ensures r.Some? ==> lo <= r.value <= hi && p(r.value)
    ensures r.Some? ==> forall k: nat :: lo <= k < r.value ==> !p(k)
    ensures r.None? ==> forall k: nat :: lo <= k <= hi ==> !p(k)
    decreases hi - lo
  {
    if p(lo) then Some(lo)
    else if lo == hi then None
    else FirstWhere(p, lo + 1, hi)
  }

  /** The start of the leftmost match at or after `from`. */
  function FirstMatch(s: string, m: string, anchored: bool, from: nat): (r: Option<nat>)
    requires from <= |s|
    ensures r.Some? ==> from <= r.value && MatchesAt(s, m, anchored, r.value)
    ensures r.Some? ==> forall k :: from <= k < r.value ==> !MatchesAt(s, m, anchored, k)
    ensures r.None? ==> forall k :: from <= k <= |s| ==> !MatchesAt(s, m, anchored, k)
  {
    var p := (k: nat) => MatchesAt(s, m, anchored, k);
    assert forall k: nat :: p(k) == MatchesAt(s, m, anchored, k);
    FirstWhere(p, from, |s|)
  }

  /**
   * The section a team pattern finds: from the leftmost match to the end of
   * that match. With `anchored` false this is the pattern as the script
   * writes it, which has no line anchor, so a `## ` inside a `### ` line
   * matches too; with `anchored` true only a `## ` at the start of a line does.
   */
  function TeamSection(s: string, m: string, anchored: bool): (r: Option<string>)
    ensures r.Some? <==> FirstMatch(s, m, anchored, 0).Some?
    ensures r.Some? ==> StartsWith(r.value, HeadingStart)
  {
    match FirstMatch(s, m, anchored, 0)
    case None => None
    case Some(k) =>
      var e := HeadingMatch(s, m, k).value;
      assert s[k..e][..3] == s[k..k + 3];
      Some(s[k..e])
  }

  /**
   * A heading whose line contains the marker (at the start of a line, when
   * anchored) is found, and no later heading is taken before it. The marker
   * may occur anywhere on the line: a team id finds the heading of every
   * team whose id contains it.
   */
  lemma HeadingIsFound(s: string, m: string, anchored: bool, k: nat, j: nat)
    requires OccursAt(s, HeadingStart, k) && (!anchored || LineStart(s, k))
    requires k + 3 <= j <= |s| && OnOneLine(s, k + 3, j) && OccursAt(s, m, j)
    ensures FirstMatch(s, m, anchored, 0).Some? && FirstMatch(s, m, anchored, 0).value <= k
  {
    HeadingMatchIff(s, m, k);
    assert MatchesAt(s, m, anchored, k);
  }

  /** The first summary heading and the lazy body after it, as start and end. */
  function SummaryMatch(s: string): (r: Option<(nat, nat)>)
    ensures r.Some? ==> OccursAt(s, SummaryHeading, r.value.0)
    ensures r.Some? ==> forall j :: 0 <= j < r.value.0 ==> !OccursAt(s, SummaryHeading, j)
    ensures r.Some? ==> r.value.0 + |SummaryHeading| <= r.value.1 <= |s|
    ensures r.Some? ==> r.value.1 == |s| || OccursAt(s, SectionBreak, r.value.1)
    ensures r.Some? ==> forall j :: r.value.0 + |SummaryHeading| <= j < r.value.1 ==> !OccursAt(s, SectionBreak, j)
    ensures r.None? <==> forall j :: 0 <= j ==> !OccursAt(s, SummaryHeading, j)
  {
    match FirstOccurrence(s, SummaryHeading, 0)
    case None => None
    case Some(k) => Some((k, SectionEnd(s, k + |SummaryHeading|)))
  }

  /** The summary section, or the empty text when the Git report has none. */
  function SummarySection(s: string): (r: string)
    ensures r == "" <==> SummaryMatch(s).None?
  {
    match SummaryMatch(s)
    case None => ""
    case Some((k, e)) =>
      assert |s[k..e]| > 0;
      s[k..e]
  }

  /** The heading strip: drop the first line when it is a `## ` heading ended by `\n`. */
  function StripHeading(sec: string): (r: string)
    ensures StartsWith(sec, HeadingStart) && LineEnd(sec, 3) < |sec| && sec[LineEnd(sec, 3)] == '\n' ==>
      r == sec[LineEnd(sec, 3) + 1..]
    ensures !(StartsWith(sec, HeadingStart) && LineEnd(sec, 3) < |sec| && sec[LineEnd(sec, 3)] == '\n') ==> r == sec
  {
    if StartsWith(sec, HeadingStart) && LineEnd(sec, 3) < |sec| && sec[LineEnd(sec, 3)] == '\n' then sec[LineEnd(sec, 3) + 1..]
    else sec
  }

  /* ------------------------------------------------------------- assembly */

  /** `${REPO_PATH_PREFIX}${REPO_PREFIX}${team}`, the marker of a team's Git section. */
  function RepoPath(repoPathPrefix: string, repoPrefix: string, team: string): string {
    repoPathPrefix + repoPrefix + team
  }

  function TeamHeading(team: string): string {
    "\n## " + team + "팀\n\n"
  }

  function JiraSubsection(jiraSection: string): string {
    "### Jira 완료된 이슈\n" + Trim(jiraSection) + "\n\n"
  }

  function GitSubsection(gitSection: string): string {
    "### Git 커밋 내역\n" + gitSection + "\n\n"
  }

  /** The Jira part of a team block: present whenever the section was found. */
  function JiraPart(jiraMatch: Option<string>): (r: string)
    ensures r != "" <==> jiraMatch.Some?
  {
    if jiraMatch.Some? then JiraSubsection(StripHeading(jiraMatch.value)) else ""
  }

  /** The trimmed body of a found Git section, heading removed. */
  function GitBody(section: string): string {
    Trim(StripHeading(section))
  }

  /** The Git part of a team block: only when the body is longer than two characters. */
  function GitPart(gitMatch: Option<string>): (r: string)
    ensures r != "" <==> gitMatch.Some? && |GitBody(gitMatch.value)| > 2
  {
    if gitMatch.Some? && |GitBody(gitMatch.value)| > 2 then GitSubsection(GitBody(gitMatch.value)) else ""
  }

  /** A team's block: its heading, the Jira part, then the Git part; nothing when neither section was found. */
  function TeamBlock(team: string, gitContent: string, jiraContent: string, repoPathPrefix: string, repoPrefix: string, anchored: bool): (r: string)
    ensures r != "" <==>
      TeamSection(jiraContent, team, anchored).Some? || TeamSection(gitContent, RepoPath(repoPathPrefix, repoPrefix, team), anchored).Some?
  {
    var jiraMatch := TeamSection(jiraContent, team, anchored);
    var gitMatch := TeamSection(gitContent, RepoPath(repoPathPrefix, repoPrefix, team), anchored);
    if jiraMatch.Some? || gitMatch.Some? then TeamHeading(team) + JiraPart(jiraMatch) + GitPart(gitMatch) else ""
  }

  function TeamBlocks(teams: seq<string>, gitContent: string, jiraContent: string, repoPathPrefix: string, repoPrefix: string, anchored: bool): (blocks: seq<string>)
    ensures |blocks| == |teams|
  {
    seq(|teams|, i requires 0 <= i < |teams| => TeamBlock(teams[i], gitContent, jiraContent, repoPathPrefix, repoPrefix, anchored))
  }

  /** The summary section and its blank line, when the Git report has one. */
  function SummaryPart(gitContent: string): string {
    var section := SummarySection(gitContent);
    if section != "" then section + "\n\n" else ""
  }

  /** The combined text before its surrounding white space is trimmed. */
  function Combined(gitContent: string, jiraContent: string, teams: seq<string>, repoPathPrefix: string, repoPrefix: string, anchored: bool): string {
    SummaryPart(gitContent) + Concat(TeamBlocks(teams, gitContent, jiraContent, repoPathPrefix, repoPrefix, anchored))
  }

  /** The combined report written to the file. */
  function CombinedReport(gitContent: string, jiraContent: string, teams: seq<string>, repoPathPrefix: string, repoPrefix: string, anchored: bool): string {
    Trim(Combined(gitContent, jiraContent, teams, repoPathPrefix, repoPrefix, anchored))
  }

  /**
   * Combining the two report texts, each read as empty when its file is
   * missing. The script looks sections up with the unanchored pattern, that
   * is with `anchored` false; `anchored` true gives the corrected lookup.
   */
  method CombineReports(gitContent: string, jiraContent: string, teams: seq<string>, repoPathPrefix: string, repoPrefix: string, anchored: bool, today: string)
    returns (path: string, result: string)
    ensures path == CombinedReportPath(today)
    ensures result == CombinedReport(gitContent, jiraContent, teams, repoPathPrefix, repoPrefix, anchored)
  {
    var teamCommitsSection := SummarySection(gitContent);
    var combinedContent := "";
    if teamCommitsSection != "" {
      combinedContent := combinedContent + teamCommitsSection + "\n\n";
      assert combinedContent == teamCommitsSection + "\n\n";
    }
    assert combinedContent == SummaryPart(gitContent);
    combinedContent := AppendTeamBlocks(combinedContent, teams, gitContent, jiraContent, repoPathPrefix, repoPrefix, anchored);
    assert combinedContent == Combined(gitContent, jiraContent, teams, repoPathPrefix, repoPrefix, anchored);
    path := CombinedReportPath(today);
    result := Trim(combinedContent);
  }

  /** The loop over the teams: each team's block appended in order. */
  method AppendTeamBlocks(start: string, teams: seq<string>, gitContent: string, jiraContent: string, repoPathPrefix: string, repoPrefix: string, anchored: bool)
    returns (combinedContent: string)
    ensures combinedContent == start + Concat(TeamBlocks(teams, gitContent, jiraContent, repoPathPrefix, repoPrefix, anchored))
  {
    combinedContent := start;
    ghost var blocks := TeamBlocks(teams, gitContent, jiraContent, repoPathPrefix, repoPrefix, anchored);
    for i := 0 to |teams|
      invariant combinedContent == start + Concat(blocks[..i])
    {
      ConcatStep(start, blocks, i, combinedContent);
      var block := RenderTeamBlock(teams[i], gitContent, jiraContent, repoPathPrefix, repoPrefix, anchored);
      combinedContent := combinedContent + block;
    }
    assert blocks[..|teams|] == blocks;
  }

  /** One team of the loop: the heading when either section was found, then the Jira and Git subsections. */
  method RenderTeamBlock(team: string, gitContent: string, jiraContent: string, repoPathPrefix: string, repoPrefix: string, anchored: bool)
    returns (block: string)
    ensures block == TeamBlock(team, gitContent, jiraContent, repoPathPrefix, repoPrefix, anchored)
  {
    block := "";
    var jiraMatch := TeamSection(jiraContent, team, anchored);
    var gitMatch := TeamSection(gitContent, RepoPath(repoPathPrefix, repoPrefix, team), anchored);
    if jiraMatch.Some? || gitMatch.Some? {
      block := TeamHeading(team);
      var jiraPart := RenderJira(jiraMatch);
      block := block + jiraPart;
      var gitPart := RenderGit(gitMatch);
      block := block + gitPart;
    }
  }

  /** `### Jira 완료된 이슈` and the section without its heading line, when the Jira section was found. */
  method RenderJira(jiraMatch: Option<string>) returns (part: string)
    ensures part == JiraPart(jiraMatch)
  {
    part := "";
    if jiraMatch.Some? {
      var jiraSection := StripHeading(jiraMatch.value);
      part := JiraSubsection(jiraSection);
    }
  }

  /** `### Git 커밋 내역` and the trimmed body, when the Git section was found and its body is longer than two characters. */
  method RenderGit(gitMatch: Option<string>) returns (part: string)
    ensures part == GitPart(gitMatch)
  {
    part := "";
    if gitMatch.Some? {
      var gitSection := Trim(StripHeading(gitMatch.value));
      if |gitSection| > 2 {
        part := GitSubsection(gitSection);
      }
    }
  }

  /* ------------------------------------------------------------ properties */

  /** The summary section, when present, comes before every team block. */
  lemma SummaryFirst(gitContent: string, jiraContent: string, teams: seq<string>, repoPathPrefix: string, repoPrefix: string, anchored: bool)
    requires SummarySection(gitContent) != ""
    ensures StartsWith(Combined(gitContent, jiraContent, teams, repoPathPrefix, repoPrefix, anchored), SummarySection(gitContent) + "\n\n")
  {
    StartsWithAppend(SummaryPart(gitContent), Concat(TeamBlocks(teams, gitContent, jiraContent, repoPathPrefix, repoPrefix, anchored)));
  }

  /** Blocks come in the order of the team list: those of the first `i` teams precede those of the rest. */
  lemma BlocksInTeamOrder(gitContent: string, jiraContent: string, teams: seq<string>, repoPathPrefix: string, repoPrefix: string, anchored: bool, i: nat)
    requires i <= |teams|
    ensures Combined(gitContent, jiraContent, teams, repoPathPrefix, repoPrefix, anchored) ==
      SummaryPart(gitContent)
      + (Concat(TeamBlocks(teams[..i], gitContent, jiraContent, repoPathPrefix, repoPrefix, anchored))
         + Concat(TeamBlocks(teams[i..], gitContent, jiraContent, repoPathPrefix, repoPrefix, anchored)))
  {
    var front := TeamBlocks(teams[..i], gitContent, jiraContent, repoPathPrefix, repoPrefix, anchored);
    var back := TeamBlocks(teams[i..], gitContent, jiraContent, repoPathPrefix, repoPrefix, anchored);
    var all := TeamBlocks(teams, gitContent, jiraContent, repoPathPrefix, repoPrefix, anchored);
    forall k | 0 <= k < |teams| ensures all[k] == (front + back)[k] {
      if k < i {
        assert teams[..i][k] == teams[k];
      } else {
        assert teams[i..][k - i] == teams[k];
      }
    }
    assert all == front + back;
    ConcatAppend(front, back);
  }

  /** The Git report read in is the one the daily Git report writes for the same day. */
  lemma ReadsDailyGitReport(today: string)
    ensures GitReportPath(today) == DailyReport.DailyPath(today)
  {
  }

  /** The daily Git report always has the summary section, so the combined report hoists one. */
  lemma DailyGitReportHasSummary(doc: string, today: string)
    requires StartsWith(doc, DailyReport.DailyTitle(today) + DailyReport.SummaryTitle)
    ensures SummarySection(doc) != ""
  {
    var t := DailyReport.DailyTitle(today);
    var n := |SummaryHeading|;
    assert DailyReport.SummaryTitle == SummaryHeading + "\n";
    var p := t + DailyReport.SummaryTitle;
    assert p[|t|..|t| + n] == DailyReport.SummaryTitle[..n];
    OccursInPrefix(doc, p, SummaryHeading, |t|);
    assert OccursAt(doc, SummaryHeading, |t|);
  }

  /** Inside a block the Jira part precedes the Git part. */
  lemma JiraBeforeGit(team: string, gitContent: string, jiraContent: string, repoPathPrefix: string, repoPrefix: string, anchored: bool)
    requires TeamSection(jiraContent, team, anchored).Some?
    ensures StartsWith(TeamBlock(team, gitContent, jiraContent, repoPathPrefix, repoPrefix, anchored),
      TeamHeading(team) + JiraPart(TeamSection(jiraContent, team, anchored)))
  {
    var gitMatch := TeamSection(gitContent, RepoPath(repoPathPrefix, repoPrefix, team), anchored);
    StartsWithAppend(TeamHeading(team) + JiraPart(TeamSection(jiraContent, team, anchored)), GitPart(gitMatch));
  }

  /* ---------------------------------------------------------------- finding */

  /** A differing character rules out an occurrence. */
  lemma Differs(s: string, p: string, j: nat, i: nat)
    requires j + |p| <= |s| && i < |p| && s[j + i] != p[i]
    ensures !OccursAt(s, p, j)
  {
    assert s[j..j + |p|][i] == s[j + i];
  }

  /** The example Git report: the summary line `### P` and its stat line, then the detail section `## P`. */
  const Example: string := "### P\n- a\n\n## P\n- t"

  /** As written, the match starts inside the summary line and ends before the detail section. */
  lemma AsWrittenMatch(s: string)
    requires s == Example
    ensures FirstMatch(s, "P", false, 0) == Some(1) && HeadingMatch(s, "P", 1) == Some(10)
  {
    SummaryLineMatches(s);
    Differs(s, HeadingStart, 0, 2);
  }

  lemma SummaryLineMatches(s: string)
    requires s == Example
    ensures MatchesAt(s, "P", false, 1) && HeadingMatch(s, "P", 1) == Some(10)
  {
    assert OccursAt(s, HeadingStart, 1) && OccursAt(s, "P", 4);
    Differs(s, "P", 5, 0);
    assert LineEnd(s, 4) == 5 by {
      assert !IsLineTerminator(s[4]) && IsLineTerminator(s[5]);
    }
    StatLineEnds(s);
  }

  /** The stat line after the summary line runs to the `\n## ` of the detail section. */
  lemma StatLineEnds(s: string)
    requires s == Example
    ensures SectionEnd(s, 5) == 10
  {
    assert OccursAt(s, SectionBreak, 10);
    forall j | 5 <= j < 10 ensures !OccursAt(s, SectionBreak, j) {
      if j == 5 || j == 9 {
        Differs(s, SectionBreak, j, 1);
      } else {
        Differs(s, SectionBreak, j, 0);
      }
    }
  }

  /** Line-anchored, the match is the detail section `## P`. */
  lemma AnchoredMatch(s: string)
    requires s == Example
    ensures FirstMatch(s, "P", true, 0) == Some(11) && HeadingMatch(s, "P", 11) == Some(19)
  {
    DetailHeadingMatches(s);
    NoAnchoredMatchBefore(s);
  }

  lemma DetailHeadingMatches(s: string)
    requires s == Example
    ensures MatchesAt(s, "P", true, 11) && HeadingMatch(s, "P", 11) == Some(19)
  {
    assert OccursAt(s, HeadingStart, 11) && LineStart(s, 11) && OccursAt(s, "P", 14);
    Differs(s, "P", 15, 0);
    assert LineEnd(s, 14) == 15 by {
      assert !IsLineTerminator(s[14]) && IsLineTerminator(s[15]);
    }
    Differs(s, SectionBreak, 15, 1);
    assert SectionEnd(s, 15) == 19;
  }

  lemma NoAnchoredMatchBefore(s: string)
    requires s == Example
    ensures forall k :: 0 <= k < 11 ==> !MatchesAt(s, "P", true, k)
  {
    forall k | 0 <= k < 11 ensures !MatchesAt(s, "P", true, k) {
      if k == 0 {
        Differs(s, HeadingStart, k, 2);
      } else if k == 2 {
        Differs(s, HeadingStart, k, 1);
      } else if k != 1 {
        Differs(s, HeadingStart, k, 0);
      }
    }
  }

  /**
   * In a Git report the summary line `### P` precedes the detail section
   * `## P`. As written the team pattern matches the `## P` inside `### P`,
   * so the block takes the summary's stat line; the line-anchored pattern
   * takes the detail section and its commit line.
   */
  lemma AsWrittenTakesStatLine(s: string)
    requires s == Example
    ensures TeamSection(s, "P", false) == Some("## P\n- a\n")
    ensures GitBody("## P\n- a\n") == "- a"
    ensures TeamSection(s, "P", true) == Some("## P\n- t")
    ensures GitBody("## P\n- t") == "- t"
  {
    AsWrittenMatch(s);
    AnchoredMatch(s);
    ExampleSlices(s);
    StatLineBody("## P\n- a\n");
    CommitLineBody("## P\n- t");
  }

  lemma ExampleSlices(s: string)
    requires s == Example
    ensures s[1..10] == "## P\n- a\n" && s[11..19] == "## P\n- t"
  {
  }

  lemma StatLineBody(w: string)
    requires w == "## P\n- a\n"
    ensures GitBody(w) == "- a"
  {
    StripExample(w, w[5..]);
    var b := w[5..];
    assert TrimStart(b) == b by {
      assert !IsWhiteSpace(b[0]);
    }
    assert TrimEnd(b) == TrimEnd(b[..3]) by {
      assert IsWhiteSpace(b[3]);
    }
    assert TrimEnd(b[..3]) == b[..3] by {
      assert !IsWhiteSpace(b[2]);
    }
  }

  lemma CommitLineBody(w: string)
    requires w == "## P\n- t"
    ensures GitBody(w) == "- t"
  {
    StripExample(w, w[5..]);
    var b := w[5..];
    assert TrimStart(b) == b by {
      assert !IsWhiteSpace(b[0]);
    }
    assert TrimEnd(b) == b by {
      assert !IsWhiteSpace(b[2]);
    }
  }

  lemma StripExample(w: string, rest: string)
    requires |w| >= 5 && w[..5] == "## P\n" && rest == w[5..]
    ensures StripHeading(w) == rest
  {
    assert w[..3] == HeadingStart;
    assert LineEnd(w, 3) == 4 by {
      assert !IsLineTerminator(w[3]) && IsLineTerminator(w[4]);
    }
  }
}
