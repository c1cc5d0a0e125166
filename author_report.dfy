/**
 * The per-team two-week report of gitlab-author-commits.js (`main`): one
 * report entry per member, the team total, the sort by descending count and
 * the markdown document written when some member has commits.
 */
module AuthorReport {
  import opened Wrappers
  import opened Text
  import opened Seqs
  import opened Sorting
  import opened AuthorCommits

  /** The entry pushed onto `memberCommits`. */
  datatype MemberReport = MemberReport(member: string, id: string, count: nat, commits: seq<Commit>)

  /** A configured team; `project` is `None` when the project lookup failed. */
  datatype Team = Team(repo: string, members: seq<Member>, project: Option<Project>)

  /** A written report: its path and its content. */
  datatype ReportFile = ReportFile(path: string, content: string)

  /** The display name: the member's name unless it is missing or empty, else the id. */
  function DisplayName(m: Member): string {
    if m.name.Some? && m.name.value != "" then m.name.value else m.id
  }

  /** The entry for one member; both branches of the source give the same shape. */
  function ReportOf(m: Member, p: Project): (r: MemberReport)
    ensures r.member == DisplayName(m) && r.id == m.id
    ensures r.commits == MemberCommits(m, p) && r.count == |r.commits|
  {
    var commits := MemberCommits(m, p);
    if |commits| > 0 then MemberReport(DisplayName(m), m.id, |commits|, commits)
    else MemberReport(DisplayName(m), m.id, 0, [])
  }

  /** The sum of the member counts. */
  function TotalCount(rs: seq<MemberReport>): nat {
    if rs == [] then 0 else TotalCount(rs[..|rs| - 1]) + rs[|rs| - 1].count
  }

  lemma TotalSnoc(rs: seq<MemberReport>, r: MemberReport)
    ensures TotalCount(rs + [r]) == TotalCount(rs) + r.count
  {
    assert (rs + [r])[..|rs|] == rs;
  }

  /** Some member has at least one commit. */
  predicate AnyCommits(rs: seq<MemberReport>) {
    exists i | 0 <= i < |rs| :: rs[i].count > 0
  }

  /** `hasCommits` and a positive total mean the same thing. */
  lemma {:induction false} TotalPositive(rs: seq<MemberReport>)
    ensures TotalCount(rs) > 0 <==> AnyCommits(rs)
  {
    if rs != [] {
      var p := rs[..|rs| - 1];
      TotalPositive(p);
      assert rs == p + [rs[|rs| - 1]];
      if AnyCommits(p) {
        var i :| 0 <= i < |p| && p[i].count > 0;
        assert rs[i] == p[i];
      }
      if AnyCommits(rs) && !AnyCommits(p) {
        var i :| 0 <= i < |rs| && rs[i].count > 0;
        assert i == |rs| - 1 || rs[i] == p[i];
      }
    }
  }

  lemma AnySnoc(rs: seq<MemberReport>, r: MemberReport)
    ensures AnyCommits(rs + [r]) <==> AnyCommits(rs) || r.count > 0
  {
    if AnyCommits(rs + [r]) && r.count == 0 {
      var j :| 0 <= j < |rs| + 1 && (rs + [r])[j].count > 0;
      assert (rs + [r])[j] == rs[j];
    }
    if AnyCommits(rs) {
      var j :| 0 <= j < |rs| && rs[j].count > 0;
      assert (rs + [r])[j] == rs[j];
    }
    assert (rs + [r])[|rs|] == r;
  }

  lemma EntriesSnoc(members: seq<Member>, p: Project, rs: seq<MemberReport>, r: MemberReport, i: nat)
    requires i < |members| && |rs| == i && r == ReportOf(members[i], p)
    requires forall j :: 0 <= j < i ==> rs[j] == ReportOf(members[j], p)
    ensures forall j :: 0 <= j < i + 1 ==> (rs + [r])[j] == ReportOf(members[j], p)
  {
    forall j | 0 <= j < i + 1 ensures (rs + [r])[j] == ReportOf(members[j], p) {
      if j < i {
        assert (rs + [r])[j] == rs[j];
      }
    }
  }

  /** The member loop: one entry per member in configured order, the total and `hasCommits`. */
  method CollectReports(members: seq<Member>, p: Project) returns (reports: seq<MemberReport>, total: nat, hasCommits: bool)
    ensures |reports| == |members|
    ensures forall i :: 0 <= i < |members| ==> reports[i] == ReportOf(members[i], p)
    ensures total == TotalCount(reports)
    ensures hasCommits <==> AnyCommits(reports)
  {
    reports, total, hasCommits := [], 0, false;
    for i := 0 to |members|
      invariant |reports| == i
      invariant forall j :: 0 <= j < i ==> reports[j] == ReportOf(members[j], p)
      invariant total == TotalCount(reports)
      invariant hasCommits <==> AnyCommits(reports)
    {
      var entry;
      entry, total, hasCommits := AddMember(members[i], p, total, hasCommits);
      TotalSnoc(reports, entry);
      AnySnoc(reports, entry);
      EntriesSnoc(members, p, reports, entry, i);
      reports := reports + [entry];
    }
  }

  /** One round of the member loop: the member's entry, the new total and the new `hasCommits`. */
  method AddMember(member: Member, p: Project, total: nat, hasCommits: bool)
    returns (entry: MemberReport, total': nat, hasCommits': bool)
    ensures entry == ReportOf(member, p)
    ensures total' == total + entry.count
    ensures hasCommits' <==> hasCommits || entry.count > 0
  {
    var name := DisplayName(member);
    var commits := TwoWeeksCommits(member, p);
    total', hasCommits' := total, hasCommits;
    if |commits| > 0 {
      hasCommits' := true;
      total' := total' + |commits|;
      entry := MemberReport(name, member.id, |commits|, commits);
    } else {
      entry := MemberReport(name, member.id, 0, []);
    }
  }

  /* --------------------------------------------------------------- ranking */

  /** The descending-count comparator orders entries by this key, ascending. */
  function CountKey(r: MemberReport): int {
    -(r.count as int)
  }

  /** The entries sorted by descending count, a stable sort. */
  function Ranked(rs: seq<MemberReport>): (r: seq<MemberReport>)
    ensures |r| == |rs|
    ensures forall i, j :: 0 <= i < j < |r| ==> r[i].count >= r[j].count
  {
    var r := SortBy(rs, CountKey);
    assert forall i, j :: 0 <= i < j < |r| ==> CountKey(r[i]) <= CountKey(r[j]);
    r
  }

  /** The ranking is a permutation, and entries with equal counts keep their configured order. */
  lemma RankedIsStable(rs: seq<MemberReport>)
    ensures multiset(Ranked(rs)) == multiset(rs)
    ensures forall k :: WithKey(Ranked(rs), CountKey, k) == WithKey(rs, CountKey, k)
  {
    SortPermutes(rs, CountKey);
    forall k ensures WithKey(Ranked(rs), CountKey, k) == WithKey(rs, CountKey, k) {
      SortIsStable(rs, CountKey, k);
    }
  }

  /** Any ordering by non-increasing count that keeps configured order among ties is the ranking. */
  lemma RankedIsUnique(rs: seq<MemberReport>, other: seq<MemberReport>)
    requires forall i, j :: 0 <= i < j < |other| ==> other[i].count >= other[j].count
    requires forall k :: WithKey(other, CountKey, k) == WithKey(rs, CountKey, k)
    ensures other == Ranked(rs)
  {
    RankedIsStable(rs);
    assert SortedBy(other, CountKey);
    assert SortedBy(Ranked(rs), CountKey);
    StableSortIsUnique(other, Ranked(rs), CountKey);
  }

  /* ------------------------------------------------------------- rendering */

  function Heading(since: string, today: string, repo: string): string {
    "# " + since + " ~ " + today + " 커밋 내역\n\n" + "## " + repo + "\n\n"
  }

  /** `  - member (id): N개` */
  function SummaryLine(r: MemberReport): string {
    "  - " + r.member + " (" + r.id + "): " + NatToString(r.count) + "개\n"
  }

  function SummaryLines(rs: seq<MemberReport>): (lines: seq<string>)
    ensures |lines| == |rs|
  {
    seq(|rs|, i requires 0 <= i < |rs| => SummaryLine(rs[i]))
  }

  function SummaryHead(total: nat): string {
    "### 팀원별 커밋 수 요약\n\n" + "- 팀 전체 커밋 수: " + NatToString(total) + "개\n" + "- 팀원별 커밋 수:\n"
  }

  /** `#### member (id) - N개` */
  function DetailHeading(r: MemberReport): string {
    "#### " + r.member + " (" + r.id + ") - " + NatToString(r.count) + "개\n"
  }

  /** `- title`, one per commit, in collection order. */
  function TitleLines(cs: seq<Commit>): (lines: seq<string>)
    ensures |lines| == |cs|
  {
    seq(|cs|, i requires 0 <= i < |cs| => "- " + cs[i].title + "\n")
  }

  /** A member's detail block: present only for a member with commits. */
  function DetailBlock(r: MemberReport): string {
    if r.count > 0 then DetailHeading(r) + Concat(TitleLines(r.commits)) + "\n" else ""
  }

  function DetailBlocks(rs: seq<MemberReport>): (blocks: seq<string>)
    ensures |blocks| == |rs|
  {
    seq(|rs|, i requires 0 <= i < |rs| => DetailBlock(rs[i]))
  }

  const SummaryEnd: string := "\n"
  const DetailTitle: string := "### 상세 커밋 내역\n\n"

  /** The summary: the total, then one line for every member in ranked order. */
  function SummaryPart(total: nat, ranked: seq<MemberReport>): string {
    SummaryHead(total) + Concat(SummaryLines(ranked)) + SummaryEnd
  }

  /** The detail part: a block for every member with commits, in ranked order. */
  function DetailPart(ranked: seq<MemberReport>): string {
    DetailTitle + Concat(DetailBlocks(ranked))
  }

  /** The team document: heading, summary, then the details. */
  function TeamDocument(since: string, today: string, repo: string, total: nat, ranked: seq<MemberReport>): string {
    Heading(since, today, repo) + SummaryPart(total, ranked) + DetailPart(ranked)
  }

  /** The team document, appended piece by piece. */
  method RenderTeam(since: string, today: string, repo: string, total: nat, ranked: seq<MemberReport>) returns (output: string)
    ensures output == TeamDocument(since, today, repo, total, ranked)
  {
    output := Heading(since, today, repo);
    var summary := RenderSummary(total, ranked);
    output := output + summary;
    var details := RenderDetails(ranked);
    output := output + details;
  }

  /** The summary: the total line, then one line per entry in ranked order. */
  method RenderSummary(total: nat, ranked: seq<MemberReport>) returns (output: string)
    ensures output == SummaryPart(total, ranked)
  {
    output := SummaryHead(total);
    ghost var start := output;
    var lines := SummaryLines(ranked);
    for i := 0 to |ranked|
      invariant output == start + Concat(lines[..i])
    {
      ConcatStep(start, lines, i, output);
      output := output + SummaryLine(ranked[i]);
    }
    assert lines[..|ranked|] == lines;
    output := output + SummaryEnd;
  }

  /** The detail loop over `memberCommits`. */
  method RenderDetails(ranked: seq<MemberReport>) returns (output: string)
    ensures output == DetailPart(ranked)
  {
    output := DetailTitle;
    ghost var start := output;
    var blocks := DetailBlocks(ranked);
    for i := 0 to |ranked|
      invariant output == start + Concat(blocks[..i])
    {
      ConcatStep(start, blocks, i, output);
      var r := ranked[i];
      if r.count > 0 {
        var block := RenderDetail(r);
        output := output + block;
      } else {
        assert output + blocks[i] == output;
      }
    }
    assert blocks[..|ranked|] == blocks;
  }

  /** One member's heading, its `- title` lines and the closing blank line. */
  method RenderDetail(r: MemberReport) returns (block: string)
    requires r.count > 0
    ensures block == DetailBlock(r)
  {
    block := DetailHeading(r);
    var lines := TitleLines(r.commits);
    for j := 0 to |r.commits|
      invariant block == DetailHeading(r) + Concat(lines[..j])
    {
      ConcatStep(DetailHeading(r), lines, j, block);
      block := block + ("- " + r.commits[j].title + "\n");
    }
    assert lines[..|r.commits|] == lines;
    block := block + "\n";
  }

  /* ---------------------------------------------------------------- the run */

  /** The last segment of a repository path: the text after its last `/`. */
  function LastSegment(path: string): (r: string)
    ensures '/' !in r
    ensures |r| <= |path| && r == path[|path| - |r|..]
    ensures |r| == |path| || path[|path| - |r| - 1] == '/'
  {
    if path == [] || path[|path| - 1] == '/' then []
    else LastSegment(path[..|path| - 1]) + [path[|path| - 1]]
  }

  function ReportPath(repo: string, today: string): string {
    "./daily-git/" + "2주간보고서용-Git-" + LastSegment(repo) + "-" + today + ".md"
  }

  function TeamReports(members: seq<Member>, p: Project): (rs: seq<MemberReport>)
    ensures |rs| == |members|
  {
    seq(|members|, i requires 0 <= i < |members| => ReportOf(members[i], p))
  }

  /** The file one team produces: none without members, without a project, or without commits. */
  function TeamFile(team: Team, since: string, today: string): Option<ReportFile> {
    if |team.members| == 0 || team.project.None? then None
    else
      var rs := TeamReports(team.members, team.project.value);
      if AnyCommits(rs) then
        Some(ReportFile(ReportPath(team.repo, today), TeamDocument(since, today, team.repo, TotalCount(rs), Ranked(rs))))
      else None
  }

  /** The files of all teams, in team order. */
  function ReportFiles(teams: seq<Team>, since: string, today: string): seq<ReportFile> {
    if teams == [] then []
    else
      var rest := ReportFiles(teams[..|teams| - 1], since, today);
      match TeamFile(teams[|teams| - 1], since, today)
      case None => rest
      case Some(f) => rest + [f]
  }

  /** `main`: the team loop. */
  method Run(teams: seq<Team>, since: string, today: string) returns (files: seq<ReportFile>)
    ensures files == ReportFiles(teams, since, today)
  {
    files := [];
    for t := 0 to |teams|
      invariant files == ReportFiles(teams[..t], since, today)
    {
      PrefixSnoc(teams, t);
      var team := teams[t];
      if |team.members| == 0 {
        continue;
      }
      if team.project.None? {
        continue;
      }
      var reports, total, hasCommits := CollectReports(team.members, team.project.value);
      assert reports == TeamReports(team.members, team.project.value);
      var ranked := Ranked(reports);
      var output := RenderTeam(since, today, team.repo, total, ranked);
      if hasCommits {
        files := files + [ReportFile(ReportPath(team.repo, today), output)];
      }
    }
    assert teams[..|teams|] == teams;
  }

  /** A team's file is written exactly when it has members, a project and a positive total. */
  lemma TeamFileWritten(team: Team, since: string, today: string)
    ensures TeamFile(team, since, today).Some? <==>
      |team.members| > 0 && team.project.Some? && TotalCount(TeamReports(team.members, team.project.value)) > 0
  {
    if team.project.Some? {
      TotalPositive(TeamReports(team.members, team.project.value));
    }
  }

  /** The summary has one line per member: every member's entry appears in the ranking. */
  lemma SummaryListsEveryMember(members: seq<Member>, p: Project, j: nat)
    requires j < |members|
    ensures ReportOf(members[j], p) in Ranked(TeamReports(members, p))
    ensures |SummaryLines(Ranked(TeamReports(members, p)))| == |members|
  {
    var rs := TeamReports(members, p);
    RankedIsStable(rs);
    assert rs[j] in multiset(rs);
  }
}
