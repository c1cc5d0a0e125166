/**
 * The daily report of run-files/gitlab-cli.js `main`: the title, the
 * "commits per developer" summary built from `repoAuthorCommits`, and one
 * detail section per repository with commits, grouped by author.
 */
module DailyReport {
  import opened Text
  import opened Seqs
  import opened Sorting
  import opened Objects
  import opened Grouping
  import opened GitLab
  import opened DailyCommits
  import opened DailyCounts

  /* -------------------------------------------------------------- summary */

  /** The `[author, count]` pairs of a counter, in key order. */
  function Entries(d: Dict<nat>): (es: seq<(string, nat)>)
    requires d.Valid()
    ensures |es| == |d.keys|
    ensures forall i :: 0 <= i < |es| ==> es[i].0 == d.keys[i] && es[i].1 == d.vals[d.keys[i]]
  {
    seq(|d.keys|, i requires 0 <= i < |d.keys| => (d.keys[i], d.vals[d.keys[i]]))
  }

  /**
   * The sort key of an entry. The Korean-locale string comparison is a collation the
   * model takes as a parameter: `rank` places names in collation order.
   */
  function ByName(rank: string -> int): ((string, nat)) -> int {
    (e: (string, nat)) => rank(e.0)
  }

  /** The entries sorted by author name under the collation, a stable sort. */
  function SortedEntries(d: Dict<nat>, rank: string -> int): seq<(string, nat)>
    requires d.Valid()
  {
    SortBy(Entries(d), ByName(rank))
  }

  /** `- author: N개 커밋` */
  function StatLine(e: (string, nat)): string {
    "- " + e.0 + ": " + NatToString(e.1) + "개 커밋"
  }

  function StatLines(d: Dict<nat>, rank: string -> int): (lines: seq<string>)
    requires d.Valid()
    ensures |lines| == |d.keys|
  {
    var es := SortedEntries(d, rank);
    seq(|es|, i requires 0 <= i < |es| => StatLine(es[i]))
  }

  /** One repository of the summary: its heading, the sorted stat lines, and a blank line. */
  function RepoSummary(repo: string, d: Dict<nat>, rank: string -> int): string
    requires d.Valid()
  {
    RepoHeading(repo) + RepoStats(d, rank)
  }

  /** `### repo` */
  function RepoHeading(repo: string): string {
    "### " + repo + "\n"
  }

  /** The stat lines joined by line breaks, then a blank line. */
  function RepoStats(d: Dict<nat>, rank: string -> int): string
    requires d.Valid()
  {
    Join(StatLines(d, rank), "\n") + "\n\n"
  }

  /** Every per-repository counter is a well-formed dictionary. */
  ghost predicate ValuesValid(rc: Dict<Dict<nat>>) {
    forall p :: p in rc.vals ==> rc.vals[p].Valid()
  }

  function RepoSummaries(rc: Dict<Dict<nat>>, rank: string -> int): (blocks: seq<string>)
    requires rc.Valid() && ValuesValid(rc)
    ensures |blocks| == |rc.keys|
  {
    seq(|rc.keys|, i requires 0 <= i < |rc.keys| => RepoSummary(rc.keys[i], rc.vals[rc.keys[i]], rank))
  }

  /** The summary loop over the counters: one block per key, in key order. */
  function SummaryPart(rc: Dict<Dict<nat>>, rank: string -> int): string
    requires rc.Valid() && ValuesValid(rc)
  {
    Concat(RepoSummaries(rc, rank))
  }

  /* -------------------------------------------------------------- details */

  /** `- title ` (with the trailing space), one per commit of the group. */
  function TitleLines(group: seq<DailyRecord>): (lines: seq<string>)
    ensures |lines| == |group|
  {
    seq(|group|, i requires 0 <= i < |group| => "- " + TitleOf(group[i]) + " \n")
  }

  /** `### author (N개 커밋)` */
  function AuthorHeading(author: string, group: seq<DailyRecord>): string {
    "### " + author + " (" + NatToString(|group|) + "개 커밋)\n"
  }

  /** One author's block: the heading, a line per commit and a blank line. */
  function AuthorDetail(author: string, group: seq<DailyRecord>): string {
    AuthorHeading(author, group) + Concat(TitleLines(group)) + "\n"
  }

  function AuthorDetails(l: seq<DailyRecord>, key: DailyRecord -> string): (blocks: seq<string>)
    ensures |blocks| == |GroupKeys(l, key)|
  {
    var gk := GroupKeys(l, key);
    seq(|gk|, i requires 0 <= i < |gk| => AuthorDetail(gk[i], Having(l, key, gk[i])))
  }

  /** `## repo` followed by the blocks of the authors in first-seen order. */
  function RepoDetail(f: Fetched, key: DailyRecord -> string): string {
    "## " + f.path + "\n" + Concat(AuthorDetails(f.commits, key))
  }

  /** One detail section per repository entry with commits, in configured order. */
  function DetailPart(fs: seq<Fetched>, key: DailyRecord -> string): string {
    if fs == [] then "" else DetailPart(fs[..|fs| - 1], key) + RepoDetail(fs[|fs| - 1], key)
  }

  /* ------------------------------------------------------------- document */

  function DailyTitle(today: string): string {
    "# " + today + " 커밋 내역\n\n"
  }

  const SummaryTitle: string := "## 팀별 개발자 커밋 수\n"

  function DailyPath(today: string): string {
    "./daily-git/" + "일일보고서용-Git-" + today + ".md"
  }

  lemma RepoCountsWellFormed(fs: seq<Fetched>, key: DailyRecord -> string)
    ensures RepoCounts(fs, key).Valid() && ValuesValid(RepoCounts(fs, key))
  {
    RepoCountsValues(fs, key);
  }

  /** The whole report for the configured repositories. */
  function DailyDocument(repos: seq<Repo>, today: string, localeString: string -> string, rank: string -> int, key: DailyRecord -> string): string {
    var fs := Active(repos, localeString);
    RepoCountsWellFormed(fs, key);
    DailyTitle(today) + SummaryTitle + SummaryPart(RepoCounts(fs, key), rank) + DetailPart(fs, key)
  }

  /* -------------------------------------------------------------- methods */

  /** `main`: count, render the summary, render the details, and name the file. */
  method Report(repos: seq<Repo>, today: string, localeString: string -> string, rank: string -> int, key: DailyRecord -> string)
    returns (path: string, output: string)
    ensures path == DailyPath(today)
    ensures output == DailyDocument(repos, today, localeString, rank, key)
    ensures StartsWith(output, DailyTitle(today) + SummaryTitle)
  {
    output := DailyTitle(today);
    var repoCounts, totals := Count(repos, localeString, key);
    RepoCountsWellFormed(Active(repos, localeString), key);
    output := output + SummaryTitle;
    var summary := RenderSummary(repoCounts, rank);
    output := output + summary;
    var details := RenderDetails(repos, localeString, key);
    output := output + details;
    path := DailyPath(today);
    StartsWithAppend(DailyTitle(today) + SummaryTitle, summary + details);
  }

  /** The summary loop over `repoAuthorCommits`. */
  method RenderSummary(rc: Dict<Dict<nat>>, rank: string -> int) returns (output: string)
    requires rc.Valid() && ValuesValid(rc)
    ensures output == SummaryPart(rc, rank)
  {
    output := "";
    ghost var blocks := RepoSummaries(rc, rank);
    for i := 0 to |rc.keys|
      invariant output == Concat(blocks[..i])
    {
      var repo := rc.keys[i];
      assert repo in rc.vals;
      var block := RenderRepoSummary(repo, rc.vals[repo], rank);
      assert block == blocks[i];
      ConcatStep("", blocks, i, output);
      output := output + block;
    }
    assert blocks[..|rc.keys|] == blocks;
  }

  /** One round of the summary loop: the repository heading, then its stat lines. */
  method RenderRepoSummary(repo: string, authorStats: Dict<nat>, rank: string -> int) returns (block: string)
    requires authorStats.Valid()
    ensures block == RepoSummary(repo, authorStats, rank)
  {
    block := RepoHeading(repo);
    block := block + RepoStats(authorStats, rank);
  }

  /** The detail loop over `repositories`. */
  method RenderDetails(repos: seq<Repo>, localeString: string -> string, key: DailyRecord -> string) returns (output: string)
    ensures output == DetailPart(Active(repos, localeString), key)
  {
    output := "";
    for i := 0 to |repos|
      invariant output == DetailPart(Active(repos[..i], localeString), key)
    {
      PrefixSnoc(repos, i);
      var repo := repos[i];
      if repo.project.None? {
        continue;
      }
      var commits := TodayCommits(repo.project.value, localeString);
      if |commits| > 0 {
        ghost var done := Active(repos[..i], localeString);
        assert (done + [Fetched(repo.path, commits)])[..|done|] == done;
        var section := RenderRepoDetail(repo.path, commits, key);
        output := output + section;
      }
    }
    assert repos[..|repos|] == repos;
  }

  /** One repository's section: group by author, then a block per author. */
  method RenderRepoDetail(repo: string, commits: seq<DailyRecord>, key: DailyRecord -> string) returns (section: string)
    ensures section == RepoDetail(Fetched(repo, commits), key)
  {
    section := "## " + repo + "\n";
    ghost var start := section;
    var authorCommits := GroupBy(commits, key);
    var blocks := AuthorDetails(commits, key);
    for j := 0 to |authorCommits.keys|
      invariant section == start + Concat(blocks[..j])
    {
      ConcatStep(start, blocks, j, section);
      var author := authorCommits.keys[j];
      var block := RenderAuthorDetail(author, authorCommits.vals[author]);
      section := section + block;
    }
    assert blocks[..|blocks|] == blocks;
  }

  /** One author's block: the heading, then a line appended per commit. */
  method RenderAuthorDetail(author: string, userCommits: seq<DailyRecord>) returns (block: string)
    ensures block == AuthorDetail(author, userCommits)
  {
    block := AuthorHeading(author, userCommits);
    ghost var start := block;
    var lines := TitleLines(userCommits);
    for k := 0 to |userCommits|
      invariant block == start + Concat(lines[..k])
    {
      ConcatStep(start, lines, k, block);
      block := block + ("- " + TitleOf(userCommits[k]) + " \n");
    }
    assert lines[..|userCommits|] == lines;
    block := block + "\n";
  }

  /* ------------------------------------------------------------ properties */

  /** Some configured entry with path `p` produced commits. */
  ghost predicate Produced(repos: seq<Repo>, localeString: string -> string, p: string) {
    exists i :: 0 <= i < |repos| && repos[i].path == p && |CommitsOf(repos[i], localeString)| > 0
  }

  lemma ProducedSnoc(init: seq<Repo>, r: Repo, localeString: string -> string, p: string)
    ensures Produced(init + [r], localeString, p) <==>
      Produced(init, localeString, p) || (r.path == p && |CommitsOf(r, localeString)| > 0)
  {
    var repos := init + [r];
    if Produced(repos, localeString, p) {
      var i :| 0 <= i < |repos| && repos[i].path == p && |CommitsOf(repos[i], localeString)| > 0;
      if i < |init| {
        assert init[i] == repos[i];
      }
    }
    if Produced(init, localeString, p) {
      var i :| 0 <= i < |init| && init[i].path == p && |CommitsOf(init[i], localeString)| > 0;
      assert repos[i] == init[i];
    }
    if r.path == p && |CommitsOf(r, localeString)| > 0 {
      assert repos[|init|] == r;
    }
  }

  /** An entry path of the active list is exactly a configured path whose entry produced commits. */
  lemma {:induction false} ActivePaths(repos: seq<Repo>, localeString: string -> string, p: string)
    ensures p in Paths(Active(repos, localeString)) <==> Produced(repos, localeString, p)
  {
    if repos != [] {
      var init, r := repos[..|repos| - 1], repos[|repos| - 1];
      assert repos == init + [r];
      ActivePaths(init, localeString, p);
      ProducedSnoc(init, r, localeString, p);
      var rest := Active(init, localeString);
      if |CommitsOf(r, localeString)| > 0 {
        assert Paths(rest + [Fetched(r.path, CommitsOf(r, localeString))]) == Paths(rest) + [r.path];
      }
    }
  }

  /** A repository gets a summary block exactly when some entry with its path produced commits. */
  lemma SummaryHasRepo(repos: seq<Repo>, localeString: string -> string, key: DailyRecord -> string, p: string)
    ensures p in RepoCounts(Active(repos, localeString), key).keys <==> Produced(repos, localeString, p)
  {
    var fs := Active(repos, localeString);
    RepoCountsKeys(fs, key);
    InFirstSeen(Paths(fs), p);
    ActivePaths(repos, localeString, p);
  }

  lemma InEntries(d: Dict<nat>, e: (string, nat))
    requires d.Valid()
    ensures e in Entries(d) <==> e.0 in d.vals && e.1 == d.vals[e.0]
  {
    if e.0 in d.vals && e.1 == d.vals[e.0] {
      var i :| 0 <= i < |d.keys| && d.keys[i] == e.0;
      assert Entries(d)[i] == e;
    }
  }

  /**
   * The summary lines of one repository, before formatting: sorted by name, a
   * permutation of the entries, equal names in key order, and each author of
   * the repository paired with the size of the author's group.
   */
  lemma SummaryEntries(l: seq<DailyRecord>, key: DailyRecord -> string, rank: string -> int, e: (string, nat))
    ensures SortedBy(SortedEntries(CountsOf(l, key), rank), ByName(rank))
    ensures multiset(SortedEntries(CountsOf(l, key), rank)) == multiset(Entries(CountsOf(l, key)))
    ensures forall k :: WithKey(SortedEntries(CountsOf(l, key), rank), ByName(rank), k) == WithKey(Entries(CountsOf(l, key)), ByName(rank), k)
    ensures e in SortedEntries(CountsOf(l, key), rank) <==> e.0 in GroupKeys(l, key) && e.1 == |Having(l, key, e.0)|
  {
    var d := CountsOf(l, key);
    SortPermutes(Entries(d), ByName(rank));
    forall k ensures WithKey(SortedEntries(d, rank), ByName(rank), k) == WithKey(Entries(d), ByName(rank), k) {
      SortIsStable(Entries(d), ByName(rank), k);
    }
    assert e in SortedEntries(d, rank) <==> e in multiset(Entries(d));
    InEntries(d, e);
    CountsOfMeaning(l, key);
  }

  /** The title lines of a repository's section number its commits: grouping loses and repeats none. */
  lemma DetailLinesCount(l: seq<DailyRecord>, key: DailyRecord -> string)
    ensures SizeSum(l, key, GroupKeys(l, key)) == |l|
    ensures forall i :: 0 <= i < |GroupKeys(l, key)| ==> |TitleLines(Having(l, key, GroupKeys(l, key)[i]))| == |Having(l, key, GroupKeys(l, key)[i])|
  {
    GroupSizesSum(l, key);
  }

  /** A commit list of one record: one author key, counted once, and one author block. */
  lemma SingleRecord(p: string, recs: seq<DailyRecord>, key: DailyRecord -> string)
    requires |recs| == 1
    ensures CountsOf(recs, key).keys == [key(recs[0])]
    ensures CountsOf(recs, key).vals == map[key(recs[0]) := 1]
    ensures RepoDetail(Fetched(p, recs), key) == "## " + p + "\n" + AuthorDetail(key(recs[0]), recs)
  {
    SingleGroup(recs, key);
    SingleCounts(recs, key);
    var blocks := AuthorDetails(recs, key);
    assert blocks == [AuthorDetail(key(recs[0]), recs)];
    assert Concat(blocks) == blocks[0] by {
      assert blocks[..0] == [];
    }
  }

  lemma SingleCounts(recs: seq<DailyRecord>, key: DailyRecord -> string)
    requires |recs| == 1
    requires GroupKeys(recs, key) == [key(recs[0])] && Having(recs, key, key(recs[0])) == recs
    ensures CountsOf(recs, key).keys == [key(recs[0])]
    ensures CountsOf(recs, key).vals == map[key(recs[0]) := 1]
  {
    var d := CountsOf(recs, key);
    CountsOfMeaning(recs, key);
    SingleKey(d, key(recs[0]), 1);
  }

  lemma SingleKey(d: Dict<nat>, a: string, n: nat)
    requires d.Valid() && d.keys == [a] && (a in d.vals ==> d.vals[a] == n)
    ensures d.vals == map[a := n]
  {
    assert a in d.keys;
  }

  lemma SingleGroup(recs: seq<DailyRecord>, key: DailyRecord -> string)
    requires |recs| == 1
    ensures GroupKeys(recs, key) == [key(recs[0])]
    ensures Having(recs, key, key(recs[0])) == recs
  {
    var a := key(recs[0]);
    assert KeysOf(recs, key) == [a];
    assert FirstSeen([a]) == [a] by {
      assert [a][..0] == [];
    }
    assert recs[..0] == [];
  }

  /**
   * One commit whose refs lookup was not ok: the script's key counts it and
   * prints its block under `undefined`, the intended key under the commit's
   * author name.
   */
  lemma AsWrittenPrintsUndefined(p: string, c: RawCommit, localeString: string -> string)
    ensures var recs := [Enrich(c, RefsNotOk, localeString)];
      && CountsOf(recs, AuthorAsWritten).vals == map["undefined" := 1]
      && RepoDetail(Fetched(p, recs), AuthorAsWritten) == "## " + p + "\n" + AuthorDetail("undefined", recs)
      && CountsOf(recs, Author).vals == map[c.authorName := 1]
      && RepoDetail(Fetched(p, recs), Author) == "## " + p + "\n" + AuthorDetail(c.authorName, recs)
  {
    var recs := [Enrich(c, RefsNotOk, localeString)];
    SingleRecord(p, recs, AuthorAsWritten);
    SingleRecord(p, recs, Author);
  }
}
