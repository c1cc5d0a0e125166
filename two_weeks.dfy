/**
 * The two-week report of gitlab-two-weeks.js: the commits of each configured
 * repository since a start date, merge commits dropped, grouped by author
 * and rendered as one markdown document.
 */
module TwoWeeks {
  import opened Wrappers
  import opened Text
  import opened Seqs
  import opened Objects
  import opened Grouping
  import opened GitLab

  /** The answer to the commit-listing request: the commits, or a non-ok status or thrown error. */
  datatype Response = Ok(commits: seq<RawCommit>) | Failed

  /** The record `getTwoWeeksCommits` maps each kept commit to; `createdAt` is the rendered date. */
  datatype Row = Row(title: string, author: string, createdAt: string)

  /** One entry of `repositories`; `listing` is `None` when the project lookup failed. */
  datatype Repo = Repo(path: string, listing: Option<Response>)

  /** The row a kept commit becomes: its title, its author name and its rendered creation date. */
  function ToRow(c: RawCommit, localeString: string -> string): (r: Row)
    ensures r.title == c.title && r.author == c.authorName && r.createdAt == localeString(c.createdAt)
  {
    Row(c.title, c.authorName, localeString(c.createdAt))
  }

  /** `getTwoWeeksCommits`: the non-merge commits as rows, in listing order; `[]` on any failure. */
  function TwoWeeksRows(resp: Response, localeString: string -> string): (rows: seq<Row>)
    ensures resp.Failed? ==> rows == []
    ensures resp.Ok? ==> |rows| == |WithoutMerges(resp.commits)|
    ensures resp.Ok? ==> forall i :: 0 <= i < |rows| ==> rows[i] == ToRow(WithoutMerges(resp.commits)[i], localeString)
    ensures forall i :: 0 <= i < |rows| ==> !StartsWith(rows[i].title, MergePrefix)
  {
    match resp
    case Failed => []
    case Ok(commits) =>
      var kept := WithoutMerges(commits);
      seq(|kept|, i requires 0 <= i < |kept| => ToRow(kept[i], localeString))
  }

  /** A row is produced exactly for a listed commit that is not a merge commit. */
  lemma RowsAreKeptCommits(commits: seq<RawCommit>, localeString: string -> string, r: Row)
    ensures r in TwoWeeksRows(Ok(commits), localeString) <==>
      exists c :: c in commits && !IsMergeCommit(c) && r == ToRow(c, localeString)
  {
    var kept := WithoutMerges(commits);
    var rows := TwoWeeksRows(Ok(commits), localeString);
    if r in rows {
      var i :| 0 <= i < |rows| && rows[i] == r;
      assert kept[i] in commits && !IsMergeCommit(kept[i]);
    }
    if exists c :: c in commits && !IsMergeCommit(c) && r == ToRow(c, localeString) {
      var c :| c in commits && !IsMergeCommit(c) && r == ToRow(c, localeString);
      var j :| 0 <= j < |commits| && commits[j] == c;
      assert c in kept;
      var i :| 0 <= i < |kept| && kept[i] == c;
      assert rows[i] == r;
    }
  }

  /** The rows of one entry; an entry without a project contributes none. */
  function RowsOf(repo: Repo, localeString: string -> string): seq<Row> {
    if repo.listing.None? then [] else TwoWeeksRows(repo.listing.value, localeString)
  }

  /** A row's author, the key the per-author loop groups by. */
  function ByAuthor(r: Row): string {
    r.author
  }

  /* ------------------------------------------------------------ rendering */

  function Header(since: string, today: string): string {
    "# " + since + " ~ " + today + " 커밋 내역\n\n"
  }

  /** `- title (created_at)` */
  function RowLine(r: Row): string {
    "- " + r.title + " (" + r.createdAt + ")\n"
  }

  function RowLines(group: seq<Row>): (lines: seq<string>)
    ensures |lines| == |group|
  {
    seq(|group|, i requires 0 <= i < |group| => RowLine(group[i]))
  }

  /** `### author`, a line per commit of the group, then a blank line. */
  function AuthorBlock(author: string, group: seq<Row>): string {
    "### " + author + "\n" + Concat(RowLines(group)) + "\n"
  }

  function AuthorBlocks(rows: seq<Row>): (blocks: seq<string>)
    ensures |blocks| == |FirstSeen(KeysOf(rows, ByAuthor))|
  {
    var authors := FirstSeen(KeysOf(rows, ByAuthor));
    seq(|authors|, i requires 0 <= i < |authors| => AuthorBlock(authors[i], Having(rows, ByAuthor, authors[i])))
  }

  /** A repository's section: present only when it has rows. */
  function RepoSection(path: string, rows: seq<Row>): (s: string)
    ensures s != "" <==> |rows| > 0
  {
    if |rows| > 0 then "## " + path + "\n\n" + Concat(AuthorBlocks(rows)) else ""
  }

  /** The sections of the entries, in configured order. */
  function Sections(repos: seq<Repo>, localeString: string -> string): string {
    if repos == [] then ""
    else
      var r := repos[|repos| - 1];
      Sections(repos[..|repos| - 1], localeString) + RepoSection(r.path, RowsOf(r, localeString))
  }

  function TwoWeeksDocument(repos: seq<Repo>, since: string, today: string, localeString: string -> string): string {
    Header(since, today) + Sections(repos, localeString)
  }

  function TwoWeeksPath(today: string): string {
    "./daily-git/" + "2주간보고서용-Git-" + today + ".md"
  }

  /* -------------------------------------------------------------- methods */

  /** `main`: the header, then a section per repository with rows, and the file name. */
  method Report(repos: seq<Repo>, since: string, today: string, localeString: string -> string)
    returns (path: string, output: string)
    ensures path == TwoWeeksPath(today)
    ensures output == TwoWeeksDocument(repos, since, today, localeString)
    ensures StartsWith(output, Header(since, today))
  {
    output := Header(since, today);
    ghost var start := output;
    for i := 0 to |repos|
      invariant output == start + Sections(repos[..i], localeString)
    {
      SectionsStep(repos, i, localeString);
      var repo := repos[i];
      if repo.listing.None? {
        assert RepoSection(repo.path, RowsOf(repo, localeString)) == "";
        continue;
      }
      var rows := TwoWeeksRows(repo.listing.value, localeString);
      if |rows| > 0 {
        var section := RenderRepo(repo.path, rows);
        AppendAssoc(start, Sections(repos[..i], localeString), section);
        output := output + section;
      } else {
        assert RepoSection(repo.path, rows) == "";
      }
    }
    assert repos[..|repos|] == repos;
    path := TwoWeeksPath(today);
    StartsWithAppend(start, Sections(repos, localeString));
  }

  lemma SectionsStep(repos: seq<Repo>, i: nat, localeString: string -> string)
    requires i < |repos|
    ensures Sections(repos[..i + 1], localeString) == Sections(repos[..i], localeString) + RepoSection(repos[i].path, RowsOf(repos[i], localeString))
  {
    assert repos[..i + 1][..i] == repos[..i];
  }

  /** One repository: the heading, `commitsByAuthor`, then a block per author. */
  method RenderRepo(path: string, rows: seq<Row>) returns (section: string)
    requires |rows| > 0
    ensures section == RepoSection(path, rows)
  {
    section := "## " + path + "\n\n";
    ghost var start := section;
    var commitsByAuthor := GroupBy(rows, ByAuthor);
    var blocks := AuthorBlocks(rows);
    for j := 0 to |commitsByAuthor.keys|
      invariant section == start + Concat(blocks[..j])
    {
      ConcatStep(start, blocks, j, section);
      var author := commitsByAuthor.keys[j];
      var block := RenderAuthor(author, commitsByAuthor.vals[author]);
      section := section + block;
    }
    assert blocks[..|blocks|] == blocks;
  }

  /** One author's block: `forEach` appends a line per commit. */
  method RenderAuthor(author: string, group: seq<Row>) returns (block: string)
    ensures block == AuthorBlock(author, group)
  {
    block := "### " + author + "\n";
    ghost var start := block;
    var lines := RowLines(group);
    for k := 0 to |group|
      invariant block == start + Concat(lines[..k])
    {
      ConcatStep(start, lines, k, block);
      block := block + RowLine(group[k]);
    }
    assert lines[..|group|] == lines;
    block := block + "\n";
  }

  /* ------------------------------------------------------------ properties */

  /** Every row of a repository is rendered once: the author blocks hold as many lines as there are rows. */
  lemma BlockLinesCount(rows: seq<Row>)
    ensures SizeSum(rows, ByAuthor, FirstSeen(KeysOf(rows, ByAuthor))) == |rows|
    ensures forall a :: |RowLines(Having(rows, ByAuthor, a))| == |Having(rows, ByAuthor, a)|
  {
    GroupSizesSum(rows, ByAuthor);
  }
}
