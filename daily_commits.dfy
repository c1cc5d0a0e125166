/**
 * The commits of one repository for one day, as `getTodayCommits` in
 * run-files/gitlab-cli.js shapes them, and the author key they are grouped
 * by (`groupCommitsByAuthor`).
 */
module DailyCommits {
  import opened Wrappers
  import opened Text
  import opened GitLab
  import opened Grouping

  /** The answer to the commit-listing request: the commits, or a non-ok status or thrown error. */
  datatype Listing = ListingOk(commits: seq<RawCommit>) | ListingFailed

  /** The answer to the refs lookup of one commit. */
  datatype RefsAnswer = RefsOk(names: seq<string>) | RefsNotOk | RefsThrew

  /** A repository as the daily script sees it; `refs` answers the lookup for a commit id. */
  datatype DailyProject = DailyProject(listing: Listing, refs: string -> RefsAnswer)

  /**
   * A daily record. `Spread` is the raw commit copied into a new object
   * whose branches are the single name `unknown`; `Shaped` is the record built when the refs
   * lookup succeeded. `createdAt` is the rendered date.
   */
  datatype DailyRecord =
    | Spread(raw: RawCommit, branches: seq<string>)
    | Shaped(title: string, author: string, username: string, createdAt: string, branches: seq<string>)

  /** The title both shapes carry. */
  function TitleOf(r: DailyRecord): string {
    match r
    case Spread(raw, _) => raw.title
    case Shaped(title, _, _, _, _) => title
  }

  /** The username: the e-mail address unless it is missing or empty, else the author name. */
  function Username(c: RawCommit): (u: string)
    ensures c.authorEmail.Some? && c.authorEmail.value != "" ==> u == c.authorEmail.value
    ensures (c.authorEmail.None? || c.authorEmail.value == "") ==> u == c.authorName
  {
    match c.authorEmail
    case Some(e) => if e != "" then e else c.authorName
    case None => c.authorName
  }

  /** The record one non-merge commit becomes, given a refs answer that did not throw. */
  function Enrich(c: RawCommit, refs: RefsAnswer, localeString: string -> string): (r: DailyRecord)
    requires !refs.RefsThrew?
    ensures TitleOf(r) == c.title
    ensures r.Spread? <==> refs.RefsNotOk?
    ensures r.Spread? ==> r.raw == c && r.branches == ["unknown"]
    ensures r.Shaped? ==> r.author == c.authorName && r.username == Username(c) && r.branches == refs.names
  {
    match refs
    case RefsNotOk => Spread(c, ["unknown"])
    case RefsOk(names) => Shaped(c.title, c.authorName, Username(c), localeString(c.createdAt), names)
  }

  /** Some refs lookup of the kept commits throws, which rejects the whole `Promise.all`. */
  predicate AnyThrew(kept: seq<RawCommit>, refs: string -> RefsAnswer) {
    exists i | 0 <= i < |kept| :: refs(kept[i].id).RefsThrew?
  }

  /**
   * `getTodayCommits`: drop merge commits, then enrich each kept commit with
   * its branches; any failure of the listing, or a thrown refs lookup, gives `[]`.
   */
  function TodayCommits(p: DailyProject, localeString: string -> string): (r: seq<DailyRecord>)
    ensures p.listing.ListingFailed? ==> r == []
    ensures p.listing.ListingOk? && AnyThrew(WithoutMerges(p.listing.commits), p.refs) ==> r == []
    ensures p.listing.ListingOk? && !AnyThrew(WithoutMerges(p.listing.commits), p.refs) ==>
      var kept := WithoutMerges(p.listing.commits);
      |r| == |kept| && forall i :: 0 <= i < |kept| ==> r[i] == Enrich(kept[i], p.refs(kept[i].id), localeString)
    ensures forall i :: 0 <= i < |r| ==> !StartsWith(TitleOf(r[i]), MergePrefix)
  {
    match p.listing
    case ListingFailed => []
    case ListingOk(commits) =>
      var kept := WithoutMerges(commits);
      if AnyThrew(kept, p.refs) then []
      else seq(|kept|, i requires 0 <= i < |kept| => Enrich(kept[i], p.refs(kept[i].id), localeString))
  }

  /* ----------------------------------------------------------- author keys */

  /**
   * The author key as the script reads it: the record's `author` field. The
   * spread record has no such field, so the key becomes the text "undefined".
   */
  function AuthorAsWritten(r: DailyRecord): (a: string)
    ensures r.Spread? ==> a == "undefined"
    ensures r.Shaped? ==> a == r.author
  {
    match r
    case Spread(_, _) => "undefined"
    case Shaped(_, author, _, _, _) => author
  }

  /** The author key as intended: the commit's author name for both shapes. */
  function Author(r: DailyRecord): (a: string)
    ensures r.Spread? ==> a == r.raw.authorName
    ensures r.Shaped? ==> a == r.author
  {
    match r
    case Spread(raw, _) => raw.authorName
    case Shaped(_, author, _, _, _) => author
  }

  /** Both shapes of a kept commit are keyed by its author name. */
  lemma AuthorOfEnriched(c: RawCommit, refs: RefsAnswer, localeString: string -> string)
    requires !refs.RefsThrew?
    ensures Author(Enrich(c, refs, localeString)) == c.authorName
  {
  }

  /**
   * A commit whose refs lookup is not ok is grouped under "undefined" as
   * written, while the intended key is its author's name.
   */
  lemma AsWrittenLosesAuthor()
    ensures var c := RawCommit("c1", "Fix login", "Kim", Some("kim@example.com"), "2024-01-02T09:00:00Z", "u1");
      var recs := [Enrich(c, RefsNotOk, s => s)];
      && Having(recs, AuthorAsWritten, "undefined") == recs
      && Having(recs, AuthorAsWritten, "Kim") == []
      && Having(recs, Author, "Kim") == recs
  {
  }
}
