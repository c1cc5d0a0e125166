/**
 * Collecting one team member's commits of the last two weeks
 * (`getBranches` and `getTwoWeeksCommits` in gitlab-author-commits.js).
 *
 * The server is an input: the branch listing answer and, for every branch,
 * the answers to the requests for pages 1, 2, 3, ... of its commit list.
 */
module AuthorCommits {
  import opened Wrappers
  import opened Text
  import opened Seqs
  import opened GitLab

  /** A configured team member `{ id, name? }`. */
  datatype Member = Member(id: string, name: Option<string>)

  /** The record a kept commit is normalised to; `createdAt` is the commit's raw creation date string, kept opaque. */
  datatype Commit = Commit(title: string, author: string, createdAt: string, webUrl: string, branch: string)

  /** The answer to one page request: a list of commits, or a non-ok status or thrown error. */
  datatype PageResult = Page(commits: seq<RawCommit>) | PageFailed

  /** The answer to the branch listing request. */
  datatype BranchListing = Listed(names: seq<string>) | ListingFailed

  /**
   * A project as the collector sees it. `history[b][n - 1]` answers the
   * request for page `n` of branch `b`; requests beyond the recorded answers
   * (and for branches without any) are answered with an empty page.
   */
  datatype Project = Project(listing: BranchListing, history: map<string, seq<PageResult>>)

  const PerPage: nat := 100
  const FallbackBranches: seq<string> := ["main", "master", "develop"]

  /** `getBranches`: the listed names in order, or the three usual defaults when the lookup fails. */
  function Branches(listing: BranchListing): (bs: seq<string>)
    ensures listing.ListingFailed? ==> bs == ["main", "master", "develop"]
    ensures listing.Listed? ==> bs == listing.names
  {
    match listing
    case Listed(names) => names
    case ListingFailed => FallbackBranches
  }

  /* ---------------------------------------------------------------- matching */

  /** The local part of an e-mail address: the text before its first `@`; a missing address gives `""`. */
  function LocalPart(email: Option<string>): (r: string)
    ensures '@' !in r
    ensures email.None? ==> r == ""
    ensures email.Some? ==> StartsWith(email.value, r) && (|r| == |email.value| || email.value[|r|] == '@')
  {
    match email
    case None => ""
    case Some(e) => BeforeAt(e)
  }

  function BeforeAt(s: string): (r: string)
    ensures '@' !in r
    ensures StartsWith(s, r) && (|r| == |s| || s[|r|] == '@')
  {
    if s == [] || s[0] == '@' then [] else [s[0]] + BeforeAt(s[1..])
  }

  /** The member id with its first `@` removed; any later `@` stays. */
  function RemoveFirstAt(id: string): (r: string)
    ensures '@' !in id ==> r == id
    ensures '@' in id ==> r == id[..FirstIndex(id, '@')] + id[FirstIndex(id, '@') + 1..]
  {
    if id == [] then []
    else if id[0] == '@' then id[1..]
    else
      var rest := RemoveFirstAt(id[1..]);
      assert '@' in id ==> FirstIndex(id, '@') == 1 + FirstIndex(id[1..], '@');
      [id[0]] + rest
  }

  /** The member wrote the commit: same e-mail local part as the id without its `@`, or same name. */
  predicate IsAuthor(m: Member, c: RawCommit) {
    LocalPart(c.authorEmail) == RemoveFirstAt(m.id) || m.name == Some(c.authorName)
  }

  /** The filter of line 115: the member's own commits that are not merges. */
  predicate Kept(m: Member, c: RawCommit) {
    IsAuthor(m, c) && !IsMergeCommit(c)
  }

  /** The map of line 122: the record, tagged with the branch being scanned. */
  function Normalize(c: RawCommit, branch: string): Commit {
    Commit(c.title, c.authorName, c.createdAt, c.webUrl, branch)
  }

  /** The records one page yields: its commits filtered, then normalised. */
  function PageCommits(m: Member, branch: string, raw: seq<RawCommit>): (r: seq<Commit>)
    ensures |r| <= |raw|
    ensures forall i :: 0 <= i < |r| ==> r[i].branch == branch && !StartsWith(r[i].title, MergePrefix)
  {
    if raw == [] then []
    else
      var rest := PageCommits(m, branch, raw[..|raw| - 1]);
      var c := raw[|raw| - 1];
      if Kept(m, c) then rest + [Normalize(c, branch)] else rest
  }

  /** `x` is the record of a commit of `raw` that the filter keeps. */
  ghost predicate FromKept(m: Member, branch: string, raw: seq<RawCommit>, x: Commit) {
    exists j :: 0 <= j < |raw| && Kept(m, raw[j]) && x == Normalize(raw[j], branch)
  }

  /** A raw commit contributes to the page's records exactly when the filter keeps it. */
  lemma {:induction false} PageCommitsKept(m: Member, branch: string, raw: seq<RawCommit>)
    ensures forall c :: c in raw && Kept(m, c) ==> Normalize(c, branch) in PageCommits(m, branch, raw)
    ensures forall i :: 0 <= i < |PageCommits(m, branch, raw)| ==> FromKept(m, branch, raw, PageCommits(m, branch, raw)[i])
  {
    if raw != [] {
      var p, x := raw[..|raw| - 1], raw[|raw| - 1];
      PageCommitsKept(m, branch, p);
      assert raw == p + [x];
      var r, q := PageCommits(m, branch, raw), PageCommits(m, branch, p);
      forall i | 0 <= i < |r| ensures FromKept(m, branch, raw, r[i]) {
        if i < |q| {
          assert FromKept(m, branch, p, q[i]);
          var j :| 0 <= j < |p| && Kept(m, p[j]) && q[i] == Normalize(p[j], branch);
          assert r[i] == q[i] && raw[j] == p[j];
        } else {
          assert r[i] == Normalize(raw[|raw| - 1], branch);
        }
      }
    }
  }

  /* -------------------------------------------------------------- pagination */

  /** The answer to the request for page `page` (counted from 1). */
  function Answer(pages: seq<PageResult>, page: nat): PageResult
    requires page >= 1
  {
    if page <= |pages| then pages[page - 1] else Page([])
  }

  /** The loop ends at this page: a failure, an empty page or a short page. */
  predicate Terminal(pages: seq<PageResult>, page: nat)
    requires page >= 1
  {
    match Answer(pages, page)
    case PageFailed => true
    case Page(cs) => |cs| < PerPage
  }

  /** The first page at or after `page` at which the loop ends. */
  function LastPage(pages: seq<PageResult>, page: nat): (k: nat)
    requires page >= 1
    ensures page <= k <= |pages| + 1 || k == page
    ensures Terminal(pages, k)
    ensures forall p :: page <= p < k ==> !Terminal(pages, p)
    decreases |pages| + 1 - page
  {
    if Terminal(pages, page) then page else LastPage(pages, page + 1)
  }

  /** The records a page adds: none for a failure, the filtered page otherwise. */
  function Added(m: Member, branch: string, answer: PageResult): seq<Commit> {
    match answer
    case PageFailed => []
    case Page(cs) => PageCommits(m, branch, cs)
  }

  /** The records added by pages 1 to `n`, in page order. */
  function Gathered(m: Member, branch: string, pages: seq<PageResult>, n: nat): (r: seq<Commit>)
    ensures forall i :: 0 <= i < |r| ==> r[i].branch == branch && !StartsWith(r[i].title, MergePrefix)
  {
    if n == 0 then [] else Gathered(m, branch, pages, n - 1) + Added(m, branch, Answer(pages, n))
  }

  /** Everything one branch contributes: the pages up to and including the one the loop ends at. */
  function BranchCommits(m: Member, branch: string, pages: seq<PageResult>): seq<Commit> {
    Gathered(m, branch, pages, LastPage(pages, 1))
  }

  /** The page numbers 1 to `n`, in order. */
  function PageNumbers(n: nat): (ps: seq<nat>)
    ensures |ps| == n
  {
    seq(n, i => i + 1)
  }

  /**
   * The page loop for one branch, which runs while more pages are expected. It also returns the page
   * numbers it requested, in order.
   */
  method FetchBranch(m: Member, branch: string, pages: seq<PageResult>) returns (commits: seq<Commit>, requested: seq<nat>)
    ensures commits == BranchCommits(m, branch, pages)
    ensures requested == PageNumbers(LastPage(pages, 1))
  {
    var last := LastPage(pages, 1);
    commits := [];
    requested := [];
    var page: nat := 1;
    var hasMorePages := true;
    while hasMorePages
      invariant 1 <= page <= last
      invariant hasMorePages ==> commits == Gathered(m, branch, pages, page - 1) && requested == PageNumbers(page - 1)
      invariant !hasMorePages ==> commits == Gathered(m, branch, pages, last) && requested == PageNumbers(last)
      decreases last - page + (if hasMorePages then 1 else 0)
    {
      StopsOnlyAtLast(pages, page);
      NextPageNumber(page);
      requested := requested + [page];
      var answer := Answer(pages, page);
      if answer.PageFailed? {
        // a non-ok status or a thrown error ends the loop
        hasMorePages := false;
      } else if |answer.commits| == 0 {
        hasMorePages := false;
      } else {
        commits := commits + PageCommits(m, branch, answer.commits);
        if |answer.commits| < PerPage {
          hasMorePages := false;
        } else {
          page := page + 1;
        }
      }
    }
  }

  /** Below the last page the loop goes on; the last page is where it stops. */
  lemma StopsOnlyAtLast(pages: seq<PageResult>, page: nat)
    requires 1 <= page <= LastPage(pages, 1)
    ensures Terminal(pages, page) <==> page == LastPage(pages, 1)
  {
  }

  /** The requested page numbers grow by one page; kept apart so the loop's proof does not unfold them. */
  lemma NextPageNumber(page: nat)
    requires page >= 1
    ensures PageNumbers(page - 1) + [page] == PageNumbers(page)
  {
  }

  /** Page-by-page view of a branch: each page up to the last adds its filtered records. */
  lemma {:induction false} GatheredHas(m: Member, branch: string, pages: seq<PageResult>, n: nat, page: nat, x: Commit)
    requires 1 <= page <= n && x in Added(m, branch, Answer(pages, page))
    ensures x in Gathered(m, branch, pages, n)
  {
    var before, added := Gathered(m, branch, pages, n - 1), Added(m, branch, Answer(pages, n));
    assert Gathered(m, branch, pages, n) == before + added;
    if page < n {
      GatheredHas(m, branch, pages, n - 1, page, x);
      assert x in before + added;
    } else {
      assert x in before + added;
    }
  }

  /* ---------------------------------------------------------------- branches */

  /** The recorded answers for one branch. */
  function PagesOf(p: Project, branch: string): seq<PageResult> {
    if branch in p.history then p.history[branch] else []
  }

  /** `allCommits` after the loop over `branches`: branch order, then page order, then in-page order. */
  function Scanned(m: Member, p: Project, branches: seq<string>): (r: seq<Commit>)
    ensures forall i :: 0 <= i < |r| ==> r[i].branch in branches && !StartsWith(r[i].title, MergePrefix)
  {
    if branches == [] then []
    else
      var b := branches[|branches| - 1];
      Scanned(m, p, branches[..|branches| - 1]) + BranchCommits(m, b, PagesOf(p, b))
  }

  /* ------------------------------------------------------------------- dedup */

  /** The URL of each record, in order. */
  function Urls(cs: seq<Commit>): (us: seq<string>)
    ensures |us| == |cs|
    ensures forall i :: 0 <= i < |cs| ==> us[i] == cs[i].webUrl
  {
    seq(|cs|, i requires 0 <= i < |cs| => cs[i].webUrl)
  }

  /** The first record with the URL, if there is one. */
  function FindByUrl(cs: seq<Commit>, url: string): (r: Option<Commit>)
    ensures r.None? <==> url !in Urls(cs)
    ensures r.Some? ==> r.value == cs[FirstIndex(Urls(cs), url)]
  {
    if cs == [] then None
    else
      assert Urls(cs) == [cs[0].webUrl] + Urls(cs[1..]);
      if cs[0].webUrl == url then Some(cs[0]) else FindByUrl(cs[1..], url)
  }

  /** For each URL in turn, the first record with it; URLs no record has give nothing. */
  function Resolve(urls: seq<string>, cs: seq<Commit>): seq<Commit> {
    if urls == [] then []
    else
      var rest := Resolve(urls[1..], cs);
      match FindByUrl(cs, urls[0])
      case None => rest
      case Some(c) => [c] + rest
  }

  lemma {:induction false} ResolveFound(urls: seq<string>, cs: seq<Commit>)
    requires forall i :: 0 <= i < |urls| ==> urls[i] in Urls(cs)
    ensures |Resolve(urls, cs)| == |urls|
    ensures forall i :: 0 <= i < |urls| ==> Resolve(urls, cs)[i] == cs[FirstIndex(Urls(cs), urls[i])]
  {
    if urls != [] {
      ResolveFound(urls[1..], cs);
    }
  }

  /** First-seen deduplication by `web_url` (lines 147-149). */
  function Dedup(cs: seq<Commit>): seq<Commit> {
    Resolve(FirstSeen(Urls(cs)), cs)
  }

  /**
   * Dedup keeps one record per URL, in the order the URLs were first seen,
   * and the record kept is the first one with that URL.
   */
  lemma DedupKeepsFirst(cs: seq<Commit>)
    ensures Urls(Dedup(cs)) == FirstSeen(Urls(cs))
    ensures forall i :: 0 <= i < |Dedup(cs)| ==>
      Dedup(cs)[i].webUrl in Urls(cs) && Dedup(cs)[i] == cs[FirstIndex(Urls(cs), Dedup(cs)[i].webUrl)]
  {
    var us := FirstSeen(Urls(cs));
    ResolveFound(us, cs);
    var d := Dedup(cs);
    forall i | 0 <= i < |d| ensures Urls(d)[i] == us[i] {
      assert d[i] == cs[FirstIndex(Urls(cs), us[i])];
    }
  }

  /** After dedup the URLs are distinct and are exactly the input's URLs. */
  lemma DedupUrls(cs: seq<Commit>)
    ensures Distinct(Urls(Dedup(cs)))
    ensures forall i :: 0 <= i < |cs| ==> cs[i].webUrl in Urls(Dedup(cs))
    ensures forall i :: 0 <= i < |Dedup(cs)| ==> Dedup(cs)[i] in cs
  {
    DedupKeepsFirst(cs);
  }

  /** The output lists the URLs in the order of their first occurrence in the input. */
  lemma DedupOrder(cs: seq<Commit>)
    ensures forall i, j :: 0 <= i < j < |Dedup(cs)| ==>
      Dedup(cs)[i].webUrl in Urls(cs) && Dedup(cs)[j].webUrl in Urls(cs) &&
      FirstIndex(Urls(cs), Dedup(cs)[i].webUrl) < FirstIndex(Urls(cs), Dedup(cs)[j].webUrl)
  {
    DedupKeepsFirst(cs);
    FirstSeenOrder(Urls(cs));
  }

  /** Deduplicating twice changes nothing. */
  lemma DedupIdempotent(cs: seq<Commit>)
    ensures Dedup(Dedup(cs)) == Dedup(cs)
  {
    var d := Dedup(cs);
    DedupUrls(cs);
    FirstSeenOfDistinct(Urls(d));
    ResolveFound(Urls(d), d);
    forall i | 0 <= i < |d| ensures FirstIndex(Urls(d), Urls(d)[i]) == i {
      var k := FirstIndex(Urls(d), Urls(d)[i]);
      assert !(k < i) && !(i < k);
    }
  }

  /* ---------------------------------------------------------------- collector */

  /** What `getTwoWeeksCommits` returns for the member. */
  function MemberCommits(m: Member, p: Project): seq<Commit> {
    Dedup(Scanned(m, p, Branches(p.listing)))
  }

  /** `getTwoWeeksCommits`: scan every branch, then deduplicate. */
  method TwoWeeksCommits(m: Member, p: Project) returns (commits: seq<Commit>)
    ensures commits == MemberCommits(m, p)
  {
    var branches := Branches(p.listing);
    var all: seq<Commit> := [];
    for i := 0 to |branches|
      invariant all == Scanned(m, p, branches[..i])
    {
      PrefixSnoc(branches, i);
      var got, _ := FetchBranch(m, branches[i], PagesOf(p, branches[i]));
      all := all + got;
    }
    assert branches[..|branches|] == branches;
    commits := Dedup(all);
  }

  /** No collected record is a merge commit; each carries a scanned branch; the URLs are distinct. */
  lemma MemberCommitsClean(m: Member, p: Project)
    ensures forall i :: 0 <= i < |MemberCommits(m, p)| ==>
      !StartsWith(MemberCommits(m, p)[i].title, MergePrefix) && MemberCommits(m, p)[i].branch in Branches(p.listing)
    ensures Distinct(Urls(MemberCommits(m, p)))
  {
    DedupUrls(Scanned(m, p, Branches(p.listing)));
  }

  lemma {:induction false} ScannedHasBranch(m: Member, p: Project, branches: seq<string>, k: nat)
    requires k < |branches|
    ensures forall c :: c in BranchCommits(m, branches[k], PagesOf(p, branches[k])) ==> c in Scanned(m, p, branches)
  {
    if k < |branches| - 1 {
      ScannedHasBranch(m, p, branches[..|branches| - 1], k);
    }
  }

  /**
   * Nothing the member wrote is lost except duplicates: a kept commit on a
   * page the loop reached has its URL among the collected records.
   */
  lemma KeptIsCollected(m: Member, p: Project, k: nat, page: nat, c: RawCommit)
    requires k < |Branches(p.listing)|
    requires var pages := PagesOf(p, Branches(p.listing)[k]);
      1 <= page <= LastPage(pages, 1) && Answer(pages, page).Page? && c in Answer(pages, page).commits
    requires Kept(m, c)
    ensures c.webUrl in Urls(MemberCommits(m, p))
  {
    var bs := Branches(p.listing);
    var pages := PagesOf(p, bs[k]);
    var x := Normalize(c, bs[k]);
    PageCommitsKept(m, bs[k], Answer(pages, page).commits);
    GatheredHas(m, bs[k], pages, LastPage(pages, 1), page, x);
    assert x in BranchCommits(m, bs[k], pages);
    ScannedHasBranch(m, p, bs, k);
    var all := Scanned(m, p, bs);
    assert x in all;
    var i :| 0 <= i < |all| && all[i] == x;
    DedupUrls(all);
  }

  /** `x` is the record of a kept commit on one of the pages 1 to `n` that was read successfully. */
  ghost predicate FromPage(m: Member, branch: string, pages: seq<PageResult>, n: nat, x: Commit) {
    exists page :: 1 <= page <= n && Answer(pages, page).Page? && FromKept(m, branch, Answer(pages, page).commits, x)
  }

  /** Every record the pages up to `n` add comes from a kept commit on one of those pages. */
  lemma {:induction false} GatheredFromKept(m: Member, branch: string, pages: seq<PageResult>, n: nat, x: Commit)
    requires x in Gathered(m, branch, pages, n)
    ensures FromPage(m, branch, pages, n, x)
  {
    var before, added := Gathered(m, branch, pages, n - 1), Added(m, branch, Answer(pages, n));
    assert Gathered(m, branch, pages, n) == before + added;
    if x in before {
      GatheredFromKept(m, branch, pages, n - 1, x);
      var page :| 1 <= page <= n - 1 && Answer(pages, page).Page? && FromKept(m, branch, Answer(pages, page).commits, x);
      assert 1 <= page <= n;
    } else {
      var cs := Answer(pages, n).commits;
      PageCommitsKept(m, branch, cs);
      var i :| 0 <= i < |added| && added[i] == x;
      assert FromKept(m, branch, cs, added[i]);
    }
  }

  /** `x` comes from a kept commit on a page the loop read for one of the branches. */
  ghost predicate FromBranches(m: Member, p: Project, branches: seq<string>, x: Commit) {
    exists k :: 0 <= k < |branches| &&
      FromPage(m, branches[k], PagesOf(p, branches[k]), LastPage(PagesOf(p, branches[k]), 1), x)
  }

  lemma {:induction false} ScannedFromKept(m: Member, p: Project, branches: seq<string>, x: Commit)
    requires x in Scanned(m, p, branches)
    ensures FromBranches(m, p, branches, x)
  {
    var init, b := branches[..|branches| - 1], branches[|branches| - 1];
    if x in Scanned(m, p, init) {
      ScannedFromKept(m, p, init, x);
      var k :| 0 <= k < |init| &&
        FromPage(m, init[k], PagesOf(p, init[k]), LastPage(PagesOf(p, init[k]), 1), x);
      assert branches[k] == init[k];
    } else {
      GatheredFromKept(m, b, PagesOf(p, b), LastPage(PagesOf(p, b), 1), x);
      assert branches[|branches| - 1] == b;
    }
  }

  /**
   * Only the member's own commits are collected: every record is the record
   * of a commit the filter kept (the member is its author and it is not a
   * merge), on a page the loop read for one of the listed branches.
   */
  lemma CollectedIsKept(m: Member, p: Project, x: Commit)
    requires x in MemberCommits(m, p)
    ensures FromBranches(m, p, Branches(p.listing), x)
  {
    var all := Scanned(m, p, Branches(p.listing));
    DedupUrls(all);
    var i :| 0 <= i < |MemberCommits(m, p)| && MemberCommits(m, p)[i] == x;
    ScannedFromKept(m, p, Branches(p.listing), x);
  }
}
