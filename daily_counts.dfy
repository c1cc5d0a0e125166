/**
 * The per-repository and global author counters of the daily report
 * (`repoAuthorCommits` and `totalAuthorCommits` in run-files/gitlab-cli.js).
 */
module DailyCounts {
  import opened Wrappers
  import opened Seqs
  import opened Objects
  import opened Grouping
  import opened DailyCommits

  /** One entry of `repositories`; `project` is `None` when the project lookup failed. */
  datatype Repo = Repo(path: string, project: Option<DailyProject>)

  /** A repository entry that produced commits, with those commits. */
  datatype Fetched = Fetched(path: string, commits: seq<DailyRecord>)

  /** `getTodayCommits` for an entry; an entry without a project contributes nothing. */
  function CommitsOf(r: Repo, localeString: string -> string): seq<DailyRecord> {
    if r.project.None? then [] else TodayCommits(r.project.value, localeString)
  }

  /** The entries with a non-empty commit list, in configured order. */
  function Active(repos: seq<Repo>, localeString: string -> string): (fs: seq<Fetched>)
    ensures |fs| <= |repos|
    ensures forall i :: 0 <= i < |fs| ==> |fs[i].commits| > 0
  {
    if repos == [] then []
    else
      var rest := Active(repos[..|repos| - 1], localeString);
      var r := repos[|repos| - 1];
      var commits := CommitsOf(r, localeString);
      if |commits| > 0 then rest + [Fetched(r.path, commits)] else rest
  }

  /** The author keys of a commit list, in the order the author loop visits them. */
  function GroupKeys(l: seq<DailyRecord>, key: DailyRecord -> string): (ks: seq<string>)
    ensures Distinct(ks)
  {
    FirstSeen(KeysOf(l, key))
  }

  function Paths(fs: seq<Fetched>): (ps: seq<string>)
    ensures |ps| == |fs|
    ensures forall i :: 0 <= i < |fs| ==> ps[i] == fs[i].path
  {
    seq(|fs|, i requires 0 <= i < |fs| => fs[i].path)
  }

  /* ------------------------------------------- the counters, update by update */

  /** The size of each author's group of `l`. */
  function GroupSize(l: seq<DailyRecord>, key: DailyRecord -> string): string -> nat {
    a => |Having(l, key, a)|
  }

  /** `repoAuthorCommits[repo]` after the author loop has visited `j` authors. */
  function CountsPrefix(l: seq<DailyRecord>, key: DailyRecord -> string, j: nat): (d: Dict<nat>)
    requires j <= |GroupKeys(l, key)|
    ensures d.Valid()
  {
    Assigned(GroupKeys(l, key), GroupSize(l, key), j)
  }

  /** `repoAuthorCommits[repo]` for a repository with commits `l`. */
  function CountsOf(l: seq<DailyRecord>, key: DailyRecord -> string): (d: Dict<nat>)
    ensures d.Valid()
  {
    CountsPrefix(l, key, |GroupKeys(l, key)|)
  }

  /** Adds `n` to the total of `a`, a missing total counting as zero. */
  function AddTo(t: Dict<nat>, a: string, n: nat): (r: Dict<nat>)
    requires t.Valid()
    ensures r.Valid()
  {
    Put(t, a, (if a in t.vals then t.vals[a] else 0) + n)
  }

  /** `totalAuthorCommits` after the author loop of a repository with commits `l` has visited `j` authors. */
  function AddGroups(t: Dict<nat>, l: seq<DailyRecord>, key: DailyRecord -> string, j: nat): (r: Dict<nat>)
    requires t.Valid() && j <= |GroupKeys(l, key)|
    ensures r.Valid()
  {
    if j == 0 then t
    else
      var a := GroupKeys(l, key)[j - 1];
      AddTo(AddGroups(t, l, key, j - 1), a, |Having(l, key, a)|)
  }

  /** `repoAuthorCommits` after the repository loop has recorded the entries `fs`. */
  function RepoCounts(fs: seq<Fetched>, key: DailyRecord -> string): (d: Dict<Dict<nat>>)
    ensures d.Valid()
  {
    if fs == [] then Empty()
    else
      var f := fs[|fs| - 1];
      Put(RepoCounts(fs[..|fs| - 1], key), f.path, CountsOf(f.commits, key))
  }

  /** `totalAuthorCommits` after the repository loop has recorded the entries `fs`. */
  function Totals(fs: seq<Fetched>, key: DailyRecord -> string): (d: Dict<nat>)
    ensures d.Valid()
  {
    if fs == [] then Empty()
    else
      var l := fs[|fs| - 1].commits;
      AddGroups(Totals(fs[..|fs| - 1], key), l, key, |GroupKeys(l, key)|)
  }

  /* ------------------------------------------------ what the counters mean */

  /** The last entry with the path: giving a path a fresh counter again discards its earlier counts. */
  function LastWith(fs: seq<Fetched>, p: string): (f: Fetched)
    requires p in Paths(fs)
    ensures f in fs && f.path == p
  {
    if fs[|fs| - 1].path == p then fs[|fs| - 1]
    else
      assert Paths(fs) == Paths(fs[..|fs| - 1]) + [fs[|fs| - 1].path];
      LastWith(fs[..|fs| - 1], p)
  }

  /** All author keys in the order the loops visit them. */
  function AllKeys(fs: seq<Fetched>, key: DailyRecord -> string): seq<string> {
    if fs == [] then [] else AllKeys(fs[..|fs| - 1], key) + GroupKeys(fs[|fs| - 1].commits, key)
  }

  /** The number of the author's commits over all entries. */
  function TotalFor(fs: seq<Fetched>, key: DailyRecord -> string, a: string): nat {
    if fs == [] then 0 else TotalFor(fs[..|fs| - 1], key, a) + |Having(fs[|fs| - 1].commits, key, a)|
  }

  /** `c` maps each author of `l`, in first-seen order, to the size of the author's group. */
  ghost predicate IsCounts(c: Dict<nat>, l: seq<DailyRecord>, key: DailyRecord -> string) {
    && c.keys == GroupKeys(l, key)
    && forall a :: a in c.vals ==> c.vals[a] == |Having(l, key, a)|
  }

  /** `t` maps each author of the entries, in first-seen order, to the author's commits over all entries. */
  ghost predicate IsTotals(t: Dict<nat>, fs: seq<Fetched>, key: DailyRecord -> string) {
    && t.Valid()
    && t.keys == FirstSeen(AllKeys(fs, key))
    && forall a :: a in t.vals ==> t.vals[a] == TotalFor(fs, key, a)
  }

  lemma InGroupKeys(l: seq<DailyRecord>, key: DailyRecord -> string, a: string)
    ensures a in GroupKeys(l, key) <==> a in KeysOf(l, key)
  {
    InFirstSeen(KeysOf(l, key), a);
  }

  lemma InPrefixSnoc(xs: seq<string>, j: nat, b: string)
    requires j < |xs|
    ensures b in xs[..j + 1] <==> b in xs[..j] || b == xs[j]
  {
    PrefixSnoc(xs, j);
  }

  /** The author loop's counts after `j` authors: the first `j` authors with their group sizes. */
  lemma CountsPrefixMeaning(l: seq<DailyRecord>, key: DailyRecord -> string, j: nat)
    requires j <= |GroupKeys(l, key)|
    ensures CountsPrefix(l, key, j).keys == GroupKeys(l, key)[..j]
    ensures forall a :: a in CountsPrefix(l, key, j).vals ==> CountsPrefix(l, key, j).vals[a] == |Having(l, key, a)|
  {
    AssignedMeaning(GroupKeys(l, key), GroupSize(l, key), j);
  }

  /** The per-repository counts list every author once, in first-seen order, with the size of the author's group. */
  lemma CountsOfMeaning(l: seq<DailyRecord>, key: DailyRecord -> string)
    ensures IsCounts(CountsOf(l, key), l, key)
  {
    CountsPrefixMeaning(l, key, |GroupKeys(l, key)|);
    assert GroupKeys(l, key)[..|GroupKeys(l, key)|] == GroupKeys(l, key);
  }

  /** Every commit is counted once: the per-repository counts add up to the number of commits. */
  lemma CountsAddUp(l: seq<DailyRecord>, key: DailyRecord -> string)
    ensures SizeSum(l, key, CountsOf(l, key).keys) == |l|
  {
    CountsOfMeaning(l, key);
    GroupSizesSum(l, key);
  }

  lemma LastWithSnoc(done: seq<Fetched>, f: Fetched, p: string)
    requires p in Paths(done + [f])
    ensures LastWith(done + [f], p) == if p == f.path then f else LastWith(done, p)
  {
    assert (done + [f])[..|done|] == done;
    if p != f.path {
      assert Paths(done + [f]) == Paths(done) + [f.path];
    }
  }

  /** Every key of `d` is a path of the entries and holds the counts of the last entry with that path. */
  ghost predicate HoldsLast(d: Dict<Dict<nat>>, fs: seq<Fetched>, key: DailyRecord -> string) {
    forall p :: p in d.vals ==> p in Paths(fs) && d.vals[p] == CountsOf(LastWith(fs, p).commits, key)
  }

  lemma HoldsLastSnoc(d: Dict<Dict<nat>>, done: seq<Fetched>, f: Fetched, key: DailyRecord -> string)
    requires d.Valid() && HoldsLast(d, done, key)
    ensures HoldsLast(Put(d, f.path, CountsOf(f.commits, key)), done + [f], key)
  {
    var d' := Put(d, f.path, CountsOf(f.commits, key));
    var all := done + [f];
    PathsSnoc(all);
    assert all[..|all| - 1] == done;
    forall p | p in d'.vals
      ensures p in Paths(all) && d'.vals[p] == CountsOf(LastWith(all, p).commits, key)
    {
      if p == f.path {
        assert LastWith(all, p) == f;
      } else {
        assert p in d.vals && d'.vals[p] == d.vals[p];
        LastWithSnoc(done, f, p);
      }
    }
  }

  /** `repoAuthorCommits` has one key per repository path, in first-seen order. */
  lemma {:induction false} RepoCountsKeys(fs: seq<Fetched>, key: DailyRecord -> string)
    ensures RepoCounts(fs, key).keys == FirstSeen(Paths(fs))
  {
    if fs != [] {
      var done, f := fs[..|fs| - 1], fs[|fs| - 1];
      assert RepoCounts(fs, key) == Put(RepoCounts(done, key), f.path, CountsOf(f.commits, key));
      RepoCountsKeys(done, key);
      PutFirstSeen(RepoCounts(done, key), Paths(done), f.path, CountsOf(f.commits, key));
      PathsSnoc(fs);
    }
  }

  lemma PathsSnoc(fs: seq<Fetched>)
    requires fs != []
    ensures Paths(fs) == Paths(fs[..|fs| - 1]) + [fs[|fs| - 1].path]
  {
  }

  /** Each path of `repoAuthorCommits` holds the counts of the last entry with that path. */
  lemma {:induction false} RepoCountsValues(fs: seq<Fetched>, key: DailyRecord -> string)
    ensures HoldsLast(RepoCounts(fs, key), fs, key)
  {
    if fs != [] {
      var done, f := fs[..|fs| - 1], fs[|fs| - 1];
      assert fs == done + [f];
      RepoCountsValues(done, key);
      HoldsLastSnoc(RepoCounts(done, key), done, f, key);
    }
  }

  /** An author of none of the lists has no commits in them. */
  lemma {:induction false} TotalForAbsent(fs: seq<Fetched>, key: DailyRecord -> string, a: string)
    requires a !in AllKeys(fs, key)
    ensures TotalFor(fs, key, a) == 0
  {
    if fs != [] {
      var l := fs[|fs| - 1].commits;
      TotalForAbsent(fs[..|fs| - 1], key, a);
      InGroupKeys(l, key, a);
      HavingEmpty(l, key, a);
    }
  }

  /** The totals while the author loop of the next entry, with commits `l`, has visited `j` authors. */
  ghost predicate TotalsUpTo(t: Dict<nat>, done: seq<Fetched>, l: seq<DailyRecord>, key: DailyRecord -> string, j: nat)
    requires j <= |GroupKeys(l, key)|
  {
    && t.Valid()
    && t.keys == FirstSeen(AllKeys(done, key) + GroupKeys(l, key)[..j])
    && forall a :: a in t.vals ==>
      t.vals[a] == TotalFor(done, key, a) + (if a in GroupKeys(l, key)[..j] then |Having(l, key, a)| else 0)
  }

  lemma TotalsStepKeys(t: Dict<nat>, done: seq<Fetched>, l: seq<DailyRecord>, key: DailyRecord -> string, j: nat)
    requires j < |GroupKeys(l, key)| && TotalsUpTo(t, done, l, key, j)
    ensures AddTo(t, GroupKeys(l, key)[j], |Having(l, key, GroupKeys(l, key)[j])|).keys == FirstSeen(AllKeys(done, key) + GroupKeys(l, key)[..j + 1])
    ensures GroupKeys(l, key)[j] in t.vals <==> GroupKeys(l, key)[j] in AllKeys(done, key) + GroupKeys(l, key)[..j]
  {
    var gk := GroupKeys(l, key);
    var before := AllKeys(done, key) + gk[..j];
    PrefixSnoc(gk, j);
    assert before + [gk[j]] == AllKeys(done, key) + gk[..j + 1];
    FirstSeenSnoc(before, gk[j]);
    InFirstSeen(before, gk[j]);
  }

  /** One round of the author loop keeps `TotalsUpTo` for one more author. */
  lemma TotalsStep(t: Dict<nat>, done: seq<Fetched>, l: seq<DailyRecord>, key: DailyRecord -> string, j: nat)
    requires j < |GroupKeys(l, key)| && TotalsUpTo(t, done, l, key, j)
    ensures TotalsUpTo(AddTo(t, GroupKeys(l, key)[j], |Having(l, key, GroupKeys(l, key)[j])|), done, l, key, j + 1)
  {
    var gk := GroupKeys(l, key);
    var a := gk[j];
    var n := |Having(l, key, a)|;
    TotalsStepKeys(t, done, l, key, j);
    assert a !in gk[..j];
    if a !in t.vals {
      TotalForAbsent(done, key, a);
    }
    var r := AddTo(t, a, n);
    forall b | b in r.vals
      ensures r.vals[b] == TotalFor(done, key, b) + (if b in gk[..j + 1] then |Having(l, key, b)| else 0)
    {
      InPrefixSnoc(gk, j, b);
    }
  }

  lemma AddGroupsStep(t: Dict<nat>, done: seq<Fetched>, l: seq<DailyRecord>, key: DailyRecord -> string, j: nat)
    requires t.Valid() && j < |GroupKeys(l, key)| && TotalsUpTo(AddGroups(t, l, key, j), done, l, key, j)
    ensures TotalsUpTo(AddGroups(t, l, key, j + 1), done, l, key, j + 1)
  {
    TotalsStep(AddGroups(t, l, key, j), done, l, key, j);
  }

  lemma TotalsStart(t: Dict<nat>, done: seq<Fetched>, l: seq<DailyRecord>, key: DailyRecord -> string)
    requires IsTotals(t, done, key)
    ensures TotalsUpTo(t, done, l, key, 0)
  {
    assert AllKeys(done, key) + GroupKeys(l, key)[..0] == AllKeys(done, key);
  }

  lemma {:induction false} AddGroupsUpTo(t: Dict<nat>, done: seq<Fetched>, l: seq<DailyRecord>, key: DailyRecord -> string, j: nat)
    requires IsTotals(t, done, key) && j <= |GroupKeys(l, key)|
    ensures TotalsUpTo(AddGroups(t, l, key, j), done, l, key, j)
  {
    if j == 0 {
      assert AddGroups(t, l, key, 0) == t;
      TotalsStart(t, done, l, key);
    } else {
      var i := j - 1;
      AddGroupsUpTo(t, done, l, key, i);
      AddGroupsStep(t, done, l, key, i);
      assert i + 1 == j;
    }
  }

  lemma TotalsUpToEnd(t: Dict<nat>, done: seq<Fetched>, f: Fetched, key: DailyRecord -> string)
    requires TotalsUpTo(t, done, f.commits, key, |GroupKeys(f.commits, key)|)
    ensures IsTotals(t, done + [f], key)
  {
    var l := f.commits;
    var gk := GroupKeys(l, key);
    assert gk[..|gk|] == gk;
    var all := done + [f];
    assert all[..|done|] == done;
    assert AllKeys(all, key) == AllKeys(done, key) + gk;
    forall a | a in t.vals ensures t.vals[a] == TotalFor(all, key, a) {
      if a !in gk {
        InGroupKeys(l, key, a);
        HavingEmpty(l, key, a);
      }
    }
  }

  /**
   * `totalAuthorCommits` has one key per author, in the order the loops first
   * meet the author, holding the author's commits summed over all entries.
   */
  lemma {:induction false} TotalsMeaning(fs: seq<Fetched>, key: DailyRecord -> string)
    ensures IsTotals(Totals(fs, key), fs, key)
  {
    if fs != [] {
      var done, f := fs[..|fs| - 1], fs[|fs| - 1];
      assert fs == done + [f];
      TotalsMeaning(done, key);
      AddGroupsUpTo(Totals(done, key), done, f.commits, key, |GroupKeys(f.commits, key)|);
      TotalsUpToEnd(Totals(fs, key), done, f, key);
    }
  }

  /* -------------------------------------------------------------- methods */

  /** The counter updates for one repository with commits (lines 158-175). */
  method Record(repoCounts: Dict<Dict<nat>>, totals: Dict<nat>, f: Fetched, key: DailyRecord -> string)
    returns (repoCounts': Dict<Dict<nat>>, totals': Dict<nat>)
    requires repoCounts.Valid() && totals.Valid()
    ensures repoCounts' == Put(repoCounts, f.path, CountsOf(f.commits, key))
    ensures totals' == AddGroups(totals, f.commits, key, |GroupKeys(f.commits, key)|)
  {
    var l := f.commits;
    repoCounts' := Put(repoCounts, f.path, Empty());
    var counts: Dict<nat> := Empty();
    var groups := GroupBy(l, key);
    totals' := totals;
    for j := 0 to |groups.keys|
      invariant counts == CountsPrefix(l, key, j)
      invariant totals' == AddGroups(totals, l, key, j)
    {
      var author := groups.keys[j];
      var n := |groups.vals[author]|;
      assert author == GroupKeys(l, key)[j] && n == |Having(l, key, author)|;
      counts := Put(counts, author, n);
      totals' := AddAuthor(totals', author, n);
    }
    PutPut(repoCounts, f.path, Empty(), counts);
    repoCounts' := Put(repoCounts', f.path, counts);
  }

  /** Adds `n` to the total of `a`, first setting a missing total to zero. */
  method AddAuthor(t: Dict<nat>, a: string, n: nat) returns (t': Dict<nat>)
    requires t.Valid()
    ensures t' == AddTo(t, a, n)
  {
    t' := t;
    if a !in t'.vals {
      t' := Put(t', a, 0);
      PutPut(t, a, 0, n);
    }
    t' := Put(t', a, t'.vals[a] + n);
  }

  /** The repository loop of `main` (lines 151-177). */
  method Count(repos: seq<Repo>, localeString: string -> string, key: DailyRecord -> string) returns (repoCounts: Dict<Dict<nat>>, totals: Dict<nat>)
    ensures repoCounts == RepoCounts(Active(repos, localeString), key)
    ensures totals == Totals(Active(repos, localeString), key)
  {
    repoCounts, totals := Empty(), Empty();
    for i := 0 to |repos|
      invariant repoCounts == RepoCounts(Active(repos[..i], localeString), key)
      invariant totals == Totals(Active(repos[..i], localeString), key)
    {
      PrefixSnoc(repos, i);
      var repo := repos[i];
      if repo.project.None? {
        continue;
      }
      var commits := TodayCommits(repo.project.value, localeString);
      if |commits| > 0 {
        ghost var done := Active(repos[..i], localeString);
        assert (done + [Fetched(repo.path, commits)])[..|done|] == done;
        repoCounts, totals := Record(repoCounts, totals, Fetched(repo.path, commits), key);
      }
    }
    assert repos[..|repos|] == repos;
  }
}
