# Commit reports for GitLab teams, modelled in Dafny

The repository holds Node scripts that turn GitLab commit listings into
markdown reports. This project models their data-shaping core and proves
what those reports contain.

- **Member collection** (gitlab-author-commits.js).
  - Collects one team member's commits of the last two weeks. It scans every branch page by page, keeps the member's non-merge commits, tags each with its branch and removes duplicate URLs.
  - Builds the team report: the member entries, the team total, the sort by descending count, the summary and the detail markdown.
- **Daily Git report** (run-files/gitlab-cli.js).
  - Shapes each of the day's non-merge commits with its branches.
  - Groups the commits by an author key. The script reads the key from the record's `author` field, which the record of a commit whose refs lookup was not ok lacks, so that commit is filed under `undefined`. The counters and the report are proved for any key function. The script is the instance `DailyCommits.AuthorAsWritten`; `DailyCommits.Author`, the commit's author name for both record shapes, is the intended instance.
  - Keeps per-repository and global per-author counters.
  - Renders the "commits per developer" summary and a detail section per repository.
- **Two-week report** (gitlab-two-weeks.js). The same filter, grouping and rendering pattern, with dates.
- **Combined daily report** (report-daily.js).
  - Takes the Git and Jira report texts.
  - Hoists the Git summary section to the top.
  - Per team, extracts the first heading-delimited section of each report, strips its heading line and assembles the team blocks.

The server, the file system and the clock are inputs:
- a branch-listing answer;
- the answers to successive page requests;
- a refs answer per commit id;
- the date strings;
- a `toLocaleString` rendering function, for the daily and two-week scripts;
- a rank function standing for the `ko-KR` collation.

JavaScript objects used as dictionaries are modelled as `Objects.Dict`: a map plus its keys in insertion order, which is the order `for … in` and `Object.entries` visit. A `Set` is modelled by `Seqs.FirstSeen`. `Array.prototype.sort` is stable, and is modelled by `Sorting.SortBy`.

The regular expressions of report-daily.js are written out as string scans in `ReportDaily`.
- **Section pattern.** In `## .*M[\s\S]*?(?=\n## |$)`:
  - the match begins at the leftmost `## ` whose line contains the marker `M`; the pattern has no line anchor, so that `## ` may sit inside a `### ` line;
  - the greedy `.*` goes to the last `M` on that line;
  - the lazy tail runs to the first `\n## ` or to the end of the text.
- **Anchoring.** `ReportDaily.TeamSection` and everything built on it (`TeamBlock`, `Combined`, `CombineReports` and the loop methods) take an `anchored` flag. With `anchored` false the section is found as the script finds it. With `anchored` true only a `## ` at the start of a line begins a section, which is the corrected pattern of the "## Findings" table. Every property of the combined report is proved for both values.
- **Heading strip.** `^## .*\n`, with no `m` flag, drops the first line only when the text begins with `## ` and that line ends in `\n`.

Each loop of the scripts is a `method` whose `ensures` ties its result to a specification function. The lemmas prove what those functions mean.

## Model

| member | source | states |
|---|---|---|
| AuthorCommits.Branches | gitlab-author-commits.js:60-76 | the listed branch names in order, or exactly `main`, `master`, `develop` when the listing fails |
| AuthorCommits.LocalPart | gitlab-author-commits.js:116 | the e-mail up to (excluding) its first `@`, containing no `@`; `""` for a missing e-mail |
| AuthorCommits.RemoveFirstAt | gitlab-author-commits.js:118 | only the first `@` of the member id is removed; an id without `@` is unchanged |
| AuthorCommits.PageCommits | gitlab-author-commits.js:114-128 | a page yields at most as many records as it has commits, each tagged with the scanned branch and none with a `Merge branch` title |
| AuthorCommits.PageCommitsKept | gitlab-author-commits.js:114-128 | a commit yields a record exactly when (local part equals the id without `@` OR name equals the member name) and it is not a merge commit |
| AuthorCommits.LastPage | gitlab-author-commits.js:102-136 | the first page from page 1 on that ends the loop: a failed request (non-ok or thrown) or fewer than 100 commits; every earlier page is full |
| AuthorCommits.FetchBranch | gitlab-author-commits.js:88-143 | the loop requests pages 1, 2, … up to the last page exactly, and returns the filtered records of those pages in page then in-page order |
| AuthorCommits.StopsOnlyAtLast | gitlab-author-commits.js:102-136 | before the last page the loop never stops, and it stops at the last page |
| AuthorCommits.GatheredHas | gitlab-author-commits.js:130 | a record any requested page adds stays in the accumulated list |
| AuthorCommits.Scanned | gitlab-author-commits.js:87-144 | every accumulated record carries one of the scanned branches and is not a merge commit |
| AuthorCommits.FindByUrl | gitlab-author-commits.js:148 | the lookup gives nothing exactly when no record has the URL, else the first record with it |
| AuthorCommits.ResolveFound | gitlab-author-commits.js:147-149 | resolving URLs that all occur gives one record per URL, each the first with that URL |
| AuthorCommits.DedupKeepsFirst | gitlab-author-commits.js:147-149 | the deduplicated URLs are the input URLs in first-seen order, and each kept record is the first one with its URL |
| AuthorCommits.DedupUrls | gitlab-author-commits.js:147-149 | after dedup the URLs are distinct, every input URL is present, and every kept record is an input record |
| AuthorCommits.DedupOrder | gitlab-author-commits.js:147-149 | kept records appear in the order their URLs first occur in the input |
| AuthorCommits.DedupIdempotent | gitlab-author-commits.js:147-149 | deduplicating twice equals deduplicating once |
| AuthorCommits.TwoWeeksCommits | gitlab-author-commits.js:79-152 | the collector returns the dedup of all branches' records in branch order |
| AuthorCommits.MemberCommitsClean | gitlab-author-commits.js:120-149 | no collected record is a merge commit, each carries a listed branch, and the URLs are distinct |
| AuthorCommits.CollectedIsKept | gitlab-author-commits.js:87-149 | every collected record is the record of a commit the filter kept (the member is its author and it is not a merge commit), found on a page the loop read successfully for one of the listed branches |
| AuthorCommits.ScannedFromKept | gitlab-author-commits.js:87-130 | every record of the branch scan comes from a kept commit on a page read for one of the scanned branches |
| AuthorCommits.GatheredFromKept | gitlab-author-commits.js:102-130 | every record the pages up to `n` add comes from a kept commit on one of those pages that was read successfully |
| AuthorCommits.ScannedHasBranch | gitlab-author-commits.js:87-130 | every record of any scanned branch is in the accumulated list |
| AuthorCommits.KeptIsCollected | gitlab-author-commits.js:114-149 | a kept commit on any page the loop reached has its URL among the collected records |
| AuthorReport.ReportOf | gitlab-author-commits.js:176-196 | a member's entry holds `name \|\| id`, the id, the collected commits and their number |
| AuthorReport.TotalPositive | gitlab-author-commits.js:180-182 | the team total is positive exactly when some member has commits (`hasCommits`) |
| AuthorReport.CollectReports | gitlab-author-commits.js:170-197 | one entry per member in configured order; the total is the sum of the counts; `hasCommits` iff some count is positive |
| AuthorReport.AddMember | gitlab-author-commits.js:175-196 | one round adds the member's count to the total and sets `hasCommits` when it is positive |
| AuthorReport.Ranked | gitlab-author-commits.js:200 | the sorted entries are in non-increasing count order and as many as before |
| AuthorReport.RankedIsStable | gitlab-author-commits.js:200 | the sort is a permutation, and entries with equal counts keep their configured order |
| AuthorReport.RankedIsUnique | gitlab-author-commits.js:200 | any non-increasing order that keeps ties in configured order is the sort's result |
| AuthorReport.RenderTeam | gitlab-author-commits.js:164-222 | the team document is the heading, then the summary, then the details |
| AuthorReport.RenderSummary | gitlab-author-commits.js:203-209 | the summary is the total line and one `  - member (id): N개` line per entry in ranked order |
| AuthorReport.RenderDetails | gitlab-author-commits.js:212-222 | the detail part has a block for exactly the members with count > 0, in ranked order |
| AuthorReport.RenderDetail | gitlab-author-commits.js:214-221 | a block is `#### member (id) - N개`, one `- title` line per commit in collection order, and a blank line |
| AuthorReport.LastSegment | gitlab-author-commits.js:227 | the last path segment is the suffix after the last `/` and contains no `/` |
| AuthorReport.Run | gitlab-author-commits.js:160-243 | the written files are those of `ReportFiles`: one per team in team order |
| AuthorReport.TeamFileWritten | gitlab-author-commits.js:161-168 | a team's file is written exactly when it has members, a project and a positive total |
| AuthorReport.SummaryListsEveryMember | gitlab-author-commits.js:206-208 | every member's entry is in the ranking, and the summary has one line per member |
| GitLab.WithoutMerges | run-files/gitlab-cli.js:73 | the filter keeps exactly the commits whose title does not start with `Merge branch` |
| DailyCommits.Username | run-files/gitlab-cli.js:110 | the username is the e-mail unless it is missing or empty, else the author name |
| DailyCommits.Enrich | run-files/gitlab-cli.js:89-114 | a non-ok refs answer gives the raw commit with `branches: ['unknown']`; an ok answer gives the shaped record with author name, username and the ref names |
| DailyCommits.TodayCommits | run-files/gitlab-cli.js:65-122 | a failed listing or any thrown refs lookup gives `[]`; otherwise one enriched record per non-merge commit in listing order, none titled `Merge branch` |
| DailyCommits.AuthorAsWritten | run-files/gitlab-cli.js:89-130 | the key the script reads: `undefined` for a record whose refs lookup was not ok, the author name of a shaped record |
| DailyCommits.Author | run-files/gitlab-cli.js:130 | the group key of a record is its commit's author name, for both record shapes |
| DailyCommits.AuthorOfEnriched | run-files/gitlab-cli.js:89-114 | every enriched commit is keyed by its author name |
| DailyCommits.AsWrittenLosesAuthor | run-files/gitlab-cli.js:89-94 | as written, a commit whose refs lookup is not ok is grouped under `undefined`, not under its author |
| Grouping.GroupBy | run-files/gitlab-cli.js:126-137 | the object's keys are the authors in first-seen order, and each key's array is the commits with that author in input order |
| Grouping.GroupStep | run-files/gitlab-cli.js:129-134 | pushing one more commit keeps the grouping invariant |
| Grouping.PushInTwoSteps | run-files/gitlab-cli.js:130-133 | creating a missing array and then pushing equals pushing onto the existing or new group |
| Grouping.HavingMembers | run-files/gitlab-cli.js:129-134 | a group holds only input records with its key |
| Grouping.HavingEmpty | run-files/gitlab-cli.js:129-134 | a group is empty exactly when no record has its key |
| Grouping.InOwnGroup | run-files/gitlab-cli.js:129-134 | every record is in the group of its key and in no other group |
| Grouping.GroupSizesSum | run-files/gitlab-cli.js:126-137 | the group sizes add up to the number of records |
| DailyCounts.Active | run-files/gitlab-cli.js:151-156 | only entries with a non-empty commit list are counted, in configured order |
| DailyCounts.CountsPrefixMeaning | run-files/gitlab-cli.js:164-168 | for any author key, after `j` keys `repoAuthorCommits[repo]` maps the first `j` keys in first-seen order to their group sizes |
| DailyCounts.CountsOfMeaning | run-files/gitlab-cli.js:158-168 | for any author key, a repository's counter maps each key, in first-seen order, to the size of its group |
| DailyCounts.CountsAddUp | run-files/gitlab-cli.js:158-168 | a repository's counts add up to its number of commits |
| DailyCounts.RepoCountsKeys | run-files/gitlab-cli.js:158 | `repoAuthorCommits` has the counted paths as keys, in first-seen order |
| DailyCounts.RepoCountsValues | run-files/gitlab-cli.js:158-168 | each path maps to the counts of the last entry with that path |
| DailyCounts.TotalForAbsent | run-files/gitlab-cli.js:171-174 | an author absent from every counted repository has a total of zero |
| DailyCounts.TotalsMeaning | run-files/gitlab-cli.js:164-175 | for any author key, `totalAuthorCommits` maps each key, in first-seen order, to the sum of its group sizes over the counted repositories |
| DailyCounts.Record | run-files/gitlab-cli.js:158-175 | for the given author key, one repository's pass sets its counter and adds each key's group size to the totals |
| DailyCounts.AddAuthor | run-files/gitlab-cli.js:171-174 | adds `n` to the author's total, a missing total starting from zero |
| DailyCounts.Count | run-files/gitlab-cli.js:151-177 | for the given author key (the script's is `AuthorAsWritten`), the repository loop leaves the two counters equal to `RepoCounts` and `Totals` of the entries with commits |
| DailyReport.Entries | run-files/gitlab-cli.js:187 | the entries of a counter are its `[author, count]` pairs in key order |
| DailyReport.Report | run-files/gitlab-cli.js:143-225 | the report begins with `# TODAY 커밋 내역` and `## 팀별 개발자 커밋 수`, followed by the summary and then the details, written to `./daily-git/일일보고서용-Git-TODAY.md`; the counts and author blocks use the given author key, `AuthorAsWritten` for the script |
| DailyReport.RenderSummary | run-files/gitlab-cli.js:182-195 | one `### repo` block per counter key in key order, with its sorted stat lines joined by `\n` and a blank line |
| DailyReport.RenderRepoSummary | run-files/gitlab-cli.js:183-194 | one repository's summary block: `### repo`, its sorted stat lines and a blank line |
| DailyReport.RenderDetails | run-files/gitlab-cli.js:198-220 | one detail section per configured entry with commits, in configured order, its authors grouped by the given key |
| DailyReport.RenderRepoDetail | run-files/gitlab-cli.js:203-218 | `## repo`, then a block per key of the given author key in first-seen order |
| DailyReport.RenderAuthorDetail | run-files/gitlab-cli.js:211-217 | `### author (N개 커밋)`, one `- title ` line per commit with the trailing space, and a blank line |
| DailyReport.ActivePaths | run-files/gitlab-cli.js:156-203 | a path has a detail section exactly when some configured entry with that path produced commits |
| DailyReport.SummaryHasRepo | run-files/gitlab-cli.js:156-182 | a path has a summary block exactly when some configured entry with that path produced commits |
| DailyReport.SummaryEntries | run-files/gitlab-cli.js:184-192 | a repository's stat entries are sorted by the collation rank and are a permutation of the counter's entries; equal ranks keep key order; each entry pairs an author with the author's group size |
| DailyReport.DetailLinesCount | run-files/gitlab-cli.js:207-217 | the author blocks of a section hold one title line per commit, no more and no fewer |
| DailyReport.SingleRecord | run-files/gitlab-cli.js:158-218 | a repository with one commit has one counter key, counted once, and one author block |
| DailyReport.AsWrittenPrintsUndefined | run-files/gitlab-cli.js:89-217 | as written, a commit whose refs lookup was not ok is counted and printed under `undefined`; with the intended key it is counted and printed under its author name |
| TwoWeeks.TwoWeeksRows | gitlab-two-weeks.js:36-71 | a failed listing gives `[]`; otherwise one `{title, author, created_at}` row per non-merge commit in listing order |
| TwoWeeks.RowsAreKeptCommits | gitlab-two-weeks.js:60-66 | a row is produced exactly for a listed commit that is not a merge commit |
| TwoWeeks.RepoSection | gitlab-two-weeks.js:86-87 | a repository's section is non-empty exactly when it has rows |
| TwoWeeks.Report | gitlab-two-weeks.js:73-112 | the output starts with the `# since ~ today 커밋 내역` header, then one section per repository with rows, in configured order, written to `./daily-git/2주간보고서용-Git-today.md` |
| TwoWeeks.RenderRepo | gitlab-two-weeks.js:87-105 | `## repo`, then a block per author in first-seen order |
| TwoWeeks.RenderAuthor | gitlab-two-weeks.js:99-104 | `### author`, one `- title (created_at)` line per commit in group order, and a blank line |
| TwoWeeks.BlockLinesCount | gitlab-two-weeks.js:90-104 | the author blocks of a repository hold one line per row |
| ReportDaily.SectionEnd | report-daily.js:47 | the lazy section body ends at the first `\n## ` at or after its start, or at the end of the text |
| ReportDaily.LastMarker | report-daily.js:61 | the greedy `.*` stops at the last occurrence of the marker within the range |
| ReportDaily.HeadingMatchIff | report-daily.js:61 | the pattern matches at a `## ` exactly when the marker occurs later on the same line |
| ReportDaily.FirstMatch | report-daily.js:61-62 | the leftmost position where the pattern matches, and no match before it; none when no position matches |
| ReportDaily.TeamSection | report-daily.js:61-68 | the lookup yields a section exactly when the pattern matches somewhere (at a line start, when anchored), and the section starts with `## ` |
| ReportDaily.HeadingIsFound | report-daily.js:61-67 | a heading (at a line start, when anchored) whose line contains the marker anywhere is found, and nothing after it is taken first, so a team id `E20` also finds the `E201` heading |
| ReportDaily.SummaryMatch | report-daily.js:47-48 | the first occurrence of `## 팀별 개발자 커밋 수`, running to the next `\n## ` or to the end |
| ReportDaily.SummarySection | report-daily.js:47-49 | the summary section is empty exactly when the Git report has no summary heading |
| ReportDaily.StripHeading | report-daily.js:75 | the first line is removed exactly when the text starts with `## ` and that line ends in `\n` |
| ReportDaily.JiraPart | report-daily.js:74-77 | the Jira subsection is present exactly when the Jira section was found |
| ReportDaily.GitPart | report-daily.js:80-87 | the Git subsection is present exactly when the section was found and its stripped, trimmed body is longer than two characters |
| ReportDaily.TeamBlock | report-daily.js:61-89 | for either anchoring, a team block is emitted exactly when its Jira section or its Git section was found |
| ReportDaily.CombineReports | report-daily.js:24-96 | the written text is the trimmed concatenation of the summary part and the team blocks, a function of the two texts and the team list alone, written to `daily-report/일일보고서-today.md`; the script is the instance with `anchored` false |
| ReportDaily.AppendTeamBlocks | report-daily.js:59-90 | the team loop appends each team's block in team order, for either anchoring |
| ReportDaily.RenderTeamBlock | report-daily.js:59-89 | one round of the team loop computes the team's block, for either anchoring |
| ReportDaily.RenderJira | report-daily.js:74-77 | `### Jira 완료된 이슈` and the trimmed section without its heading, when found |
| ReportDaily.RenderGit | report-daily.js:80-87 | `### Git 커밋 내역` and the body, only when it is longer than two characters |
| ReportDaily.SummaryFirst | report-daily.js:52-57 | for either anchoring, a present summary section, followed by a blank line, comes before every team block |
| ReportDaily.BlocksInTeamOrder | report-daily.js:59-90 | for either anchoring, the blocks of any first `i` teams precede those of the remaining teams |
| ReportDaily.JiraBeforeGit | report-daily.js:74-87 | for either anchoring, inside a block the Jira part precedes the Git part |
| ReportDaily.ReadsDailyGitReport | report-daily.js:37 | the Git report read is the file the daily Git report writes for the same day |
| ReportDaily.DailyGitReportHasSummary | report-daily.js:47-49 | a daily Git report always yields a non-empty summary section |
| ReportDaily.AsWrittenMatch | report-daily.js:61 | as written, on the example the match starts inside the summary line `### P` |
| ReportDaily.AnchoredMatch | report-daily.js:61 | line-anchored, on the example the match is the detail section `## P` |
| ReportDaily.AsWrittenTakesStatLine | report-daily.js:61-67 | as written, a team block takes the summary's stat line; line-anchored, it takes the commit line |
| Text.LineEnd | report-daily.js:61 | the first line terminator at or after a position: what `.` cannot cross |
| Text.FirstOccurrence | report-daily.js:47-48 | the first occurrence of a string at or after a position, and none before it |
| Text.TrimIsInfix | report-daily.js:83 | the trimmed text is the infix left after removing white space at both ends, and it neither starts nor ends with white space |
| Text.TrimEmpty | report-daily.js:85 | trimming gives `""` exactly when the text is all white space |
| Text.NatToStringRoundTrip | gitlab-author-commits.js:204 | a count interpolated into the text reads back as the same number |
| Text.ConcatAppend | report-daily.js:59-90 | appending two runs of text pieces equals appending their concatenations |
| Seqs.FirstSeen | gitlab-author-commits.js:147 | a `Set` holds each value once, and exactly the input values |
| Seqs.FirstSeenOrder | gitlab-author-commits.js:147 | the set iterates its values in the order of their first occurrence |
| Seqs.FirstSeenOfDistinct | gitlab-author-commits.js:147 | a set of already distinct values keeps their order |
| Seqs.FirstSeenAppend | run-files/gitlab-cli.js:164-174 | the key order after two runs of insertions depends only on the first run's key order |
| Seqs.FirstIndex | gitlab-author-commits.js:148 | the index of the first occurrence of a value |
| Sorting.SortBy | gitlab-author-commits.js:200 | the sorted sequence is ordered by the key and as long as its input |
| Sorting.SortPermutes | gitlab-author-commits.js:200 | sorting is a permutation |
| Sorting.SortIsStable | gitlab-author-commits.js:200 | elements with equal keys keep their input order |
| Sorting.StableSortIsUnique | gitlab-author-commits.js:200 | two key-sorted orders with the same equal-key subsequences are equal |
| Objects.Put | run-files/gitlab-cli.js:168 | assignment updates the value and appends a new key at the end of the key order |
| Objects.PutPut | run-files/gitlab-cli.js:131-133 | a second assignment to the same key overrides the first and keeps the key order |
| Objects.AssignedMeaning | run-files/gitlab-cli.js:164-168 | assigning distinct keys in turn gives those keys in order, each with its assigned value |

## Left out

- Connecting to GitLab. HTTP requests, `getProjectId`, JSON decoding, `dotenv` / `process.env` parsing (member lists, `TEAM_IDS`, `REPOSITORIES`, directory and file-name overrides) and `process.exit` are not modelled. Server answers are inputs, and a failed project lookup is an entry with no project. The environment defaults of report-daily.js are the constants in `ReportDaily`.
- File access. `fs.access`, `mkdir`, `readFile` and `writeFile` are not modelled: a written file is its path and content, and a missing input report is read as `""`.
- Running the other scripts. `child_process.exec` and the `Promise.all` fan-out are not modelled. The refs lookups are a sequential map, and any thrown lookup rejects the whole day's list, as `Promise.all` does.
- Dates and locales. Dates are opaque strings (`new Date`, `setDate(-14)`, `toISOString`). `toLocaleString` is a parameter of the daily and two-week scripts. `commit_date` is left out of the shaped record because no output reads it. The `ko-KR` `localeCompare` collation is a rank function parameter.
- Page limits in the daily script. The daily script requests only page 1 with 100 per page; the model takes whatever list that request answers.
- The second network pass. `main` of run-files/gitlab-cli.js fetches the same data a second time for the detail sections. The model uses one answer per repository for both passes.
- Printing the global totals: `totalAuthorCommits` is computed, and its meaning is proved, but the script never prints it.
- Object keys. The model keeps keys in insertion order and treats every key as an own, initially absent key. JavaScript puts integer-like keys (an author named `"42"`) first. A key that names an `Object.prototype` member misbehaves: for an author named `constructor` or `toString` the guard at run-files/gitlab-cli.js:130 (and gitlab-two-weeks.js:92) sees the inherited function, so `push` at run-files/gitlab-cli.js:133 (gitlab-two-weeks.js:95) throws a `TypeError`, and `+=` at run-files/gitlab-cli.js:171-174 concatenates onto the function's source text; `__proto__` misbehaves as well. None of this is modelled.
- String lengths are counted in characters, where JavaScript counts UTF-16 code units. The difference matters only for the `length > 2` guard on text outside the Basic Multilingual Plane.
- ReportDaily.TeamSection: team ids and repository prefixes are treated as literal markers. The script interpolates them unescaped into a `RegExp`. This is the same for the default values: escaping `/` as `\/` changes nothing. A value containing regular-expression metacharacters is not modelled.
- AuthorCommits.TwoWeeksCommits, AuthorReport.CollectReports: one `Project` value answers every member of a team. The script requests the branch list and the commit pages again for each member (gitlab-author-commits.js:79-143, 178), so a server that answers differently for different members (a listing that fails for one member only) is not modelled.
- AuthorCommits.Normalize: keeps the raw `created_at` string, where gitlab-author-commits.js:125 stores its `toLocaleString()` rendering. No output reads that field: the only line that would print it (:217) is commented out.
- AuthorCommits.IsAuthor: a commit's author name is always present. In the script a commit without `author_name` and a member without a name would compare `undefined` with `undefined` at gitlab-author-commits.js:119 and match; GitLab always sends the name, so this case is not modelled.
- Pages past the recorded answers: a request beyond them is answered with an empty page, which ends the loop.
- Context files: jira-cli.js, run-files/get-issue-details.js and run-files/commit-info.js are not part of this model. They only fetch data and print it.

## Findings

| source | as written | input that shows it | evidently intended | confidence | as-written member | corrected member |
|---|---|---|---|---|---|---|
| report-daily.js:61,67 | The team pattern `## .*M…` has no line anchor. It matches the `## ` inside the summary line `### M`, which precedes the `## M` detail section in the daily Git report (run-files/gitlab-cli.js:183, 204). | Git report `"### P\n- a\n\n## P\n- t"` with marker `P`: the block body is `- a` (a summary stat line) | the block takes the detail section `## P` and its commit line `- t` | not executed | ReportDaily.AsWrittenTakesStatLine | ReportDaily.TeamSection |
| run-files/gitlab-cli.js:89-94,130 | When the refs lookup is not ok, the record is the spread raw commit. That commit has no `author` field, so `groupCommitsByAuthor` files it under the key `undefined`. | a commit by `Kim` whose refs answer is not ok is grouped under `undefined` and not under `Kim` | the commit is grouped under its author name | not executed | DailyCommits.AsWrittenLosesAuthor | DailyCommits.Author |
