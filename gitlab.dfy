/**
 * The commit record the commit-listing endpoint returns, reduced to the
 * fields the scripts read, and the merge-commit policy they share.
 */
module GitLab {
  import opened Wrappers
  import opened Text

  /** `{ id, title, author_name, author_email, created_at, web_url }`; a missing e-mail is `None`. */
  datatype RawCommit = RawCommit(
    id: string,
    title: string,
    authorName: string,
    authorEmail: Option<string>,
    createdAt: string,
    webUrl: string)

  /** Titles starting with this literal, case-sensitive prefix are merge commits. */
  const MergePrefix: string := "Merge branch"

  predicate IsMergeCommit(c: RawCommit) {
    StartsWith(c.title, MergePrefix)
  }

  /** The commits whose title does not start with `Merge branch`, in order. */
  function WithoutMerges(cs: seq<RawCommit>): (r: seq<RawCommit>)
    ensures |r| <= |cs|
    ensures forall i :: 0 <= i < |r| ==> !IsMergeCommit(r[i]) && r[i] in cs
    ensures forall i :: 0 <= i < |cs| && !IsMergeCommit(cs[i]) ==> cs[i] in r
  {
    if cs == [] then []
    else
      var rest := WithoutMerges(cs[1..]);
      assert forall i :: 1 <= i < |cs| ==> cs[i] == cs[1..][i - 1];
      if IsMergeCommit(cs[0]) then rest else [cs[0]] + rest
  }
}
