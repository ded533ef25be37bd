/**
 * The per-commit `map` callback of `fetchCommitNotesV1`: it copies the fields
 * of one fetched commit into a container and classifies the commit as an
 * ordinary commit or as a merge made by GitHub on behalf of a pull request.
 */
module Commits {

  import opened Wrappers
  import opened Strings

  /** One element of the `pulls.listCommits` response, with the committer fields flattened. */
  datatype FetchedCommit = FetchedCommit(
    sha: string,
    message: string,
    committerName: string,
    committerEmail: string,
    committerDate: string)

  /** The `commitType` tag; `Label` gives the string the source stores. */
  datatype CommitType = Commit | PullRequest
  {
    function Label(): string
    {
      match this
      case Commit => "COMMIT"
      case PullRequest => "PR"
    }
  }

  /**
   * The container the callback returns. `message` is `None` where the source
   * stores `undefined`: a pull-request commit whose message lacks the delimiter.
   */
  datatype Container = Container(
    message: Option<string>,
    committerName: string,
    committerEmail: string,
    commitDate: string,
    commitSha: string,
    commitType: CommitType)

  /** The committer name GitHub gives to the merge commits it creates (compared exactly). */
  const MergeCommitter: string := "GitHub"

  /** The marker that ends the subject of a pull-request merge message. */
  const PrDelimiter: string := "-pr\n\n"

  /** The message kept for a pull-request commit: `message.split("-pr\n\n")[1]`. */
  function PrMessage(message: string): (r: Option<string>)
    ensures r.None? <==> !Occurs(message, PrDelimiter)
    ensures r.Some? ==> SegmentAfterFirst(message, PrDelimiter, r.value)
  {
    SecondFieldSegment(message, PrDelimiter);
    SecondField(message, PrDelimiter)
  }

  /** The `map` callback: one fetched commit to its container. */
  function ToContainer(c: FetchedCommit): (r: Container)
    ensures r.commitSha == c.sha && r.committerName == c.committerName
    ensures r.committerEmail == c.committerEmail && r.commitDate == c.committerDate
    ensures r.commitType == PullRequest <==> c.committerName == MergeCommitter
    ensures r.commitType == Commit ==> r.message == Some(c.message)
    ensures r.commitType == PullRequest ==>
      (r.message.None? <==> !Occurs(c.message, PrDelimiter)) &&
      (r.message.Some? ==> SegmentAfterFirst(c.message, PrDelimiter, r.message.value))
  {
    var container := Container(Some(c.message), c.committerName, c.committerEmail,
                               c.committerDate, c.sha, Commit);
    if c.committerName == MergeCommitter then
      container.(commitType := PullRequest, message := PrMessage(c.message))
    else
      container
  }

  /** `response.data.map(...)`: the containers, one per fetched commit, in order. */
  function ToContainers(fetched: seq<FetchedCommit>): (r: seq<Container>)
    ensures |r| == |fetched|
    ensures forall k :: 0 <= k < |fetched| ==> r[k] == ToContainer(fetched[k])
  {
    if fetched == [] then [] else [ToContainer(fetched[0])] + ToContainers(fetched[1..])
  }

  /** A pull-request commit's message is fully determined by where the delimiter occurs. */
  lemma PrMessageDetermined(c: FetchedCommit, m: string)
    requires c.committerName == MergeCommitter
    requires SegmentAfterFirst(c.message, PrDelimiter, m)
    ensures ToContainer(c).message == Some(m)
  {
    var i :| FirstOccurrence(c.message, PrDelimiter, i) &&
      var rest := c.message[i + |PrDelimiter|..];
      (FirstOccurrence(rest, PrDelimiter, |m|) && rest[..|m|] == m) || (!Occurs(rest, PrDelimiter) && rest == m);
    assert OccursAt(c.message, PrDelimiter, i);
    SegmentAfterFirstUnique(c.message, PrDelimiter, ToContainer(c).message.value, m);
  }

}
