/**
 * The two markdown renderers: `fetchCommitNotesV1` (the one the action runs)
 * and the earlier `fetchCommitNotes`. Both start from the same header, append
 * one piece per commit with `+=`, and close with a trailer. The template
 * literals keep the indentation of the source text, so every line after the
 * first begins with four or six spaces.
 */
module Notes {

  import opened Wrappers
  import opened Strings
  import opened Commits

  /** The fields of the `pulls.get` response the renderers read; `body` is `None` when GitHub sends `null`. */
  datatype PullRequestData = PullRequestData(title: string, body: Option<string>)

  /** How a template literal renders a possibly-`null` body. */
  function BodyText(body: Option<string>): string
  {
    match body
    case Some(b) => b
    case None => "null"
  }

  /** How a template literal renders a possibly-`undefined` message. */
  function MessageText(message: Option<string>): string
  {
    match message
    case Some(m) => m
    case None => "undefined"
  }

  const NewLine: string := "\n"

  // ---------------------------------------------------------------------------
  // Pieces of the document, as the template literals write them

  // The five header lines; the template literal indents all but the first by four spaces.

  function TitleLine(pr: PullRequestData): string { "    ## " + pr.title }
  function BodyLine(pr: PullRequestData): string { "    " + BodyText(pr.body) }

  function Header(pr: PullRequestData): string
  {
    "# Merge Notes" + NewLine + TitleLine(pr) + NewLine + BodyLine(pr) + NewLine +
    "    ---" + NewLine + "    # Commit Notes"
  }

  // The six lines of the block `fetchCommitNotesV1` appends for one commit,
  // each preceded by a line break; the date line keeps its trailing space.

  function DateLine(c: Container): string { "      - Commit Date: " + c.commitDate + " " }
  function ShaLine(c: Container): string { "      - Commit SHA: " + c.commitSha }
  function MessageLine(c: Container): string { "      - Commit Message: " + MessageText(c.message) }
  function NameLine(c: Container): string { "      - Committer Name: " + c.committerName }
  function EmailLine(c: Container): string { "      - Commit Email: [" + c.committerEmail + "]" }
  function TypeLine(c: Container): string { "      - Commit Type: " + c.commitType.Label() }

  function Block(c: Container): string
  {
    NewLine + DateLine(c) + NewLine + ShaLine(c) + NewLine + MessageLine(c) +
    NewLine + NameLine(c) + NewLine + EmailLine(c) + NewLine + TypeLine(c)
  }

  /** The blocks of the first commits, in order. */
  function Blocks(cs: seq<Container>): string
  {
    if cs == [] then "" else Blocks(cs[..|cs| - 1]) + Block(cs[|cs| - 1])
  }

  function TrailerV1(count: nat): string
  {
    "\n    " + Decimal(count) + "\n    ---"
  }

  /** The whole document `fetchCommitNotesV1` returns. */
  function NotesV1(pr: PullRequestData, cs: seq<Container>): string
  {
    Header(pr) + Blocks(cs) + TrailerV1(|cs|)
  }

  /** The line `fetchCommitNotes` appends (after a line break) for one commit. */
  function CommitLine(c: FetchedCommit): string
  {
    "      - " + c.committerDate + " | " + Take(c.sha, 6) + " | " + c.message + " [" + c.committerEmail + "]"
  }

  function CommitLines(cs: seq<FetchedCommit>): string
  {
    if cs == [] then "" else CommitLines(cs[..|cs| - 1]) + NewLine + CommitLine(cs[|cs| - 1])
  }

  const Trailer: string := "\n    ---"

  /** The whole document the earlier `fetchCommitNotes` returns. */
  function EarlierNotes(pr: PullRequestData, cs: seq<FetchedCommit>): string
  {
    Header(pr) + CommitLines(cs) + Trailer
  }

  // ---------------------------------------------------------------------------
  // The renderers: `markdownContent +=` inside `commits.forEach`

  method CommitNotesV1(pr: PullRequestData, fetched: seq<FetchedCommit>) returns (markdown: string)
    ensures markdown == NotesV1(pr, ToContainers(fetched))
  {
    var commits := ToContainers(fetched);
    markdown := Header(pr);
    var i := 0;
    while i < |commits|
      invariant 0 <= i <= |commits|
      invariant markdown == Header(pr) + Blocks(commits[..i])
    {
      AppendBlock(Header(pr), commits, i);
      markdown := markdown + Block(commits[i]);
      i := i + 1;
    }
    assert commits[..i] == commits;
    markdown := markdown + TrailerV1(|commits|);
  }

  /** One turn of the `forEach` in `fetchCommitNotesV1`. */
  lemma AppendBlock(prefix: string, cs: seq<Container>, i: nat)
    requires i < |cs|
    ensures prefix + Blocks(cs[..i]) + Block(cs[i]) == prefix + Blocks(cs[..i + 1])
  {
    assert cs[..i + 1][..i] == cs[..i];
    assert Blocks(cs[..i + 1]) == Blocks(cs[..i]) + Block(cs[i]);
    ConcatAssoc(prefix, Blocks(cs[..i]), Block(cs[i]));
  }

  method CommitNotes(pr: PullRequestData, fetched: seq<FetchedCommit>) returns (markdown: string)
    ensures markdown == EarlierNotes(pr, fetched)
  {
    markdown := Header(pr);
    var i := 0;
    while i < |fetched|
      invariant 0 <= i <= |fetched|
      invariant markdown == Header(pr) + CommitLines(fetched[..i])
    {
      markdown := markdown + NewLine + CommitLine(fetched[i]);
      assert fetched[..i + 1][..i] == fetched[..i];
      i := i + 1;
    }
    assert fetched[..i] == fetched;
    markdown := markdown + Trailer;
  }

  // ---------------------------------------------------------------------------
  // The documents read line by line

  function HeaderLines(pr: PullRequestData): seq<string>
  {
    ["# Merge Notes", TitleLine(pr), BodyLine(pr), "    ---", "    # Commit Notes"]
  }

  function BlockLines(c: Container): seq<string>
  {
    [DateLine(c), ShaLine(c), MessageLine(c), NameLine(c), EmailLine(c), TypeLine(c)]
  }

  function AllBlockLines(cs: seq<Container>): seq<string>
  {
    if cs == [] then [] else AllBlockLines(cs[..|cs| - 1]) + BlockLines(cs[|cs| - 1])
  }

  /** The lines of the `fetchCommitNotesV1` document, top to bottom. */
  function LinesV1(pr: PullRequestData, cs: seq<Container>): seq<string>
  {
    HeaderLines(pr) + AllBlockLines(cs) + ["    " + Decimal(|cs|), "    ---"]
  }

  /** The line texts of the earlier renderer, one per commit, in order. */
  function CommitLineTexts(cs: seq<FetchedCommit>): (lines: seq<string>)
    ensures |lines| == |cs|
    ensures forall k :: 0 <= k < |cs| ==> lines[k] == CommitLine(cs[k])
  {
    if cs == [] then [] else CommitLineTexts(cs[..|cs| - 1]) + [CommitLine(cs[|cs| - 1])]
  }

  /** The lines of the earlier document, top to bottom. */
  function LinesOfNotes(pr: PullRequestData, cs: seq<FetchedCommit>): seq<string>
  {
    HeaderLines(pr) + CommitLineTexts(cs) + ["    ---"]
  }

  // ---------------------------------------------------------------------------
  // Each document is its lines joined by line breaks

  lemma JoinFive(a: string, b: string, c: string, d: string, e: string)
    ensures Join([a, b, c, d, e], NewLine) == a + NewLine + b + NewLine + c + NewLine + d + NewLine + e
  {
    JoinCons(a, [b, c, d, e], NewLine);
    JoinCons(b, [c, d, e], NewLine);
    JoinCons(c, [d, e], NewLine);
    JoinCons(d, [e], NewLine);
    assert [a, b, c, d, e] == [a] + [b, c, d, e];
    assert [b, c, d, e] == [b] + [c, d, e];
    assert [c, d, e] == [c] + [d, e];
    assert [d, e] == [d] + [e];
  }

  lemma HeaderAsLines(pr: PullRequestData)
    ensures Header(pr) == Join(HeaderLines(pr), NewLine)
  {
    JoinFive("# Merge Notes", TitleLine(pr), BodyLine(pr), "    ---", "    # Commit Notes");
  }

  lemma JoinSix(a: string, b: string, c: string, d: string, e: string, f: string)
    ensures NewLine + Join([a, b, c, d, e, f], NewLine) ==
            NewLine + a + NewLine + b + NewLine + c + NewLine + d + NewLine + e + NewLine + f
  {
    JoinFive(b, c, d, e, f);
    JoinCons(a, [b, c, d, e, f], NewLine);
    assert [a, b, c, d, e, f] == [a] + [b, c, d, e, f];
  }

  lemma BlockAsLines(c: Container)
    ensures Block(c) == NewLine + Join(BlockLines(c), NewLine)
  {
    JoinSix(DateLine(c), ShaLine(c), MessageLine(c), NameLine(c), EmailLine(c), TypeLine(c));
  }

  lemma TrailerAsLines(count: nat)
    ensures TrailerV1(count) == NewLine + Join(["    " + Decimal(count), "    ---"], NewLine)
  {
    JoinCons("    " + Decimal(count), ["    ---"], NewLine);
    assert ["    " + Decimal(count), "    ---"] == ["    " + Decimal(count)] + ["    ---"];
  }

  lemma {:induction false} JoinBlocks(ps: seq<string>, cs: seq<Container>)
    requires |ps| >= 1
    ensures Join(ps + AllBlockLines(cs), NewLine) == Join(ps, NewLine) + Blocks(cs)
  {
    if cs == [] {
      assert ps + AllBlockLines(cs) == ps;
    } else {
      var init, last := cs[..|cs| - 1], cs[|cs| - 1];
      var lines := BlockLines(last);
      var before := ps + AllBlockLines(init);
      ConcatAssoc(ps, AllBlockLines(init), lines);
      JoinAppend(before, lines, NewLine);
      BlockAsLines(last);
      ConcatAssoc(Join(before, NewLine), NewLine, Join(lines, NewLine));
      JoinBlocks(ps, init);
      ConcatAssoc(Join(ps, NewLine), Blocks(init), Block(last));
    }
  }

  /** The `fetchCommitNotesV1` document is exactly its lines separated by line breaks. */
  lemma NotesV1AsLines(pr: PullRequestData, cs: seq<Container>)
    ensures NotesV1(pr, cs) == Join(LinesV1(pr, cs), NewLine)
  {
    var trailer := ["    " + Decimal(|cs|), "    ---"];
    JoinBlocks(HeaderLines(pr), cs);
    HeaderAsLines(pr);
    JoinAppend(HeaderLines(pr) + AllBlockLines(cs), trailer, NewLine);
    TrailerAsLines(|cs|);
    ConcatAssoc(Join(HeaderLines(pr) + AllBlockLines(cs), NewLine), NewLine, Join(trailer, NewLine));
  }

  lemma {:induction false} JoinCommitLines(ps: seq<string>, cs: seq<FetchedCommit>)
    requires |ps| >= 1
    ensures Join(ps + CommitLineTexts(cs), NewLine) == Join(ps, NewLine) + CommitLines(cs)
  {
    if cs == [] {
      assert ps + CommitLineTexts(cs) == ps;
    } else {
      var init, line := cs[..|cs| - 1], CommitLine(cs[|cs| - 1]);
      var before := ps + CommitLineTexts(init);
      ConcatAssoc(ps, CommitLineTexts(init), [line]);
      JoinAppend(before, [line], NewLine);
      JoinCommitLines(ps, init);
      ConcatAssoc(Join(ps, NewLine), CommitLines(init), NewLine);
      ConcatAssoc(Join(ps, NewLine), CommitLines(init) + NewLine, line);
    }
  }

  /** The earlier document is exactly its lines separated by line breaks. */
  lemma NotesAsLines(pr: PullRequestData, cs: seq<FetchedCommit>)
    ensures EarlierNotes(pr, cs) == Join(LinesOfNotes(pr, cs), NewLine)
  {
    JoinCommitLines(HeaderLines(pr), cs);
    HeaderAsLines(pr);
    JoinAppend(HeaderLines(pr) + CommitLineTexts(cs), ["    ---"], NewLine);
  }

  // ---------------------------------------------------------------------------
  // Reading the documents back line by line

  /** The container fields a block prints, each free of line breaks. */
  predicate SingleLineContainer(c: Container)
  {
    SingleLine(c.commitDate) && SingleLine(c.commitSha) && SingleLine(MessageText(c.message)) &&
    SingleLine(c.committerName) && SingleLine(c.committerEmail)
  }

  /** The fetched fields an earlier-style line prints, each free of line breaks. */
  predicate SingleLineCommit(c: FetchedCommit)
  {
    SingleLine(c.committerDate) && SingleLine(c.sha) && SingleLine(c.message) && SingleLine(c.committerEmail)
  }

  lemma {:induction false} AllBlockLinesLength(cs: seq<Container>)
    ensures |AllBlockLines(cs)| == 6 * |cs|
  {
    if cs != [] {
      AllBlockLinesLength(cs[..|cs| - 1]);
    }
  }

  /** Block `k` of the line list holds exactly the six lines of commit `k`. */
  lemma {:induction false} AllBlockLinesAt(cs: seq<Container>, k: nat)
    requires k < |cs|
    ensures |AllBlockLines(cs)| == 6 * |cs|
    ensures AllBlockLines(cs)[6 * k .. 6 * k + 6] == BlockLines(cs[k])
  {
    AllBlockLinesLength(cs);
    var init, last := cs[..|cs| - 1], cs[|cs| - 1];
    AllBlockLinesLength(init);
    if k < |cs| - 1 {
      AllBlockLinesAt(init, k);
      assert AllBlockLines(cs)[6 * k .. 6 * k + 6] == AllBlockLines(init)[6 * k .. 6 * k + 6];
    } else {
      assert AllBlockLines(cs)[6 * k .. 6 * k + 6] == BlockLines(last);
    }
  }

  lemma DecimalSingleLine(n: nat)
    ensures SingleLine(Decimal(n))
  {
  }

  lemma HeaderLinesSingleLine(pr: PullRequestData)
    requires SingleLine(pr.title) && SingleLine(BodyText(pr.body))
    ensures forall k :: 0 <= k < 5 ==> SingleLine(HeaderLines(pr)[k])
  {
  }

  lemma BlockLinesSingleLine(c: Container)
    requires SingleLineContainer(c)
    ensures forall k :: 0 <= k < 6 ==> SingleLine(BlockLines(c)[k])
  {
    assert SingleLine(c.commitType.Label());
  }

  lemma {:induction false} AllBlockLinesSingleLine(cs: seq<Container>)
    requires forall k :: 0 <= k < |cs| ==> SingleLineContainer(cs[k])
    ensures forall i :: 0 <= i < |AllBlockLines(cs)| ==> '\n' !in AllBlockLines(cs)[i]
  {
    if cs != [] {
      var init, last := cs[..|cs| - 1], cs[|cs| - 1];
      assert forall k :: 0 <= k < |init| ==> init[k] == cs[k];
      AllBlockLinesSingleLine(init);
      BlockLinesSingleLine(last);
    }
  }

  lemma LinesV1SingleLine(pr: PullRequestData, cs: seq<Container>)
    requires SingleLine(pr.title) && SingleLine(BodyText(pr.body))
    requires forall k :: 0 <= k < |cs| ==> SingleLineContainer(cs[k])
    ensures forall j :: 0 <= j < |LinesV1(pr, cs)| ==> '\n' !in LinesV1(pr, cs)[j]
  {
    HeaderLinesSingleLine(pr);
    AllBlockLinesSingleLine(cs);
    DecimalSingleLine(|cs|);
  }

  /** The line list of the `fetchCommitNotesV1` document, part by part. */
  lemma {:induction false} LinesV1Shape(pr: PullRequestData, cs: seq<Container>)
    ensures var lines := LinesV1(pr, cs);
      |lines| == 6 * |cs| + 7 &&
      lines[..5] == HeaderLines(pr) &&
      (forall k :: 0 <= k < |cs| ==> lines[5 + 6 * k .. 11 + 6 * k] == BlockLines(cs[k])) &&
      lines[|lines| - 2] == "    " + Decimal(|cs|) &&
      lines[|lines| - 1] == "    ---"
  {
    var lines := LinesV1(pr, cs);
    AllBlockLinesLength(cs);
    forall k | 0 <= k < |cs|
      ensures lines[5 + 6 * k .. 11 + 6 * k] == BlockLines(cs[k])
    {
      AllBlockLinesAt(cs, k);
      SliceOfMiddle(HeaderLines(pr), AllBlockLines(cs), ["    " + Decimal(|cs|), "    ---"], 6 * k, 6 * k + 6);
    }
  }

  /** Without line breaks inside fields, splitting the document on line breaks gives back its lines. */
  lemma NotesV1Lines(pr: PullRequestData, cs: seq<Container>)
    requires SingleLine(pr.title) && SingleLine(BodyText(pr.body))
    requires forall k :: 0 <= k < |cs| ==> SingleLineContainer(cs[k])
    ensures Split(NotesV1(pr, cs), NewLine) == LinesV1(pr, cs)
  {
    NotesV1AsLines(pr, cs);
    LinesV1SingleLine(pr, cs);
    SplitJoin(LinesV1(pr, cs), '\n');
  }

  /**
   * When no printed field contains a line break, the `fetchCommitNotesV1`
   * document reads back as: the five header lines, then six lines for each
   * commit in list order, then the commit count and the closing `---`.
   */
  lemma NotesV1Layout(pr: PullRequestData, cs: seq<Container>)
    requires SingleLine(pr.title) && SingleLine(BodyText(pr.body))
    requires forall k :: 0 <= k < |cs| ==> SingleLineContainer(cs[k])
    ensures var lines := Split(NotesV1(pr, cs), NewLine);
      |lines| == 6 * |cs| + 7 &&
      lines[..5] == HeaderLines(pr) &&
      (forall k :: 0 <= k < |cs| ==> lines[5 + 6 * k .. 11 + 6 * k] == BlockLines(cs[k])) &&
      lines[|lines| - 2] == "    " + Decimal(|cs|) &&
      lines[|lines| - 1] == "    ---"
  {
    NotesV1Lines(pr, cs);
    LinesV1Shape(pr, cs);
  }

  lemma CommitLineSingleLine(c: FetchedCommit)
    requires SingleLineCommit(c)
    ensures SingleLine(CommitLine(c))
  {
  }

  lemma LinesOfNotesSingleLine(pr: PullRequestData, cs: seq<FetchedCommit>)
    requires SingleLine(pr.title) && SingleLine(BodyText(pr.body))
    requires forall k :: 0 <= k < |cs| ==> SingleLineCommit(cs[k])
    ensures forall j :: 0 <= j < |LinesOfNotes(pr, cs)| ==> '\n' !in LinesOfNotes(pr, cs)[j]
  {
    var lines := LinesOfNotes(pr, cs);
    HeaderLinesSingleLine(pr);
    forall j | 0 <= j < |lines|
      ensures '\n' !in lines[j]
    {
      if 5 <= j < 5 + |cs| {
        CommitLineSingleLine(cs[j - 5]);
        assert lines[j] == CommitLine(cs[j - 5]);
      }
    }
  }

  /** Without line breaks inside fields, splitting the earlier document on line breaks gives back its lines. */
  lemma NotesLines(pr: PullRequestData, cs: seq<FetchedCommit>)
    requires SingleLine(pr.title) && SingleLine(BodyText(pr.body))
    requires forall k :: 0 <= k < |cs| ==> SingleLineCommit(cs[k])
    ensures Split(EarlierNotes(pr, cs), NewLine) == LinesOfNotes(pr, cs)
  {
    NotesAsLines(pr, cs);
    LinesOfNotesSingleLine(pr, cs);
    SplitJoin(LinesOfNotes(pr, cs), '\n');
  }

  /** The line list of the earlier document, part by part. */
  lemma LinesOfNotesShape(pr: PullRequestData, cs: seq<FetchedCommit>)
    ensures var lines := LinesOfNotes(pr, cs);
      |lines| == |cs| + 6 &&
      lines[..5] == HeaderLines(pr) &&
      (forall k :: 0 <= k < |cs| ==> lines[5 + k] == CommitLine(cs[k])) &&
      lines[|lines| - 1] == "    ---"
  {
    var lines := LinesOfNotes(pr, cs);
    forall k | 0 <= k < |cs|
      ensures lines[5 + k] == CommitLine(cs[k])
    {
      assert lines[5 + k] == CommitLineTexts(cs)[k];
    }
  }

  /**
   * When no printed field contains a line break, the earlier document reads
   * back as the five header lines, then one line per commit in list order
   * (date, the SHA cut to its first six characters, message and email), then
   * the closing `---`.
   */
  lemma NotesLayout(pr: PullRequestData, cs: seq<FetchedCommit>)
    requires SingleLine(pr.title) && SingleLine(BodyText(pr.body))
    requires forall k :: 0 <= k < |cs| ==> SingleLineCommit(cs[k])
    ensures var lines := Split(EarlierNotes(pr, cs), NewLine);
      |lines| == |cs| + 6 &&
      lines[..5] == HeaderLines(pr) &&
      (forall k :: 0 <= k < |cs| ==> lines[5 + k] == CommitLine(cs[k])) &&
      lines[|lines| - 1] == "    ---"
  {
    NotesLines(pr, cs);
    LinesOfNotesShape(pr, cs);
  }

}
