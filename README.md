# commit-notes-action, modelled in Dafny

The action turns a pull request into a markdown "commit notes" document for a
CI step output. It reads the pull-request number from the Git ref
(`refs/pull/<n>/merge`) and the owner and repository from `owner/repo`. It
fetches the pull request and its commits from GitHub. It then:

- copies each fetched commit into a container;
- tags a commit whose committer is `GitHub` as `PR` and replaces its message
  by the text between the first `-pr\n\n` marker and the next one (or the
  end), or by `undefined` when the marker does not occur;
- renders the containers into a document: a fixed header with the pull
  request's title and body, a block per commit, the commit count, and `---`.

An earlier renderer, `fetchCommitNotes`, is still in the file but is no longer
called. It prints one line per commit, with the SHA cut to six characters.

The model covers the string and sequence logic of `index.js`. The fetched data
(the pull request's title and body, the commit list, the ref and the
repository string) are parameters.

Files:

- `wrappers.dfy`: `Option`, standing for JavaScript's `undefined`/`null`.
- `strings.dfy`: `String.prototype.split` with a non-empty separator (`Split`,
  built on `IndexOf`), its inverse `Join`, element `[1]` of a split
  (`SecondField`), `slice(0, n)` (`Take`), and the decimal text of a number
  (`Decimal`, with the reference parser `ParseDecimal`).
- `commits.dfy`: the per-commit `map` callback of `fetchCommitNotesV1`.
- `notes.dfy`: both renderers. Each is a method whose loop appends with `+`
  as the source's `forEach` appends with `+=`. Each is proved equal to a
  function that gives the whole document. Lemmas then read that document
  back line by line.
- `inputs.dfy`: `getPRNumber` and the `owner/repo` split.

The template literals are reproduced character for character. Every line
after the first starts with the four or six spaces of the source's
indentation. The V1 date line keeps its trailing space. A `null` pull-request
body renders as `null`. An absent `PR` message renders as `undefined`.

Points of the code worth stating exactly:

- index.js:82 compares the committer name with `"GitHub"` exactly, case
  included; the author name plays no part;
- index.js:75 keeps an ordinary commit's message verbatim, subject and body
  together;
- index.js:86-87 takes element `[1]` of the split, so a `PR` message stops at
  a second marker;
- index.js:93-94 print the title and body as they are, so an empty title or
  a `null` body still gets its line;
- index.js:98-107 give every commit a block, `PR` or not.

## Model

| member | source | states |
|---|---|---|
| `Strings.IndexOf` | index.js:86 | the result is the leftmost position where the separator occurs, and `None` exactly when it occurs nowhere |
| `Strings.Split` | index.js:86 | `split` yields at least one part; joining the parts with the separator gives back the input; no part contains the separator; there is one part exactly when the separator does not occur; the first part ends at the leftmost occurrence |
| `Strings.SplitJoin` | index.js:131-132 | splitting on a one-character separator undoes joining with it, when no part contains that character |
| `Strings.JoinAppend` | index.js:98-107 | joining two lists end to end equals joining each and putting one separator between them |
| `Strings.SecondFieldSegment` | index.js:86-87 | `split(d)[1]` is absent exactly when `d` does not occur; otherwise it is the text after the first occurrence, up to the second occurrence or the end |
| `Strings.SegmentAfterFirstUnique` | index.js:86-87 | that description fixes the segment: two strings that both meet it are equal |
| `Strings.Take` | index.js:42 | `slice(0, n)` is a prefix of the string, of length `min(n, length)` |
| `Strings.Decimal` | index.js:109 | the rendered count is a non-empty string of ASCII digits, with a leading `0` only for zero itself |
| `Strings.DecimalRoundTrip` | index.js:109 | parsing the rendered count gives back the number of commits |
| `Commits.PrMessage` | index.js:85-87 | the message kept for a `PR` commit is absent exactly when `-pr\n\n` does not occur; otherwise it is the segment after the first marker |
| `Commits.ToContainer` | index.js:73-90 | SHA, committer name, email and date are copied unchanged; the type is `PR` exactly when the committer name equals `GitHub`, and `COMMIT` otherwise; a `COMMIT` keeps its message; a `PR` message is the segment after the marker, or absent |
| `Commits.ToContainers` | index.js:73 | one container per fetched commit, same length, container `k` derived from fetched commit `k` |
| `Commits.PrMessageDetermined` | index.js:82-88 | a `PR` commit's message equals any string that is the segment after the first marker |
| `Notes.CommitNotesV1` | index.js:73-110 | the `+=` loop over the containers produces exactly the header, then one block per commit in order, then the count trailer |
| `Notes.CommitNotes` | index.js:34-45 | the earlier `+=` loop produces exactly the header, then one line per commit in order, then `---` |
| `Notes.AppendBlock` | index.js:98-107 | one turn of the V1 loop extends the document by the block of the next commit |
| `Notes.HeaderAsLines` | index.js:92-96 | the header is the five lines `# Merge Notes`, `    ## title`, `    body`, `    ---`, `    # Commit Notes` separated by line breaks |
| `Notes.BlockAsLines` | index.js:100-106 | a commit's block is a line break followed by its six lines (date, SHA, message, committer name, email in brackets, type) |
| `Notes.TrailerAsLines` | index.js:108-110 | the trailer is a line break, the indented commit count, a line break and `    ---` |
| `Notes.JoinBlocks` | index.js:98-107 | appending the blocks of a list of commits equals joining their six-line groups onto the document so far |
| `Notes.NotesV1AsLines` | index.js:92-110 | the V1 document is exactly its line list (header, six lines per commit, count, `---`) joined by line breaks, for any title, body and commits |
| `Notes.AllBlockLinesAt` | index.js:98-107 | the per-commit part of the line list has six lines per commit, and lines `6k..6k+6` are commit `k`'s block |
| `Notes.LinesV1Shape` | index.js:92-110 | the V1 line list has `6n + 7` lines: the five header lines, commit `k`'s six lines at `5 + 6k`, then the count and `---` |
| `Notes.AllBlockLinesSingleLine` | index.js:100-106 | when no container field has a line break, no line of any commit block has one |
| `Notes.LinesV1SingleLine` | index.js:92-110 | when no printed field has a line break, no line of the V1 line list has one |
| `Notes.NotesV1Lines` | index.js:92-110 | when no printed field contains a line break, splitting the V1 document on line breaks gives exactly its line list |
| `Notes.NotesV1Layout` | index.js:92-110 | read back line by line, the V1 document has the header first, then one six-line block per commit in list order, then the decimal commit count, then `---` |
| `Notes.NotesAsLines` | index.js:34-45 | the earlier document is exactly its line list joined by line breaks |
| `Notes.JoinCommitLines` | index.js:40-43 | appending a line break and a commit line for each commit equals joining those lines onto the document so far |
| `Notes.CommitLineTexts` | index.js:40-43 | there is one commit line per commit, and line `k` is commit `k`'s |
| `Notes.LinesOfNotesShape` | index.js:34-45 | the earlier line list has `n + 6` lines: the header, commit `k`'s line at `5 + k`, then `---` |
| `Notes.LinesOfNotesSingleLine` | index.js:34-45 | when no printed field has a line break, no line of the earlier line list has one |
| `Notes.NotesLines` | index.js:34-45 | when no printed field contains a line break, splitting the earlier document on line breaks gives exactly its line list |
| `Notes.NotesLayout` | index.js:34-45 | read back line by line, the earlier document has the header, then exactly one line per commit in order, giving its date, its SHA cut to six characters, its message and its bracketed email, then `---` |
| `Inputs.DigitRun` | index.js:120 | `\d+` at the start of a string matches the maximal run of ASCII digits |
| `Inputs.MatchHere` | index.js:120 | anchored at one position, the pattern yields a captured group exactly when `refs/pull/<digits>/merge` starts there |
| `Inputs.CapturesUnique` | index.js:120 | at one position the pattern can capture only one digit string |
| `Inputs.FindFrom` | index.js:121 | scanning from a position returns the group of the leftmost match at or after it, or `None` when there is none |
| `Inputs.GetPRNumber` | index.js:118-124 | the result is a non-empty ASCII-digit string taken from a match that no earlier match precedes, and is `None` (`null`) exactly when no match exists anywhere in the ref |
| `Inputs.GetPRNumberFirstMatch` | index.js:120-123 | whenever a match starts at `j` and none starts earlier, the result is that match's digits |
| `Inputs.GetPRNumberOfPullRef` | index.js:120-123 | a ref that begins with `refs/pull/<digits>/merge` yields those digits |
| `Inputs.RepositoryOwner` | index.js:131 | the owner has no `/`, is a prefix of the identifier, and ends at the first `/`, or is the whole identifier when there is none |
| `Inputs.RepositoryName` | index.js:132 | the repository name is absent (`undefined`) exactly when there is no `/`; otherwise it has no `/` and follows `owner/` up to the next `/` or the end |
| `Inputs.RepositoryRoundTrip` | index.js:131-132 | for slash-free `owner` and `repo`, splitting `owner/repo` gives back `owner` and `repo` |

## Left out

- Octokit client construction and the `pulls.get` / `pulls.listCommits` calls (index.js:6-22, 55-71). These are network I/O. Their results are parameters: `PullRequestData` for the pull request and a sequence of `FetchedCommit` for the commits.
- The response's nested `commit.committer` object is flattened into `FetchedCommit`. Every field is a string; a `null` committer name, email or date from the API is not modelled. A `null` pull-request body is modelled.
- Reading `GITHUB_TOKEN`, `GITHUB_REF` and `GITHUB_REPOSITORY` and the call to `core.setOutput` (index.js:7, 119, 131-132, 145). These are environment and CI I/O. The ref and repository strings are parameters.
- The promise chaining and `.catch` handlers (index.js:135-149) and the `catch` blocks (index.js:47-50, 112-115). These are asynchronous control flow. The catch blocks also call a `console.setFailed` that does not exist and return `[]` instead of a string.
- Passing a `null` pull number or an `undefined` repository name on to the API (index.js:133, 143). What happens next is up to the remote service.
- `getDate` (index.js:126-129). It depends on `Date.prototype.toJSON` and is never called.
- The earlier map callback (index.js:24-32) is a field-by-field copy, so `Notes.CommitNotes` reads the fetched records directly.
- Strings are sequences of characters. JavaScript's UTF-16 code units, surrogate pairs and Unicode normalisation are not modelled.
- `Notes.NotesV1Layout` and `Notes.NotesLayout` state the line structure only when no printed field contains a line break, because a field with a line break adds lines of its own. `Notes.NotesV1AsLines` and `Notes.NotesAsLines` hold without that condition.
