# docs-as-code: front matter, titles, listing and lookup

A Dafny model of the document core of `docs-as-code`, a command-line tool
that indexes a tree of Markdown files. The model covers:

- splitting a file into its YAML front-matter block and its Markdown body
  (`parse_document`), with every failure falling back to "no front matter,
  whole content as body";
- resolving a document's display title (`extract_title`): front-matter
  `title`, else a `# ` heading on the first line, else the file stem;
- the per-file logic of the `list` command (one row per readable `.md`
  file, in traversal order) and of the `view` command (first `.md` file whose
  stem is the id, or a not-found error naming the id).

Files:

- `wrappers.dfy` — `Option` and `Result`.
- `text.dfy` — the Rust `str` operations the parser uses (`starts_with`,
  `find`, `trim_start`, `trim_start_matches("# ")`, first item of `lines()`),
  each with a contract that characterises its result.
- `front_matter.dfy` — `ParseDocument` and the lemmas that pin down each
  branch, plus the write-then-parse round trip of a front-matter block.
- `title.dfy` — `ExtractTitle`, its priority chain, the heading round trip
  and the edge cases (`#`, `## x`, empty body, `# # A`, `# `).
- `commands.dfy` — the directory-walk items, `ListDocuments`/`RunList` and
  `ViewDocument`/`RunView`.
- `scenarios.dfy` — worked examples (the "Hello World" front matter,
  `notes.md`, `plain.md`, viewing a missing id).

The YAML decoder (`serde_yaml::from_str` into a record with one optional
`title` field) is a parameter `decode: string -> Option<Frontmatter>`:
`None` stands for any decode error. The directory walk is a parameter too:
a sequence of `WalkItem`s in traversal order, each a walk error or an entry
carrying whether the path is a file, its extension, stem, file name and the
outcome of reading it.

The model follows the code of `src/main.rs`, including where the code may surprise a reader:

- A heading line loses every leading repetition of `# ` (`trim_start_matches`),
  not just one marker: `# # A` has title `A` (`Title.RepeatedMarkersAllStripped`).
- A title is not always non-empty: a front-matter `title: ""` is returned as
  is, and a first line `# ` gives the empty title
  (`Title.EmptyHeadingGivesEmptyTitle`).
- The opening delimiter is only the three characters `---`; the fourth
  character is skipped whatever it is, and the closing `---` is the first
  one at or after offset 4 even when it is not on a line of its own.
- When two files share a stem, the one met first in traversal order wins;
  no other tie-break exists, and the model takes the order as given.

## Model

| member | source | states |
|---|---|---|
| Text.Find | src/main.rs:43 | the index returned is an occurrence of the pattern and no earlier index is; `None` means no occurrence anywhere |
| Text.TrimStart | src/main.rs:47 | the result is a suffix of the input that does not start with whitespace, and everything removed was whitespace |
| Text.TrimHeadingMarkers | src/main.rs:70 | the result is a suffix that no longer starts with `# `, and what was removed is a whole number of `# ` pairs |
| Text.FirstLine | src/main.rs:68 | `None` exactly for the empty body; otherwise a prefix without `\n` ending at the end of the text, at a `\n` (not preceded by a dropped `\r`), or at a `\r\n` |
| FrontMatter.TailAfterOpening | src/main.rs:43 | `---` occurs at `j` in the searched tail exactly when it occurs at `j + 4` in the content; content shorter than 4 gives a tail with no `---` at all |
| FrontMatter.ParseDocument | src/main.rs:41-56 | no opening `---` gives `(None, content)`; no front matter always means the whole content is the body; decoded front matter means the body starts with no whitespace |
| FrontMatter.BodyIsSuffix | src/main.rs:41-56 | in every case the returned body is a suffix of the content |
| FrontMatter.ShiftOccurrence | src/main.rs:43-44 | an occurrence at absolute offset `j >= 4` is an occurrence at `j - 4` in the text after offset 4 |
| FrontMatter.FindInTail | src/main.rs:43-45 | `find` on the tail reports `p` exactly when the first `---` at or after offset 4 is at `p + 4` |
| FrontMatter.UnclosedBlockIsBody | src/main.rs:50-51 | an opening `---` with no `---` at or after offset 4 (including content shorter than 4) gives `(None, content)` unchanged |
| FrontMatter.FoundClosingSplits | src/main.rs:43-49 | once `find` reports `p`, the YAML text is `content[4..p+4]`; a decode error gives `(None, content)`; a decode success gives the front matter and `content[p+7..]` trimmed |
| FrontMatter.ClosedBlockSplits | src/main.rs:43-49 | with the first closing `---` at `q`, the YAML text is `content[4..q]`; a decode error gives `(None, content)`, never the split body; a decode success gives the front matter and `content[q+3..]` trimmed |
| FrontMatter.DecodedBodyIsRestTrimmed | src/main.rs:45-47 | after a successful decode the body is the text after the closing `---` with only leading whitespace removed |
| FrontMatter.ClosingAfterYaml | src/main.rs:43 | in `---\n` + yaml + `---` + tail, the closing delimiter is the one right after the yaml when the yaml holds no `---` |
| FrontMatter.BlockSlices | src/main.rs:44-45 | in a written block the YAML text is `content[4..4+|yaml|]` and the text after the closing delimiter starts at `4+|yaml|+3` |
| FrontMatter.TrimLeadingBreak | src/main.rs:47 | trimming the body removes the line break after the closing delimiter and nothing of a body that starts with non-whitespace |
| FrontMatter.FrontMatterRoundTrip | src/main.rs:41-56 | a written block `---\n` yaml `---\n` body parses back to the decoded yaml and exactly that body |
| Title.ExtractTitle | src/main.rs:58-78 | a front-matter title wins verbatim; else a `# ` first line gives that line minus exactly its leading `# ` pairs (an even-length prefix of `# ` repetitions, with no `# ` left at the front); else the stem |
| Title.FirstLineOfJoin | src/main.rs:68 | a line ended by `\n` (without a trailing `\r`) is read back exactly as the first line |
| Title.FirstLineWithoutBreak | src/main.rs:68 | a non-empty text with no `\n` is its own first line |
| Title.HeadingTitleRoundTrip | src/main.rs:68-71 | a body whose first line is `# t` has title `t`, whatever follows and whatever the stem |
| Title.MetadataTitleWins | src/main.rs:63-66 | a front-matter title is the title regardless of body and stem |
| Title.EmptyBodyGivesStem | src/main.rs:73-77 | an empty body without a front-matter title gives the stem |
| Title.NonHeadingFirstLineGivesStem | src/main.rs:69 | a first line `#` or `## ...` is not a heading, so the stem is the title |
| Title.RepeatedMarkersAllStripped | src/main.rs:68-70 | a first line `# # t` gives `t`: every leading `# ` is removed, not just one |
| Title.EmptyHeadingGivesEmptyTitle | src/main.rs:68-70 | a first line `# ` gives the empty title, whatever follows |
| Commands.ToDocument | src/main.rs:117-134 | a row's id is the stem and its file name the entry's name; a decoded front-matter title is the row's title; a file without decoded front matter takes its title from its whole text |
| Commands.UntitledBlockTitle | src/main.rs:117-119 | when the front matter decodes without a title, the title comes from the body `parse_document` returns, the text after the closing `---` with its leading whitespace removed (src/main.rs:44-48), not from the whole file |
| Commands.UntitledBlockThenHeading | src/main.rs:117-119 | a title-less block followed by a line `# t` lists the document under `t` |
| Commands.RowsOf | src/main.rs:113-135 | an item contributes at most one row; `ListSingle` says which |
| Commands.ListDocuments | src/main.rs:110-139 | at most one row per item of the walk |
| Commands.EveryRowFromListedItem | src/main.rs:114-134 | every row is the row of some readable `.md` file of the walk |
| Commands.ListAppend | src/main.rs:112-139 | the rows of a concatenated walk are the rows of the first part followed by those of the second (traversal order is kept) |
| Commands.ListSingle | src/main.rs:114-135 | one item gives one row when it is a readable `.md` file and none otherwise |
| Commands.ListExtend | src/main.rs:112-135 | visiting one more item appends exactly that item's rows to the listing so far |
| Commands.ListedUnderMetadataTitle | src/main.rs:117-134 | a readable `.md` file whose front matter names a title is listed under exactly that title, with its stem as id |
| Commands.ListedItemHasRow | src/main.rs:114-134 | every readable `.md` file of the walk has its row in the listing |
| Commands.NothingListedGivesEmptyIndex | src/main.rs:112-139 | a walk with no readable `.md` file lists nothing and raises no error |
| Commands.RunList | src/main.rs:110-139 | the loop with its push yields exactly the functional listing |
| Commands.NotFoundMessage | src/main.rs:99 | the not-found message contains the requested id |
| Commands.ReadFailureMessage | src/main.rs:88-89 | the read-failure message ends with the I/O error text |
| Commands.OpenDocument | src/main.rs:88-93 | a read failure becomes the read-failure message; a read success gives a suffix of the content, the whole content when there is no opening `---` |
| Commands.OpenedBodyAfterBlock | src/main.rs:88-93 | after a closed block that decodes, `view` renders the text after the closing `---` minus its leading whitespace, so the metadata is never shown; a block the decoder rejects leaves the whole file rendered |
| Commands.OpenedWholeWithoutFrontMatter | src/main.rs:88-93 | whenever no front matter is decoded (no block, no closing `---`, or a decode error) the whole file is rendered |
| Commands.ViewDocument | src/main.rs:80-100 | the first `.md` file whose stem is the id decides the outcome; with no such file the result is the not-found error |
| Commands.RunView | src/main.rs:80-100 | the scanning loop with early return yields exactly the functional lookup |
| Scenarios.HelloWorldParses | src/main.rs:41-56 | the "Hello World" example file parses into that title and the text after the block |
| Scenarios.HelloWorldIsListed | src/main.rs:110-135 | the "Hello World" example file is listed with that title |
| Scenarios.HeadingScenarioTitle | src/main.rs:68-71 | `# My Doc\nSome text` has no front matter and the title `My Doc` |
| Scenarios.HeadingScenario | src/main.rs:117-134 | `notes.md` holding `# My Doc\nSome text` is listed with id `notes` and title `My Doc` |
| Scenarios.PlainScenarioParses | src/main.rs:53-54 | `Just text.` has no front matter and is its own body |
| Scenarios.PlainScenarioTitle | src/main.rs:73-77 | `Just text.` has no heading line and takes the stem as title |
| Scenarios.PlainScenario | src/main.rs:117-134 | `plain.md` holding `Just text.` is listed with title `plain` |
| Scenarios.ViewOfMissingIdNamesIt | src/main.rs:99 | viewing an id no `.md` file has fails with a message naming the id |

## Left out

- Command-line parsing with `clap`, and the default `list .` command (src/main.rs:21-39, 103-107): argument handling, not document logic.
- The directory walk (`WalkDir`), `fs::read_to_string` and `path.is_file()`: I/O; replaced by the sequence of walk items with their read outcomes.
- `Path::file_stem`, `extension`, `file_name` and `to_string_lossy`: path handling of the standard library; the entry carries stem, extension and file name as given.
- The YAML grammar of `serde_yaml`, including that unknown keys are ignored: a foreign library; it is the `decode` parameter.
- Table output (`comfy_table`), Markdown rendering (`termimad`), `println!`, `eprintln!` and `process::exit(1)`: terminal output; `ViewDocument` returns the body that would be rendered, and `ListDocuments` the rows that would be printed.
- Older Rust releases' `str::lines`, which also dropped a bare `\r` at the very end of the text: the model follows the current behaviour, which keeps it.
- UTF-8 byte offsets: content is a sequence of Unicode scalar values, so offset 4 is always a character boundary; in the program a multi-byte character across byte 4 makes `get(4..)` fail, which degrades to "no front matter" just like content shorter than 4.
