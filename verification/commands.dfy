/** The per-entry logic of the two commands in src/main.rs: the `list` arm
    of `main`, which builds one index row per readable Markdown file, and
    `run_view_command`, which finds one document by id.

    The directory walk is not modelled: both commands receive the sequence
    of items the walk yields, in traversal order. Each item is either a walk
    error (which both commands silently drop) or an entry carrying what the
    program asks of the path: whether it is a file, its extension, stem and
    file name, and the outcome of reading it as text. */
module Commands {
  import opened Wrappers
  import opened Text
  import opened FrontMatter
  import opened Title

  /** One path visited by the walk. `contents` is what reading the file
      would give: its text, or the I/O error message. */
  datatype Entry = Entry(
    isFile: bool,
    extension: Option<string>,
    stem: string,
    fileName: string,
    contents: Result<string, string>)

  /** What the walk yields: an error, or a visited path. */
  datatype WalkItem = WalkError | Visited(entry: Entry)

  /** One row of the index. */
  datatype Document = Document(id: string, title: string, fileName: string)

  const MarkdownExtension: string := "md"

  /** A regular file whose extension is exactly "md" (case-sensitive). */
  predicate IsMarkdownFile(e: Entry) {
    e.isFile && e.extension == Some(MarkdownExtension)
  }

  /** The items the `list` command turns into rows: Markdown files that
      could be read. */
  predicate IsListed(item: WalkItem) {
    item.Visited? && IsMarkdownFile(item.entry) && item.entry.contents.Success?
  }

  /** The row for one readable Markdown file: its stem as id, the resolved
      title (with the stem as fallback), and its file name. */
  function ToDocument(e: Entry, decode: Decoder): (d: Document)
    requires e.contents.Success?
    ensures d.id == e.stem && d.fileName == e.fileName
    ensures var fm := ParseDocument(e.contents.value, decode).frontmatter;
      fm.Some? && fm.value.title.Some? ==> d.title == fm.value.title.value
    ensures ParseDocument(e.contents.value, decode).frontmatter.None? ==>
      d.title == ExtractTitle(None, e.contents.value, e.stem)
  {
    var p := ParseDocument(e.contents.value, decode);
    Document(e.stem, ExtractTitle(p.frontmatter, p.body, e.stem), e.fileName)
  }

  /** The rows one walk item contributes: its row when it is a readable
      Markdown file, none otherwise. */
  function RowsOf(item: WalkItem, decode: Decoder): (rows: seq<Document>)
    ensures |rows| <= 1
  {
    if IsListed(item) then [ToDocument(item.entry, decode)] else []
  }

  /** `f` applied to each element of `xs`, the results concatenated in
      order. */
  function FlatMap<T, U>(xs: seq<T>, f: T -> seq<U>): (r: seq<U>)
  {
    if xs == [] then [] else f(xs[0]) + FlatMap(xs[1..], f)
  }

  /** Mapping distributes over concatenation. */
  lemma {:induction false} FlatMapAppend<T, U>(a: seq<T>, b: seq<T>, f: T -> seq<U>)
    ensures FlatMap(a + b, f) == FlatMap(a, f) + FlatMap(b, f)
    decreases |a|
  {
    if a == [] {
      assert a + b == b;
    } else {
      assert (a + b)[0] == a[0];
      assert (a + b)[1..] == a[1..] + b;
      FlatMapAppend(a[1..], b, f);
    }
  }

  /** When each element maps to at most one value, the result is no longer
      than the input. */
  lemma {:induction false} FlatMapAtMostOne<T, U>(xs: seq<T>, f: T -> seq<U>)
    requires forall x :: |f(x)| <= 1
    ensures |FlatMap(xs, f)| <= |xs|
    decreases |xs|
  {
    if xs != [] {
      FlatMapAtMostOne(xs[1..], f);
    }
  }

  /** `RowsOf` for a fixed decoder, as a function value. */
  function RowsWith(decode: Decoder): WalkItem -> seq<Document>
  {
    item => RowsOf(item, decode)
  }

  /** The rows the `list` command collects, in traversal order. */
  function ListDocuments(items: seq<WalkItem>, decode: Decoder): (docs: seq<Document>)
    ensures |docs| <= |items|
  {
    FlatMapAtMostOne(items, RowsWith(decode));
    FlatMap(items, RowsWith(decode))
  }

  /** A non-empty walk lists the rows of its first item, then the rows of
      the rest. */
  lemma ListUnfold(items: seq<WalkItem>, decode: Decoder)
    requires items != []
    ensures ListDocuments(items, decode) ==
      RowsOf(items[0], decode) + ListDocuments(items[1..], decode)
  {
  }

  /** Listing distributes over concatenation of walks: the rows of `a + b`
      are the rows of `a` followed by the rows of `b`. */
  lemma ListAppend(a: seq<WalkItem>, b: seq<WalkItem>, decode: Decoder)
    ensures ListDocuments(a + b, decode) == ListDocuments(a, decode) + ListDocuments(b, decode)
  {
    FlatMapAppend(a, b, RowsWith(decode));
  }

  /** One item gives one row when it is a readable Markdown file and no
      row otherwise. */
  lemma ListSingle(item: WalkItem, decode: Decoder)
    ensures ListDocuments([item], decode) ==
      if IsListed(item) then [ToDocument(item.entry, decode)] else []
  {
    ListUnfold([item], decode);
    assert [item][1..] == [];
  }

  /** Taking one more item of the walk appends that item's rows. */
  lemma ListExtend(items: seq<WalkItem>, i: nat, decode: Decoder)
    requires i < |items|
    ensures ListDocuments(items[..i + 1], decode) ==
      ListDocuments(items[..i], decode) + RowsOf(items[i], decode)
  {
    assert items[..i + 1] == items[..i] + [items[i]];
    ListAppend(items[..i], [items[i]], decode);
    ListUnfold([items[i]], decode);
    assert [items[i]][1..] == [];
  }

  /** A file whose front matter decodes without a title takes its title
      from the text after the block, with leading whitespace removed: a
      heading there names the document. */
  lemma UntitledBlockTitle(e: Entry, decode: Decoder, q: nat)
    requires e.contents.Success?
    requires StartsWith(e.contents.value, Delimiter) && IsClosingAt(e.contents.value, q)
    requires decode(e.contents.value[BlockStart..q]) == Some(Frontmatter(None))
    ensures ToDocument(e, decode).title ==
      ExtractTitle(None, TrimStart(e.contents.value[q + |Delimiter|..]), e.stem)
  {
    ClosedBlockSplits(e.contents.value, decode, q);
  }

  /** For instance, `---`, a title-less block, `---`, a line break and then
      `# t` is listed under `t`. */
  lemma UntitledBlockThenHeading(yaml: string, t: string, rest: string, e: Entry, decode: Decoder)
    requires forall j :: 0 <= j < |yaml| ==> !OccursAt(yaml + Delimiter, Delimiter, j)
    requires decode(yaml) == Some(Frontmatter(None))
    requires '\n' !in t && (t == [] || t[|t| - 1] != '\r') && !StartsWith(t, HeadingMarker)
    requires e.contents == Success((Delimiter + "\n") + (yaml + Delimiter) +
      ("\n" + (HeadingMarker + t + "\n" + rest)))
    ensures ToDocument(e, decode).title == t
  {
    var body := HeadingMarker + t + "\n" + rest;
    assert body[0] == '#';
    FrontMatterRoundTrip(yaml, body, decode);
    HeadingTitleRoundTrip(Some(Frontmatter(None)), t, rest, e.stem);
  }

  /** A readable Markdown file whose front matter names a title is listed
      under exactly that title. */
  lemma ListedUnderMetadataTitle(e: Entry, decode: Decoder, title: string)
    requires IsMarkdownFile(e) && e.contents.Success?
    requires ParseDocument(e.contents.value, decode).frontmatter == Some(Frontmatter(Some(title)))
    ensures ListDocuments([Visited(e)], decode) == [Document(e.stem, title, e.fileName)]
  {
    ListSingle(Visited(e), decode);
  }

  /** Every readable Markdown file gets a row. */
  lemma {:induction false} ListedItemHasRow(items: seq<WalkItem>, i: nat, decode: Decoder)
    requires i < |items| && IsListed(items[i])
    ensures ToDocument(items[i].entry, decode) in ListDocuments(items, decode)
  {
    assert items == items[..i] + [items[i]] + items[i + 1..];
    ListAppend(items[..i] + [items[i]], items[i + 1..], decode);
    ListAppend(items[..i], [items[i]], decode);
    ListSingle(items[i], decode);
  }

  /** Every row comes from a readable Markdown file of the walk. */
  lemma {:induction false} EveryRowFromListedItem(items: seq<WalkItem>, decode: Decoder)
    ensures forall d :: d in ListDocuments(items, decode) ==>
      exists item :: item in items && IsListed(item) && d == ToDocument(item.entry, decode)
  {
    if items != [] {
      var rest := ListDocuments(items[1..], decode);
      EveryRowFromListedItem(items[1..], decode);
      ListUnfold(items, decode);
      forall d | d in ListDocuments(items, decode)
        ensures exists item :: item in items && IsListed(item) && d == ToDocument(item.entry, decode)
      {
        if d in rest {
          var item :| item in items[1..] && IsListed(item) && d == ToDocument(item.entry, decode);
          assert item in items;
        } else {
          assert items[0] in items;
        }
      }
    }
  }

  /** A walk with no readable Markdown file lists nothing and raises no
      error. */
  lemma {:induction false} NothingListedGivesEmptyIndex(items: seq<WalkItem>, decode: Decoder)
    requires forall i :: 0 <= i < |items| ==> !IsListed(items[i])
    ensures ListDocuments(items, decode) == []
  {
    if items != [] {
      ListUnfold(items, decode);
      NothingListedGivesEmptyIndex(items[1..], decode);
    }
  }

  /** The `list` arm of `main`: one pass over the walk, pushing a row for
      each readable Markdown file and skipping everything else. */
  method RunList(items: seq<WalkItem>, decode: Decoder) returns (docs: seq<Document>)
    ensures docs == ListDocuments(items, decode)
  {
    docs := [];
    var i := 0;
    while i < |items|
      invariant 0 <= i <= |items|
      invariant docs == ListDocuments(items[..i], decode)
    {
      var item := items[i];
      ListExtend(items, i, decode);
      if item.Visited? {
        var e := item.entry;
        if e.isFile && e.extension == Some(MarkdownExtension) {
          match e.contents
          case Success(_) =>
            docs := docs + [ToDocument(e, decode)];
          case Failure(_) =>
        }
      }
      i := i + 1;
    }
    assert items[..i] == items;
  }

  /** The error for an id that no Markdown file has. */
  function NotFoundMessage(id: string): (m: string)
    ensures OccursAt(m, id, 18)
  {
    "Document with ID '" + id + "' not found."
  }

  /** The error for a matching file that could not be read. */
  function ReadFailureMessage(ioError: string): (m: string)
    ensures IsSuffix(ioError, m)
  {
    "Failed to read file: " + ioError
  }

  /** The item `view` stops at for `id`: a Markdown file with that stem. */
  predicate Selects(item: WalkItem, id: string) {
    item.Visited? && IsMarkdownFile(item.entry) && item.entry.stem == id
  }

  /** No item of the walk is one `view` stops at for `id`. */
  predicate NoneSelected(items: seq<WalkItem>, id: string) {
    forall i :: 0 <= i < |items| ==> !Selects(items[i], id)
  }

  /** `k` is the first item of the walk that `view` stops at. */
  predicate IsFirstSelected(items: seq<WalkItem>, id: string, k: int) {
    && 0 <= k < |items|
    && Selects(items[k], id)
    && NoneSelected(items[..k], id)
  }

  /** When `view` stops at the first item, that item is the first
      selected one. */
  lemma SelectedAtHead(items: seq<WalkItem>, id: string)
    requires items != [] && Selects(items[0], id)
    ensures forall k :: IsFirstSelected(items, id, k) ==> k == 0
  {
    forall k | IsFirstSelected(items, id, k)
      ensures k == 0
    {
      if k > 0 {
        assert false;
      }
    }
  }

  /** Past an item `view` does not stop at, the search continues on the
      rest of the walk with every index one lower. */
  lemma SkipUnselected(items: seq<WalkItem>, id: string)
    requires items != [] && !Selects(items[0], id)
    ensures NoneSelected(items, id) ==> NoneSelected(items[1..], id)
    ensures forall k :: IsFirstSelected(items, id, k) ==> IsFirstSelected(items[1..], id, k - 1)
  {
    forall k | IsFirstSelected(items, id, k)
      ensures IsFirstSelected(items[1..], id, k - 1)
    {
      assert items[1..][..k - 1] == items[..k][1..];
    }
  }

  /** What `view` does with the file it stopped at: the body it renders
      (front matter removed), or the read error. */
  function OpenDocument(e: Entry, decode: Decoder): (r: Result<string, string>)
    ensures e.contents.Failure? ==> r == Failure(ReadFailureMessage(e.contents.error))
    ensures e.contents.Success? ==> r.Success? && IsSuffix(r.value, e.contents.value)
    ensures e.contents.Success? && !StartsWith(e.contents.value, Delimiter) ==>
      r == Success(e.contents.value)
  {
    match e.contents
    case Success(content) =>
      BodyIsSuffix(content, decode);
      Success(ParseDocument(content, decode).body)
    case Failure(ioError) => Failure(ReadFailureMessage(ioError))
  }

  /** A file with a closed front-matter block renders the text after the
      closing `---` with its leading whitespace removed when the block
      decodes, and the whole file when it does not. */
  lemma OpenedBodyAfterBlock(e: Entry, decode: Decoder, q: nat)
    requires e.contents.Success?
    requires StartsWith(e.contents.value, Delimiter) && IsClosingAt(e.contents.value, q)
    ensures var c := e.contents.value;
      decode(c[BlockStart..q]).Some? ==>
        OpenDocument(e, decode) == Success(TrimStart(c[q + |Delimiter|..]))
    ensures decode(e.contents.value[BlockStart..q]).None? ==>
      OpenDocument(e, decode) == Success(e.contents.value)
  {
    ClosedBlockSplits(e.contents.value, decode, q);
  }

  /** Whenever no front matter is decoded, whether there is no block, no
      closing `---` or a block the decoder rejects, the whole file is
      rendered. */
  lemma OpenedWholeWithoutFrontMatter(e: Entry, decode: Decoder)
    requires e.contents.Success?
    ensures ParseDocument(e.contents.value, decode).frontmatter.None? ==>
      OpenDocument(e, decode) == Success(e.contents.value)
  {
  }

  /** `run_view_command`: the first Markdown file whose stem is `id` decides
      the outcome, even when it cannot be read; with no such file the
      result is a not-found error naming `id`. */
  function ViewDocument(items: seq<WalkItem>, id: string, decode: Decoder): (r: Result<string, string>)
    ensures NoneSelected(items, id) ==> r == Failure(NotFoundMessage(id))
    ensures forall k :: IsFirstSelected(items, id, k) ==> r == OpenDocument(items[k].entry, decode)
  {
    if items == [] then
      Failure(NotFoundMessage(id))
    else if Selects(items[0], id) then
      SelectedAtHead(items, id);
      OpenDocument(items[0].entry, decode)
    else
      SkipUnselected(items, id);
      ViewDocument(items[1..], id, decode)
  }

  /** `run_view_command` as the loop it is: scan the walk, stop at the first
      Markdown file with stem `id`, and return its body or its read error;
      report not-found after the last item. */
  method RunView(items: seq<WalkItem>, id: string, decode: Decoder) returns (r: Result<string, string>)
    ensures r == ViewDocument(items, id, decode)
  {
    var i := 0;
    while i < |items|
      invariant 0 <= i <= |items|
      invariant NoneSelected(items[..i], id)
    {
      var item := items[i];
      if item.Visited? {
        var e := item.entry;
        if e.isFile && e.extension == Some(MarkdownExtension) && e.stem == id {
          assert IsFirstSelected(items, id, i);
          match e.contents
          case Failure(ioError) =>
            return Failure(ReadFailureMessage(ioError));
          case Success(content) =>
            var p := ParseDocument(content, decode);
            return Success(p.body);
        }
      }
      assert items[..i + 1][..i] == items[..i];
      i := i + 1;
    }
    assert items[..i] == items;
    return Failure(NotFoundMessage(id));
  }
}
