/** Worked examples: concrete documents and what the model gives for them. */
module Scenarios {
  import opened Wrappers
  import opened Text
  import opened FrontMatter
  import opened Title
  import opened Commands

  const HelloYaml: string := "title: \"Hello World\"\n"
  const HelloBody: string := "Body text here.\n"

  /** A readable Markdown file. */
  function MarkdownFile(stem: string, fileName: string, content: string): (item: WalkItem)
    ensures IsListed(item)
  {
    Visited(Entry(true, Some(MarkdownExtension), stem, fileName, Success(content)))
  }

  /** The example YAML holds no "---", not even where it meets the closing
      delimiter. */
  lemma HelloYamlHasNoDelimiter()
    ensures forall j :: 0 <= j < |HelloYaml| ==> !OccursAt(HelloYaml + Delimiter, Delimiter, j)
  {
    forall j | 0 <= j < |HelloYaml|
      ensures !OccursAt(HelloYaml + Delimiter, Delimiter, j)
    {
      assert (HelloYaml + Delimiter)[j] == HelloYaml[j] != '-';
    }
  }

  /** The example file: the block above, then "Body text here.". */
  const HelloContent: string := (Delimiter + "\n") + (HelloYaml + Delimiter) + ("\n" + HelloBody)

  /** The example file parses into the "Hello World" title and the text
      after the block. */
  lemma HelloWorldParses(decode: Decoder)
    requires decode(HelloYaml) == Some(Frontmatter(Some("Hello World")))
    ensures ParseDocument(HelloContent, decode) == Parsed(Some(Frontmatter(Some("Hello World"))), HelloBody)
  {
    HelloYamlHasNoDelimiter();
    FrontMatterRoundTrip(HelloYaml, HelloBody, decode);
  }

  /** A file with a "Hello World" front-matter title is listed under that
      title. */
  lemma HelloWorldIsListed(decode: Decoder)
    requires decode(HelloYaml) == Some(Frontmatter(Some("Hello World")))
    ensures ListDocuments([MarkdownFile("hello", "hello.md", HelloContent)], decode) ==
      [Document("hello", "Hello World", "hello.md")]
  {
    HelloWorldParses(decode);
    var item := MarkdownFile("hello", "hello.md", HelloContent);
    ListedUnderMetadataTitle(item.entry, decode, "Hello World");
  }

  /** "# My Doc\nSome text" has no front matter and the title "My Doc". */
  lemma HeadingScenarioTitle(decode: Decoder)
    ensures ParseDocument("# My Doc\nSome text", decode) == Parsed(None, "# My Doc\nSome text")
    ensures ExtractTitle(None, "# My Doc\nSome text", "notes") == "My Doc"
  {
    var content := "# My Doc\nSome text";
    assert content[..3] == "# M";
    assert "My Doc"[..2] == "My";
    assert content == HeadingMarker + "My Doc" + "\n" + "Some text";
    HeadingTitleRoundTrip(None, "My Doc", "Some text", "notes");
  }

  /** "# My Doc\nSome text" in notes.md is listed with id "notes" and title
      "My Doc". */
  lemma HeadingScenario(decode: Decoder)
    ensures ListDocuments([MarkdownFile("notes", "notes.md", "# My Doc\nSome text")], decode) ==
      [Document("notes", "My Doc", "notes.md")]
  {
    var item := MarkdownFile("notes", "notes.md", "# My Doc\nSome text");
    HeadingScenarioTitle(decode);
    assert ToDocument(item.entry, decode) == Document("notes", "My Doc", "notes.md");
    ListSingle(item, decode);
  }

  /** "Just text." has no front matter. */
  lemma PlainScenarioParses(decode: Decoder)
    ensures ParseDocument("Just text.", decode) == Parsed(None, "Just text.")
  {
    assert "Just text."[..3] == "Jus";
  }

  /** "Just text." has no heading and takes the stem as its title. */
  lemma PlainScenarioTitle(stem: string)
    ensures ExtractTitle(None, "Just text.", stem) == stem
  {
    assert '\n' !in "Just text.";
    FirstLineWithoutBreak("Just text.");
    assert "Just text."[..2] == "Ju";
  }

  /** "Just text." in plain.md falls back to the stem "plain". */
  lemma PlainScenario(decode: Decoder)
    ensures ListDocuments([MarkdownFile("plain", "plain.md", "Just text.")], decode) ==
      [Document("plain", "plain", "plain.md")]
  {
    var item := MarkdownFile("plain", "plain.md", "Just text.");
    PlainScenarioParses(decode);
    PlainScenarioTitle("plain");
    assert ToDocument(item.entry, decode) == Document("plain", "plain", "plain.md");
    ListSingle(item, decode);
  }

  /** Viewing an id that no Markdown file has fails with a message that
      names the id. */
  lemma {:induction false} ViewOfMissingIdNamesIt(items: seq<WalkItem>, id: string, decode: Decoder)
    requires NoneSelected(items, id)
    ensures var r := ViewDocument(items, id, decode);
      r.Failure? && OccursAt(r.error, id, 18)
  {
  }
}
