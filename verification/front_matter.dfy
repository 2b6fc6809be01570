/** Splitting a document into its YAML front-matter block and its Markdown
    body (`parse_document` in src/main.rs).

    A document may open with "---", one more character (normally the line
    break), the YAML text, and a closing "---". The YAML decoder itself is
    not modelled: it is passed in as `decode`, which yields `None` for any
    text it rejects and `Some(fm)` for the decoded record otherwise. */
module FrontMatter {
  import opened Wrappers
  import opened Text

  /** The one recognised front-matter key, `title`, which may be absent. */
  datatype Frontmatter = Frontmatter(title: Option<string>)

  /** The YAML decoder: `None` is a decode error. */
  type Decoder = string -> Option<Frontmatter>

  /** What `parse_document` returns: the decoded front matter, if any, and
      the text to treat as the body. */
  datatype Parsed = Parsed(frontmatter: Option<Frontmatter>, body: string)

  const Delimiter: string := "---"

  /** The offset after the opening delimiter and the one character that
      follows it, where the search for the closing delimiter starts. */
  const BlockStart: nat := 4

  /** `content.get(4..).unwrap_or("")`: the text after offset 4, or the empty
      string when the content is too short to have an offset 4. */
  function TailAfterOpening(content: string): (r: string)
    ensures forall j :: 0 <= j ==>
      (OccursAt(r, Delimiter, j) <==> OccursAt(content, Delimiter, j + BlockStart))
  {
    if |content| >= BlockStart then
      assert forall j :: 0 <= j ==>
        (OccursAt(content[BlockStart..], Delimiter, j) <==> OccursAt(content, Delimiter, j + BlockStart)) by {
        forall j | 0 <= j
          ensures OccursAt(content[BlockStart..], Delimiter, j) <==> OccursAt(content, Delimiter, j + BlockStart)
        {
          ShiftOccurrence(content, j + BlockStart);
        }
      }
      content[BlockStart..]
    else
      ""
  }

  /** A closing delimiter at absolute index `q`: it lies at or after offset 4
      and no earlier one does. */
  predicate IsClosingAt(content: string, q: int) {
    && BlockStart <= q
    && OccursAt(content, Delimiter, q)
    && forall j :: BlockStart <= j < q ==> !OccursAt(content, Delimiter, j)
  }

  /** `parse_document`: splits `content` into front matter and body. Every
      way of failing (no opening delimiter, no closing delimiter, a decode
      error) gives back no front matter and the whole content as the body. */
  function ParseDocument(content: string, decode: Decoder): (r: Parsed)
    ensures !StartsWith(content, Delimiter) ==> r == Parsed(None, content)
    ensures r.frontmatter.None? ==> r.body == content
    ensures r.frontmatter.Some? ==> StartsWith(content, Delimiter)
    ensures r.frontmatter.Some? ==> r.body == [] || !IsWhitespace(r.body[0])
  {
    if StartsWith(content, Delimiter) then
      match Find(TailAfterOpening(content), Delimiter)
      case Some(endPos) =>
        assert OccursAt(content[BlockStart..], Delimiter, endPos);
        var yaml := content[BlockStart..endPos + BlockStart];
        var rest := content[endPos + BlockStart + |Delimiter|..];
        (match decode(yaml)
         case Some(fm) => Parsed(Some(fm), TrimStart(rest))
         case None => Parsed(None, content))
      case None =>
        Parsed(None, content)
    else
      Parsed(None, content)
  }

  /** Whatever happens, the body `parse_document` returns is a suffix of
      the content. */
  lemma BodyIsSuffix(content: string, decode: Decoder)
    ensures IsSuffix(ParseDocument(content, decode).body, content)
  {
    if StartsWith(content, Delimiter) {
      match Find(TailAfterOpening(content), Delimiter)
      case None =>
      case Some(endPos) =>
        FoundClosingSplits(content, decode, endPos);
        var body := ParseDocument(content, decode).body;
        if decode(content[BlockStart..BlockStart + endPos]).Some? {
          var rest := content[BlockStart + endPos + |Delimiter|..];
          assert IsSuffix(rest, content);
          SuffixTransitive(TrimStart(rest), rest, content);
        }
    }
  }

  /** An occurrence at absolute index `j >= 4` is an occurrence at `j - 4`
      in the tail after offset 4. */
  lemma ShiftOccurrence(content: string, j: int)
    requires BlockStart <= |content| && BlockStart <= j
    ensures OccursAt(content, Delimiter, j) <==> OccursAt(content[BlockStart..], Delimiter, j - BlockStart)
  {
    if j + |Delimiter| <= |content| {
      assert content[BlockStart..][j - BlockStart..j - BlockStart + |Delimiter|] == content[j..j + |Delimiter|];
    }
  }

  /** Relative and absolute offsets agree: `find` on the tail after offset 4
      reports `p` exactly when the first closing delimiter is at `p + 4`. */
  lemma {:induction false} FindInTail(content: string, q: int)
    requires |content| >= BlockStart
    ensures IsClosingAt(content, q) <==> Find(TailAfterOpening(content), Delimiter) == Some(q - BlockStart)
  {
    var tail := TailAfterOpening(content);
    match Find(tail, Delimiter)
    case None =>
      if BlockStart <= q {
        ShiftOccurrence(content, q);
      }
    case Some(p) =>
      ShiftOccurrence(content, p + BlockStart);
      if p == q - BlockStart {
        forall j | BlockStart <= j < q
          ensures !OccursAt(content, Delimiter, j)
        {
          ShiftOccurrence(content, j);
        }
      }
      if IsClosingAt(content, q) {
        ShiftOccurrence(content, q);
      }
  }

  /** Content that opens with "---" but has no "---" at or after offset 4
      (which includes every content shorter than 4 characters) has no front
      matter and is returned unchanged. */
  lemma {:induction false} UnclosedBlockIsBody(content: string, decode: Decoder)
    requires StartsWith(content, Delimiter)
    requires forall q :: BlockStart <= q ==> !OccursAt(content, Delimiter, q)
    ensures ParseDocument(content, decode) == Parsed(None, content)
  {
    if |content| >= BlockStart {
      var tail := TailAfterOpening(content);
      match Find(tail, Delimiter)
      case None =>
      case Some(p) =>
        FindInTail(content, p + BlockStart);
        assert false;
    }
  }

  /** Once `find` on the tail reports `endPos`, the YAML text is
      `content[4..endPos + 4]` and the candidate body `content[endPos + 7..]`. */
  lemma FoundClosingSplits(content: string, decode: Decoder, endPos: nat)
    requires StartsWith(content, Delimiter)
    requires Find(TailAfterOpening(content), Delimiter) == Some(endPos)
    ensures BlockStart + endPos + |Delimiter| <= |content|
    ensures decode(content[BlockStart..BlockStart + endPos]).None? ==>
      ParseDocument(content, decode) == Parsed(None, content)
    ensures decode(content[BlockStart..BlockStart + endPos]).Some? ==>
      ParseDocument(content, decode) ==
        Parsed(decode(content[BlockStart..BlockStart + endPos]),
               TrimStart(content[BlockStart + endPos + |Delimiter|..]))
  {
    assert |content| >= BlockStart;
  }

  /** With the first closing delimiter at absolute index `q`, the YAML text
      is exactly `content[4..q]` and the body comes from `content[q + 3..]`:
      a decode error gives back the whole content, a successful decode gives
      that text with its leading whitespace removed. */
  lemma {:induction false} ClosedBlockSplits(content: string, decode: Decoder, q: nat)
    requires StartsWith(content, Delimiter)
    requires IsClosingAt(content, q)
    ensures decode(content[BlockStart..q]).None? ==>
      ParseDocument(content, decode) == Parsed(None, content)
    ensures decode(content[BlockStart..q]).Some? ==>
      ParseDocument(content, decode) ==
        Parsed(decode(content[BlockStart..q]), TrimStart(content[q + |Delimiter|..]))
  {
    FindInTail(content, q);
    FoundClosingSplits(content, decode, q - BlockStart);
  }

  /** Whatever follows a successfully decoded block is the body, up to
      leading whitespace: the body is `content[q + 3..]` with only whitespace
      characters removed from its front. */
  lemma {:induction false} DecodedBodyIsRestTrimmed(content: string, decode: Decoder, q: nat)
    requires StartsWith(content, Delimiter)
    requires IsClosingAt(content, q)
    requires decode(content[BlockStart..q]).Some?
    ensures var rest := content[q + |Delimiter|..];
      var body := ParseDocument(content, decode).body;
      && IsSuffix(body, rest)
      && forall i :: 0 <= i < |rest| - |body| ==> IsWhitespace(rest[i])
  {
    ClosedBlockSplits(content, decode, q);
  }

  /** In "---\n" + yaml + "---" + tail, the first closing delimiter is
      the one right after `yaml` when `yaml + "---"` has no earlier "---". */
  lemma {:induction false} ClosingAfterYaml(yaml: string, tail: string)
    requires forall j :: 0 <= j < |yaml| ==> !OccursAt(yaml + Delimiter, Delimiter, j)
    ensures var content := (Delimiter + "\n") + (yaml + Delimiter) + tail;
      && StartsWith(content, Delimiter)
      && IsClosingAt(content, BlockStart + |yaml|)
  {
    var head := Delimiter + "\n";
    var block := yaml + Delimiter;
    var content := head + block + tail;
    var q := BlockStart + |yaml|;
    assert content[..|Delimiter|] == Delimiter;
    assert content[BlockStart..q + |Delimiter|] == block;
    forall j | BlockStart <= j < q
      ensures !OccursAt(content, Delimiter, j)
    {
      assert content[j..j + |Delimiter|] == block[j - BlockStart..j - BlockStart + |Delimiter|];
      assert !OccursAt(block, Delimiter, j - BlockStart);
    }
    assert content[q..q + |Delimiter|] == block[|yaml|..];
  }

  /** Where the pieces of a written front-matter block sit. */
  lemma BlockSlices(yaml: string, tail: string)
    ensures var content := (Delimiter + "\n") + (yaml + Delimiter) + tail;
      && content[BlockStart..BlockStart + |yaml|] == yaml
      && content[BlockStart + |yaml| + |Delimiter|..] == tail
  {
    var content := (Delimiter + "\n") + (yaml + Delimiter) + tail;
    assert content[BlockStart..BlockStart + |yaml|] == yaml;
    assert content[BlockStart + |yaml| + |Delimiter|..] == tail;
  }

  /** The line break after the closing delimiter is trimmed away, and
      nothing more when the body starts with something else. */
  lemma TrimLeadingBreak(body: string)
    requires body == [] || !IsWhitespace(body[0])
    ensures TrimStart("\n" + body) == body
  {
    assert ("\n" + body)[1..] == body;
  }

  /** Writing a front-matter block and reading it back: "---", a line
      break, YAML text with no "---" of its own, "---", a line break and a
      body that does not start with whitespace parse back to the decoded
      YAML and exactly that body. */
  lemma {:induction false} FrontMatterRoundTrip(yaml: string, body: string, decode: Decoder)
    requires forall j :: 0 <= j < |yaml| ==> !OccursAt(yaml + Delimiter, Delimiter, j)
    requires decode(yaml).Some?
    requires body == [] || !IsWhitespace(body[0])
    ensures ParseDocument((Delimiter + "\n") + (yaml + Delimiter) + ("\n" + body), decode) ==
      Parsed(decode(yaml), body)
  {
    var tail := "\n" + body;
    var content := (Delimiter + "\n") + (yaml + Delimiter) + tail;
    ClosingAfterYaml(yaml, tail);
    BlockSlices(yaml, tail);
    TrimLeadingBreak(body);
    ClosedBlockSplits(content, decode, BlockStart + |yaml|);
  }
}
