/** Choosing a document's display title (`extract_title` in src/main.rs):
    the front-matter title, else a level-one heading on the first line of
    the body, else the file stem. */
module Title {
  import opened Wrappers
  import opened Text
  import opened FrontMatter

  const HeadingMarker: string := "# "

  /** The front matter carries a `title` key. */
  predicate HasMetadataTitle(fm: Option<Frontmatter>) {
    fm.Some? && fm.value.title.Some?
  }

  /** The body's first line starts with the level-one heading marker "# ". */
  predicate HasHeadingLine(body: string) {
    var line := FirstLine(body);
    line.Some? && StartsWith(line.value, HeadingMarker)
  }

  /** `extract_title`: the first of the three sources that applies. A
      front-matter title is returned verbatim, even when it is empty; a
      heading line loses every leading repetition of "# "; otherwise the
      stem is the title. */
  function ExtractTitle(fm: Option<Frontmatter>, body: string, stem: string): (r: string)
    ensures HasMetadataTitle(fm) ==> r == fm.value.title.value
    ensures !HasMetadataTitle(fm) && HasHeadingLine(body) ==>
      var line := FirstLine(body).value;
      && IsSuffix(r, line)
      && |r| <= |line| - |HeadingMarker|
      && (|line| - |r|) % 2 == 0
      && !StartsWith(r, HeadingMarker)
      && forall i :: 0 <= i < |line| - |r| ==> line[i] == (if i % 2 == 0 then '#' else ' ')
    ensures !HasMetadataTitle(fm) && !HasHeadingLine(body) ==> r == stem
  {
    if HasMetadataTitle(fm) then
      fm.value.title.value
    else if HasHeadingLine(body) then
      TrimHeadingMarkers(FirstLine(body).value)
    else
      stem
  }

  /** A first line that ends at '\n' is read back exactly, provided it holds
      no '\n' and does not end in the '\r' of a "\r\n" pair. */
  lemma {:induction false} FirstLineOfJoin(line: string, rest: string)
    requires '\n' !in line
    requires line == [] || line[|line| - 1] != '\r'
    ensures FirstLine(line + "\n" + rest) == Some(line)
  {
    var s := line + "\n" + rest;
    assert s[..|line|] == line;
    assert s[|line|] == '\n';
  }

  /** A text with no '\n' at all is its own first line. */
  lemma FirstLineWithoutBreak(s: string)
    requires s != [] && '\n' !in s
    ensures FirstLine(s) == Some(s)
  {
  }

  /** "# " followed by text with no '\n' is a one-line heading. */
  lemma HeadingLineHasNoBreak(t: string)
    requires '\n' !in t
    ensures '\n' !in HeadingMarker + t
  {
    var line := HeadingMarker + t;
    forall i | 0 <= i < |line| ensures line[i] != '\n' {
      if i >= 2 {
        assert line[i] == t[i - 2];
      }
    }
  }

  /** Stripping markers from "# " + t gives t back when t itself does not
      start with "# ". */
  lemma StripOneMarker(t: string)
    requires !StartsWith(t, HeadingMarker)
    ensures TrimHeadingMarkers(HeadingMarker + t) == t
  {
    var line := HeadingMarker + t;
    assert line[..2] == HeadingMarker;
    assert line[2..] == t;
  }

  /** Heading round trip: a body whose first line is "# " followed by text
      `t` (which does not itself start with "# ") has title `t`, whatever
      the stem and whatever follows the line, as long as the front matter
      names no title. */
  lemma {:induction false} HeadingTitleRoundTrip(fm: Option<Frontmatter>, t: string, rest: string, stem: string)
    requires !HasMetadataTitle(fm)
    requires '\n' !in t
    requires t == [] || t[|t| - 1] != '\r'
    requires !StartsWith(t, HeadingMarker)
    ensures ExtractTitle(fm, HeadingMarker + t + "\n" + rest, stem) == t
  {
    var line := HeadingMarker + t;
    HeadingLineHasNoBreak(t);
    assert line == [] || line[|line| - 1] != '\r';
    FirstLineOfJoin(line, rest);
    assert StartsWith(line, HeadingMarker) by {
      assert line[..2] == HeadingMarker;
    }
    StripOneMarker(t);
  }

  /** The front-matter title wins over everything, verbatim. */
  lemma MetadataTitleWins(t: string, body: string, stem: string)
    ensures ExtractTitle(Some(Frontmatter(Some(t))), body, stem) == t
  {
  }

  /** An empty body has no first line, so the stem is the title. */
  lemma EmptyBodyGivesStem(fm: Option<Frontmatter>, stem: string)
    requires !HasMetadataTitle(fm)
    ensures ExtractTitle(fm, "", stem) == stem
  {
  }

  /** A first line that is a bare "#", or any heading of level two or more
      ("## ..."), is not a title line, so the stem is the title. */
  lemma {:induction false} NonHeadingFirstLineGivesStem(fm: Option<Frontmatter>, body: string, stem: string)
    requires !HasMetadataTitle(fm)
    requires body == "#" || StartsWith(body, "#\n") || StartsWith(body, "##")
    ensures ExtractTitle(fm, body, stem) == stem
  {
    var line := FirstLine(body).value;
    assert StartsWith(body, line);
    if |line| >= 2 {
      assert line[1] == body[1] != ' ';
      assert line[..2] != HeadingMarker;
    }
    assert !StartsWith(line, HeadingMarker);
  }

  /** Every leading "# " is stripped, not just the first: a first line
      "# # t" has title `t`. */
  lemma {:induction false} RepeatedMarkersAllStripped(fm: Option<Frontmatter>, t: string, rest: string, stem: string)
    requires !HasMetadataTitle(fm)
    requires '\n' !in t
    requires t == [] || t[|t| - 1] != '\r'
    requires !StartsWith(t, HeadingMarker)
    ensures ExtractTitle(fm, HeadingMarker + (HeadingMarker + t) + "\n" + rest, stem) == t
  {
    var inner := HeadingMarker + t;
    var line := HeadingMarker + inner;
    HeadingLineHasNoBreak(t);
    HeadingLineHasNoBreak(inner);
    assert line == [] || line[|line| - 1] != '\r';
    FirstLineOfJoin(line, rest);
    assert line[..2] == HeadingMarker && line[2..] == inner;
    StripOneMarker(t);
  }

  /** A heading line with nothing after the marker gives the empty title. */
  lemma EmptyHeadingGivesEmptyTitle(fm: Option<Frontmatter>, rest: string, stem: string)
    requires !HasMetadataTitle(fm)
    ensures ExtractTitle(fm, HeadingMarker + "\n" + rest, stem) == ""
  {
    assert HeadingMarker + "\n" + rest == HeadingMarker + "" + "\n" + rest;
    HeadingTitleRoundTrip(fm, "", rest, stem);
  }
}
