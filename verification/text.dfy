/** The string primitives of Rust's `str` that the document parser relies on:
    `starts_with`, `find`, `trim_start`, `trim_start_matches` and the first
    item of `lines()`. Strings are sequences of Unicode scalar values. */
module Text {
  import opened Wrappers

  /** `s` begins with `prefix`. */
  predicate StartsWith(s: string, prefix: string) {
    |prefix| <= |s| && s[..|prefix|] == prefix
  }

  /** `suffix` is what remains of `s` after dropping some leading characters. */
  predicate IsSuffix(suffix: string, s: string) {
    |suffix| <= |s| && s[|s| - |suffix|..] == suffix
  }

  /** A suffix of a suffix is a suffix. */
  lemma SuffixTransitive(a: string, b: string, c: string)
    requires IsSuffix(a, b) && IsSuffix(b, c)
    ensures IsSuffix(a, c)
  {
    assert c[|c| - |a|..] == c[|c| - |b|..][|b| - |a|..];
  }

  /** `pat` occurs in `s` starting at index `i`. */
  predicate OccursAt(s: string, pat: string, i: int) {
    0 <= i && i + |pat| <= |s| && s[i..i + |pat|] == pat
  }

  /** Rust's `char::is_whitespace`: the characters with the Unicode
      White_Space property. */
  predicate IsWhitespace(c: char) {
    var n := c as int;
    || 0x09 <= n <= 0x0D
    || n == 0x20
    || n == 0x85
    || n == 0xA0
    || n == 0x1680
    || 0x2000 <= n <= 0x200A
    || n == 0x2028
    || n == 0x2029
    || n == 0x202F
    || n == 0x205F
    || n == 0x3000
  }

  /** `str::find`: the index of the first occurrence of `pat` in `s`. */
  function Find(s: string, pat: string): (r: Option<nat>)
    ensures r.Some? ==> OccursAt(s, pat, r.value)
    ensures r.Some? ==> forall j :: 0 <= j < r.value ==> !OccursAt(s, pat, j)
    ensures r.None? ==> forall j :: 0 <= j ==> !OccursAt(s, pat, j)
    decreases |s|
  {
    if |s| < |pat| then
      None
    else if s[..|pat|] == pat then
      Some(0)
    else
      match Find(s[1..], pat)
      case None =>
        assert forall j :: 1 <= j ==> (OccursAt(s, pat, j) <==> OccursAt(s[1..], pat, j - 1));
        None
      case Some(p) =>
        assert forall j :: 1 <= j ==> (OccursAt(s, pat, j) <==> OccursAt(s[1..], pat, j - 1));
        Some(p + 1)
  }

  /** `str::trim_start`: `s` without its leading whitespace. */
  function TrimStart(s: string): (r: string)
    ensures IsSuffix(r, s)
    ensures r == [] || !IsWhitespace(r[0])
    ensures forall i :: 0 <= i < |s| - |r| ==> IsWhitespace(s[i])
  {
    if s != [] && IsWhitespace(s[0]) then TrimStart(s[1..]) else s
  }

  /** `str::trim_start_matches("# ")`: `s` with every leading repetition of
      the two-character marker "# " removed. */
  function TrimHeadingMarkers(s: string): (r: string)
    ensures IsSuffix(r, s)
    ensures !StartsWith(r, "# ")
    ensures (|s| - |r|) % 2 == 0
    ensures forall i :: 0 <= i < |s| - |r| ==> s[i] == (if i % 2 == 0 then '#' else ' ')
  {
    if StartsWith(s, "# ") then TrimHeadingMarkers(s[2..]) else s
  }

  /** The first item of `str::lines()`: `None` for the empty string, otherwise
      the text up to the first '\n', without a '\r' that immediately
      precedes that '\n'. A '\r' not followed by '\n' is kept. */
  function FirstLine(s: string): (r: Option<string>)
    ensures r.None? <==> s == []
    ensures r.Some? ==> StartsWith(s, r.value) && '\n' !in r.value
    ensures r.Some? ==>
      var l := r.value;
      || |l| == |s|
      || (s[|l|] == '\n' && (l == [] || l[|l| - 1] != '\r'))
      || (|l| + 1 < |s| && s[|l|] == '\r' && s[|l| + 1] == '\n')
  {
    if s == [] then
      None
    else
      match Find(s, "\n")
      case None =>
        assert forall i :: 0 <= i < |s| ==> s[i] != '\n' by {
          forall i | 0 <= i < |s| ensures s[i] != '\n' {
            assert !OccursAt(s, "\n", i);
          }
        }
        Some(s)
      case Some(i) =>
        var raw := s[..i];
        assert '\n' !in raw by {
          forall j | 0 <= j < i ensures raw[j] != '\n' {
            assert !OccursAt(s, "\n", j);
          }
        }
        if raw != [] && raw[|raw| - 1] == '\r' then Some(raw[..|raw| - 1]) else Some(raw)
  }
}
