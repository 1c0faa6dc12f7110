/** Trailing-whitespace handling used to decide whether two adjacent lines
    are "the same line": Rust's `str::trim_end`, which strips every trailing
    character that `char::is_whitespace` accepts. */
module Text {

  /** Rust's `char::is_whitespace`: the Unicode White_Space property.
      It covers the line terminators `\n` and `\r` as well as tab and space. */
  predicate IsWs(c: char) {
    ('\t' <= c <= '\r')   // tab, line feed, vertical tab, form feed, carriage return
    || c == ' '
    || c == '\U{85}'      // next line
    || c == '\U{A0}'      // no-break space
    || c == '\U{1680}'    // ogham space mark
    || ('\U{2000}' <= c <= '\U{200A}')
    || c == '\U{2028}'    // line separator
    || c == '\U{2029}'    // paragraph separator
    || c == '\U{202F}'    // narrow no-break space
    || c == '\U{205F}'    // medium mathematical space
    || c == '\U{3000}'    // ideographic space
  }

  predicate AllWs(s: string) {
    forall i :: 0 <= i < |s| ==> IsWs(s[i])
  }

  /** `s.trim_end()`: drops whitespace characters from the end, one at a
      time, until the last character is not whitespace. */
  function TrimEnd(s: string): string
    decreases |s|
  {
    if |s| > 0 && IsWs(s[|s| - 1]) then TrimEnd(s[..|s| - 1]) else s
  }

  /** What `TrimEnd` returns: the longest prefix of `s` that does not end in
      whitespace; everything cut off is whitespace. */
  lemma {:induction false} TrimEndShape(s: string)
    ensures |TrimEnd(s)| <= |s| && TrimEnd(s) == s[..|TrimEnd(s)|]
    ensures AllWs(s[|TrimEnd(s)|..])
    ensures TrimEnd(s) == [] || !IsWs(TrimEnd(s)[|TrimEnd(s)| - 1])
    decreases |s|
  {
    if |s| > 0 && IsWs(s[|s| - 1]) {
      var init := s[..|s| - 1];
      TrimEndShape(init);
      var r := TrimEnd(init);
      assert s[|r|..] == init[|r|..] + [s[|s| - 1]];
    } else {
      assert s[..|s|] == s;
    }
  }

  /** The comparison at src/lib.rs:90: two lines are the same line when
      they agree once trailing whitespace is removed. */
  predicate SameLine(a: string, b: string) {
    TrimEnd(a) == TrimEnd(b)
  }

  /** The three properties in TrimEnd's contract determine its result:
      any split of `s` into a prefix not ending in whitespace and a
      whitespace suffix yields exactly `TrimEnd(s)`. */
  lemma TrimEndUnique(s: string, p: string)
    requires |p| <= |s| && p == s[..|p|]
    requires AllWs(s[|p|..])
    requires p == [] || !IsWs(p[|p| - 1])
    ensures TrimEnd(s) == p
  {
    TrimEndShape(s);
  }

  /** Trailing whitespace of any kind (a space, `\n`, `\r\n`) does not
      change the trimmed form: `s` and `s + w` are the same line. */
  lemma TrimEndIgnoresTrailingWs(s: string, w: string)
    requires AllWs(w)
    ensures TrimEnd(s + w) == TrimEnd(s)
  {
    TrimEndShape(s);
    var p := TrimEnd(s);
    assert (s + w)[..|p|] == p;
    assert (s + w)[|p|..] == s[|p|..] + w;
    TrimEndUnique(s + w, p);
  }

  /** Trimming twice trims nothing more. */
  lemma TrimEndIdempotent(s: string)
    ensures TrimEnd(TrimEnd(s)) == TrimEnd(s)
  {
    TrimEndShape(s);
    var p := TrimEnd(s);
    assert p[..|p|] == p;
    assert p[|p|..] == [];
    TrimEndUnique(p, p);
  }

  /** A line whose last character is not whitespace is its own trimmed form,
      so lines differing in any non-trailing-whitespace character differ. */
  lemma TrimEndKeepsContent(s: string)
    requires s == [] || !IsWs(s[|s| - 1])
    ensures TrimEnd(s) == s
  {
    assert s[..|s|] == s;
    assert s[|s|..] == [];
    TrimEndUnique(s, s);
  }
}
