/** The count prefix of an output record: `format_field` at src/lib.rs:58-64,
    which renders `format!("{:>4} ", value)` when counts are shown and the
    empty string otherwise. Decimal rendering and right-alignment are
    written out here; `ParseRecord` reads a record back and serves as the
    inverse that shows nothing of the count is lost. */
module Field {

  datatype Option<T> = None | Some(value: T)

  /** The minimum field width of `{:>4}`. */
  const Width: nat := 4

  predicate IsDigit(c: char) {
    '0' <= c <= '9'
  }

  predicate AllDigits(s: string) {
    forall i :: 0 <= i < |s| ==> IsDigit(s[i])
  }

  function DigitChar(d: nat): (c: char)
    requires d < 10
    ensures IsDigit(c) && c as int - '0' as int == d
  {
    ('0' as int + d) as char
  }

  /** Decimal digits of `n`, most significant first, without leading zeros. */
  function Digits(n: nat): (s: string)
    ensures |s| >= 1 && AllDigits(s)
    ensures s[0] != '0' || n == 0
    decreases n
  {
    if n < 10 then [DigitChar(n)] else Digits(n / 10) + [DigitChar(n % 10)]
  }

  /** The number a string of decimal digits denotes. */
  function Value(s: string): nat
    requires AllDigits(s)
    decreases |s|
  {
    if s == [] then 0 else Value(s[..|s| - 1]) * 10 + (s[|s| - 1] as int - '0' as int)
  }

  /** Reading the digits back gives the number: decimal rendering loses nothing. */
  lemma {:induction false} ValueOfDigits(n: nat)
    ensures Value(Digits(n)) == n
    decreases n
  {
    if n >= 10 {
      ValueOfDigits(n / 10);
      var d := Digits(n);
      assert d[..|d| - 1] == Digits(n / 10);
    }
  }

  function Pow10(k: nat): (p: nat)
    ensures p >= 1
  {
    if k == 0 then 1 else 10 * Pow10(k - 1)
  }

  /** `n` has at most `k` digits exactly when it is below 10^k. */
  lemma {:induction false} DigitsFit(n: nat, k: nat)
    requires k >= 1
    ensures |Digits(n)| <= k <==> n < Pow10(k)
    decreases n
  {
    if n >= 10 && k >= 2 {
      DigitsFit(n / 10, k - 1);
    }
  }

  function Spaces(n: nat): string {
    seq(n, _ => ' ')
  }

  /** Right-alignment `{:>w}`: spaces in front up to width `w`; a longer
      string is kept whole, never cut. */
  function PadLeft(s: string, w: nat): (r: string)
    ensures |r| == if |s| < w then w else |s|
    ensures r[|r| - |s|..] == s
    ensures forall i :: 0 <= i < |r| - |s| ==> r[i] == ' '
  {
    if |s| < w then Spaces(w - |s|) + s else s
  }

  /** `format_field(value, show)`. */
  function FormatField(value: nat, show: bool): string {
    if show then PadLeft(Digits(value), Width) + " " else ""
  }

  /** With counts on, the field is the count's digits right-aligned in at
      least `Width` characters, then one space (src/lib.rs:59-60). */
  lemma FieldShape(value: nat)
    ensures var r, d := FormatField(value, true), Digits(value);
      && |r| == (if |d| < Width then Width else |d|) + 1
      && r[|r| - 1] == ' '
      && r[|r| - 1 - |d|..|r| - 1] == d
      && forall i :: 0 <= i < |r| - 1 - |d| ==> r[i] == ' '
  {
    var r, d := FormatField(value, true), Digits(value);
    assert r[..|r| - 1] == PadLeft(d, Width);
  }

  /** With counts off the field is empty (src/lib.rs:61-62). */
  lemma FieldHiddenIsEmpty(value: nat)
    ensures FormatField(value, false) == ""
  {
  }

  /** With counts on, a count below 10000 fills a field of exactly four
      characters plus the separating space; a larger count widens the field
      to all its digits rather than being cut (src/lib.rs:59-60). */
  lemma FieldWidth(value: nat)
    ensures |FormatField(value, true)| == 5 <==> value < 10000
    ensures value >= 10000 ==> |FormatField(value, true)| == |Digits(value)| + 1
  {
    FieldShape(value);
    DigitsFit(value, 4);
    assert Pow10(4) == 10000;
  }

  /** Number of leading spaces of `s`. */
  function LeadingSpaces(s: string): (n: nat)
    ensures n <= |s| && (forall i :: 0 <= i < n ==> s[i] == ' ')
    ensures n == |s| || s[n] != ' '
    decreases |s|
  {
    if s != [] && s[0] == ' ' then 1 + LeadingSpaces(s[1..]) else 0
  }

  /** Number of leading decimal digits of `s`. */
  function LeadingDigits(s: string): (n: nat)
    ensures n <= |s| && AllDigits(s[..n])
    ensures n == |s| || !IsDigit(s[n])
    decreases |s|
  {
    if s != [] && IsDigit(s[0]) then
      var n := 1 + LeadingDigits(s[1..]);
      assert s[..n] == [s[0]] + s[1..][..n - 1];
      n
    else
      0
  }

  /** Reads a record written with counts shown: optional spaces, at least
      one digit, one space, then the line's text. */
  function ParseRecord(s: string): Option<(nat, string)> {
    var t := s[LeadingSpaces(s)..];
    var d := LeadingDigits(t);
    if d == 0 || d == |t| || t[d] != ' ' then None
    else Some((Value(t[..d]), t[d + 1..]))
  }

  /** Spaces in front of a string that does not start with one are all counted. */
  lemma {:induction false} LeadingSpacesOf(n: nat, t: string)
    requires t == [] || t[0] != ' '
    ensures LeadingSpaces(Spaces(n) + t) == n
  {
    if n > 0 {
      LeadingSpacesOf(n - 1, t);
      assert (Spaces(n) + t)[1..] == Spaces(n - 1) + t;
    }
  }

  /** Digits in front of a string that does not start with one are all counted. */
  lemma LeadingDigitsOf(d: string, t: string)
    requires AllDigits(d)
    requires t == [] || !IsDigit(t[0])
    ensures LeadingDigits(d + t) == |d|
  {
    var s := d + t;
    assert s[..|d|] == d;
  }

  /** A record is read back whatever the padding and the digits: spaces,
      then digits, then one space, then the text. */
  lemma ParseLaidOut(n: nat, d: string, text: string)
    requires |d| >= 1 && AllDigits(d)
    ensures ParseRecord(Spaces(n) + (d + (" " + text))) == Some((Value(d), text))
  {
    var t := d + (" " + text);
    var s := Spaces(n) + t;
    LeadingSpacesOf(n, t);
    assert s[n..] == t;
    LeadingDigitsOf(d, " " + text);
    ParseAfterCounts(s, n, d, text);
  }

  /** Once the spaces and digits in front are counted, the parse is fixed. */
  lemma ParseAfterCounts(s: string, n: nat, d: string, text: string)
    requires AllDigits(d)
    requires |d| >= 1 && LeadingSpaces(s) == n && s[n..] == d + (" " + text)
    requires LeadingDigits(d + (" " + text)) == |d|
    ensures ParseRecord(s) == Some((Value(d), text))
  {
    var t := d + (" " + text);
    assert t[|d|] == ' ';
    assert t[..|d|] == d;
    assert t[|d| + 1..] == text;
  }

  /** The field with counts on, laid out: padding, digits, one space. */
  lemma FieldLaidOut(value: nat)
    ensures var d := Digits(value);
      FormatField(value, true) == Spaces(if |d| < Width then Width - |d| else 0) + d + " "
  {
    var d := Digits(value);
    if |d| >= Width {
      assert Spaces(0) + d == d;
    }
  }

  /** `format_field(count, true)` followed by any text reads back as the
      count and the text: the field is a faithful, uncut decimal count and
      the text is untouched. */
  lemma RecordRoundTrip(count: nat, text: string)
    ensures ParseRecord(FormatField(count, true) + text) == Some((count, text))
  {
    var d := Digits(count);
    var n: nat := if |d| < Width then Width - |d| else 0;
    FieldLaidOut(count);
    assert FormatField(count, true) + text == Spaces(n) + (d + (" " + text));
    ParseLaidOut(n, d, text);
    ValueOfDigits(count);
  }
}
