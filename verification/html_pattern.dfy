/** The `pattern` attribute of the portal's text inputs. The WHATWG HTML
    Living Standard (section 4.10.5.3.6, "The pattern attribute") matches the
    pattern against the entire value and skips matching for an empty value.
    Every pattern used here is a sequence of bracketed character classes,
    each repeated between a minimum and a maximum number of times, so that is
    the regular-expression form modelled. */
module HtmlPattern {
  import opened JsValues

  /** A bracketed character class. */
  datatype CharClass =
    | Range(lo: char, hi: char)
    | Literal(c: char)
    | Whitespace
    | Union(left: CharClass, right: CharClass)

  /** `\s` of ECMAScript regular expressions: the WhiteSpace and
      LineTerminator characters. */
  predicate IsJsWhitespace(c: char) {
    var n := c as int;
    || 0x09 <= n <= 0x0D || n == 0x20 || n == 0xA0 || n == 0x1680
    || 0x2000 <= n <= 0x200A || n == 0x2028 || n == 0x2029 || n == 0x202F
    || n == 0x205F || n == 0x3000 || n == 0xFEFF
  }

  predicate InClass(cl: CharClass, c: char) {
    match cl
    case Range(lo, hi) => lo <= c <= hi
    case Literal(d) => c == d
    case Whitespace => IsJsWhitespace(c)
    case Union(l, r) => InClass(l, c) || InClass(r, c)
  }

  /** `class{min,max}`. */
  datatype Piece = Piece(cl: CharClass, min: nat, max: nat)

  type Pattern = seq<Piece>

  predicate AllIn(cl: CharClass, s: string) {
    forall i :: 0 <= i < |s| ==> InClass(cl, s[i])
  }

  /** The pieces, in order, consume exactly the whole string. */
  predicate FullMatch(p: Pattern, s: string)
    decreases |p|, 1
  {
    if p == [] then s == [] else TryCounts(p, s, p[0].min)
  }

  /** The first piece takes `k`, `k + 1`, ... up to its maximum characters,
      and the rest of the pattern matches what remains. */
  predicate TryCounts(p: Pattern, s: string, k: nat)
    requires p != []
    decreases |p|, 0, p[0].max - k
  {
    && k <= p[0].max
    && ((k <= |s| && AllIn(p[0].cl, s[..k]) && FullMatch(p[1..], s[k..]))
        || TryCounts(p, s, k + 1))
  }

  lemma {:induction false} TryCountsSpec(p: Pattern, s: string, k: nat)
    requires p != []
    ensures TryCounts(p, s, k) <==>
      exists n :: k <= n <= p[0].max && n <= |s| && AllIn(p[0].cl, s[..n]) && FullMatch(p[1..], s[n..])
    decreases p[0].max - k
  {
    if k <= p[0].max {
      TryCountsSpec(p, s, k + 1);
    }
  }

  /** A pattern with a single piece matches exactly the strings of allowed
      length drawn from its class. */
  lemma OnePieceMatch(cl: CharClass, min: nat, max: nat, s: string)
    ensures FullMatch([Piece(cl, min, max)], s) <==> min <= |s| <= max && AllIn(cl, s)
  {
    var p := [Piece(cl, min, max)];
    TryCountsSpec(p, s, min);
    assert p[1..] == [];
    if min <= |s| <= max && AllIn(cl, s) {
      assert s[..|s|] == s;
      assert s[|s|..] == [];
    }
  }

  /** The `pattern` attribute is satisfied: the value is empty, or the
      pattern matches all of it. */
  predicate SatisfiesPattern(p: Pattern, value: string) {
    value == "" || FullMatch(p, value)
  }

  const Digit := Range('0', '9')

  /** `[0-9A-Z]{10,12}`, the PRN field. */
  const PrnPattern: Pattern := [Piece(Union(Digit, Range('A', 'Z')), 10, 12)]

  /** `[0-9]{4}-[0-9]{4}`, the batch field. */
  const BatchPattern: Pattern := [Piece(Digit, 4, 4), Piece(Literal('-'), 1, 1), Piece(Digit, 4, 4)]

  /** `[0-9]{4}-[0-9]{2}`, the academic year field. */
  const AcademicYearPattern: Pattern := [Piece(Digit, 4, 4), Piece(Literal('-'), 1, 1), Piece(Digit, 2, 2)]

  /** `[0-9+\-\s]{10,15}`, the contact number field. */
  const ContactPattern: Pattern := [Piece(Union(Union(Digit, Literal('+')), Union(Literal('-'), Whitespace)), 10, 15)]

  /** A PRN matches iff it has 10 to 12 characters, each a digit or an
      upper-case ASCII letter. */
  lemma PrnPatternSpec(s: string)
    ensures FullMatch(PrnPattern, s) <==>
      10 <= |s| <= 12 && forall i :: 0 <= i < |s| ==> IsDigit(s[i]) || 'A' <= s[i] <= 'Z'
  {
    var cl := Union(Digit, Range('A', 'Z'));
    assert PrnPattern == [Piece(cl, 10, 12)];
    OnePieceMatch(cl, 10, 12, s);
    assert forall c :: InClass(cl, c) <==> IsDigit(c) || 'A' <= c <= 'Z';
  }

  /** A PRN that matches its pattern contains no colon, the separator of
      the server's storage keys. */
  lemma PrnPatternExcludesColon(s: string)
    requires FullMatch(PrnPattern, s)
    ensures ':' !in s
  {
    PrnPatternSpec(s);
  }

  /** A contact number matches iff it has 10 to 15 characters, each a digit,
      `+`, `-` or white space. */
  lemma ContactPatternSpec(s: string)
    ensures FullMatch(ContactPattern, s) <==>
      10 <= |s| <= 15 && forall i :: 0 <= i < |s| ==>
        IsDigit(s[i]) || s[i] == '+' || s[i] == '-' || IsJsWhitespace(s[i])
  {
    var cl := Union(Union(Digit, Literal('+')), Union(Literal('-'), Whitespace));
    assert ContactPattern == [Piece(cl, 10, 15)];
    OnePieceMatch(cl, 10, 15, s);
    forall c ensures InClass(cl, c) <==> IsDigit(c) || c == '+' || c == '-' || IsJsWhitespace(c) {
      assert InClass(Union(Digit, Literal('+')), c) <==> IsDigit(c) || c == '+';
      assert InClass(Union(Literal('-'), Whitespace), c) <==> c == '-' || IsJsWhitespace(c);
    }
  }

  /** `width` digits, a hyphen, `width2` digits, and nothing else. */
  predicate DigitsDashDigits(s: string, width: nat, width2: nat) {
    && |s| == width + 1 + width2
    && (forall i :: 0 <= i < width ==> IsDigit(s[i]))
    && s[width] == '-'
    && (forall i :: width + 1 <= i < |s| ==> IsDigit(s[i]))
  }

  /** The three-piece patterns `[0-9]{a}-[0-9]{b}` match exactly `a` digits,
      a hyphen and `b` digits. */
  lemma DigitsDashDigitsMatch(a: nat, b: nat, s: string)
    ensures FullMatch([Piece(Digit, a, a), Piece(Literal('-'), 1, 1), Piece(Digit, b, b)], s)
      <==> DigitsDashDigits(s, a, b)
  {
    var p := [Piece(Digit, a, a), Piece(Literal('-'), 1, 1), Piece(Digit, b, b)];
    var q := p[1..];
    var r := q[1..];
    assert q == [Piece(Literal('-'), 1, 1), Piece(Digit, b, b)];
    assert r == [Piece(Digit, b, b)];
    TryCountsSpec(p, s, a);
    if a <= |s| {
      var rest := s[a..];
      TryCountsSpec(q, rest, 1);
      if 1 <= |rest| {
        OnePieceMatch(Digit, b, b, rest[1..]);
        assert rest[..1] == [s[a]];
      }
      if DigitsDashDigits(s, a, b) {
        assert forall i :: 0 <= i < |rest[1..]| ==> rest[1..][i] == s[a + 1 + i];
        assert AllIn(Digit, s[..a]);
      }
    }
  }

  /** A batch matches iff it is four digits, a hyphen, four digits. */
  lemma BatchPatternSpec(s: string)
    ensures FullMatch(BatchPattern, s) <==> DigitsDashDigits(s, 4, 4)
  {
    DigitsDashDigitsMatch(4, 4, s);
  }

  /** An academic year matches iff it is four digits, a hyphen, two digits. */
  lemma AcademicYearPatternSpec(s: string)
    ensures FullMatch(AcademicYearPattern, s) <==> DigitsDashDigits(s, 4, 2)
  {
    DigitsDashDigitsMatch(4, 2, s);
  }
}
