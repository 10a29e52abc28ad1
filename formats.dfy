/**
 * The string formats the checkers recognise, written as hand-coded predicates
 * instead of regular expressions. Where a pattern is unanchored or has
 * alternatives, a ghost predicate states the pattern's language directly (an
 * existential over split points) and a compiled scanner is proved to agree
 * with it.
 */
module Formats {
  import opened Text

  // ---------------------------------------------------------------- URI

  /** The punctuation a URI attribute may contain besides ASCII letters and digits. */
  const UriPunctuation: string := "-._~:/?#[]@!$&'()*+,;="

  /** The characters a URI attribute may contain: A-Z, a-z, 0-9 and the punctuation above. */
  predicate IsUriChar(c: char) {
    ('A' <= c <= 'Z') || ('a' <= c <= 'z') || ('0' <= c <= '9') || c in UriPunctuation
  }

  predicate AllUriChars(s: string) {
    forall i :: 0 <= i < |s| ==> IsUriChar(s[i])
  }

  /** Index of the first character at or after i that is not a URI character, or |s| if there is none. */
  function FirstIllegalFrom(s: string, i: nat): (n: nat)
    requires i <= |s|
    ensures i <= n <= |s|
    ensures forall k :: i <= k < n ==> IsUriChar(s[k])
    ensures n < |s| ==> !IsUriChar(s[n])
    decreases |s| - i
  {
    if i == |s| || !IsUriChar(s[i]) then i else FirstIllegalFrom(s, i + 1)
  }

  // ---------------------------------------------------------------- Timestamp

  // Field classes of the timestamp pattern, each over its two digits.
  predicate Month(a: char, b: char) {
    (a == '0' && '1' <= b <= '9') || (a == '1' && '0' <= b <= '2')
  }

  predicate Day(a: char, b: char) {
    (a == '0' && '1' <= b <= '9') || ('1' <= a <= '2' && IsDigit(b)) || (a == '3' && '0' <= b <= '1')
  }

  predicate Hour(a: char, b: char) {
    ('0' <= a <= '1' && IsDigit(b)) || (a == '2' && '0' <= b <= '3')
  }

  predicate Minute(a: char, b: char) {
    '0' <= a <= '5' && IsDigit(b)
  }

  /** Seconds 00-59, or 60 for a leap second. */
  predicate Second(a: char, b: char) {
    Minute(a, b) || (a == '6' && b == '0')
  }

  /** The fixed-width part after the year, "-MM-DDTHH:MM:SS", starting at position y. */
  predicate DateTimeAt(s: string, y: nat)
    requires y + 15 <= |s|
  {
    && s[y] == '-' && Month(s[y + 1], s[y + 2])
    && s[y + 3] == '-' && Day(s[y + 4], s[y + 5])
    && (s[y + 6] == 'T' || s[y + 6] == 't')
    && Hour(s[y + 7], s[y + 8])
    && s[y + 9] == ':' && Minute(s[y + 10], s[y + 11])
    && s[y + 12] == ':' && Second(s[y + 13], s[y + 14])
  }

  /** The optional fractional seconds at p, f characters long: none, or '.' and one or more digits. */
  predicate FractionAt(s: string, p: nat, f: nat)
    requires p + f <= |s|
  {
    f == 0 || (f >= 2 && s[p] == '.' && DigitsIn(s, p + 1, p + f))
  }

  /**
   * The zone at p, running to the end of s: 'Z' or 'z', or a sign and "hh:mm".
   * The sign class of the pattern is written `[\+|\-]`, so '|' is a sign too.
   */
  predicate ZoneAt(s: string, p: nat) {
    || (|s| == p + 1 && (s[p] == 'Z' || s[p] == 'z'))
    || (&& |s| == p + 6
        && (s[p] == '+' || s[p] == '|' || s[p] == '-')
        && Hour(s[p + 1], s[p + 2]) && s[p + 3] == ':' && Minute(s[p + 4], s[p + 5]))
  }

  /** s is a year of y digits, the fixed fields, a fraction of length f and a zone, and nothing else. */
  ghost predicate TimestampSplit(s: string, y: nat, f: nat) {
    && 1 <= y && y + 15 + f <= |s|
    && DigitsIn(s, 0, y)
    && DateTimeAt(s, y)
    && FractionAt(s, y + 15, f)
    && ZoneAt(s, y + 15 + f)
  }

  /** The language of the anchored timestamp pattern. */
  ghost predicate MatchesTimestamp(s: string) {
    exists y: nat, f: nat :: TimestampSplit(s, y, f)
  }

  /** What the scanner accepts after the seconds at p: '.' and a maximal digit run, then the zone; or the zone alone. */
  predicate TailAt(s: string, p: nat)
    requires p <= |s|
  {
    if p < |s| && s[p] == '.' then
      var d := DigitRun(s, p + 1);
      1 <= d && ZoneAt(s, p + 1 + d)
    else
      ZoneAt(s, p)
  }

  /** The scanner: the year is the maximal digit prefix, the fraction the maximal digit run after '.'. */
  predicate IsTimestamp(s: string) {
    var y := DigitRun(s, 0);
    1 <= y && y + 15 <= |s| && DateTimeAt(s, y) && TailAt(s, y + 15)
  }

  lemma IsTimestampSound(s: string)
    requires IsTimestamp(s)
    ensures MatchesTimestamp(s)
  {
    var y := DigitRun(s, 0);
    var p := y + 15;
    if p < |s| && s[p] == '.' {
      var d := DigitRun(s, p + 1);
      assert TimestampSplit(s, y, 1 + d);
    } else {
      assert TimestampSplit(s, y, 0);
    }
  }

  lemma IsTimestampComplete(s: string, y: nat, f: nat)
    requires TimestampSplit(s, y, f)
    ensures IsTimestamp(s)
  {
    DigitRunUnique(s, 0, y);
    var p := y + 15;
    if f > 0 {
      DigitRunUnique(s, p + 1, f - 1);
    }
  }

  /** The scanner recognises exactly the language of the timestamp pattern. */
  lemma IsTimestampIff(s: string)
    ensures IsTimestamp(s) <==> MatchesTimestamp(s)
  {
    if IsTimestamp(s) {
      IsTimestampSound(s);
    }
    if MatchesTimestamp(s) {
      var y: nat, f: nat :| TimestampSplit(s, y, f);
      IsTimestampComplete(s, y, f);
    }
  }

  // ---------------------------------------------------------------- Encoding

  const EncodingTokens: seq<string> := ["7bit", "8bit", "binary", "quoted-printable", "base64"]

  /** The language of the unanchored encoding pattern: some token occurs somewhere. */
  ghost predicate ContainsEncodingToken(s: string) {
    exists p: nat, k: nat | k < |EncodingTokens| :: TokenAt(s, p, EncodingTokens[k])
  }

  /** Scans positions i, i+1, ... for an encoding token. */
  function EncodingFrom(s: string, i: nat): (b: bool)
    requires i <= |s|
    ensures b <==> exists p: nat, k: nat | i <= p && k < |EncodingTokens| :: TokenAt(s, p, EncodingTokens[k])
    decreases |s| - i
  {
    (exists k: nat | k < |EncodingTokens| :: TokenAt(s, i, EncodingTokens[k]))
    || (i < |s| && EncodingFrom(s, i + 1))
  }

  // ---------------------------------------------------------------- Media type

  const MediaTopLevels: seq<string> :=
    ["application", "audio", "font", "example", "image", "message", "model", "multipart", "text", "video"]

  /** The whitespace class of the pattern's `\S`: tab, newline, form feed, carriage return and space. */
  predicate IsSpace(c: char) {
    c == '\t' || c == '\n' || c == '\U{000C}' || c == '\r' || c == ' '
  }

  /** Top-level token t at position p, then '/', then one non-whitespace character. */
  predicate MediaTypeAt(s: string, p: nat, t: string) {
    && TokenAt(s, p, t)
    && p + |t| + 1 < |s|
    && s[p + |t|] == '/'
    && !IsSpace(s[p + |t| + 1])
  }

  /** The language of the unanchored media-type pattern. */
  ghost predicate ContainsMediaType(s: string) {
    exists p: nat, k: nat | k < |MediaTopLevels| :: MediaTypeAt(s, p, MediaTopLevels[k])
  }

  /** Scans positions i, i+1, ... for a media type. */
  function MediaTypeFrom(s: string, i: nat): (b: bool)
    requires i <= |s|
    ensures b <==> exists p: nat, k: nat | i <= p && k < |MediaTopLevels| :: MediaTypeAt(s, p, MediaTopLevels[k])
    decreases |s| - i
  {
    (exists k: nat | k < |MediaTopLevels| :: MediaTypeAt(s, i, MediaTopLevels[k]))
    || (i < |s| && MediaTypeFrom(s, i + 1))
  }

  // ---------------------------------------------------------------- Key names

  predicate IsLowerAlnum(c: char) {
    'a' <= c <= 'z' || '0' <= c <= '9'
  }

  predicate AllLowerAlnum(s: string) {
    forall i :: 0 <= i < |s| ==> IsLowerAlnum(s[i])
  }

  /** Index of the first lowercase letter or digit at or after i, or |k|. */
  function FirstLowerAlnum(k: string, i: nat): (p: nat)
    requires i <= |k|
    ensures i <= p <= |k|
    ensures forall q :: i <= q < p ==> !IsLowerAlnum(k[q])
    ensures p < |k| ==> IsLowerAlnum(k[p])
    decreases |k| - i
  {
    if i == |k| || IsLowerAlnum(k[i]) then i else FirstLowerAlnum(k, i + 1)
  }

  /** Length of the longest run of lowercase letters and digits starting at i. */
  function LowerAlnumRun(k: string, i: nat): (n: nat)
    requires i <= |k|
    ensures i + n <= |k|
    ensures forall q :: i <= q < i + n ==> IsLowerAlnum(k[q])
    ensures i + n == |k| || !IsLowerAlnum(k[i + n])
    decreases |k| - i
  {
    if i < |k| && IsLowerAlnum(k[i]) then 1 + LowerAlnumRun(k, i + 1) else 0
  }

  /**
   * What a leftmost-first search for `([a-z]|[0-9])+` finds in k: the maximal
   * run at the first position where the class occurs ("" when it never does).
   */
  function LeftmostMatch(k: string): (r: string)
    ensures AllLowerAlnum(r)
    ensures r == [] <==> forall i :: 0 <= i < |k| ==> !IsLowerAlnum(k[i])
  {
    var p := FirstLowerAlnum(k, 0);
    k[p..p + LowerAlnumRun(k, p)]
  }

  /** The key rule as the code states it: the leftmost match is as long as the key. */
  predicate KeyOk(k: string) {
    |LeftmostMatch(k)| == |k|
  }

  /** The key rule holds exactly for keys made only of [a-z0-9], the empty key included. */
  lemma KeyOkIff(k: string)
    ensures KeyOk(k) <==> AllLowerAlnum(k)
  {
    var p := FirstLowerAlnum(k, 0);
    var n := LowerAlnumRun(k, p);
    if AllLowerAlnum(k) && |k| > 0 {
      assert p == 0;
    }
  }

  // ---------------------------------------------------------------- Rewriting "attribute"

  /** A case-insensitive occurrence of "attribute" at position i. */
  predicate WordAt(s: string, i: nat) {
    i + 9 <= |s| && AsciiLower(s[i..i + 9]) == "attribute"
  }

  ghost predicate NoWord(s: string) {
    forall i: nat :: !WordAt(s, i)
  }

  /**
   * Replaces every case-insensitive occurrence of "attribute", leftmost first
   * and without overlap, by "HTTP header".
   */
  function ReplaceWord(s: string): string
    decreases |s|
  {
    if WordAt(s, 0) then "HTTP header" + ReplaceWord(s[9..])
    else if s == [] then []
    else [s[0]] + ReplaceWord(s[1..])
  }

  lemma {:induction false} ReplaceWordEmpty(s: string)
    ensures ReplaceWord(s) == "" <==> s == ""
  {
  }

  /** A string without the word is left as it is. */
  lemma {:induction false} ReplaceWordNoWord(s: string)
    requires NoWord(s)
    ensures ReplaceWord(s) == s
    decreases |s|
  {
    if s != [] {
      assert !WordAt(s, 0);
      forall i: nat | i + 9 <= |s[1..]| ensures !WordAt(s[1..], i) {
        assert s[1..][i..i + 9] == s[i + 1..i + 1 + 9];
        assert !WordAt(s, i + 1);
      }
      ReplaceWordNoWord(s[1..]);
    }
  }

  /** A text without an 'r' (in any case) cannot hold the word. */
  lemma NoRNoWord(s: string)
    requires forall i :: 0 <= i < |s| ==> AsciiLowerChar(s[i]) != 'r'
    ensures NoWord(s)
  {
    forall i: nat | i + 9 <= |s| ensures !WordAt(s, i) {
      var w := s[i..i + 9];
      assert w[3] == s[i + 3] && AsciiLowerChar(s[i + 3]) != 'r';
      assert AsciiLower(w)[3] == AsciiLowerChar(w[3]);
    }
  }

  /** No occurrence of the word starts in x and ends in y. */
  ghost predicate NoWordAcross(x: string, y: string) {
    forall p: nat :: p < |x| < p + 9 ==> !WordAt(x + y, p)
  }

  /** Dropping a prefix of x keeps the seam free of straddling occurrences. */
  lemma AcrossDrop(x: string, y: string, d: nat)
    requires NoWordAcross(x, y) && d <= |x|
    ensures (x + y)[d..] == x[d..] + y
    ensures NoWordAcross(x[d..], y)
  {
    forall p: nat | p < |x[d..]| < p + 9 ensures !WordAt(x[d..] + y, p) {
      assert !WordAt(x + y, p + d);
      if p + 9 <= |x[d..] + y| {
        assert (x[d..] + y)[p..p + 9] == (x + y)[p + d..p + d + 9];
      }
    }
  }

  /** Whether the word starts x + y is decided by x alone. */
  lemma WordAtSeam(x: string, y: string)
    requires NoWordAcross(x, y) && x != []
    ensures WordAt(x + y, 0) <==> WordAt(x, 0)
  {
    if |x| >= 9 {
      assert (x + y)[0..9] == x[0..9];
    } else {
      assert !WordAt(x + y, 0);
    }
  }

  /** Replacing in a concatenation is replacing in each part, when no occurrence straddles the seam. */
  lemma {:induction false} ReplaceWordAppend(x: string, y: string)
    requires NoWordAcross(x, y)
    ensures ReplaceWord(x + y) == ReplaceWord(x) + ReplaceWord(y)
    decreases |x|
  {
    if x == [] {
      assert x + y == y;
    } else {
      WordAtSeam(x, y);
      var d := if WordAt(x, 0) then 9 else 1;
      AcrossDrop(x, y, d);
      ReplaceWordAppend(x[d..], y);
      if WordAt(x, 0) {
        ReplaceWordHit(x + y);
        ReplaceWordHit(x);
      } else {
        ReplaceWordSkip(x + y);
        ReplaceWordSkip(x);
      }
    }
  }

  /** A seam followed by a character that cannot occur in the word is never straddled. */
  lemma SeparatorBlocksWord(x: string, y: string)
    requires |y| > 0 && AsciiLowerChar(y[0]) !in "attribute"
    ensures NoWordAcross(x, y)
  {
    forall p: nat | p < |x| < p + 9 && p + 9 <= |x + y| ensures !WordAt(x + y, p) {
      var w := (x + y)[p..p + 9];
      assert w[|x| - p] == y[0];
      assert AsciiLower(w)[|x| - p] == AsciiLowerChar(y[0]);
    }
  }

  lemma ReplaceWordSkip(s: string)
    requires s != [] && !WordAt(s, 0)
    ensures ReplaceWord(s) == [s[0]] + ReplaceWord(s[1..])
  {
  }

  lemma ReplaceWordHit(s: string)
    requires WordAt(s, 0)
    ensures ReplaceWord(s) == "HTTP header" + ReplaceWord(s[9..])
  {
  }

  /** A character that cannot start the word is copied through. */
  lemma SkipChar(c: char, q: string)
    requires AsciiLowerChar(c) != 'a'
    ensures ReplaceWord([c] + q) == [c] + ReplaceWord(q)
  {
    var s := [c] + q;
    if |s| >= 9 { assert AsciiLower(s[0..9])[0] == AsciiLowerChar(c); }
    assert s[1..] == q;
  }

  /** The word, then two characters that cannot start it: the word is replaced and the two are copied. */
  lemma HitThenTwo(s: string, q: string)
    requires |s| == 11 + |q| && WordAt(s, 0) && s[11..] == q
    requires AsciiLowerChar(s[9]) != 'a' && AsciiLowerChar(s[10]) != 'a'
    ensures ReplaceWord(s) == "HTTP header" + [s[9], s[10]] + ReplaceWord(q)
  {
    ReplaceWordHit(s);
    assert s[9..] == [s[9]] + ([s[10]] + q);
    SkipChar(s[9], [s[10]] + q);
    SkipChar(s[10], q);
  }

  /** The shape of a diagnostic's opening "Attribute `". */
  lemma OpeningShape(q: string)
    ensures var s := "Attribute `" + q;
            |s| == 11 + |q| && WordAt(s, 0) && s[9] == ' ' && s[10] == '`' && s[11..] == q
  {
    var s := "Attribute `" + q;
    assert s[0..9] == "Attribute";
  }

  lemma HeaderOpening(r: string)
    ensures "HTTP header" + [' ', '`'] + r == "HTTP header `" + r
  {
  }

  /** Rewriting a diagnostic's opening "Attribute `" gives "HTTP header `". */
  lemma RewriteOpening(q: string)
    ensures ReplaceWord("Attribute `" + q) == "HTTP header `" + ReplaceWord(q)
  {
    OpeningShape(q);
    HitThenTwo("Attribute `" + q, q);
    HeaderOpening(ReplaceWord(q));
  }

  /**
   * The diagnostics of the engine start with "Attribute `name`". Rewriting one
   * replaces the leading word and any occurrence inside the name, and leaves a
   * word-free tail that starts with a backquote untouched.
   */
  lemma RewriteDiagnostic(name: string, tail: string)
    requires |tail| > 0 && tail[0] == '`' && NoWord(tail)
    ensures ReplaceWord("Attribute `" + name + tail) == "HTTP header `" + ReplaceWord(name) + tail
  {
    assert "Attribute `" + name + tail == "Attribute `" + (name + tail);
    RewriteOpening(name + tail);
    SeparatorBlocksWord(name, tail);
    ReplaceWordAppend(name, tail);
    ReplaceWordNoWord(tail);
  }
}
