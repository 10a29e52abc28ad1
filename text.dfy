module Wrappers {
  datatype Option<+T> = None | Some(value: T)
}

/** Small string and sequence utilities shared by the validation engine. */
module Text {

  /** ASCII lower-casing of one character: the case folding the `(?i)` pattern applies to the letters of "attribute". */
  function AsciiLowerChar(c: char): char {
    if 'A' <= c <= 'Z' then (c as int + 32) as char else c
  }

  function AsciiLower(s: string): (r: string)
    ensures |r| == |s|
    ensures forall i :: 0 <= i < |s| ==> r[i] == AsciiLowerChar(s[i])
  {
    seq(|s|, i requires 0 <= i < |s| => AsciiLowerChar(s[i]))
  }

  /**
   * Go's unicode.ToLower on one character, as far as it can produce ASCII: the
   * ASCII capitals, U+0130 (capital I with dot above) to 'i' and U+212A (the
   * Kelvin sign) to 'k'. Every other character is kept; Go maps further
   * non-ASCII capitals to other non-ASCII letters.
   */
  function LowerChar(c: char): char {
    if c == '\U{0130}' then 'i'
    else if c == '\U{212A}' then 'k'
    else AsciiLowerChar(c)
  }

  /** strings.ToLower: lowers every character (see LowerChar). */
  function Lower(s: string): (r: string)
    ensures |r| == |s|
    ensures forall i :: 0 <= i < |s| ==> r[i] == LowerChar(s[i])
  {
    seq(|s|, i requires 0 <= i < |s| => LowerChar(s[i]))
  }

  lemma LowerAppend(a: string, b: string)
    ensures Lower(a + b) == Lower(a) + Lower(b)
  {
    assert forall i :: 0 <= i < |a + b| ==> Lower(a + b)[i] == (Lower(a) + Lower(b))[i];
  }

  predicate HasPrefix(s: string, p: string) {
    |p| <= |s| && s[..|p|] == p
  }

  predicate IsDigit(c: char) {
    '0' <= c <= '9'
  }

  /** Positions lo up to (not including) hi of s are decimal digits. */
  predicate DigitsIn(s: string, lo: nat, hi: nat)
    requires hi <= |s|
  {
    forall k :: lo <= k < hi ==> IsDigit(s[k])
  }

  /** Length of the longest run of decimal digits starting at position i. */
  function DigitRun(s: string, i: nat): (n: nat)
    requires i <= |s|
    ensures i + n <= |s|
    ensures DigitsIn(s, i, i + n)
    ensures i + n == |s| || !IsDigit(s[i + n])
    decreases |s| - i
  {
    if i < |s| && IsDigit(s[i]) then 1 + DigitRun(s, i + 1) else 0
  }

  /** A maximal digit run is unique: any run that cannot be extended is the one DigitRun finds. */
  lemma DigitRunUnique(s: string, i: nat, m: nat)
    requires i + m <= |s|
    requires DigitsIn(s, i, i + m)
    requires i + m == |s| || !IsDigit(s[i + m])
    ensures DigitRun(s, i) == m
  {
  }

  /** Whether t occurs in s starting exactly at position i. */
  predicate TokenAt(s: string, i: nat, t: string) {
    i + |t| <= |s| && s[i..i + |t|] == t
  }

  function MapSeq<A, B>(f: A -> B, s: seq<A>): (r: seq<B>)
    ensures |r| == |s|
    ensures forall i :: 0 <= i < |s| ==> r[i] == f(s[i])
  {
    seq(|s|, i requires 0 <= i < |s| => f(s[i]))
  }

  lemma MapSeqAppend<A, B>(f: A -> B, a: seq<A>, b: seq<A>)
    ensures MapSeq(f, a + b) == MapSeq(f, a) + MapSeq(f, b)
  {
  }

  /** Mapping a function over two orderings of the same elements gives two orderings of the same images. */
  lemma {:induction false} MapSeqPermutation<A, B>(f: A -> B, a: seq<A>, b: seq<A>)
    requires multiset(a) == multiset(b)
    ensures multiset(MapSeq(f, a)) == multiset(MapSeq(f, b))
    decreases |a|
  {
    if a == [] {
      assert |b| == |multiset(b)| == 0;
    } else {
      var n := |a| - 1;
      var x := a[n];
      assert a == a[..n] + [x];
      assert x in multiset(b);
      var i :| 0 <= i < |b| && b[i] == x;
      assert b == b[..i] + [x] + b[i + 1..];
      var b' := b[..i] + b[i + 1..];
      assert multiset(b') == multiset(b) - multiset{x};
      assert multiset(a[..n]) == multiset(a) - multiset{x};
      MapSeqPermutation(f, a[..n], b');
      MapSeqAppend(f, a[..n], [x]);
      MapSeqAppend(f, b[..i] + [x], b[i + 1..]);
      MapSeqAppend(f, b[..i], [x]);
      MapSeqAppend(f, b[..i], b[i + 1..]);
    }
  }

  /** Concatenation of a sequence of strings, left to right. */
  function Concat(ss: seq<string>): string
  {
    if ss == [] then "" else Concat(ss[..|ss| - 1]) + ss[|ss| - 1]
  }

  lemma ConcatSnoc(ss: seq<string>, x: string)
    ensures Concat(ss + [x]) == Concat(ss) + x
  {
    assert (ss + [x])[..|ss|] == ss;
  }

  lemma {:induction false} ConcatEmpty(ss: seq<string>)
    ensures Concat(ss) == "" <==> forall i :: 0 <= i < |ss| ==> ss[i] == ""
  {
    if ss != [] {
      ConcatEmpty(ss[..|ss| - 1]);
      var n := |ss| - 1;
      if Concat(ss) == "" {
        forall i | 0 <= i < |ss| ensures ss[i] == "" {
          if i < n { assert ss[..n][i] == ss[i]; }
        }
      }
    }
  }

  function Repeat(s: string, n: nat): string {
    if n == 0 then "" else Repeat(s, n - 1) + s
  }

  /** A concatenation of copies of one non-empty line (and empty strings) is fixed by how many copies it holds. */
  lemma {:induction false} ConcatOfCopies(ss: seq<string>, line: string)
    requires line != ""
    requires forall i :: 0 <= i < |ss| ==> ss[i] == "" || ss[i] == line
    ensures Concat(ss) == Repeat(line, multiset(ss)[line])
  {
    if ss != [] {
      var n := |ss| - 1;
      assert ss == ss[..n] + [ss[n]];
      assert multiset(ss) == multiset(ss[..n]) + multiset{ss[n]};
      ConcatOfCopies(ss[..n], line);
    }
  }
}
