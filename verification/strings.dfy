/**
 * The few `java.lang.String` operations the interceptor relies on, over
 * `seq<char>`: `indexOf`, `contains`, ASCII case folding, and splitting at
 * a separator character (used to state what a query string's keys are and
 * to invert the digest join).
 */
module JavaStrings {

  /** `sub` occurs in `s` starting at index `i`. */
  predicate IsOccurrence(s: string, sub: string, i: int) {
    0 <= i && i + |sub| <= |s| && s[i..i + |sub|] == sub
  }

  /** `i` is the first index at which `sub` occurs in `s`. */
  predicate IsFirstOccurrence(s: string, sub: string, i: int) {
    IsOccurrence(s, sub, i) && forall j :: 0 <= j < i ==> !IsOccurrence(s, sub, j)
  }

  /** Search for `sub` in `s` from index `from` onwards. */
  function IndexFrom(s: string, sub: string, from: nat): (r: int)
    requires from <= |s|
    ensures r == -1 || from <= r
    ensures r >= 0 ==> IsOccurrence(s, sub, r)
    ensures forall j :: from <= j && (r == -1 || j < r) ==> !IsOccurrence(s, sub, j)
    decreases |s| - from
  {
    if from + |sub| > |s| then -1
    else if s[from..from + |sub|] == sub then from
    else IndexFrom(s, sub, from + 1)
  }

  /** `String.indexOf(String)`: the first index of `sub` in `s`, or -1. */
  function IndexOf(s: string, sub: string): (r: int)
    ensures r == -1 || IsFirstOccurrence(s, sub, r)
    ensures r == -1 <==> forall j :: !IsOccurrence(s, sub, j)
  {
    IndexFrom(s, sub, 0)
  }

  /** `String.contains(CharSequence)`. */
  predicate Contains(s: string, sub: string) {
    IndexOf(s, sub) >= 0
  }

  function ToUpperAscii(c: char): char {
    if 'a' <= c <= 'z' then c - 'a' + 'A' else c
  }

  function ToLowerAscii(c: char): char {
    if 'A' <= c <= 'Z' then c - 'A' + 'a' else c
  }

  /** `String.equalsIgnoreCase`, for ASCII case pairs. */
  predicate EqualsIgnoreCase(a: string, b: string) {
    |a| == |b| && forall i :: 0 <= i < |a| ==> ToUpperAscii(a[i]) == ToUpperAscii(b[i])
  }

  /** `StringUtils.lowerCase`, for ASCII letters. */
  function LowerCase(s: string): (r: string)
    ensures |r| == |s|
    ensures forall i :: 0 <= i < |s| ==> r[i] == ToLowerAscii(s[i])
  {
    seq(|s|, i requires 0 <= i < |s| => ToLowerAscii(s[i]))
  }

  /**
   * The pieces of `s` between occurrences of `sep`, in order, including
   * empty pieces; there is always at least one piece.
   */
  function Split(s: string, sep: char): (r: seq<string>)
    ensures |r| >= 1
  {
    if |s| == 0 then [""]
    else
      var rest := Split(s[1..], sep);
      if s[0] == sep then [""] + rest else [[s[0]] + rest[0]] + rest[1..]
  }

  /** A string without the separator is a single piece. */
  lemma {:induction false} SplitWithoutSeparator(s: string, sep: char)
    requires sep !in s
    ensures Split(s, sep) == [s]
  {
    if |s| > 0 {
      SplitWithoutSeparator(s[1..], sep);
      assert [s[0]] + s[1..] == s;
    }
  }

  /** Splitting at an occurrence of the separator splits the pieces. */
  lemma {:induction false} SplitAtSeparator(x: string, y: string, sep: char)
    ensures Split(x + [sep] + y, sep) == Split(x, sep) + Split(y, sep)
  {
    if |x| == 0 {
      assert x + [sep] + y == [sep] + y;
      assert ([sep] + y)[1..] == y;
    } else {
      assert (x + [sep] + y)[1..] == x[1..] + [sep] + y;
      SplitAtSeparator(x[1..], y, sep);
    }
  }

  /** A separator-free prefix belongs to the first piece. */
  lemma {:induction false} SplitFirstPiece(x: string, y: string, sep: char)
    requires sep !in x
    ensures Split(x + y, sep)[0] == x + Split(y, sep)[0]
  {
    if |x| > 0 {
      assert (x + y)[1..] == x[1..] + y;
      SplitFirstPiece(x[1..], y, sep);
      assert [x[0]] + (x[1..] + Split(y, sep)[0]) == x + Split(y, sep)[0];
    } else {
      assert x + y == y;
    }
  }
}
