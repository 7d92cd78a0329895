/**
  Python string primitives used by the three analysers: the regular-expression
  character classes `\s`, `\w`, `\d` and `\n`, maximal runs of a class, the word
  boundary `\b`, `str.strip()`, `str.split('\n')`, `" ".join(...)`, the `in`
  substring test and decimal rendering of line numbers.

  `\s` and `str.strip()` use the full set of characters for which Python's
  `str.isspace()` holds; `\w` and `\d` are the ASCII classes `[A-Za-z0-9_]` and
  `[0-9]`.
*/
module Text {
  import opened Wrappers

  /** Python's `str.isspace()` for one character (the `\s` class of `re`). */
  predicate IsSpace(c: char) {
    || ('\t' <= c <= '\r')
    || ('\U{1C}' <= c <= ' ')
    || c == '\U{85}' || c == '\U{A0}' || c == '\U{1680}'
    || ('\U{2000}' <= c <= '\U{200A}')
    || c == '\U{2028}' || c == '\U{2029}' || c == '\U{202F}' || c == '\U{205F}' || c == '\U{3000}'
  }

  /** `\d`, restricted to ASCII. */
  predicate IsDigit(c: char) {
    '0' <= c <= '9'
  }

  /** `\w`, restricted to ASCII: `[A-Za-z0-9_]`. */
  predicate IsWordChar(c: char) {
    ('a' <= c <= 'z') || ('A' <= c <= 'Z') || IsDigit(c) || c == '_'
  }

  /** The character classes the scanners take maximal runs of. */
  datatype CharClass = Space | Word | Digit | Newline

  predicate InClass(c: char, cls: CharClass) {
    match cls
    case Space => IsSpace(c)
    case Word => IsWordChar(c)
    case Digit => IsDigit(c)
    case Newline => c == '\n'
  }

  predicate AllIn(t: string, cls: CharClass) {
    forall k :: 0 <= k < |t| ==> InClass(t[k], cls)
  }

  /** A non-empty run of word characters, as `\w+` takes and a whole word is. */
  predicate IsWord(w: string) {
    |w| > 0 && AllIn(w, Word)
  }

  /** A slice whose characters are all in a class. */
  lemma SliceAllIn(s: string, i: nat, j: nat, cls: CharClass)
    requires i <= j <= |s|
    requires forall k :: i <= k < j ==> InClass(s[k], cls)
    ensures AllIn(s[i..j], cls)
  {
    forall k | 0 <= k < j - i ensures InClass(s[i..j][k], cls) {
      assert s[i..j][k] == s[i + k];
    }
  }

  /** The end of the maximal run of `cls` characters starting at `i`. */
  function RunEnd(s: string, i: nat, cls: CharClass): (j: nat)
    requires i <= |s|
    ensures i <= j <= |s|
    ensures forall k :: i <= k < j ==> InClass(s[k], cls)
    ensures j == |s| || !InClass(s[j], cls)
    decreases |s| - i
  {
    if i == |s| || !InClass(s[i], cls) then i else RunEnd(s, i + 1, cls)
  }

  /** A run of class characters followed by a character outside the class (or the end) is what RunEnd finds. */
  lemma RunEndExact(s: string, i: nat, j: nat, cls: CharClass)
    requires i <= j <= |s|
    requires forall k :: i <= k < j ==> InClass(s[k], cls)
    requires j == |s| || !InClass(s[j], cls)
    ensures RunEnd(s, i, cls) == j
  {
  }

  /** `\b` at position `i`: exactly one of the neighbouring characters is a word character. */
  predicate AtBoundary(s: string, i: nat)
    requires i <= |s|
  {
    (0 < i && IsWordChar(s[i - 1])) != (i < |s| && IsWordChar(s[i]))
  }

  /** Position `i` starts a word: a word character with no word character before it. */
  predicate AtWordStart(s: string, i: nat)
    requires i <= |s|
  {
    i < |s| && IsWordChar(s[i]) && (i == 0 || !IsWordChar(s[i - 1]))
  }

  /**
    The pattern `\b\d+\b` tried at `i` (used by the NUM token rule and by the
    numeric-literal check). `\d+` is greedy; giving back digits never helps, since
    the character after a shorter run is a digit and so no boundary.
  */
  function NumberAt(s: string, i: nat): (r: Option<nat>)
    requires i <= |s|
    ensures r.Some? <==> AtWordStart(s, i) && AllIn(s[i..RunEnd(s, i, Word)], Digit)
    ensures r.Some? ==> r.value == RunEnd(s, i, Word)
  {
    var j := RunEnd(s, i, Digit);
    var w := RunEnd(s, i, Word);
    if AtBoundary(s, i) && i < |s| && IsDigit(s[i]) && AtBoundary(s, j) then
      assert j == w by { RunEndExact(s, i, j, Word); }
      Some(j)
    else
      assert AtWordStart(s, i) && AllIn(s[i..w], Digit) ==> false by {
        if AtWordStart(s, i) && AllIn(s[i..w], Digit) {
          assert forall k :: i <= k < w ==> IsDigit(s[k]) by {
            forall k | i <= k < w ensures IsDigit(s[k]) {
              assert s[i..w][k - i] == s[k];
            }
          }
          RunEndExact(s, i, w, Digit);
        }
      }
      None
  }

  // ----- str.strip() -----

  /** Start of the trailing whitespace run of `s[lo..hi]`. */
  function TrailingStart(s: string, lo: nat, hi: nat): (k: nat)
    requires lo <= hi <= |s|
    ensures lo <= k <= hi
    ensures forall m :: k <= m < hi ==> IsSpace(s[m])
    ensures k == lo || !IsSpace(s[k - 1])
    decreases hi
  {
    if hi == lo || !IsSpace(s[hi - 1]) then hi else TrailingStart(s, lo, hi - 1)
  }

  /**
    Python's `str.strip()`: `s` without its leading and trailing whitespace. The
    result is a slice of `s`, everything cut off is whitespace, and the result
    neither starts nor ends with whitespace.
  */
  function Strip(s: string): (r: string)
    ensures exists lo :: 0 <= lo <= |s| - |r| && r == s[lo..lo + |r|]
                         && AllIn(s[..lo], Space) && AllIn(s[lo + |r|..], Space)
    ensures r == [] || (!IsSpace(r[0]) && !IsSpace(r[|r| - 1]))
  {
    var lo := RunEnd(s, 0, Space);
    var hi := TrailingStart(s, lo, |s|);
    var r := s[lo..hi];
    SliceAllIn(s, 0, lo, Space);
    SliceAllIn(s, hi, |s|, Space);
    assert s[..lo] == s[0..lo] && s[hi..] == s[hi..|s|];
    assert r == s[lo..lo + |r|] && hi == lo + |r|;
    r
  }

  /** A text with no whitespace at either end is left as it is. */
  lemma StripTrimmed(s: string)
    requires s == [] || (!IsSpace(s[0]) && !IsSpace(s[|s| - 1]))
    ensures Strip(s) == s
  {
    RunEndExact(s, 0, 0, Space);
    assert Strip(s) == s[0..TrailingStart(s, 0, |s|)];
  }

  /** Stripping is idempotent. */
  lemma StripIdempotent(s: string)
    ensures Strip(Strip(s)) == Strip(s)
  {
    StripTrimmed(Strip(s));
  }

  /** `str.endswith(c)` for a one-character suffix. */
  predicate EndsWith(s: string, c: char) {
    |s| > 0 && s[|s| - 1] == c
  }

  /** `c` occurs at `k` in `line` with only whitespace after it. */
  predicate LastNonSpaceAt(line: string, k: nat, c: char) {
    k < |line| && line[k] == c && forall m :: k < m < |line| ==> IsSpace(line[m])
  }

  /**
    The stripped line ends with `c` exactly when `c` is the last non-whitespace
    character of the line (for a `c` that is not whitespace).
  */
  lemma StripEndsWith(line: string, c: char)
    requires !IsSpace(c)
    ensures EndsWith(Strip(line), c) <==> exists k :: LastNonSpaceAt(line, k, c)
  {
    var lo := RunEnd(line, 0, Space);
    var hi := TrailingStart(line, lo, |line|);
    StripBounds(line);
    if EndsWith(Strip(line), c) {
      EndsWithLast(line, c, lo, hi);
    }
    if exists k :: LastNonSpaceAt(line, k, c) {
      var k: nat :| LastNonSpaceAt(line, k, c);
      LastNonSpaceInside(line, k, c, lo, hi);
    }
  }

  lemma StripBounds(line: string)
    ensures Strip(line) == line[RunEnd(line, 0, Space)..TrailingStart(line, RunEnd(line, 0, Space), |line|)]
  {
  }

  lemma EndsWithLast(line: string, c: char, lo: nat, hi: nat)
    requires lo == RunEnd(line, 0, Space) && hi == TrailingStart(line, lo, |line|)
    requires EndsWith(line[lo..hi], c)
    ensures LastNonSpaceAt(line, hi - 1, c)
  {
    assert line[lo..hi][hi - lo - 1] == line[hi - 1];
  }

  /** The last non-whitespace character is the last character kept by stripping. */
  lemma LastNonSpaceInside(line: string, k: nat, c: char, lo: nat, hi: nat)
    requires !IsSpace(c) && LastNonSpaceAt(line, k, c)
    requires lo == RunEnd(line, 0, Space) && hi == TrailingStart(line, lo, |line|)
    ensures lo <= k && k == hi - 1
    ensures EndsWith(line[lo..hi], c)
  {
    assert k >= lo;
    assert k < hi;
    assert line[lo..hi][hi - lo - 1] == line[hi - 1];
  }

  // ----- substring test -----

  /** Python's `pat in s`. */
  function Contains(s: string, pat: string): (b: bool)
    ensures b <==> exists k :: 0 <= k <= |s| && pat <= s[k..]
    decreases |s|
  {
    if pat <= s then
      assert pat <= s[0..];
      true
    else if |s| == 0 then
      false
    else
      assert forall k :: 1 <= k <= |s| ==> s[1..][k - 1..] == s[k..];
      Contains(s[1..], pat)
  }

  // ----- str.split('\n') and str.join -----

  /**
    Python's `s.split(sep)`: the pieces between separators, always at least one
    (`"".split('\n') == [""]`), none containing the separator.
  */
  function Split(s: string, sep: char): (lines: seq<string>)
    ensures |lines| > 0
    ensures forall n :: 0 <= n < |lines| ==> sep !in lines[n]
    decreases |s|
  {
    if |s| == 0 then
      [""]
    else
      var rest := Split(s[1..], sep);
      if s[0] == sep then [""] + rest else [[s[0]] + rest[0]] + rest[1..]
  }

  /** Python's `sep.join(parts)`. */
  function Join(parts: seq<string>, sep: string): string
  {
    if |parts| == 0 then ""
    else if |parts| == 1 then parts[0]
    else parts[0] + sep + Join(parts[1..], sep)
  }

  /** A join starts with its first part. */
  lemma JoinStartsWith(parts: seq<string>, sep: string)
    requires |parts| > 0
    ensures parts[0] <= Join(parts, sep)
  {
  }

  /** Joining the pieces of a split with the separator gives back the text. */
  lemma {:induction false} JoinSplit(s: string, sep: char)
    ensures Join(Split(s, sep), [sep]) == s
    decreases |s|
  {
    if |s| > 0 {
      var rest := Split(s[1..], sep);
      JoinSplit(s[1..], sep);
      if s[0] == sep {
        assert s == [sep] + s[1..];
      } else if |rest| == 1 {
        assert s == [s[0]] + s[1..];
      } else {
        assert rest == [rest[0]] + rest[1..];
        assert Join(rest, [sep]) == rest[0] + [sep] + Join(rest[1..], [sep]);
        assert s == [s[0]] + s[1..];
      }
    }
  }

  lemma {:induction false} SplitPrefix(x: string, y: string, sep: char)
    requires sep !in x
    ensures Split(x + [sep] + y, sep) == [x] + Split(y, sep)
    ensures Split(x, sep) == [x]
    decreases |x|
  {
    if |x| == 0 {
      assert x + [sep] + y == [sep] + y;
      assert ([sep] + y)[1..] == y;
    } else {
      SplitPrefix(x[1..], y, sep);
      assert (x + [sep] + y)[1..] == x[1..] + [sep] + y;
      assert [x[0]] + x[1..] == x;
    }
  }

  /** Splitting a join of separator-free pieces gives back the pieces. */
  lemma {:induction false} SplitJoin(lines: seq<string>, sep: char)
    requires |lines| > 0
    requires forall n :: 0 <= n < |lines| ==> sep !in lines[n]
    ensures Split(Join(lines, [sep]), sep) == lines
    decreases |lines|
  {
    if |lines| == 1 {
      SplitPrefix(lines[0], "", sep);
    } else {
      var tail := Join(lines[1..], [sep]);
      assert Join(lines, [sep]) == lines[0] + [sep] + tail;
      SplitJoin(lines[1..], sep);
      SplitPrefix(lines[0], tail, sep);
      assert lines == [lines[0]] + lines[1..];
    }
  }

  // ----- decimal rendering -----

  function DigitChar(d: nat): (c: char)
    requires d < 10
    ensures IsDigit(c)
  {
    ('0' as int + d) as char
  }

  /** The value of a string of decimal digits. */
  function DigitsValue(r: string): nat
    requires AllIn(r, Digit)
  {
    if |r| == 0 then 0 else 10 * DigitsValue(r[..|r| - 1]) + (r[|r| - 1] as int - '0' as int)
  }

  /** Python's `str(n)` for a natural number: decimal digits without leading zeros. */
  function NatToString(n: nat): (r: string)
    ensures |r| > 0 && AllIn(r, Digit)
    ensures r[0] == '0' ==> r == "0"
    decreases n
  {
    if n < 10 then [DigitChar(n)] else NatToString(n / 10) + [DigitChar(n % 10)]
  }

  /** Reading the rendered digits back gives the number. */
  lemma {:induction false} NatToStringValue(n: nat)
    ensures DigitsValue(NatToString(n)) == n
    decreases n
  {
    if n >= 10 {
      NatToStringValue(n / 10);
      var r := NatToString(n);
      assert r[..|r| - 1] == NatToString(n / 10);
    }
  }
}
