/**
  The regular expressions `analyze_semantic` applies to a `for` line
  (app.py:183, 192-193), with `re.search`.

  Each pattern is a sequence of literals and runs of one character class
  (`\s*`, `\s+`, `\w+`, `\d+`). Every run in them is followed by something
  that cannot start with a character of the run's class, so backtracking never
  changes a run's extent: matching takes each run maximal, left to right, and
  either succeeds that way or not at all. `Match` does exactly that and
  returns the text each element took (the capture groups are among them);
  `MatchComplete` shows no other way of matching exists.
*/
module LoopRegex {
  import opened Wrappers
  import opened Text

  /** A pattern element: a literal, or a run of at least `min` characters of a class. */
  datatype Elem = Lit(text: string) | Run(cls: CharClass, min: nat)

  /** The text taken by one element. */
  predicate Fits(piece: string, e: Elem) {
    match e
    case Lit(t) => piece == t
    case Run(cls, min) => |piece| >= min && AllIn(piece, cls)
  }

  /** One piece of text per element, each fitting its element. */
  predicate Conforms(ps: seq<string>, pat: seq<Elem>) {
    |ps| == |pat| && forall e :: 0 <= e < |pat| ==> Fits(ps[e], pat[e])
  }

  function Concat(ps: seq<string>): string
  {
    if |ps| == 0 then "" else ps[0] + Concat(ps[1..])
  }

  /** What the regular expression means: some choice of pieces spells a prefix of `s[i..]`. */
  ghost predicate MatchesAt(s: string, i: nat, pat: seq<Elem>)
    requires i <= |s|
  {
    exists ps :: Conforms(ps, pat) && Concat(ps) <= s[i..]
  }

  /**
    Where the element taken at `i` ends, if it can be taken there: a literal as
    written, a run as far as it goes, provided it is long enough.
  */
  function Take(s: string, i: nat, e: Elem): (r: Option<nat>)
    requires i <= |s|
    ensures r.Some? ==> i <= r.value <= |s| && Fits(s[i..r.value], e)
  {
    match e
    case Lit(t) =>
      if t <= s[i..] then
        assert s[i..i + |t|] == t;
        Some(i + |t|)
      else None
    case Run(cls, min) =>
      var j := RunEnd(s, i, cls);
      SliceAllIn(s, i, j, cls);
      if j - i >= min then Some(j) else None
  }

  /** Matching at `i` with every run taken maximal; the pieces each element took. */
  function Match(s: string, i: nat, pat: seq<Elem>): (r: Option<seq<string>>)
    requires i <= |s|
    ensures r.Some? ==> |r.value| == |pat|
    decreases |pat|
  {
    if |pat| == 0 then Some([])
    else
      match Take(s, i, pat[0])
      case None => None
      case Some(j) =>
        match Match(s, j, pat[1..])
        case None => None
        case Some(rest) => Some([s[i..j]] + rest)
  }

  lemma ConformsTail(ps: seq<string>, pat: seq<Elem>)
    requires |pat| > 0
    ensures Conforms(ps, pat) <==> |ps| > 0 && Fits(ps[0], pat[0]) && Conforms(ps[1..], pat[1..])
  {
    if |ps| == |pat| {
      assert forall e :: 0 <= e < |pat| - 1 ==> ps[1..][e] == ps[e + 1] && pat[1..][e] == pat[e + 1];
    }
  }

  /** What Match returns is a way of matching. */
  lemma {:induction false} MatchSound(s: string, i: nat, pat: seq<Elem>)
    requires i <= |s|
    ensures Match(s, i, pat).Some? ==>
      Conforms(Match(s, i, pat).value, pat) && Concat(Match(s, i, pat).value) <= s[i..]
    decreases |pat|
  {
    if |pat| > 0 && Match(s, i, pat).Some? {
      var j := Take(s, i, pat[0]).value;
      MatchSound(s, j, pat[1..]);
      var ps := Match(s, i, pat).value;
      var rest := Match(s, j, pat[1..]).value;
      assert ps == [s[i..j]] + rest;
      assert ps[0] == s[i..j] && ps[1..] == rest;
      ConformsTail(ps, pat);
      assert Concat(ps) == s[i..j] + Concat(rest);
      assert s[i..] == s[i..j] + s[j..];
    }
  }

  // ----- patterns whose runs never need backtracking -----

  /** No character belongs to both classes. */
  predicate Disjoint(a: CharClass, b: CharClass) {
    match (a, b)
    case (Space, Word) => true
    case (Space, Digit) => true
    case (Word, Space) => true
    case (Digit, Space) => true
    case (Newline, Word) => true
    case (Newline, Digit) => true
    case (Word, Newline) => true
    case (Digit, Newline) => true
    case _ => false
  }

  lemma DisjointChar(a: CharClass, b: CharClass, c: char)
    requires Disjoint(a, b) && InClass(c, a)
    ensures !InClass(c, b)
  {
  }

  /** Every match of `pat` is non-empty and starts outside `cls`. */
  predicate StartsOutside(pat: seq<Elem>, cls: CharClass)
    decreases |pat|
  {
    |pat| > 0 &&
    match pat[0]
    case Lit(t) => |t| > 0 && !InClass(t[0], cls)
    case Run(c, min) => Disjoint(c, cls) && (min == 0 ==> StartsOutside(pat[1..], cls))
  }

  /** Each run is followed by elements that cannot continue it. */
  predicate Unambiguous(pat: seq<Elem>) {
    forall e :: 0 <= e < |pat| && pat[e].Run? ==> StartsOutside(pat[e + 1..], pat[e].cls)
  }

  lemma {:induction false} FirstOutside(pat: seq<Elem>, cls: CharClass, ps: seq<string>)
    requires StartsOutside(pat, cls) && Conforms(ps, pat)
    ensures |Concat(ps)| > 0 && !InClass(Concat(ps)[0], cls)
    decreases |pat|
  {
    assert Fits(ps[0], pat[0]);
    match pat[0]
    case Lit(t) =>
    case Run(c, min) =>
      if |ps[0]| > 0 {
        DisjointChar(c, cls, ps[0][0]);
      } else {
        assert Conforms(ps[1..], pat[1..]) by {
          assert forall e :: 0 <= e < |pat| - 1 ==> ps[1..][e] == ps[e + 1] && pat[1..][e] == pat[e + 1];
        }
        FirstOutside(pat[1..], cls, ps[1..]);
        assert Concat(ps) == Concat(ps[1..]);
      }
  }

  lemma UnambiguousTail(pat: seq<Elem>)
    requires |pat| > 0 && Unambiguous(pat)
    ensures Unambiguous(pat[1..])
    ensures pat[0].Run? ==> StartsOutside(pat[1..], pat[0].cls)
  {
    var tail := pat[1..];
    forall e | 0 <= e < |tail| && tail[e].Run? ensures StartsOutside(tail[e + 1..], tail[e].cls) {
      assert tail[e] == pat[e + 1];
      assert tail[e + 1..] == pat[e + 2..];
    }
  }

  /** The first piece of a way of matching is what the first element takes in Match. */
  lemma HeadPiece(s: string, i: nat, pat: seq<Elem>, ps: seq<string>)
    requires i <= |s| && |pat| > 0 && Unambiguous(pat)
    requires Conforms(ps, pat) && Concat(ps) <= s[i..]
    ensures i + |ps[0]| <= |s| && Take(s, i, pat[0]) == Some(i + |ps[0]|)
    ensures s[i..i + |ps[0]|] == ps[0]
    ensures Concat(ps[1..]) <= s[i + |ps[0]|..]
  {
    ConformsTail(ps, pat);
    var j := i + |ps[0]|;
    assert Concat(ps) == ps[0] + Concat(ps[1..]);
    PrefixParts(ps[0], Concat(ps[1..]), s[i..]);
    assert s[i..][..|ps[0]|] == s[i..j] && s[i..][|ps[0]|..] == s[j..];
    if pat[0].Run? {
      RunHeadPiece(s, i, pat, ps);
    }
  }

  /** A prefix made of two parts: the first part begins the text, the second begins the rest. */
  lemma PrefixParts(x: string, y: string, t: string)
    requires x + y <= t
    ensures |x| <= |t| && t[..|x|] == x && y <= t[|x|..]
  {
    assert forall k :: 0 <= k < |x| ==> t[k] == (x + y)[k];
    assert forall k :: 0 <= k < |y| ==> t[|x|..][k] == (x + y)[|x| + k];
  }

  /** A run takes exactly its piece: what follows the piece cannot continue the run. */
  lemma RunHeadPiece(s: string, i: nat, pat: seq<Elem>, ps: seq<string>)
    requires i <= |s| && |pat| > 0 && pat[0].Run? && Unambiguous(pat)
    requires Conforms(ps, pat) && Concat(ps) <= s[i..]
    requires Concat(ps) == ps[0] + Concat(ps[1..])
    ensures i + |ps[0]| <= |s| && RunEnd(s, i, pat[0].cls) == i + |ps[0]|
  {
    ConformsTail(ps, pat);
    UnambiguousTail(pat);
    var cls := pat[0].cls;
    var j := i + |ps[0]|;
    FirstOutside(pat[1..], cls, ps[1..]);
    assert s[j] == Concat(ps[1..])[0];
    assert forall k :: i <= k < j ==> s[k] == ps[0][k - i];
    RunEndExact(s, i, j, cls);
  }

  /** Match takes the first element and matches the rest after it. */
  lemma MatchCons(s: string, i: nat, j: nat, pat: seq<Elem>, rest: seq<string>)
    requires i <= |s| && |pat| > 0 && Take(s, i, pat[0]) == Some(j)
    requires Match(s, j, pat[1..]) == Some(rest)
    ensures Match(s, i, pat) == Some([s[i..j]] + rest)
  {
  }

  /**
    For an unambiguous pattern, every way of matching at `i` is the one Match
    finds.
  */
  lemma {:induction false} MatchComplete(s: string, i: nat, pat: seq<Elem>, ps: seq<string>)
    requires i <= |s| && Unambiguous(pat)
    requires Conforms(ps, pat) && Concat(ps) <= s[i..]
    ensures Match(s, i, pat) == Some(ps)
    decreases |pat|
  {
    if |pat| > 0 {
      HeadPiece(s, i, pat, ps);
      var j := i + |ps[0]|;
      ConformsTail(ps, pat);
      UnambiguousTail(pat);
      MatchComplete(s, j, pat[1..], ps[1..]);
      MatchCons(s, i, j, pat, ps[1..]);
      assert ps == [ps[0]] + ps[1..];
    }
  }

  /** Match decides the regular expression at a position, for unambiguous patterns. */
  lemma MatchDecides(s: string, i: nat, pat: seq<Elem>)
    requires i <= |s| && Unambiguous(pat)
    ensures Match(s, i, pat).Some? <==> MatchesAt(s, i, pat)
  {
    MatchSound(s, i, pat);
    if MatchesAt(s, i, pat) {
      var ps :| Conforms(ps, pat) && Concat(ps) <= s[i..];
      MatchComplete(s, i, pat, ps);
    }
  }

  // ----- re.search -----

  /** No position from `lo` up to but excluding `hi` is a match. */
  predicate NoMatchBetween(s: string, lo: nat, hi: nat, pat: seq<Elem>)
    requires hi <= |s| + 1
  {
    forall p :: lo <= p < hi ==> Match(s, p, pat).None?
  }

  /** `re.search`: the leftmost position from `i` on where Match succeeds, with its pieces. */
  function Search(s: string, i: nat, pat: seq<Elem>): (r: Option<(nat, seq<string>)>)
    requires i <= |s|
    ensures r.Some? ==> i <= r.value.0 <= |s| && Match(s, r.value.0, pat) == Some(r.value.1)
    ensures r.Some? ==> NoMatchBetween(s, i, r.value.0, pat)
    ensures r.None? ==> NoMatchBetween(s, i, |s| + 1, pat)
    decreases |s| - i
  {
    match Match(s, i, pat)
    case Some(ps) => Some((i, ps))
    case None =>
      if i == |s| then None
      else
        var r := Search(s, i + 1, pat);
        assert r.Some? ==> NoMatchBetween(s, i, r.value.0, pat);
        r
  }

  // ----- a pattern and its prefix -----

  /** A match of `a + b` starts with a match of `a`. */
  lemma {:induction false} MatchPrefix(s: string, i: nat, a: seq<Elem>, b: seq<Elem>)
    requires i <= |s|
    requires Match(s, i, a + b).Some?
    ensures Match(s, i, a).Some?
    ensures |Match(s, i, a + b).value| == |a| + |b|
    ensures Match(s, i, a).value == Match(s, i, a + b).value[..|a|]
    decreases |a|
  {
    if |a| == 0 {
      assert a + b == b;
    } else {
      assert (a + b)[0] == a[0];
      assert (a + b)[1..] == a[1..] + b;
      MatchPrefix(s, Take(s, i, a[0]).value, a[1..], b);
    }
  }

  /** Where `a + b` is found, `a` is found too, no later. */
  lemma SearchPrefix(s: string, a: seq<Elem>, b: seq<Elem>)
    requires Search(s, 0, a + b).Some?
    ensures Search(s, 0, a).Some?
    ensures Search(s, 0, a).value.0 <= Search(s, 0, a + b).value.0
  {
    MatchPrefix(s, Search(s, 0, a + b).value.0, a, b);
  }

  // ----- the patterns of analyze_semantic -----

  /** `for\s+\w+\s*:=\s*\d+;\s*(\w+)\s*<\s*\d+;`, the condition pattern of app.py:192. */
  const HeaderPattern: seq<Elem> := [
    Lit("for"), Run(Space, 1), Run(Word, 1), Run(Space, 0), Lit(":="), Run(Space, 0),
    Run(Digit, 1), Lit(";"), Run(Space, 0), Run(Word, 1), Run(Space, 0), Lit("<"),
    Run(Space, 0), Run(Digit, 1), Lit(";")]

  /**
    `for\s+(\w+)\s*:=\s*(\d+);\s*\w+\s*<\s*\d+;\s*\w+\+\+`, the loop pattern of
    app.py:183. The increment pattern of app.py:193 is the same pattern with only
    the increment variable captured instead.
  */
  const LoopPattern: seq<Elem> := HeaderPattern + [Run(Space, 0), Run(Word, 1), Lit("++")]

  /**
    Piece indices of the captured parts that are compared. The initial value
    (`num_init`, piece 6) is captured at app.py:191 but never read.
  */
  const InitVar := 2
  const CondVar := 9
  const IncrVar := 16

  lemma PatternsUnambiguous()
    ensures Unambiguous(HeaderPattern)
    ensures Unambiguous(LoopPattern)
  {
    forall e | 0 <= e < |LoopPattern| && LoopPattern[e].Run?
      ensures StartsOutside(LoopPattern[e + 1..], LoopPattern[e].cls)
    {
      LoopStartsOutsideAt(e);
    }
    forall e | 0 <= e < |HeaderPattern| && HeaderPattern[e].Run?
      ensures StartsOutside(HeaderPattern[e + 1..], HeaderPattern[e].cls)
    {
      HeaderStartsOutsideAt(e);
    }
  }

  lemma LoopStartsOutsideAt(e: nat)
    requires e < |LoopPattern| && LoopPattern[e].Run?
    ensures StartsOutside(LoopPattern[e + 1..], LoopPattern[e].cls)
  {
  }

  lemma HeaderStartsOutsideAt(e: nat)
    requires e < |HeaderPattern| && HeaderPattern[e].Run?
    ensures StartsOutside(HeaderPattern[e + 1..], HeaderPattern[e].cls)
  {
  }
}
