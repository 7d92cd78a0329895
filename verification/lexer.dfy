/**
  The token rules of app.py:8-24, run as a direct scanner instead of through PLY.

  At each position the rules are tried in the order KEYWORD, ID, NUM, SYM, ERR,
  after the newline rule; the first one that matches produces the token and the
  scan continues after it. PLY itself orders string rules by the length of their
  regular expression, which puts SYM before NUM; no character can start both a
  number and a symbol, so the two orders give the same tokens.

  There is no ignore set: every character that is not a newline ends up in some
  token, spaces, tabs and carriage returns as ERR tokens.
*/
module Lexer {
  import opened Wrappers
  import opened Text

  datatype Kind = Keyword | Id | Num | Sym | Err

  /** A token: its kind and the text it covers. */
  datatype Token = Token(kind: Kind, lexeme: string)

  /** The alternatives of the KEYWORD rule, in the order the rule lists them. */
  const Keywords: seq<string> :=
    ["package", "import", "func", "main", "for", "if", "else", "return", "fmt", "Println"]

  /** `[a-zA-Z_]`, the first character of an identifier. */
  predicate IsIdStart(c: char) {
    ('a' <= c <= 'z') || ('A' <= c <= 'Z') || c == '_'
  }

  // The symbol class of the SYM rule: `;{}()[]=<>!*` and the range `+-/`,
  // which runs from `+` to `/` and so also holds `,` and `.`.
  predicate IsSymChar(c: char) {
    c in ";{}()[]=<>!*" || ('+' <= c <= '/')
  }

  lemma KeywordsAreWords()
    ensures forall n :: 0 <= n < |Keywords| ==> IsWord(Keywords[n]) && IsIdStart(Keywords[n][0])
    ensures forall n :: 0 <= n < |Keywords| ==> |Keywords[n]| >= 2
  {
  }

  /** `\bw\b` matches at `i` exactly when the whole word starting at `i` is `w`. */
  lemma WholeWordMatch(s: string, i: nat, w: string)
    requires i <= |s| && IsWord(w)
    ensures (AtBoundary(s, i) && w <= s[i..] && AtBoundary(s, i + |w|))
        <==> (AtWordStart(s, i) && s[i..RunEnd(s, i, Word)] == w)
  {
    if AtBoundary(s, i) && w <= s[i..] && AtBoundary(s, i + |w|) {
      assert s[i] == w[0];
      assert forall k :: i <= k < i + |w| ==> s[k] == w[k - i];
      RunEndExact(s, i, i + |w|, Word);
    }
    if AtWordStart(s, i) && s[i..RunEnd(s, i, Word)] == w {
      var j := RunEnd(s, i, Word);
      assert s[j - 1] == w[|w| - 1];
    }
  }

  /**
    The alternation `\b(package|import|...|Println)\b` tried at `i`: the first
    alternative, in list order, that matches with a boundary on both sides. It
    matches exactly when the whole word starting at `i` is one of the keywords.
  */
  function KeywordFrom(s: string, i: nat, kws: seq<string>): (r: Option<string>)
    requires i <= |s|
    requires forall n :: 0 <= n < |kws| ==> IsWord(kws[n])
    ensures r.Some? <==> AtWordStart(s, i) && s[i..RunEnd(s, i, Word)] in kws
    ensures r.Some? ==> r.value == s[i..RunEnd(s, i, Word)]
    decreases |kws|
  {
    if |kws| == 0 then
      None
    else
      WholeWordMatch(s, i, kws[0]);
      if AtBoundary(s, i) && kws[0] <= s[i..] && AtBoundary(s, i + |kws[0]|) then
        Some(kws[0])
      else
        assert kws == [kws[0]] + kws[1..];
        KeywordFrom(s, i, kws[1..])
  }

  function KeywordAt(s: string, i: nat): (r: Option<string>)
    requires i <= |s|
    ensures r.Some? <==> AtWordStart(s, i) && s[i..RunEnd(s, i, Word)] in Keywords
    ensures r.Some? ==> r.value == s[i..RunEnd(s, i, Word)]
  {
    KeywordsAreWords();
    KeywordFrom(s, i, Keywords)
  }

  /** What a token of each kind looks like. */
  predicate WellFormed(t: Token) {
    match t.kind
    case Keyword => t.lexeme in Keywords
    case Id => IsWord(t.lexeme) && IsIdStart(t.lexeme[0]) && t.lexeme !in Keywords
    case Num => IsWord(t.lexeme) && AllIn(t.lexeme, Digit)
    case Sym => |t.lexeme| == 1 && IsSymChar(t.lexeme[0])
    case Err => |t.lexeme| == 1 && t.lexeme[0] != '\n' && !IsSymChar(t.lexeme[0])
  }

  /** The outcome of one scan step: the token produced, if any, and where scanning resumes. */
  datatype Step = Step(token: Option<Token>, next: nat)

  /**
    One call of the lexer's rule set at position `i`, as the rules are written:
    a newline run yields no token; otherwise the first of KEYWORD, ID, NUM, SYM,
    ERR whose regular expression matches gives the token.
  */
  function RuleCascade(s: string, i: nat): Step
    requires i < |s|
  {
    if s[i] == '\n' then
      Step(None, RunEnd(s, i, Newline))
    else
      var w := RunEnd(s, i, Word);
      match KeywordAt(s, i)
      case Some(kw) =>
        Step(Some(Token(Keyword, kw)), i + |kw|)
      case None =>
        if AtBoundary(s, i) && IsIdStart(s[i]) && AtBoundary(s, w) then
          Step(Some(Token(Id, s[i..w])), w)
        else
          match NumberAt(s, i)
          case Some(d) =>
            Step(Some(Token(Num, s[i..d])), d)
          case None =>
            if IsSymChar(s[i]) then Step(Some(Token(Sym, [s[i]])), i + 1)
            else Step(Some(Token(Err, [s[i]])), i + 1)
  }

  /**
    One scanner step at position `i`, taken by the whole-word classification
    (which `StepIsWordRule` shows the rule cascade agrees with). The step always
    advances, a token covers exactly the text it consumed, and only a newline
    yields no token.
  */
  function StepAt(s: string, i: nat): (st: Step)
    requires i < |s|
    ensures i < st.next <= |s|
    ensures st.token.Some? ==> st.token.value.lexeme == s[i..st.next]
    ensures st.token.None? <==> s[i] == '\n'
  {
    Shift(WordRule(ViewAt(s, i)), i)
  }

  /**
    Each rule yields tokens of its own shape: a KEYWORD is a listed keyword, an
    ID a word starting with a letter or `_` that is not a keyword, a NUM a whole
    digit word, a SYM one character of the symbol class and an ERR any other one
    character but a newline. A step without a token skipped newlines only.
  */
  lemma StepWellFormed(s: string, i: nat)
    requires i < |s|
    ensures StepAt(s, i).token.Some? ==> WellFormed(StepAt(s, i).token.value)
    ensures StepAt(s, i).token.None? ==> AllIn(s[i..StepAt(s, i).next], Newline)
  {
    var st := StepAt(s, i);
    var v := ViewAt(s, i);
    if s[i] == '\n' {
      SliceAllIn(s, i, st.next, Newline);
    } else if v.wordStart {
      SliceAllIn(s, i, RunEnd(s, i, Word), Word);
      assert v.word[0] == s[i];
    }
  }

  /** The tokens the lexer yields from position `i` on. */
  function Scan(s: string, i: nat): (ts: seq<Token>)
    requires i <= |s|
    decreases |s| - i
  {
    if i == |s| then
      []
    else
      var st := StepAt(s, i);
      Emitted(st.token) + Scan(s, st.next)
  }

  lemma ScanStep(s: string, i: nat)
    requires i < |s|
    ensures Scan(s, i) == Emitted(StepAt(s, i).token) + Scan(s, StepAt(s, i).next)
  {
  }

  /** All tokens of the input, in input order. */
  function Tokenize(s: string): seq<Token>
  {
    Scan(s, 0)
  }

  lemma {:induction false} ScanWellFormed(s: string, i: nat)
    requires i <= |s|
    ensures forall t :: t in Scan(s, i) ==> WellFormed(t)
    decreases |s| - i
  {
    if i < |s| {
      StepWellFormed(s, i);
      ScanWellFormed(s, StepAt(s, i).next);
    }
  }

  /** Every token has the shape of its kind. */
  lemma TokensWellFormed(s: string)
    ensures forall t :: t in Tokenize(s) ==> WellFormed(t)
  {
    ScanWellFormed(s, 0);
  }

  // ----- what the tokens cover -----

  /** The text with every newline removed. */
  function DropNewlines(s: string): (r: string)
    ensures '\n' !in r
  {
    if |s| == 0 then [] else (if s[0] == '\n' then [] else [s[0]]) + DropNewlines(s[1..])
  }

  lemma {:induction false} DropNewlinesAppend(a: string, b: string)
    ensures DropNewlines(a + b) == DropNewlines(a) + DropNewlines(b)
    decreases |a|
  {
    if |a| > 0 {
      assert (a + b)[0] == a[0];
      assert (a + b)[1..] == a[1..] + b;
      DropNewlinesAppend(a[1..], b);
    } else {
      assert a + b == b;
    }
  }

  lemma {:induction false} DropNewlinesOf(t: string)
    ensures AllIn(t, Newline) ==> DropNewlines(t) == []
    ensures '\n' !in t ==> DropNewlines(t) == t
    decreases |t|
  {
    if |t| > 0 {
      DropNewlinesOf(t[1..]);
      assert t == [t[0]] + t[1..];
    }
  }

  /** The lexemes of a token sequence, concatenated. */
  function Lexemes(ts: seq<Token>): string
  {
    if |ts| == 0 then [] else ts[0].lexeme + Lexemes(ts[1..])
  }

  lemma {:induction false} LexemesAppend(xs: seq<Token>, ys: seq<Token>)
    ensures Lexemes(xs + ys) == Lexemes(xs) + Lexemes(ys)
    decreases |xs|
  {
    if |xs| > 0 {
      assert (xs + ys)[0] == xs[0];
      assert (xs + ys)[1..] == xs[1..] + ys;
      LexemesAppend(xs[1..], ys);
    } else {
      assert xs + ys == ys;
    }
  }

  /** No token contains a newline. */
  lemma LexemeHasNoNewline(t: Token)
    requires WellFormed(t)
    ensures '\n' !in t.lexeme
  {
    KeywordsAreWords();
    if t.kind == Keyword {
      var n :| 0 <= n < |Keywords| && Keywords[n] == t.lexeme;
    }
  }

  /** The tokens a step yields: none or one. */
  function Emitted(token: Option<Token>): seq<Token>
  {
    if token.Some? then [token.value] else []
  }

  lemma StepCovers(s: string, i: nat)
    requires i < |s|
    ensures Lexemes(Emitted(StepAt(s, i).token)) == DropNewlines(s[i..StepAt(s, i).next])
  {
    var st := StepAt(s, i);
    StepWellFormed(s, i);
    DropNewlinesOf(s[i..st.next]);
    if st.token.Some? {
      LexemeHasNoNewline(st.token.value);
      assert Lexemes(Emitted(st.token)) == st.token.value.lexeme + Lexemes([]);
    }
  }

  lemma CoversAppend(s: string, i: nat, j: nat, head: seq<Token>, rest: seq<Token>)
    requires i <= j <= |s|
    requires Lexemes(head) == DropNewlines(s[i..j])
    requires Lexemes(rest) == DropNewlines(s[j..])
    ensures Lexemes(head + rest) == DropNewlines(s[i..])
  {
    LexemesAppend(head, rest);
    assert s[i..] == s[i..j] + s[j..];
    DropNewlinesAppend(s[i..j], s[j..]);
  }

  lemma {:induction false} ScanCovers(s: string, i: nat)
    requires i <= |s|
    ensures Lexemes(Scan(s, i)) == DropNewlines(s[i..])
    decreases |s| - i
  {
    if i < |s| {
      var st := StepAt(s, i);
      assert Scan(s, i) == Emitted(st.token) + Scan(s, st.next);
      StepCovers(s, i);
      ScanCovers(s, st.next);
      CoversAppend(s, i, st.next, Emitted(st.token), Scan(s, st.next));
    } else {
      assert s[i..] == [];
    }
  }

  /**
    Newline runs yield no token and every other character lies in exactly one
    token: the lexemes, in order, spell out the input without its newlines.
  */
  lemma TokenizeCovers(s: string)
    ensures Lexemes(Tokenize(s)) == DropNewlines(s)
  {
    ScanCovers(s, 0);
    assert s[0..] == s;
  }

  /**
    A token is a KEYWORD exactly when its text is one of the keywords; in
    particular a keyword is never an ID.
  */
  lemma KeywordIffListed(s: string)
    ensures forall t :: t in Tokenize(s) ==> (t.kind == Keyword <==> t.lexeme in Keywords)
  {
    KeywordsAreWords();
    TokensWellFormed(s);
  }

  // ----- the rule cascade, word by word -----

  /**
    What the rules look at when tried at a position: the character there,
    whether a word starts there, the whole word starting there (empty when the
    character is no word character) and the length of the newline run there.
  */
  datatype View = View(c: char, wordStart: bool, word: string, newlines: nat)

  function ViewAt(s: string, i: nat): View
    requires i < |s|
  {
    View(s[i], AtWordStart(s, i), s[i..RunEnd(s, i, Word)], RunEnd(s, i, Newline) - i)
  }

  /**
    The rule cascade restated over whole words: a newline run is skipped; a whole
    word that is a keyword is a KEYWORD; one starting with a letter or `_` is an
    ID; one made of digits only is a NUM; any other character is a SYM or an ERR
    token by itself. The step's `next` is the length consumed.
  */
  function WordRule(v: View): Step
  {
    if v.c == '\n' then Step(None, v.newlines)
    else if v.wordStart && v.word in Keywords then Step(Some(Token(Keyword, v.word)), |v.word|)
    else if v.wordStart && IsIdStart(v.c) then Step(Some(Token(Id, v.word)), |v.word|)
    else if v.wordStart && AllIn(v.word, Digit) then Step(Some(Token(Num, v.word)), |v.word|)
    else if IsSymChar(v.c) then Step(Some(Token(Sym, [v.c])), 1)
    else Step(Some(Token(Err, [v.c])), 1)
  }

  /** Moves a step's resume position forward by `d`. */
  function Shift(st: Step, d: nat): Step
  {
    Step(st.token, d + st.next)
  }

  /**
    The regular-expression rules, tried in order with their `\b` anchors, make
    the same choice at every position as the whole-word classification.
  */
  lemma StepIsWordRule(s: string, i: nat)
    requires i < |s|
    ensures RuleCascade(s, i) == StepAt(s, i)
  {
    if s[i] != '\n' && KeywordAt(s, i).None? {
      IdRule(s, i);
    }
  }

  /** `\b[a-zA-Z_]\w*\b` matches at `i` exactly when a word starting with a letter or `_` starts there. */
  lemma IdRule(s: string, i: nat)
    requires i < |s|
    ensures (AtBoundary(s, i) && IsIdStart(s[i]) && AtBoundary(s, RunEnd(s, i, Word)))
        <==> (AtWordStart(s, i) && IsIdStart(s[i]))
  {
    var w := RunEnd(s, i, Word);
    if AtWordStart(s, i) && IsIdStart(s[i]) {
      assert i < w && IsWordChar(s[w - 1]);
    }
  }

  // ----- scanning concatenated texts -----

  /**
    Two texts meet cleanly when the join splits neither a word nor a newline
    run; then they can be scanned separately.
  */
  predicate Separated(a: string, b: string) {
    || |a| == 0
    || |b| == 0
    || (!(IsWordChar(a[|a| - 1]) && IsWordChar(b[0])) && !(a[|a| - 1] == '\n' && b[0] == '\n'))
  }

  lemma RunEndLeft(a: string, b: string, i: nat, cls: CharClass)
    requires i <= |a|
    requires RunEnd(a, i, cls) < |a| || |b| == 0 || !InClass(b[0], cls)
    ensures RunEnd(a + b, i, cls) == RunEnd(a, i, cls)
  {
    RunEndExact(a + b, i, RunEnd(a, i, cls), cls);
  }

  lemma RunEndRight(a: string, b: string, k: nat, cls: CharClass)
    requires k <= |b|
    ensures RunEnd(a + b, |a| + k, cls) == |a| + RunEnd(b, k, cls)
  {
    RunEndExact(a + b, |a| + k, |a| + RunEnd(b, k, cls), cls);
  }

  lemma ViewLeft(a: string, b: string, i: nat)
    requires i < |a| && Separated(a, b)
    ensures ViewAt(a + b, i) == ViewAt(a, i)
  {
    var s := a + b;
    assert s[i] == a[i];
    assert i > 0 ==> s[i - 1] == a[i - 1];
    var last := a[|a| - 1];
    assert RunEnd(a, i, Newline) == |a| ==> last == '\n';
    RunEndLeft(a, b, i, Newline);
    var w := RunEnd(a, i, Word);
    assert w == |a| ==> IsWordChar(last);
    RunEndLeft(a, b, i, Word);
    assert s[i..w] == a[i..w];
  }

  lemma ViewRight(a: string, b: string, k: nat)
    requires k < |b|
    requires k > 0 || |a| == 0 || !IsWordChar(a[|a| - 1]) || !IsWordChar(b[0])
    ensures ViewAt(a + b, |a| + k) == ViewAt(b, k)
  {
    var s := a + b;
    var i := |a| + k;
    assert s[i] == b[k];
    assert k > 0 ==> s[i - 1] == b[k - 1];
    RunEndRight(a, b, k, Newline);
    RunEndRight(a, b, k, Word);
    var w := RunEnd(b, k, Word);
    assert s[|a|..] == b;
    assert s[i..|a| + w] == s[|a|..][k..w];
  }

  lemma StepsAgree(a: string, b: string, k: nat)
    requires k < |b|
    requires ViewAt(a + b, |a| + k) == ViewAt(b, k)
    ensures StepAt(a + b, |a| + k) == Shift(StepAt(b, k), |a|)
  {
  }

  lemma StepRight(a: string, b: string, k: nat, i: nat)
    requires k < |b| && i == |a| + k
    requires k > 0 || |a| == 0 || !IsWordChar(a[|a| - 1]) || !IsWordChar(b[0])
    ensures StepAt(a + b, i).token == StepAt(b, k).token
    ensures StepAt(a + b, i).next == |a| + StepAt(b, k).next
  {
    ViewRight(a, b, k);
    StepsAgree(a, b, k);
  }

  lemma {:induction false} ScanLeft(a: string, b: string, i: nat)
    requires i <= |a| && Separated(a, b)
    ensures Scan(a + b, i) == Scan(a, i) + Scan(a + b, |a|)
    decreases |a| - i
  {
    if i < |a| {
      ViewLeft(a, b, i);
      ScanLeft(a, b, StepAt(a, i).next);
    }
  }

  /** Position `i` of `a + b` is position `k` of `b`: from there on the two scans agree. */
  lemma {:induction false} ScanRight(a: string, b: string, k: nat, i: nat)
    requires k <= |b| && i == |a| + k
    requires k > 0 || |a| == 0 || |b| == 0 || !IsWordChar(a[|a| - 1]) || !IsWordChar(b[0])
    ensures Scan(a + b, i) == Scan(b, k)
    decreases |b| - k
  {
    if k < |b| {
      var st := StepAt(b, k);
      StepRight(a, b, k, i);
      var big := StepAt(a + b, i);
      ScanRight(a, b, st.next, big.next);
      ScanAlike(a + b, i, b, k);
    } else {
      assert |a + b| == i;
    }
  }

  /** Two positions whose steps yield the same token, and whose rests scan alike, scan alike. */
  lemma ScanAlike(s: string, i: nat, t: string, k: nat)
    requires i < |s| && k < |t|
    requires StepAt(s, i).token == StepAt(t, k).token
    requires Scan(s, StepAt(s, i).next) == Scan(t, StepAt(t, k).next)
    ensures Scan(s, i) == Scan(t, k)
  {
    ScanStep(s, i);
    ScanStep(t, k);
  }

  /** Texts that meet cleanly are tokenized independently of each other. */
  lemma TokenizeAppend(a: string, b: string)
    requires Separated(a, b)
    ensures Tokenize(a + b) == Tokenize(a) + Tokenize(b)
  {
    ScanLeft(a, b, 0);
    ScanRight(a, b, 0, |a|);
    assert Scan(a + b, |a|) == Scan(b, 0) by {
      assert |a| + 0 == |a|;
    }
  }

  // ----- how words, numbers and single characters are tokenized -----

  /** The kind a whole word starting with a letter or `_` receives. */
  function WordKind(w: string): Kind
  {
    if w in Keywords then Keyword else Id
  }

  /** A scan that takes the whole text in one token yields exactly that token. */
  lemma SingleStep(s: string)
    requires |s| > 0 && StepAt(s, 0).next == |s| && StepAt(s, 0).token.Some?
    ensures Tokenize(s) == [StepAt(s, 0).token.value]
  {
    var st := StepAt(s, 0);
    assert Scan(s, 0) == Emitted(st.token) + Scan(s, st.next);
  }

  /** No keyword starts with anything but a letter. */
  lemma NotKeyword(w: string)
    requires |w| > 0 && !IsIdStart(w[0])
    ensures w !in Keywords
  {
    KeywordsAreWords();
  }

  /**
    A whole word that starts with a letter or `_` is one token: a KEYWORD when
    it is one of the keywords, an ID otherwise (so `format` and `main2` are IDs).
  */
  lemma WordToken(w: string)
    requires IsWord(w) && IsIdStart(w[0])
    ensures Tokenize(w) == [Token(WordKind(w), w)]
  {
    RunEndExact(w, 0, |w|, Word);
    assert w[0..|w|] == w;
    SingleStep(w);
  }

  /** A run of digits forming a whole word is one NUM token. */
  lemma NumberToken(d: string)
    requires IsWord(d) && AllIn(d, Digit)
    ensures Tokenize(d) == [Token(Num, d)]
  {
    RunEndExact(d, 0, |d|, Word);
    assert d[0..|d|] == d;
    NotKeyword(d);
    assert ViewAt(d, 0) == View(d[0], true, d, 0);
    SingleStep(d);
  }

  /** A character that is neither a word character nor a newline is a SYM or an ERR token on its own. */
  lemma CharToken(c: char)
    requires !IsWordChar(c) && c != '\n'
    ensures Tokenize([c]) == [Token(if IsSymChar(c) then Sym else Err, [c])]
  {
    assert [c][0..RunEnd([c], 0, Word)] == [];
    SingleStep([c]);
  }

  /** One ERR token per character of `t`. */
  function ErrTokens(t: string): (ts: seq<Token>)
    ensures |ts| == |t|
  {
    if |t| == 0 then [] else [Token(Err, [t[0]])] + ErrTokens(t[1..])
  }

  lemma {:induction false} MixedWordTail(w: string, i: nat)
    requires IsWord(w) && 0 < i <= |w|
    ensures Scan(w, i) == ErrTokens(w[i..])
    decreases |w| - i
  {
    if i < |w| {
      assert !AtWordStart(w, i);
      assert !IsSymChar(w[i]);
      MixedWordTail(w, i + 1);
      assert w[i..][1..] == w[i + 1..];
    } else {
      assert w[i..] == [];
    }
  }

  /**
    A word that starts with a digit but is not all digits (`12ab`) matches no
    rule but ERR anywhere: it becomes one ERR token per character.
  */
  lemma MixedWordErrors(w: string)
    requires IsWord(w) && IsDigit(w[0]) && !AllIn(w, Digit)
    ensures Tokenize(w) == ErrTokens(w)
  {
    RunEndExact(w, 0, |w|, Word);
    assert w[0..|w|] == w;
    NotKeyword(w);
    assert !IsSymChar(w[0]);
    assert ViewAt(w, 0) == View(w[0], true, w, 0);
    assert StepAt(w, 0) == Step(Some(Token(Err, [w[0]])), 1);
    MixedWordTail(w, 1);
    assert Scan(w, 0) == [Token(Err, [w[0]])] + Scan(w, 1);
    assert ErrTokens(w) == [Token(Err, [w[0]])] + ErrTokens(w[1..]);
  }

  /**
    A whole word inside a text (nothing word-like touches it on either side) is
    tokenized the same as on its own: a keyword is a KEYWORD and any other word
    starting with a letter is an ID, whatever surrounds it.
  */
  lemma WordInContext(pre: string, w: string, post: string)
    requires IsWord(w) && IsIdStart(w[0])
    requires |pre| == 0 || !IsWordChar(pre[|pre| - 1])
    requires |post| == 0 || !IsWordChar(post[0])
    ensures Tokenize(pre + w + post) == Tokenize(pre) + [Token(WordKind(w), w)] + Tokenize(post)
  {
    TokenizeAppend(pre, w);
    assert (pre + w)[|pre + w| - 1] == w[|w| - 1];
    TokenizeAppend(pre + w, post);
    WordToken(w);
  }

  /**
    The symbol class holds `.` (it lies in the `+-/` range), so the `.` of
    `fmt.Println` is a SYM token.
  */
  lemma PeriodIsSymbol()
    ensures Tokenize(".") == [Token(Sym, ".")]
  {
    CharToken('.');
  }

  /** No rule skips whitespace: a space is an ERR token. */
  lemma SpaceIsError()
    ensures Tokenize(" ") == [Token(Err, " ")]
  {
    CharToken(' ');
  }
}
