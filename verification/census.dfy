/**
  `analyze_lexical` (app.py:129-143): one table row per token, with an `x` in the
  column of the token's kind, and a count per kind.

  The columns follow the key order of the counting dictionary: KEYWORD, ID,
  NUM, SYM, ERR. A row has six cells, so the sixth cell is always empty.
*/
module LexicalAnalysis {
  import opened Wrappers
  import opened Lexer

  /** Number of cells in a table row. */
  const RowWidth: nat := 6

  /** The column a kind is marked in: its position among the dictionary keys. */
  function Column(k: Kind): (c: nat)
    ensures c < RowWidth - 1
  {
    match k
    case Keyword => 0
    case Id => 1
    case Num => 2
    case Sym => 3
    case Err => 4
  }

  /** Different kinds are marked in different columns. */
  lemma ColumnInjective(k1: Kind, k2: Kind)
    ensures Column(k1) == Column(k2) <==> k1 == k2
  {
  }

  /** `[''] * 6`: a row of empty cells. */
  const BlankRow: seq<string> := ["", "", "", "", "", ""]

  /** The number of cells marked `x`. */
  function Marks(row: seq<string>): nat
  {
    if |row| == 0 then 0
    else Marks(row[..|row| - 1]) + (if row[|row| - 1] == "x" then 1 else 0)
  }

  /** A row whose only `x` is at `c` has exactly one mark. */
  lemma {:induction false} MarksOne(row: seq<string>, c: nat, n: nat)
    requires c < |row| && row[c] == "x" && n <= |row|
    requires forall j :: 0 <= j < |row| && j != c ==> row[j] != "x"
    ensures Marks(row[..n]) == (if c < n then 1 else 0)
    decreases n
  {
    if n > 0 {
      MarksOne(row, c, n - 1);
      assert row[..n][..n - 1] == row[..n - 1];
    }
  }

  /**
    The row for one token, built as the source builds it: six empty cells, then
    an `x` in the kind's column. Exactly one cell is marked, the kind's.
  */
  function RowFor(k: Kind): (row: seq<string>)
    ensures |row| == RowWidth
    ensures Marks(row) == 1
    ensures row[Column(k)] == "x"
    ensures forall c :: 0 <= c < RowWidth && c != Column(k) ==> row[c] == ""
  {
    var row := BlankRow[Column(k) := "x"];
    MarksOne(row, Column(k), |row|);
    assert row[..|row|] == row;
    row
  }

  /** Reads the kind back from a row: the kind whose column holds the only `x`. */
  function KindOfRow(row: seq<string>): (r: Option<Kind>)
  {
    if row == RowFor(Keyword) then Some(Keyword)
    else if row == RowFor(Id) then Some(Id)
    else if row == RowFor(Num) then Some(Num)
    else if row == RowFor(Sym) then Some(Sym)
    else if row == RowFor(Err) then Some(Err)
    else None
  }

  /** A row identifies its token's kind; the last column is never marked. */
  lemma RowRoundTrip(k: Kind)
    ensures KindOfRow(RowFor(k)) == Some(k)
    ensures RowFor(k)[RowWidth - 1] == ""
  {
    forall k2 | k2 != k ensures RowFor(k2) != RowFor(k) {
      ColumnInjective(k, k2);
      assert RowFor(k2)[Column(k)] != RowFor(k)[Column(k)];
    }
  }

  /** The counting dictionary, one counter per kind. */
  datatype Census = Census(keyword: nat, id: nat, num: nat, sym: nat, err: nat) {

    function Get(k: Kind): nat {
      match k
      case Keyword => keyword
      case Id => id
      case Num => num
      case Sym => sym
      case Err => err
    }

    /** `results[tok.type] += 1`: one more of kind `k`, the other counters unchanged. */
    function Bump(k: Kind): (c: Census)
      ensures c.Get(k) == Get(k) + 1
      ensures forall k2 :: k2 != k ==> c.Get(k2) == Get(k2)
    {
      match k
      case Keyword => this.(keyword := keyword + 1)
      case Id => this.(id := id + 1)
      case Num => this.(num := num + 1)
      case Sym => this.(sym := sym + 1)
      case Err => this.(err := err + 1)
    }

    function Total(): nat {
      keyword + id + num + sym + err
    }

    /** Adds two censuses counter by counter; the totals add up too. */
    function Plus(other: Census): (c: Census)
      ensures c.Total() == Total() + other.Total()
    {
      Census(keyword + other.keyword, id + other.id, num + other.num, sym + other.sym, err + other.err)
    }
  }

  const Zero := Census(0, 0, 0, 0, 0)

  /** A census is determined by its five counters. */
  lemma CensusByCounters(c1: Census, c2: Census)
    requires forall k :: c1.Get(k) == c2.Get(k)
    ensures c1 == c2
  {
    assert c1.Get(Keyword) == c2.Get(Keyword) && c1.Get(Id) == c2.Get(Id) && c1.Get(Num) == c2.Get(Num);
    assert c1.Get(Sym) == c2.Get(Sym) && c1.Get(Err) == c2.Get(Err);
  }

  /** The number of tokens of kind `k`. */
  function Count(ts: seq<Token>, k: Kind): nat
  {
    if |ts| == 0 then 0
    else Count(ts[..|ts| - 1], k) + (if ts[|ts| - 1].kind == k then 1 else 0)
  }

  lemma {:induction false} CountAppend(xs: seq<Token>, ys: seq<Token>, k: Kind)
    ensures Count(xs + ys, k) == Count(xs, k) + Count(ys, k)
    decreases |ys|
  {
    if |ys| == 0 {
      assert xs + ys == xs;
    } else {
      CountAppend(xs, ys[..|ys| - 1], k);
      assert (xs + ys)[..|xs + ys| - 1] == xs + ys[..|ys| - 1];
    }
  }

  lemma CountSnoc(ts: seq<Token>, t: Token)
    ensures forall k :: Count(ts + [t], k) == Count(ts, k) + (if t.kind == k then 1 else 0)
  {
    assert (ts + [t])[..|ts|] == ts;
  }

  /** The counts over all kinds add up to the number of tokens. */
  lemma {:induction false} CountsSum(ts: seq<Token>)
    ensures Count(ts, Keyword) + Count(ts, Id) + Count(ts, Num) + Count(ts, Sym) + Count(ts, Err) == |ts|
    decreases |ts|
  {
    if |ts| > 0 {
      CountsSum(ts[..|ts| - 1]);
    }
  }

  /**
    The census of a token list as the source tallies it: start from zero and
    bump the counter of each token's kind in turn. Each counter ends up holding
    the number of tokens of its kind.
  */
  function CensusOf(ts: seq<Token>): (c: Census)
    ensures forall k :: c.Get(k) == Count(ts, k)
  {
    if |ts| == 0 then Zero
    else CensusOf(ts[..|ts| - 1]).Bump(ts[|ts| - 1].kind)
  }

  /** The table rows and counters agree with the tokens pulled so far. */
  predicate Recorded(rows: seq<seq<string>>, results: Census, seen: seq<Token>) {
    && |rows| == |seen|
    && (forall n :: 0 <= n < |rows| ==> rows[n] == RowFor(seen[n].kind))
    && (forall k :: results.Get(k) == Count(seen, k))
  }

  /** Appending a row and bumping a counter records one more token. */
  lemma RecordToken(rows: seq<seq<string>>, results: Census, seen: seq<Token>, tok: Token)
    requires Recorded(rows, results, seen)
    ensures Recorded(rows + [RowFor(tok.kind)], results.Bump(tok.kind), seen + [tok])
  {
    CountSnoc(seen, tok);
  }

  /**
    The loop of `analyze_lexical` over the tokens the lexer yields, appending a
    row and bumping the token's counter for each one. Every token gets exactly
    one row, in order, and the counters are the census of the tokens, so by the
    contract of `CensusOf` each holds the number of tokens of its kind.
  */
  method Tally(tokens: seq<Token>) returns (rows: seq<seq<string>>, results: Census)
    ensures |rows| == |tokens|
    ensures forall n :: 0 <= n < |rows| ==> rows[n] == RowFor(tokens[n].kind)
    ensures results == CensusOf(tokens)
    ensures results.Total() == |rows|
  {
    rows := [];
    results := Zero;
    var n := 0;
    while n < |tokens|
      invariant n <= |tokens|
      invariant Recorded(rows, results, tokens[..n])
    {
      var tok := tokens[n];
      RecordToken(rows, results, tokens[..n], tok);
      assert tokens[..n + 1] == tokens[..n] + [tok];
      rows := rows + [RowFor(tok.kind)];
      results := results.Bump(tok.kind);
      n := n + 1;
    }
    assert tokens[..n] == tokens;
    CountsSum(tokens);
    CensusByCounters(results, CensusOf(tokens));
  }

  /**
    `analyze_lexical`: pull tokens from the lexer until it is exhausted (the
    stream of `Tokenize`) and tally them.
  */
  method AnalyzeLexical(code: string) returns (rows: seq<seq<string>>, results: Census)
    ensures |rows| == |Tokenize(code)|
    ensures forall n :: 0 <= n < |rows| ==> rows[n] == RowFor(Tokenize(code)[n].kind)
    ensures forall k :: results.Get(k) == Count(Tokenize(code), k)
    ensures results == CensusOf(Tokenize(code))
    ensures results.Total() == |rows|
  {
    var tokens := Tokenize(code);
    rows, results := Tally(tokens);
  }

  /** Texts that meet cleanly have the sum of their censuses. */
  lemma CensusAppend(a: string, b: string)
    requires Separated(a, b)
    ensures CensusOf(Tokenize(a + b)) == CensusOf(Tokenize(a)).Plus(CensusOf(Tokenize(b)))
  {
    TokenizeAppend(a, b);
    var ta, tb := Tokenize(a), Tokenize(b);
    var ca, cb := CensusOf(ta), CensusOf(tb);
    forall k ensures CensusOf(ta + tb).Get(k) == ca.Plus(cb).Get(k) {
      CountAppend(ta, tb, k);
      PlusGet(ca, cb, k);
    }
    CensusByCounters(CensusOf(ta + tb), ca.Plus(cb));
  }

  lemma PlusGet(c1: Census, c2: Census, k: Kind)
    ensures c1.Plus(c2).Get(k) == c1.Get(k) + c2.Get(k)
  {
  }
}
