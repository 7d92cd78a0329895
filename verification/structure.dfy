/**
  `analyze_syntactic` (app.py:145-173): the text must contain `package main` and
  `func main()`, and the braces must balance line by line.

  The brace check looks only at the last non-whitespace character of each line
  of `code.split('\n')`: a line ending in `{` opens, a line ending in `}`
  closes. Braces anywhere else on a line are not seen, so `} else {` opens and
  `{ x }` closes.
*/
module Structure {
  import opened Text

  const MissingPackage := "El código debe contener 'package main'."
  const MissingMainFunc := "El código debe contener 'func main()'."
  const UnclosedBraces := "Una o más llaves de apertura " + "no tienen cierre correspondiente."
  const SyntaxOk := "Sintaxis correcta"

  /** The error for a closing line `lineNo` (1-based) with nothing open. */
  function UnmatchedClose(lineNo: nat): string
  {
    UnmatchedCloseLead + NatToString(lineNo) + "."
  }

  // Long literals are written as two parts: the verifier reads the characters
  // of a short literal but not of a long one.
  const UnmatchedCloseLead := "Llave de cierre sin apertura " + "correspondiente en la línea "

  // ----- lines -----

  datatype LineKind = Opens | Closes | Plain

  /** The stripped line is tested for a final `{` first, then for a final `}`. */
  function Classify(line: string): LineKind
  {
    var t := Strip(line);
    if EndsWith(t, '{') then Opens
    else if EndsWith(t, '}') then Closes
    else Plain
  }

  /** A line opens or closes exactly when `{` or `}` is its last non-whitespace character. */
  lemma ClassifyLastChar(line: string)
    ensures Classify(line) == Opens <==> exists k :: LastNonSpaceAt(line, k, '{')
    ensures Classify(line) == Closes <==> exists k :: LastNonSpaceAt(line, k, '}')
  {
    StripEndsWith(line, '{');
    StripEndsWith(line, '}');
  }

  /** `} else {` ends in `{` and so only opens; the `}` before it is never seen. */
  lemma ElseLineOpens()
    ensures Classify("  } else {  ") == Opens
  {
    ClassifyLastChar("  } else {  ");
    assert LastNonSpaceAt("  } else {  ", 9, '{');
  }

  /** The kind of every line. */
  function Kinds(lines: seq<string>): seq<LineKind>
  {
    seq(|lines|, n requires 0 <= n < |lines| => Classify(lines[n]))
  }

  // ----- the brace fold -----

  /**
    The state after a prefix of the lines: the height of the brace stack and
    the 1-based numbers of the closing lines that found it empty.
  */
  datatype BraceState = BraceState(depth: nat, unmatched: seq<nat>)

  /** One line of the loop at app.py:157-165, the line being number `lineNo`. */
  function Feed(st: BraceState, kind: LineKind, lineNo: nat): BraceState
  {
    match kind
    case Opens => st.(depth := st.depth + 1)
    case Closes =>
      if st.depth == 0 then st.(unmatched := st.unmatched + [lineNo])
      else st.(depth := st.depth - 1)
    case Plain => st
  }

  /** The state after lines of the given kinds. */
  function Braces(kinds: seq<LineKind>): BraceState
  {
    if |kinds| == 0 then BraceState(0, [])
    else Feed(Braces(kinds[..|kinds| - 1]), kinds[|kinds| - 1], |kinds|)
  }

  // ----- an independent description: running brace balance -----

  function Weight(kind: LineKind): int
  {
    match kind
    case Opens => 1
    case Closes => -1
    case Plain => 0
  }

  /** Opening lines minus closing lines. */
  function Net(kinds: seq<LineKind>): int
  {
    if |kinds| == 0 then 0 else Net(kinds[..|kinds| - 1]) + Weight(kinds[|kinds| - 1])
  }

  /** The lowest balance any prefix reaches (the empty prefix has 0). */
  function MinNet(kinds: seq<LineKind>): (m: int)
    ensures m <= 0 && m <= Net(kinds)
  {
    if |kinds| == 0 then 0
    else
      var m := MinNet(kinds[..|kinds| - 1]);
      if Net(kinds) < m then Net(kinds) else m
  }

  /** MinNet is the least balance over all prefixes, and some prefix reaches it. */
  lemma {:induction false} MinNetIsLeast(kinds: seq<LineKind>)
    ensures forall n :: 0 <= n <= |kinds| ==> MinNet(kinds) <= Net(kinds[..n])
    ensures exists n :: 0 <= n <= |kinds| && MinNet(kinds) == Net(kinds[..n])
    decreases |kinds|
  {
    if |kinds| == 0 {
      assert kinds[..0] == kinds;
    } else {
      var init := kinds[..|kinds| - 1];
      MinNetIsLeast(init);
      assert forall n :: 0 <= n <= |init| ==> init[..n] == kinds[..n];
      assert kinds[..|kinds|] == kinds;
    }
  }

  /**
    Closing lines with nothing open are those where the balance drops to a new
    low, and what stays open is the final balance above that low. So the number
    of unmatched closing lines is minus the lowest balance.
  */
  lemma {:induction false} BracesBalance(kinds: seq<LineKind>)
    ensures |Braces(kinds).unmatched| == -MinNet(kinds)
    ensures Braces(kinds).depth == Net(kinds) - MinNet(kinds)
    decreases |kinds|
  {
    if |kinds| > 0 {
      BracesBalance(kinds[..|kinds| - 1]);
    }
  }

  /**
    Line `lineNo` is reported as an unmatched closing line exactly when it closes
    and the balance before it is at its lowest so far.
  */
  lemma {:induction false} UnmatchedLines(kinds: seq<LineKind>, lineNo: nat)
    ensures lineNo in Braces(kinds).unmatched <==>
      && 1 <= lineNo <= |kinds|
      && kinds[lineNo - 1] == Closes
      && Net(kinds[..lineNo - 1]) == MinNet(kinds[..lineNo - 1])
    decreases |kinds|
  {
    if |kinds| > 0 {
      var init := kinds[..|kinds| - 1];
      UnmatchedLines(init, lineNo);
      BracesBalance(init);
      UnmatchedBelow(init);
      if 1 <= lineNo < |kinds| {
        assert init[..lineNo - 1] == kinds[..lineNo - 1];
      }
    }
  }

  /** Every reported line number lies within the lines fed so far, in increasing order. */
  lemma {:induction false} UnmatchedBelow(kinds: seq<LineKind>)
    ensures forall n :: 0 <= n < |Braces(kinds).unmatched| ==> 1 <= Braces(kinds).unmatched[n] <= |kinds|
    ensures forall n, m :: 0 <= n < m < |Braces(kinds).unmatched| ==> Braces(kinds).unmatched[n] < Braces(kinds).unmatched[m]
    decreases |kinds|
  {
    if |kinds| > 0 {
      UnmatchedBelow(kinds[..|kinds| - 1]);
    }
  }

  /** The braces balance exactly when no prefix closes more than it opened and the total is zero. */
  lemma Balanced(kinds: seq<LineKind>)
    ensures (Braces(kinds).depth == 0 && Braces(kinds).unmatched == [])
        <==> (Net(kinds) == 0 && forall n :: 0 <= n <= |kinds| ==> Net(kinds[..n]) >= 0)
  {
    BracesBalance(kinds);
    MinNetIsLeast(kinds);
  }

  // ----- the loop with its stack -----

  /** The messages for the unmatched closing lines, in line order. */
  function CloseErrors(unmatched: seq<nat>): seq<string>
  {
    seq(|unmatched|, n requires 0 <= n < |unmatched| => UnmatchedClose(unmatched[n]))
  }

  /** The fold of one more line. */
  lemma BracesSnoc(kinds: seq<LineKind>, i: nat)
    requires i < |kinds|
    ensures Braces(kinds[..i + 1]) == Feed(Braces(kinds[..i]), kinds[i], i + 1)
  {
    assert kinds[..i + 1][..i] == kinds[..i];
  }

  lemma CloseErrorsSnoc(unmatched: seq<nat>, lineNo: nat)
    ensures CloseErrors(unmatched + [lineNo]) == CloseErrors(unmatched) + [UnmatchedClose(lineNo)]
  {
  }

  /**
    The loop of app.py:155-165, run with the stack it keeps: the stack ends
    with one `{` per line left open and the errors are the messages of the
    unmatched closing lines the fold reports.
  */
  method CheckBraces(lines: seq<string>) returns (errors: seq<string>, stack: seq<char>)
    ensures |stack| == Braces(Kinds(lines)).depth
    ensures forall n :: 0 <= n < |stack| ==> stack[n] == '{'
    ensures errors == CloseErrors(Braces(Kinds(lines)).unmatched)
  {
    errors := [];
    stack := [];
    var i := 0;
    while i < |lines|
      invariant i <= |lines|
      invariant |stack| == Braces(Kinds(lines)[..i]).depth
      invariant forall n :: 0 <= n < |stack| ==> stack[n] == '{'
      invariant errors == CloseErrors(Braces(Kinds(lines)[..i]).unmatched)
    {
      ghost var before := Braces(Kinds(lines)[..i]);
      BracesSnoc(Kinds(lines), i);
      CloseErrorsSnoc(before.unmatched, i + 1);
      // Classify is the test on the stripped line at app.py:159-165.
      var kind := Classify(lines[i]);
      assert kind == Kinds(lines)[i];
      if kind == Opens {
        stack := stack + ['{'];
      } else if kind == Closes {
        if |stack| == 0 {
          errors := errors + [UnmatchedClose(i + 1)];
        } else {
          stack := stack[..|stack| - 1];
        }
      }
      i := i + 1;
    }
    assert Kinds(lines)[..i] == Kinds(lines);
  }

  // ----- the whole check -----

  /** The errors in the order they are appended, from the three findings. */
  function Report(hasPackage: bool, hasMainFunc: bool, st: BraceState): seq<string>
  {
    (if hasPackage then [] else [MissingPackage])
    + (if hasMainFunc then [] else [MissingMainFunc])
    + CloseErrors(st.unmatched)
    + (if st.depth > 0 then [UnclosedBraces] else [])
  }

  /** The errors of `analyze_syntactic`. */
  function SyntacticErrors(code: string): seq<string>
  {
    Report(Contains(code, "package main"), Contains(code, "func main()"), Braces(Kinds(Split(code, '\n'))))
  }

  /** `analyze_syntactic`: the fixed success text, or the errors joined by spaces. */
  function AnalyzeSyntactic(code: string): string
  {
    var errors := SyntacticErrors(code);
    if errors == [] then SyntaxOk else Join(errors, " ")
  }

  /**
    There is no error exactly when all findings are good, and otherwise the first
    error is one of the four messages, so it starts with `E`, `L` or `U`.
  */
  lemma ReportFirst(hasPackage: bool, hasMainFunc: bool, st: BraceState)
    ensures Report(hasPackage, hasMainFunc, st) == [] <==>
      hasPackage && hasMainFunc && st.unmatched == [] && st.depth == 0
    ensures Report(hasPackage, hasMainFunc, st) != [] ==>
      |Report(hasPackage, hasMainFunc, st)[0]| > 0 && Report(hasPackage, hasMainFunc, st)[0][0] in "ELU"
  {
    var errors := Report(hasPackage, hasMainFunc, st);
    var closes := CloseErrors(st.unmatched);
    if !hasPackage {
      assert errors[0] == MissingPackage;
    } else if !hasMainFunc {
      assert errors[0] == MissingMainFunc;
    } else if |closes| > 0 {
      assert errors == closes + (if st.depth > 0 then [UnclosedBraces] else []);
      assert errors[0] == UnmatchedClose(st.unmatched[0]);
      assert UnmatchedClose(st.unmatched[0])[0] == UnmatchedCloseLead[0] == 'L';
      assert "ELU"[1] == 'L';
    } else if st.depth > 0 {
      assert errors == [UnclosedBraces];
      assert UnclosedBraces[0] == 'U';
      assert "ELU"[2] == 'U';
    }
  }

  /**
    The check succeeds exactly when both required texts occur, no closing line
    finds the stack empty and nothing stays open. No error report can be
    mistaken for the success text, as every message starts with `E`, `L` or `U`.
  */
  lemma SyntaxOkIff(code: string)
    ensures AnalyzeSyntactic(code) == SyntaxOk <==>
      && Contains(code, "package main")
      && Contains(code, "func main()")
      && Braces(Kinds(Split(code, '\n'))).unmatched == []
      && Braces(Kinds(Split(code, '\n'))).depth == 0
  {
    var errors := SyntacticErrors(code);
    ReportFirst(Contains(code, "package main"), Contains(code, "func main()"), Braces(Kinds(Split(code, '\n'))));
    if errors != [] {
      JoinStartsWith(errors, " ");
      assert Join(errors, " ")[0] == errors[0][0];
    }
  }

  /** Empty input: both required texts are missing and the braces balance. */
  lemma EmptyInput()
    ensures SyntacticErrors("") == [MissingPackage, MissingMainFunc]
  {
    assert Split("", '\n') == [""];
    assert Kinds([""]) == [Plain];
    assert Braces([Plain]) == Feed(Braces([]), Plain, 1);
  }

  /** The smallest accepted program: both texts present and the one brace pair closed. */
  lemma MinimalProgram()
    ensures SyntacticErrors("package main\n" + "func main() {\n" + "}\n") == []
  {
    MinimalLines();
    MinimalKinds();
    MinimalBraces();
    MinimalContains();
    assert Report(true, true, BraceState(0, [])) == [];
  }

  lemma MinimalBraces()
    ensures Braces([Plain, Opens, Closes, Plain]) == BraceState(0, [])
  {
    BracesStep([], Plain);
    assert [] + [Plain] == [Plain];
    BracesStep([Plain], Opens);
    assert [Plain] + [Opens] == [Plain, Opens];
    BracesStep([Plain, Opens], Closes);
    assert [Plain, Opens] + [Closes] == [Plain, Opens, Closes];
    BracesStep([Plain, Opens, Closes], Plain);
    assert [Plain, Opens, Closes] + [Plain] == [Plain, Opens, Closes, Plain];
  }

  lemma BracesStep(kinds: seq<LineKind>, kind: LineKind)
    ensures Braces(kinds + [kind]) == Feed(Braces(kinds), kind, |kinds| + 1)
  {
    assert (kinds + [kind])[..|kinds|] == kinds;
  }

  lemma MinimalContains()
    ensures Contains("package main\n" + "func main() {\n" + "}\n", "package main")
    ensures Contains("package main\n" + "func main() {\n" + "}\n", "func main()")
  {
    var code := "package main\n" + "func main() {\n" + "}\n";
    assert "package main" <= code[0..];
    assert code[13..] == "func main() {\n" + "}\n";
    assert "func main()" <= code[13..];
  }

  lemma MinimalLines()
    ensures Split("package main\n" + "func main() {\n" + "}\n", '\n') == ["package main", "func main() {", "}", ""]
  {
    var lines := ["package main", "func main() {", "}", ""];
    assert Join(lines, "\n") == "package main\n" + "func main() {\n" + "}\n";
    SplitJoin(lines, '\n');
  }

  lemma MinimalKinds()
    ensures Kinds(["package main", "func main() {", "}", ""]) == [Plain, Opens, Closes, Plain]
  {
    KindsOfFour("package main", "func main() {", "}", "");
    PackageLinePlain();
    FuncLineOpens();
    CloseLineCloses();
    EmptyLinePlain();
  }

  lemma KindsOfFour(a: string, b: string, c: string, d: string)
    ensures Kinds([a, b, c, d]) == [Classify(a), Classify(b), Classify(c), Classify(d)]
  {
  }

  lemma EmptyLinePlain()
    ensures Classify("") == Plain
  {
    StripTrimmed("");
  }

  lemma PackageLinePlain()
    ensures Classify("package main") == Plain
  {
    StripTrimmed("package main");
  }

  lemma FuncLineOpens()
    ensures Classify("func main() {") == Opens
  {
    StripTrimmed("func main() {");
  }

  lemma CloseLineCloses()
    ensures Classify("}") == Closes
  {
    StripTrimmed("}");
  }
}
