/**
  `analyze_semantic` (app.py:175-210): the text must print with `fmt.Println`,
  every stripped line starting with `for` must hold a counting loop header
  whose loop variable is the one tested and incremented, and every number must
  be an integer.

  The variable in the condition is read by a search of its own (app.py:192),
  which finds the first loop header on the line; the other two come from the
  first full `for` clause. On a line holding more than one header the two
  searches can land on different headers, and the line is judged by comparing
  variables of both.
*/
module Conventions {
  import opened Wrappers
  import opened Text
  import opened LoopRegex

  const MissingPrintln := "El código debe usar " + "'fmt.Println' para imprimir."
  const BadLoopLead := "Estructura de bucle 'for' " + "incorrecta en la línea: "
  const InconsistentLead := "Inconsistencia de variables en la línea: "
  const SemanticOk := "Uso correcto de las estructuras semánticas"

  function NumberTypeError(num: string): string
  {
    "Error en el tipo de número: " + num + ". Debe ser un entero."
  }

  // ----- for lines -----

  /** The errors one stripped line contributes. */
  function LoopCheck(line: string): seq<string>
  {
    if !("for" <= line) then []
    else
      match Search(line, 0, LoopPattern)
      case None => [BadLoopLead + line]
      case Some((_, ps)) =>
        // app.py:193 searches with the loop pattern again and so finds the
        // same match; its capture is the increment variable of `ps`.
        match Search(line, 0, HeaderPattern)
        case None => []
        case Some((_, hs)) =>
          if ps[InitVar] != hs[CondVar] || ps[InitVar] != ps[IncrVar] then [InconsistentLead + line]
          else []
  }

  /** Where a loop header is found, the condition search finds a header too, no later. */
  lemma HeaderFound(line: string)
    requires Search(line, 0, LoopPattern).Some?
    ensures Search(line, 0, HeaderPattern).Some?
    ensures Search(line, 0, HeaderPattern).value.0 <= Search(line, 0, LoopPattern).value.0
  {
    SearchPrefix(line, HeaderPattern, [Run(Space, 0), Run(Word, 1), Lit("++")]);
  }

  /**
    A line starting with `for` is rejected as malformed exactly when the loop
    pattern occurs nowhere in it, and passes exactly when it occurs and the
    initialised variable is both the one the first header tests and the one
    the first full clause increments. A line not starting with `for` passes.
  */
  lemma LoopCheckCases(line: string)
    ensures !("for" <= line) ==> LoopCheck(line) == []
    ensures "for" <= line && Search(line, 0, LoopPattern).None? ==>
      LoopCheck(line) == [BadLoopLead + line]
    ensures "for" <= line && Search(line, 0, LoopPattern).Some? ==>
      Search(line, 0, HeaderPattern).Some? &&
      var ps := Search(line, 0, LoopPattern).value.1;
      var hs := Search(line, 0, HeaderPattern).value.1;
      (LoopCheck(line) == [] <==> ps[InitVar] == hs[CondVar] && ps[InitVar] == ps[IncrVar]) &&
      (LoopCheck(line) != [] ==> LoopCheck(line) == [InconsistentLead + line])
  {
    if "for" <= line && Search(line, 0, LoopPattern).Some? {
      HeaderFound(line);
    }
  }

  /** A line with no loop pattern anywhere is malformed: no choice of pieces spells the pattern. */
  lemma MalformedMeansNoMatch(line: string)
    requires "for" <= line
    ensures LoopCheck(line) == [BadLoopLead + line] <==>
      forall p :: 0 <= p <= |line| ==> !MatchesAt(line, p, LoopPattern)
  {
    PatternsUnambiguous();
    forall p | 0 <= p <= |line| ensures Match(line, p, LoopPattern).Some? <==> MatchesAt(line, p, LoopPattern) {
      MatchDecides(line, p, LoopPattern);
    }
    LoopCheckCases(line);
    if Search(line, 0, LoopPattern).Some? {
      assert LoopCheck(line) != [BadLoopLead + line] by {
        if LoopCheck(line) != [] {
          assert LoopCheck(line) == [InconsistentLead + line];
          assert (InconsistentLead + line)[0] != (BadLoopLead + line)[0];
        }
      }
    }
  }

  /** A line starting with `for` on which the loop pattern matches nowhere is malformed. */
  lemma MalformedWhenNoMatch(line: string)
    requires "for" <= line && NoMatchBetween(line, 0, |line| + 1, LoopPattern)
    ensures LoopCheck(line) == [BadLoopLead + line]
  {
    LoopCheckCases(line);
  }

  /** A line merely starting with the letters `for` is checked too, and fails. */
  lemma FormatLineMalformed()
    ensures LoopCheck("format(x)") == [BadLoopLead + "format(x)"]
  {
    var line := "format(x)";
    forall p | 0 <= p <= |line| ensures Match(line, p, LoopPattern).None? {
      if p == 0 {
        assert RunEnd(line, 3, Space) == 3;
        NoSpaceAfterFor(line, 0);
      } else {
        assert line[p..] == [] || line[p..][0] != 'f';
        NoForAt(line, p);
      }
    }
    assert "for" <= line;
    MalformedWhenNoMatch(line);
  }

  /** The loop pattern needs `for` where it starts. */
  lemma NoForAt(line: string, p: nat)
    requires p <= |line| && !("for" <= line[p..])
    ensures Match(line, p, LoopPattern).None?
  {
    assert LoopPattern[0] == Lit("for");
  }

  /** The loop pattern needs a space after its `for`. */
  lemma NoSpaceAfterFor(line: string, p: nat)
    requires p + 3 <= |line| && RunEnd(line, p + 3, Space) == p + 3
    ensures Match(line, p, LoopPattern).None?
  {
    assert LoopPattern[0] == Lit("for");
    assert LoopPattern[1] == Run(Space, 1);
  }

  // ----- a well-formed loop clause -----

  /** The clause `for v := n; c < m; w++` with single spaces, one piece per element of the loop pattern. */
  function ClausePieces(v: string, n: string, c: string, m: string, w: string): seq<string>
  {
    ["for", " ", v, " ", ":=", " ", n, ";", " ", c, " ", "<", " ", m, ";", " ", w, "++"]
  }

  /** With words for variables and digit strings for numbers, the pieces fit the loop pattern. */
  lemma ClauseConforms(v: string, n: string, c: string, m: string, w: string)
    requires IsWord(v) && IsWord(c) && IsWord(w) && IsDigitString(n) && IsDigitString(m)
    ensures Conforms(ClausePieces(v, n, c, m, w), LoopPattern)
  {
  }

  /**
    A line that begins with a well-formed loop clause is found at its start by
    both searches, and passes exactly when the initialised, tested and
    incremented variables are the same; otherwise it is reported inconsistent.
  */
  lemma ClauseChecked(v: string, n: string, c: string, m: string, w: string, line: string)
    requires IsWord(v) && IsWord(c) && IsWord(w) && IsDigitString(n) && IsDigitString(m)
    requires Concat(ClausePieces(v, n, c, m, w)) <= line
    ensures LoopCheck(line) == if v == c && v == w then [] else [InconsistentLead + line]
  {
    var ps := ClausePieces(v, n, c, m, w);
    ClauseConforms(v, n, c, m, w);
    PatternsUnambiguous();
    assert line[0..] == line;
    MatchComplete(line, 0, LoopPattern, ps);
    assert Search(line, 0, LoopPattern) == Some((0, ps));
    MatchPrefix(line, 0, HeaderPattern, [Run(Space, 0), Run(Word, 1), Lit("++")]);
    assert Search(line, 0, HeaderPattern) == Some((0, ps[..15]));
    assert Concat(ps) == "for" + Concat(ps[1..]);
    PrefixParts("for", Concat(ps[1..]), line);
    assert ps[InitVar] == v && ps[..15][CondVar] == c && ps[IncrVar] == w;
  }

  /** Pieces join to the first of a list of texts, each one piece in front of the next, the last empty. */
  lemma {:induction false} ConcatBySuffixes(ps: seq<string>, texts: seq<string>)
    requires |texts| == |ps| + 1 && texts[|ps|] == ""
    requires forall k :: 0 <= k < |ps| ==> texts[k] == ps[k] + texts[k + 1]
    ensures Concat(ps) == texts[0]
    decreases |ps|
  {
    if |ps| > 0 {
      ConcatBySuffixes(ps[1..], texts[1..]);
    }
  }

  /** The suffixes of `for i := 0; c < 10; i++ {` at the piece boundaries of its clause. */
  function SampleSuffixes(c: char): seq<string>
  {
    ["for i := 0; " + [c] + " < 10; i++", " i := 0; " + [c] + " < 10; i++", "i := 0; " + [c] + " < 10; i++",
     " := 0; " + [c] + " < 10; i++", ":= 0; " + [c] + " < 10; i++", " 0; " + [c] + " < 10; i++",
     "0; " + [c] + " < 10; i++", "; " + [c] + " < 10; i++", " " + [c] + " < 10; i++", [c] + " < 10; i++",
     " < 10; i++", "< 10; i++", " 10; i++", "10; i++", "; i++", " i++", "i++", "++", ""]
  }

  /** Each sample suffix is one piece in front of the next, for the pieces of `for i :=`. */
  lemma SampleStepsInit(v: string, zero: string, ten: string, c: string)
    requires v == "i" && zero == "0" && ten == "10" && |c| == 1
    ensures forall k :: 0 <= k < 5 ==>
      SampleSuffixes(c[0])[k] == ClausePieces(v, zero, c, ten, v)[k] + SampleSuffixes(c[0])[k + 1]
  {
    assert [c[0]] == c;
  }

  /** Each sample suffix is one piece in front of the next, for the pieces of ` 0; `. */
  lemma SampleStepsStart(v: string, zero: string, ten: string, c: string)
    requires v == "i" && zero == "0" && ten == "10" && |c| == 1
    ensures forall k :: 5 <= k < 9 ==>
      SampleSuffixes(c[0])[k] == ClausePieces(v, zero, c, ten, v)[k] + SampleSuffixes(c[0])[k + 1]
  {
    assert [c[0]] == c;
  }

  /** Each sample suffix is one piece in front of the next, for the pieces from the condition variable on. */
  lemma SampleStepsRest(v: string, zero: string, ten: string, c: string)
    requires v == "i" && zero == "0" && ten == "10" && |c| == 1
    ensures forall k :: 9 <= k < 18 ==>
      SampleSuffixes(c[0])[k] == ClausePieces(v, zero, c, ten, v)[k] + SampleSuffixes(c[0])[k + 1]
  {
    assert [c[0]] == c;
  }

  /** The sample line begins with a well-formed clause. */
  lemma SampleClause(v: string, zero: string, ten: string, c: string, line: string)
    requires v == "i" && zero == "0" && ten == "10" && (c == "i" || c == "j")
    requires line == "for i := 0; " + c + " < 10; i++ {"
    ensures IsWord(v) && IsWord(c) && IsDigitString(zero) && IsDigitString(ten)
    ensures Concat(ClausePieces(v, zero, c, ten, v)) <= line
  {
    SampleStepsInit(v, zero, ten, c);
    SampleStepsStart(v, zero, ten, c);
    SampleStepsRest(v, zero, ten, c);
    ConcatBySuffixes(ClausePieces(v, zero, c, ten, v), SampleSuffixes(c[0]));
    assert [c[0]] == c;
  }

  /** A counting loop that tests and increments its own variable passes. */
  lemma CountingLoopPasses(line: string)
    requires line == "for i := 0; i < 10; i++ {"
    ensures LoopCheck(line) == []
  {
    var v, zero, ten := "i", "0", "10";
    SampleClause(v, zero, ten, v, line);
    ClauseChecked(v, zero, v, ten, v, line);
  }

  /** A loop that tests another variable is reported inconsistent. */
  lemma OtherConditionInconsistent(line: string)
    requires line == "for i := 0; j < 10; i++ {"
    ensures LoopCheck(line) == [InconsistentLead + line]
  {
    var v, zero, ten, c := "i", "0", "10", "j";
    SampleClause(v, zero, ten, c, line);
    ClauseChecked(v, zero, c, ten, v, line);
  }

  /**
    When the first header is where the loop clause is found, the condition
    variable compared is the one of that same clause.
  */
  lemma SameHeader(line: string)
    requires Search(line, 0, LoopPattern).Some?
    requires Search(line, 0, HeaderPattern).Some?
    requires Search(line, 0, HeaderPattern).value.0 == Search(line, 0, LoopPattern).value.0
    ensures Search(line, 0, HeaderPattern).value.1[CondVar] == Search(line, 0, LoopPattern).value.1[CondVar]
  {
    var p := Search(line, 0, LoopPattern).value.0;
    MatchPrefix(line, p, HeaderPattern, [Run(Space, 0), Run(Word, 1), Lit("++")]);
  }

  /** The errors of every line, each line stripped first. */
  function LineChecks(lines: seq<string>): seq<seq<string>>
  {
    seq(|lines|, n requires 0 <= n < |lines| => LoopCheck(Strip(lines[n])))
  }

  function Flatten(xss: seq<seq<string>>): seq<string>
  {
    if |xss| == 0 then [] else Flatten(xss[..|xss| - 1]) + xss[|xss| - 1]
  }

  /** A flattening is empty exactly when every part is, and holds exactly the parts' elements. */
  lemma {:induction false} FlattenParts(xss: seq<seq<string>>)
    ensures Flatten(xss) == [] <==> forall n :: 0 <= n < |xss| ==> xss[n] == []
    ensures forall m :: m in Flatten(xss) <==> exists n :: 0 <= n < |xss| && m in xss[n]
    decreases |xss|
  {
    if |xss| > 0 {
      var init := xss[..|xss| - 1];
      FlattenParts(init);
      assert forall n :: 0 <= n < |init| ==> init[n] == xss[n];
    }
  }

  /** The errors of all lines, in line order. */
  function LoopErrors(lines: seq<string>): seq<string>
  {
    Flatten(LineChecks(lines))
  }

  /** Every line, stripped, passes the loop check. */
  predicate LoopsPass(lines: seq<string>) {
    forall n :: 0 <= n < |lines| ==> LoopCheck(Strip(lines[n])) == []
  }

  /** No loop error exactly when every line passes; every loop error starts with `E` or `I`. */
  lemma LoopErrorsEmpty(lines: seq<string>)
    ensures LoopErrors(lines) == [] <==> LoopsPass(lines)
    ensures forall m :: m in LoopErrors(lines) ==> |m| > 0 && m[0] in "EI"
  {
    FlattenParts(LineChecks(lines));
    assert |LineChecks(lines)| == |lines|;
    assert forall n :: 0 <= n < |lines| ==> LineChecks(lines)[n] == LoopCheck(Strip(lines[n]));
    forall n | 0 <= n < |lines| {
      LoopCheckStart(Strip(lines[n]));
    }
  }

  lemma LoopCheckStart(line: string)
    ensures forall m :: m in LoopCheck(line) ==> |m| > 0 && m[0] in "EI"
  {
    LoopCheckCases(line);
    assert BadLoopLead[0] == 'E' && "EI"[0] == 'E';
    assert InconsistentLead[0] == 'I' && "EI"[1] == 'I';
  }

  // ----- numbers -----

  /** `num.isdigit()` for the ASCII digits. */
  predicate IsDigitString(num: string) {
    IsWord(num) && AllIn(num, Digit)
  }

  /** `re.findall(r'\b\d+\b', code)` from position `i` on: the whole digit words, left to right. */
  function Numbers(s: string, i: nat): (nums: seq<string>)
    requires i <= |s|
    ensures forall n :: 0 <= n < |nums| ==> IsDigitString(nums[n])
    ensures forall p :: i <= p < |s| && NumberAt(s, p).Some? ==> s[p..NumberAt(s, p).value] in nums
    decreases |s| - i
  {
    if i == |s| then []
    else
      match NumberAt(s, i)
      case Some(e) =>
        assert s[i..e] == s[i..RunEnd(s, i, Word)];
        [s[i..e]] + Numbers(s, e)
      case None => Numbers(s, i + 1)
  }

  /** The number check of app.py:203-205: an error for each number that is not all digits. */
  function NumberErrors(nums: seq<string>): seq<string>
  {
    if |nums| == 0 then []
    else (if IsDigitString(nums[0]) then [] else [NumberTypeError(nums[0])]) + NumberErrors(nums[1..])
  }

  /**
    The number check never fires: what `\b\d+\b` finds consists of digits, so
    it passes `isdigit()`.
  */
  lemma {:induction false} NumberCheckNeverFires(nums: seq<string>)
    requires forall n :: 0 <= n < |nums| ==> IsDigitString(nums[n])
    ensures NumberErrors(nums) == []
    decreases |nums|
  {
    if |nums| > 0 {
      NumberCheckNeverFires(nums[1..]);
    }
  }

  // ----- the whole check -----

  /** The errors in the order they are appended. */
  function Report(hasPrintln: bool, loopErrors: seq<string>, numberErrors: seq<string>): seq<string>
  {
    (if hasPrintln then [] else [MissingPrintln]) + loopErrors + numberErrors
  }

  function SemanticErrors(code: string): seq<string>
  {
    Report(Contains(code, "fmt.Println"), LoopErrors(Split(code, '\n')), NumberErrors(Numbers(code, 0)))
  }

  /** `analyze_semantic`: the fixed success text, or the errors joined by spaces. */
  function AnalyzeSemantic(code: string): string
  {
    Outcome(SemanticErrors(code))
  }

  function Outcome(errors: seq<string>): string
  {
    if errors == [] then SemanticOk else Join(errors, " ")
  }

  /**
    The outcome is the success text exactly when both findings are good: an
    error report starts with `E` or `I`, the success text with `U`.
  */
  lemma ReportOutcome(hasPrintln: bool, loopErrors: seq<string>)
    requires forall m :: m in loopErrors ==> |m| > 0 && m[0] in "EI"
    ensures Outcome(Report(hasPrintln, loopErrors, [])) == SemanticOk <==> hasPrintln && loopErrors == []
  {
    var errors := Report(hasPrintln, loopErrors, []);
    if errors != [] {
      if !hasPrintln {
        assert errors[0] == MissingPrintln;
        assert MissingPrintln[0] == 'E';
      } else {
        assert errors == loopErrors;
        assert loopErrors[0] in loopErrors;
      }
      JoinStartsWith(errors, " ");
      assert Join(errors, " ")[0] == errors[0][0];
      assert errors[0][0] != 'U';
    }
  }

  /**
    The check succeeds exactly when `fmt.Println` occurs and every `for` line
    passes; the number check never adds anything.
  */
  lemma SemanticOkIff(code: string)
    ensures AnalyzeSemantic(code) == SemanticOk <==>
      && Contains(code, "fmt.Println")
      && LoopsPass(Split(code, '\n'))
  {
    var lines := Split(code, '\n');
    var hasPrintln := Contains(code, "fmt.Println");
    NumberCheckNeverFires(Numbers(code, 0));
    assert AnalyzeSemantic(code) == Outcome(Report(hasPrintln, LoopErrors(lines), []));
    LoopErrorsEmpty(lines);
    ReportOutcome(hasPrintln, LoopErrors(lines));
  }
}
