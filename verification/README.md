# Go-snippet analyser: a Dafny model of its three checks

The application takes a snippet of Go source text and runs three independent,
pure analyses on it. This project models and proves properties of those three
analyses:

- **Lexical census** (`analyze_lexical`). A priority scanner splits the text
  into KEYWORD, ID, NUM, SYM and ERR tokens. The analysis yields one six-cell
  display row per token, with an `x` in the token kind's column, and a count
  per kind. Modules `Lexer` (`lexer.dfy`) and `LexicalAnalysis` (`census.dfy`).
- **Structural check** (`analyze_syntactic`). It checks that `package main`
  and `func main()` occur, and runs a brace scan that sees only the last
  non-whitespace character of each line. The result is `Sintaxis correcta` or
  the messages joined by spaces. Module `Structure` (`structure.dfy`).
- **Convention check** (`analyze_semantic`). It checks that `fmt.Println`
  occurs. Every stripped line starting with `for` must hold a
  `for v := n; v < m; v++` clause with one variable throughout. A numeric
  literal check is also present, and it can never fire. Module `Conventions`
  (`conventions.dfy`), with the loop regular expressions in `LoopRegex`
  (`loop_regex.dfy`).

`Text` (`text.dfy`) holds the Python string primitives the three analyses use:
- the classes `\s`, `\w` and `\d`;
- `\b`;
- `str.strip`, `str.split('\n')`, `" ".join`, the `in` test and `str(n)`.

`Wrappers` holds the `Option` type.

How the model follows the code:

- **The lexer.** It is a direct scanner, not PLY.
  - `Lexer.RuleCascade` is the rule set as written. At each position it
    tries, in order: the newline rule, then KEYWORD, ID, NUM, SYM and ERR.
  - PLY orders string rules by regex length, which puts SYM before NUM. No
    character can start both a number and a symbol, so this gives the same
    tokens.
  - KEYWORD, ID and NUM need a `\b` at both ends, so they only ever take
    whole words. The scanner `Lexer.StepAt` therefore steps by classifying
    the whole word at each position. `Lexer.StepIsWordRule` proves that this
    makes the same step as the rule cascade, at every position of every text.
- The SYM class `[;{}()\[\]=<>!+-/*]` contains the range `+-/`, so `,` and
  `.` are SYM tokens. The `.` of `fmt.Println` is a SYM, not an ERR.
- There is no ignore set, so spaces, tabs and carriage returns are ERR tokens
  rather than being skipped.
- **The loop regular expressions.** They are matched by a small exact matcher
  over literals and character-class runs. Each run in them is followed by
  something that cannot continue it, so backtracking never changes a match.
  `LoopRegex.MatchComplete` proves this matcher finds every match the regex
  has.
- **The condition variable.** It comes from a search of its own (app.py:192),
  which finds the first loop header on the line. It can therefore come from a
  different header than the one the loop clause was found in. The model keeps
  this: `Conventions.SameHeader` states when the two coincide.
- **Character classes.**
  - `\s` and `str.strip()` use the full set of characters for which Python's
    `str.isspace()` holds.
  - `\w` and `\d` are the ASCII classes `[A-Za-z0-9_]` and `[0-9]`.

## Model

| member | source | states |
|---|---|---|
| `Text.NumberAt` | app.py:14 | `\b\d+\b` matches at a position exactly when a word starts there and consists of digits only; the match is the whole word |
| `Text.Strip` | app.py:158 | the result is a slice of the line, what was cut off is whitespace, and it neither starts nor ends with whitespace |
| `Text.StripIdempotent` | app.py:158 | stripping a stripped line changes nothing |
| `Text.StripEndsWith` | app.py:159-161 | the stripped line ends with a brace exactly when that brace is the line's last non-whitespace character |
| `Text.Contains` | app.py:149 | the `in` test holds exactly when the pattern occurs at some position |
| `Text.Split` | app.py:156 | a split always has at least one piece and no piece holds the separator |
| `Text.JoinSplit` | app.py:156 | joining the pieces of a split with the separator gives back the text |
| `Text.SplitJoin` | app.py:156 | splitting a join of separator-free pieces gives back the pieces |
| `Text.NatToString` | app.py:163 | a line number is rendered as decimal digits without leading zeros |
| `Text.NatToStringValue` | app.py:163 | reading the rendered digits back gives the line number |
| `Lexer.KeywordFrom` | app.py:12 | the keyword alternation, tried in list order with `\b` on both sides, matches exactly when the whole word at the position is listed, and takes that word |
| `Lexer.KeywordAt` | app.py:12 | the KEYWORD rule matches exactly when the whole word at the position is one of the ten keywords |
| `Lexer.StepAt` | app.py:12-20 | one scanner step always advances; it yields no token exactly on a newline, and a token's text is exactly what the step consumed |
| `Lexer.IdRule` | app.py:13 | the ID expression with its `\b` anchors matches exactly where a word starting with a letter or `_` starts |
| `Lexer.StepWellFormed` | app.py:12-20 | a KEYWORD is a listed keyword; an ID is a letter-initial word that is not a keyword; a NUM is a digit word; SYM and ERR are single non-newline characters, in and out of the symbol class; a tokenless step skipped only newlines |
| `Lexer.TokensWellFormed` | app.py:12-20 | every token of a scan has the shape of its kind |
| `Lexer.TokenizeCovers` | app.py:16-20 | newline runs yield no token and every other character is in exactly one token: the lexemes in order spell the input without its newlines |
| `Lexer.KeywordIffListed` | app.py:12-13 | a token is a KEYWORD exactly when its text is a keyword, so a keyword is never an ID |
| `Lexer.StepIsWordRule` | app.py:12-20 | the rules as written (newline rule, then KEYWORD, ID, NUM, SYM, ERR with their `\b` anchors) make exactly the step the whole-word classification makes |
| `Lexer.TokenizeAppend` | app.py:12-20 | two texts whose join splits neither a word nor a newline run tokenize independently |
| `Lexer.WordToken` | app.py:12-13 | a whole letter-initial word is one token: KEYWORD if listed, otherwise ID (`format`, `main2`) |
| `Lexer.NumberToken` | app.py:14 | a whole word of digits is one NUM token |
| `Lexer.CharToken` | app.py:15-16 | a character that is neither a word character nor a newline is one SYM or ERR token, as the symbol class decides |
| `Lexer.MixedWordErrors` | app.py:12-16 | a digit-initial word that is not all digits (`12ab`) matches only ERR, one token per character |
| `Lexer.WordInContext` | app.py:12-13 | a whole word inside any text, with no word character on either side, is tokenized as on its own |
| `Lexer.PeriodIsSymbol` | app.py:15 | `.` is a SYM token, as it lies in the range `+-/` |
| `Lexer.SpaceIsError` | app.py:16 | a space is an ERR token, as nothing skips whitespace |
| `LexicalAnalysis.Column` | app.py:132 | each kind is marked in one of the first five columns |
| `LexicalAnalysis.RowFor` | app.py:138-141 | a row of six cells has exactly one cell marked `x`, the one in the kind's column; all other cells are empty |
| `LexicalAnalysis.RowRoundTrip` | app.py:138-141 | the kind can be read back from its row, and the sixth cell is never marked |
| `LexicalAnalysis.CensusOf` | app.py:132-140 | bumping a counter per token from all zeros leaves each counter holding the number of tokens of its kind |
| `LexicalAnalysis.CountsSum` | app.py:132-142 | the five counts add up to the number of tokens |
| `LexicalAnalysis.RecordToken` | app.py:138-142 | appending a row and bumping one counter keeps rows and counters in step with the tokens seen |
| `LexicalAnalysis.Tally` | app.py:133-142 | one row per token in order, each marked for its token's kind; the counters equal the census of the tokens (so each holds the number of tokens of its kind); the counts sum to the number of rows |
| `LexicalAnalysis.AnalyzeLexical` | app.py:129-143 | one row per token in input order, each marked for its token's kind; the counters are the census of the input's tokens, each equal to the number of tokens of its kind; the counts sum to the number of rows |
| `LexicalAnalysis.CensusAppend` | app.py:132-142 | the census of two cleanly joined texts is the sum of their censuses |
| `Structure.ClassifyLastChar` | app.py:158-161 | a line opens or closes exactly when `{` or `}` is its last non-whitespace character |
| `Structure.ElseLineOpens` | app.py:159-161 | `} else {` only opens, because the final `{` is tested first |
| `Structure.MinNet` | app.py:155-165 | the lowest running balance is at most zero and at most the final balance |
| `Structure.MinNetIsLeast` | app.py:155-165 | no prefix has a lower balance than the lowest, and some prefix reaches it |
| `Structure.BracesBalance` | app.py:155-168 | the number of unmatched closing lines is minus the lowest running balance of opening minus closing lines, and the final depth is the final balance above that low |
| `Structure.UnmatchedLines` | app.py:161-163 | line `n` is reported exactly when it closes and the balance before it is at its lowest so far |
| `Structure.UnmatchedBelow` | app.py:157-163 | the reported line numbers are 1-based, within the text, and increasing |
| `Structure.Balanced` | app.py:155-168 | no brace error occurs exactly when no prefix closes more than it opened and the total balance is zero |
| `Structure.CheckBraces` | app.py:155-168 | the loop with its stack: the stack ends holding one `{` per line left open, and the errors are the unmatched-close messages |
| `Structure.ReportFirst` | app.py:149-168 | no error exactly when both texts occur and the brace scan is clean; otherwise the first message starts with `E`, `L` or `U` |
| `Structure.SyntaxOkIff` | app.py:145-173 | the result is `Sintaxis correcta` exactly when both texts occur, no closing line finds the stack empty and nothing stays open |
| `Structure.EmptyInput` | app.py:149-152 | empty text yields the two missing-text messages and nothing else |
| `Structure.MinimalProgram` | app.py:145-173 | `package main`, `func main() {`, `}` yields no error |
| `LoopRegex.Take` | app.py:183 | when an element can be taken at a position, the text it takes fits it: the literal itself, or a long enough run of its class |
| `LoopRegex.Match` | app.py:183 | a successful match yields one piece per pattern element |
| `LoopRegex.MatchSound` | app.py:183 | the pieces found fit their elements and spell a prefix of the text from the position |
| `LoopRegex.MatchComplete` | app.py:183 | for a pattern whose runs cannot be continued by what follows them, every way of matching is the one found |
| `LoopRegex.MatchDecides` | app.py:183 | such a pattern matches at a position exactly when the matcher succeeds there |
| `LoopRegex.Search` | app.py:189 | `re.search` yields the leftmost matching position with its pieces, or none when no position matches |
| `LoopRegex.MatchPrefix` | app.py:192-193 | a match of a pattern followed by more elements starts with a match of the pattern |
| `LoopRegex.SearchPrefix` | app.py:189-193 | where the longer pattern is found, its prefix pattern is found too, no later |
| `LoopRegex.PatternsUnambiguous` | app.py:183-193 | in both loop patterns, no run can be continued by what follows it |
| `Conventions.HeaderFound` | app.py:192-194 | when the loop clause is found, the condition search finds a header too, no later, so the guard of app.py:194 always holds |
| `Conventions.LoopCheckCases` | app.py:186-200 | a line not starting with `for` passes; with no loop clause it gets exactly the malformed-loop message; otherwise it passes exactly when the first clause's variable is both the first header's condition variable and the clause's increment variable, and otherwise gets exactly the inconsistency message |
| `Conventions.ClauseChecked` | app.py:183-197 | a line that begins with a well-formed clause `for v := n; c < m; w++` (words for the variables, digit strings for the numbers) passes exactly when `v`, `c` and `w` are the same word, and otherwise gets exactly the inconsistency message |
| `Conventions.CountingLoopPasses` | app.py:183-197 | the line `for i := 0; i < 10; i++ {` passes the loop check |
| `Conventions.OtherConditionInconsistent` | app.py:183-197 | the line `for i := 0; j < 10; i++ {` gets the inconsistency message |
| `Conventions.MalformedMeansNoMatch` | app.py:188-200 | a `for` line gets the malformed-loop message exactly when no choice of pieces anywhere in it spells the loop pattern |
| `Conventions.MalformedWhenNoMatch` | app.py:186-190 | a line starting with `for` on which the loop pattern matches at no position gets the malformed-loop message |
| `Conventions.FormatLineMalformed` | app.py:188-200 | `format(x)` starts with `for` and is reported as a malformed loop |
| `Conventions.SameHeader` | app.py:192-197 | when the first header is where the loop clause was found, the compared condition variable is that clause's own |
| `Conventions.FlattenParts` | app.py:184-200 | the collected errors are empty exactly when every line's are, and hold exactly the lines' errors |
| `Conventions.LoopErrorsEmpty` | app.py:184-200 | no loop error exactly when every stripped line passes; every loop error starts with `E` or `I` |
| `Conventions.Numbers` | app.py:203 | every number `re.findall` yields is a non-empty string of digits, and every whole digit word of the text is among them |
| `Conventions.NumberCheckNeverFires` | app.py:203-205 | the `isdigit` test passes for every number found, so the numeric check appends nothing |
| `Conventions.ReportOutcome` | app.py:207-210 | the result is the success text exactly when there is no error: each message starts with `E` or `I`, the success text with `U` |
| `Conventions.SemanticOkIff` | app.py:175-210 | the result is `Uso correcto de las estructuras semánticas` exactly when `fmt.Println` occurs and every `for` line holds a consistent loop clause |

## Left out

- The Flask application, the `index` route, `app.run` and the HTML template (app.py:1, app.py:5, app.py:27-127, app.py:212 on) are web input and presentation. They have no logic of the analyses.
- PLY itself is left out: `lex.lex()`, assembling the master regular expression, and the `lineno` counter. The line counter never reaches any output, so tokens carry no line number.
- The `print` in `t_error` is console output. The handler can never run: every character is either a newline or matched by the ERR rule `.`.
- Unicode `\w`, `\d` and `\b` are left out: word characters and digits are ASCII here. The classes of the ID rule are ASCII in the source too (app.py:13), so a lone `é` is an ERR token in both. Among the differences:
  - Python's `\b` counts a non-ASCII letter such as `ñ` as a word character, so `añob` is four ERR tokens in Python but ID `a`, ERR `ñ`, ID `ob` here.
  - A run of non-ASCII digits is one NUM token in Python (app.py:14) but one ERR token per character here.
  - A `for` line whose loop variable or numbers use non-ASCII letters or digits can match the patterns of app.py:183 and app.py:192-193 in Python, but is reported malformed here.
  - When such a line also holds an ASCII clause, the model judges it by the first ASCII clause and header instead, and the verdict can then differ from Python's in either direction. For example, `for ñ := 0; ñ < 1; i++ for i := 0; i < 1; i++` is reported inconsistent in Python but passes here.
- `LexicalAnalysis.AnalyzeLexical` tallies the token list `Tokenize` yields rather than pulling tokens from a scanner object. The tokens and their order are the same.
- The increment search of app.py:193 uses the same pattern as app.py:183 up to its capture groups, so it finds the same match. The model takes the increment variable from that one match instead of searching again.
- The guard `if condition_var and increment_var` of app.py:194 is modelled, and `Conventions.HeaderFound` shows it always holds.
- Concrete end-to-end examples are given only for single lines and short texts. Evaluating the scanner or the loop matcher on whole programs is beyond what the verifier handles cheaply. The properties above are stated for all inputs instead.
