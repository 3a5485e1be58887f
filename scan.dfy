/**
 * The docstring scan of docgrep's `grep` (docgrep.py:48-71): one forward pass over
 * the lexer's tokens that keeps the kind of the previous token and whether only
 * comments and blank lines have been seen, and reports every string literal in
 * docstring position whose raw text contains the search term.
 *
 * The lexer (Python's `tokenize`) is not part of this model: its output is the
 * input sequence `tokens`.
 */
module Scan {
  import opened Strings

  datatype Option<T> = None | Some(value: T)

  /**
   * Token categories the scan distinguishes. OTHER stands for every other category
   * the lexer produces (NAME, OP, NUMBER, DEDENT, ENDMARKER, ...).
   */
  datatype Kind = STRING | COMMENT | NEWLINE | NL | INDENT | OTHER

  /** A lexer token: its kind, its raw text and its start (line, column). */
  datatype Token = Token(kind: Kind, text: string, line: nat, col: nat)

  /** A reported docstring: the start of its token and the token's raw text, quotes included. */
  datatype Match = Match(line: nat, col: nat, text: string)

  function MatchOf(t: Token): Match {
    Match(t.line, t.col, t.text)
  }

  /** Kinds that leave `only_comments_so_far` true. */
  predicate IsTrivial(k: Kind) {
    k == COMMENT || k == NEWLINE || k == NL
  }

  /** `token_string.startswith(('"', "'"))`: prefixed literals such as r"..." are excluded. */
  predicate StartsWithQuote(s: string) {
    StartsWith(s, "\"") || StartsWith(s, "'")
  }

  /** Whether token t is yielded, given the scan state just before it. */
  predicate Selected(t: Token, term: string, prev: Option<Kind>, onlyTrivial: bool)
    ensures Selected(t, term, prev, onlyTrivial) <==>
            t.kind == STRING && StartsWithQuote(t.text) &&
            (prev == Some(INDENT) || onlyTrivial) && OccursIn(term, t.text)
  {
    t.kind == STRING && StartsWithQuote(t.text) &&
    (prev == Some(INDENT) || onlyTrivial) &&
    Contains(term, t.text)
  }

  /**
   * The scan as a recursive specification: the matches yielded for `tokens` when the
   * previous token's kind is `prev` and `onlyTrivial` says whether only comments and
   * newlines have come before. The whole scan is Matches(tokens, term, None, true).
   */
  function Matches(tokens: seq<Token>, term: string, prev: Option<Kind>, onlyTrivial: bool): (r: seq<Match>)
    ensures |r| <= |tokens|
    decreases |tokens|
  {
    if tokens == [] then
      []
    else
      var t := tokens[0];
      (if Selected(t, term, prev, onlyTrivial) then [MatchOf(t)] else []) +
      Matches(tokens[1..], term, Some(t.kind), onlyTrivial && IsTrivial(t.kind))
  }

  /** The kind of the token before position i, None at the start. */
  function PrevAt(tokens: seq<Token>, i: nat): Option<Kind>
    requires i <= |tokens|
  {
    if i == 0 then None else Some(tokens[i - 1].kind)
  }

  /** Every token of s is a comment or a newline. */
  ghost predicate AllTrivial(s: seq<Token>) {
    forall j :: 0 <= j < |s| ==> IsTrivial(s[j].kind)
  }

  /**
   * `grep` (docgrep.py:48-71), the loop as written: `previous` and `onlyCommentsSoFar`
   * are the source's `previous_token_type` and `only_comments_so_far`, and `found`
   * collects what the generator yields, in order.
   */
  method Grep(tokens: seq<Token>, term: string) returns (found: seq<Match>)
    ensures found == Matches(tokens, term, None, true)
  {
    var previous: Option<Kind> := None;
    var onlyCommentsSoFar := true;
    found := [];
    for i := 0 to |tokens|
      invariant previous == PrevAt(tokens, i)
      invariant onlyCommentsSoFar <==> AllTrivial(tokens[..i])
      invariant found + Matches(tokens[i..], term, previous, onlyCommentsSoFar) == Matches(tokens, term, None, true)
    {
      var t := tokens[i];
      ghost var before := found;
      ghost var here := if Selected(t, term, previous, onlyCommentsSoFar) then [MatchOf(t)] else [];
      ghost var rest := Matches(tokens[i + 1..], term, Some(t.kind), onlyCommentsSoFar && IsTrivial(t.kind));
      MatchesStep(tokens, i, term, previous, onlyCommentsSoFar);
      StepAgrees(tokens, term, i);
      if t.kind == STRING && StartsWithQuote(t.text) && (previous == Some(INDENT) || onlyCommentsSoFar) {
        if Contains(term, t.text) {
          found := found + [MatchOf(t)];
        }
      }
      if !IsTrivial(t.kind) {
        onlyCommentsSoFar := false;
      }
      previous := Some(t.kind);
      assert found == before + here;
      ConcatAssoc(before, here, rest);
    }
    assert tokens[|tokens|..] == [];
  }

  /** One step of the specification: the token at i, then the rest from the updated state. */
  lemma MatchesStep(tokens: seq<Token>, i: nat, term: string, prev: Option<Kind>, onlyTrivial: bool)
    requires i < |tokens|
    ensures Matches(tokens[i..], term, prev, onlyTrivial) ==
            (if Selected(tokens[i], term, prev, onlyTrivial) then [MatchOf(tokens[i])] else []) +
            Matches(tokens[i + 1..], term, Some(tokens[i].kind), onlyTrivial && IsTrivial(tokens[i].kind))
  {
    assert tokens[i..][1..] == tokens[i + 1..];
  }

  // ---------------------------------------------------------------------------
  // A reference definition by position, independent of the scan state.

  /** Token k is in docstring position: right after an INDENT, or preceded only by comments and newlines. */
  ghost predicate InDocPosition(tokens: seq<Token>, k: nat)
    requires k < |tokens|
  {
    (0 < k && tokens[k - 1].kind == INDENT) || AllTrivial(tokens[..k])
  }

  /** Token k is a quoted STRING in docstring position whose raw text contains the term. */
  ghost predicate Reported(tokens: seq<Token>, term: string, k: nat)
    requires k < |tokens|
  {
    tokens[k].kind == STRING && StartsWithQuote(tokens[k].text) &&
    InDocPosition(tokens, k) && OccursIn(term, tokens[k].text)
  }

  /** The positions below n that satisfy Reported, in ascending order (see ReportedIndicesSpec). */
  ghost function ReportedIndices(tokens: seq<Token>, term: string, n: nat): (idx: seq<nat>)
    requires n <= |tokens|
    ensures forall j :: 0 <= j < |idx| ==> idx[j] < n
  {
    if n == 0 then [] else
      ReportedIndices(tokens, term, n - 1) + (if Reported(tokens, term, n - 1) then [n - 1] else [])
  }

  /** ReportedIndices lists every reported position below n, and only those, in ascending order. */
  lemma {:induction false} ReportedIndicesSpec(tokens: seq<Token>, term: string, n: nat)
    requires n <= |tokens|
    ensures forall j :: 0 <= j < |ReportedIndices(tokens, term, n)| ==> Reported(tokens, term, ReportedIndices(tokens, term, n)[j])
    ensures forall j, j' :: 0 <= j < j' < |ReportedIndices(tokens, term, n)| ==>
              ReportedIndices(tokens, term, n)[j] < ReportedIndices(tokens, term, n)[j']
    ensures forall k :: 0 <= k < n && Reported(tokens, term, k) ==> k in ReportedIndices(tokens, term, n)
  {
    if n > 0 {
      ReportedIndicesSpec(tokens, term, n - 1);
    }
  }

  /** The matches for the tokens at positions idx, in the order of idx. */
  ghost function Project(tokens: seq<Token>, idx: seq<nat>): seq<Match>
    requires forall j :: 0 <= j < |idx| ==> idx[j] < |tokens|
  {
    seq(|idx|, j requires 0 <= j < |idx| => MatchOf(tokens[idx[j]]))
  }

  /** Project distributes over concatenation of position lists. */
  lemma ProjectAppend(tokens: seq<Token>, a: seq<nat>, b: seq<nat>)
    requires forall j :: 0 <= j < |a| ==> a[j] < |tokens|
    requires forall j :: 0 <= j < |b| ==> b[j] < |tokens|
    ensures Project(tokens, a + b) == Project(tokens, a) + Project(tokens, b)
  {
  }

  lemma ConcatAssoc<T>(a: seq<T>, b: seq<T>, c: seq<T>)
    ensures a + (b + c) == (a + b) + c
  {
  }

  /** The one-token step of the scan agrees with the reference at position i. */
  lemma StepAgrees(tokens: seq<Token>, term: string, i: nat)
    requires i < |tokens|
    ensures AllTrivial(tokens[..i + 1]) == (AllTrivial(tokens[..i]) && IsTrivial(tokens[i].kind))
    ensures Selected(tokens[i], term, PrevAt(tokens, i), AllTrivial(tokens[..i])) == Reported(tokens, term, i)
  {
    assert tokens[..i + 1] == tokens[..i] + [tokens[i]];
  }

  /** One step of the scan from the state after i tokens yields the reference's match at i, if any. */
  lemma ScanStep(tokens: seq<Token>, term: string, i: nat)
    requires i < |tokens|
    ensures Matches(tokens[i..], term, PrevAt(tokens, i), AllTrivial(tokens[..i])) ==
            Project(tokens, if Reported(tokens, term, i) then [i] else []) +
            Matches(tokens[i + 1..], term, PrevAt(tokens, i + 1), AllTrivial(tokens[..i + 1]))
  {
    MatchesStep(tokens, i, term, PrevAt(tokens, i), AllTrivial(tokens[..i]));
    StepAgrees(tokens, term, i);
    assert Project(tokens, if Reported(tokens, term, i) then [i] else []) ==
           if Reported(tokens, term, i) then [MatchOf(tokens[i])] else [];
  }

  /** The scan state after i tokens is PrevAt(tokens, i) and AllTrivial(tokens[..i]). */
  lemma {:induction false} MatchesFrom(tokens: seq<Token>, term: string, i: nat)
    requires i <= |tokens|
    ensures Project(tokens, ReportedIndices(tokens, term, i)) +
            Matches(tokens[i..], term, PrevAt(tokens, i), AllTrivial(tokens[..i]))
            == Project(tokens, ReportedIndices(tokens, term, |tokens|))
    decreases |tokens| - i
  {
    if i == |tokens| {
      assert tokens[i..] == [];
    } else {
      var before := ReportedIndices(tokens, term, i);
      var here := if Reported(tokens, term, i) then [i] else [];
      var rest := Matches(tokens[i + 1..], term, PrevAt(tokens, i + 1), AllTrivial(tokens[..i + 1]));
      ScanStep(tokens, term, i);
      assert Project(tokens, ReportedIndices(tokens, term, i + 1)) == Project(tokens, before) + Project(tokens, here) by {
        ProjectAppend(tokens, before, here);
      }
      MatchesFrom(tokens, term, i + 1);
      ConcatAssoc(Project(tokens, before), Project(tokens, here), rest);
    }
  }

  /**
   * The scan yields exactly the matches of the positions satisfying Reported, in
   * ascending token order: the output is a subsequence of the input.
   */
  lemma GrepCharacterised(tokens: seq<Token>, term: string)
    ensures Matches(tokens, term, None, true) == Project(tokens, ReportedIndices(tokens, term, |tokens|))
  {
    MatchesFrom(tokens, term, 0);
    assert tokens[0..] == tokens;
    assert tokens[..0] == [];
  }

  /** Every yielded match is that of a position satisfying Reported. */
  lemma GrepSound(tokens: seq<Token>, term: string, m: Match)
    requires m in Matches(tokens, term, None, true)
    ensures exists k :: 0 <= k < |tokens| && Reported(tokens, term, k) && m == MatchOf(tokens[k])
  {
    GrepCharacterised(tokens, term);
    ReportedIndicesSpec(tokens, term, |tokens|);
    var idx := ReportedIndices(tokens, term, |tokens|);
    var j :| 0 <= j < |idx| && Project(tokens, idx)[j] == m;
    assert Reported(tokens, term, idx[j]) && m == MatchOf(tokens[idx[j]]);
  }

  /** The match of every position satisfying Reported is yielded. */
  lemma GrepComplete(tokens: seq<Token>, term: string, k: nat)
    requires k < |tokens| && Reported(tokens, term, k)
    ensures MatchOf(tokens[k]) in Matches(tokens, term, None, true)
  {
    GrepCharacterised(tokens, term);
    ReportedIndicesSpec(tokens, term, |tokens|);
    var idx := ReportedIndices(tokens, term, |tokens|);
    var j :| 0 <= j < |idx| && idx[j] == k;
    assert Project(tokens, idx)[j] == MatchOf(tokens[k]);
  }

  /** A match is yielded iff it is that of a quoted STRING in docstring position containing the term. */
  lemma GrepSoundAndComplete(tokens: seq<Token>, term: string, m: Match)
    ensures m in Matches(tokens, term, None, true) <==>
            exists k :: 0 <= k < |tokens| && Reported(tokens, term, k) && m == MatchOf(tokens[k])
  {
    if m in Matches(tokens, term, None, true) {
      GrepSound(tokens, term, m);
    }
    if exists k :: 0 <= k < |tokens| && Reported(tokens, term, k) && m == MatchOf(tokens[k]) {
      var k :| 0 <= k < |tokens| && Reported(tokens, term, k) && m == MatchOf(tokens[k]);
      GrepComplete(tokens, term, k);
    }
  }

  /** Every yielded match's text starts with a quote and contains the term verbatim. */
  lemma MatchesAreQuotedAndContainTerm(tokens: seq<Token>, term: string, m: Match)
    requires m in Matches(tokens, term, None, true)
    ensures StartsWithQuote(m.text) && OccursIn(term, m.text)
  {
    GrepSoundAndComplete(tokens, term, m);
  }

  /** Once a token other than a comment or newline is seen, only_comments_so_far stays false. */
  lemma OnlyCommentsNeverReturns(tokens: seq<Token>, i: nat, j: nat)
    requires i <= j <= |tokens|
    ensures AllTrivial(tokens[..j]) ==> AllTrivial(tokens[..i])
  {
  }


  /** The first non-trivial token, if it is a quoted string containing the term, is reported. */
  lemma FirstRealTokenIsReported(tokens: seq<Token>, term: string, k: nat)
    requires k < |tokens| && AllTrivial(tokens[..k])
    requires tokens[k].kind == STRING && StartsWithQuote(tokens[k].text) && OccursIn(term, tokens[k].text)
    ensures MatchOf(tokens[k]) in Matches(tokens, term, None, true)
  {
    GrepSoundAndComplete(tokens, term, MatchOf(tokens[k]));
  }

  /** A quoted string right after an INDENT that contains the term is reported. */
  lemma StringAfterIndentIsReported(tokens: seq<Token>, term: string, k: nat)
    requires 0 < k < |tokens| && tokens[k - 1].kind == INDENT
    requires tokens[k].kind == STRING && StartsWithQuote(tokens[k].text) && OccursIn(term, tokens[k].text)
    ensures MatchOf(tokens[k]) in Matches(tokens, term, None, true)
  {
    GrepSoundAndComplete(tokens, term, MatchOf(tokens[k]));
  }

  /** The first step of scanning a + b is the first step of scanning a. */
  lemma MatchesAppendHead(a: seq<Token>, b: seq<Token>, term: string, prev: Option<Kind>, onlyTrivial: bool)
    requires a != []
    ensures Matches(a + b, term, prev, onlyTrivial) ==
            (if Selected(a[0], term, prev, onlyTrivial) then [MatchOf(a[0])] else []) +
            Matches(a[1..] + b, term, Some(a[0].kind), onlyTrivial && IsTrivial(a[0].kind))
  {
    assert (a + b)[0] == a[0];
    assert (a + b)[1..] == a[1..] + b;
  }

  lemma AllTrivialCons(a: seq<Token>)
    requires a != []
    ensures AllTrivial(a) == (IsTrivial(a[0].kind) && AllTrivial(a[1..]))
  {
    assert forall j :: 0 < j < |a| ==> a[j] == a[1..][j - 1];
  }

  /** Scanning a + b is scanning a, then b from the state a leaves behind. */
  lemma {:induction false} MatchesAppend(a: seq<Token>, b: seq<Token>, term: string, prev: Option<Kind>, onlyTrivial: bool)
    requires a != []
    ensures Matches(a + b, term, prev, onlyTrivial) ==
            Matches(a, term, prev, onlyTrivial) +
            Matches(b, term, Some(a[|a| - 1].kind), onlyTrivial && AllTrivial(a))
    decreases |a|
  {
    var only := onlyTrivial && IsTrivial(a[0].kind);
    var head := if Selected(a[0], term, prev, onlyTrivial) then [MatchOf(a[0])] else [];
    MatchesAppendHead(a, b, term, prev, onlyTrivial);
    AllTrivialCons(a);
    if |a| > 1 {
      assert a[1..][|a[1..]| - 1] == a[|a| - 1];
      MatchesAppend(a[1..], b, term, Some(a[0].kind), only);
      ConcatAssoc(head, Matches(a[1..], term, Some(a[0].kind), only),
                  Matches(b, term, Some(a[|a| - 1].kind), only && AllTrivial(a[1..])));
    } else {
      assert a[1..] == [];
      assert a[1..] + b == b;
    }
  }

  /**
   * Past the first real token, a run of tokens with no INDENT among them (nor just before
   * them) yields nothing: a string elsewhere than first in a block is never reported.
   */
  lemma {:induction false} NoIndentNoMatch(tokens: seq<Token>, term: string, prev: Option<Kind>)
    requires prev != Some(INDENT)
    requires forall j :: 0 <= j < |tokens| ==> tokens[j].kind != INDENT
    ensures Matches(tokens, term, prev, false) == []
    decreases |tokens|
  {
    if tokens != [] {
      assert forall j :: 0 <= j < |tokens[1..]| ==> tokens[1..][j] == tokens[j + 1];
      NoIndentNoMatch(tokens[1..], term, Some(tokens[0].kind));
    }
  }

  /** Only STRING tokens are ever reported: a stream without one yields nothing, whatever the state. */
  lemma {:induction false} NoStringNoMatch(tokens: seq<Token>, term: string, prev: Option<Kind>, onlyTrivial: bool)
    requires forall j :: 0 <= j < |tokens| ==> tokens[j].kind != STRING
    ensures Matches(tokens, term, prev, onlyTrivial) == []
    decreases |tokens|
  {
    if tokens != [] {
      assert forall j :: 0 <= j < |tokens[1..]| ==> tokens[1..][j] == tokens[j + 1];
      NoStringNoMatch(tokens[1..], term, Some(tokens[0].kind), onlyTrivial && IsTrivial(tokens[0].kind));
    }
  }

  // ---------------------------------------------------------------------------
  // Concrete token streams, as the lexer produces them for small files.

  const HelloDoc: string := "\"\"\"hello world\"\"\""

  /** The tokens of a file holding only `"""hello world"""`. */
  const HelloFile: seq<Token> := [Token(STRING, HelloDoc, 1, 0), Token(NEWLINE, "\n", 1, 17), Token(OTHER, "", 2, 0)]

  /**
   * The module docstring is reported at line 1, column 0 for every term it contains
   * ("hello" among them), and nothing is reported for any other term.
   */
  lemma ModuleDocstringScenario(term: string)
    ensures Matches(HelloFile, term, None, true) == if OccursIn(term, HelloDoc) then [Match(1, 0, HelloDoc)] else []
    ensures OccursIn("hello", HelloDoc)
  {
    assert StartsWith(HelloDoc[3..], "hello");
    assert StartsWithQuote(HelloDoc) by { assert HelloDoc[..1] == "\""; }
    var ts := HelloFile;
    assert Matches(ts[1..], term, Some(STRING), false) == [] by {
      NoStringNoMatch(ts[1..], term, Some(STRING), false);
    }
    assert ts[0..] == ts;
    MatchesStep(ts, 0, term, None, true);
  }

  const ModuleDoc: string := "\"\"\"module doc\"\"\""

  /** The tokens of `# comment` followed by `"""module doc"""`. */
  const CommentedFile: seq<Token> :=
    [Token(COMMENT, "# comment", 1, 0), Token(NL, "\n", 1, 9), Token(STRING, ModuleDoc, 2, 0),
     Token(NEWLINE, "\n", 2, 16), Token(OTHER, "", 3, 0)]

  /** The leading comment does not hide the module docstring: it is reported at line 2 for "doc". */
  lemma LeadingCommentScenario(term: string)
    ensures Matches(CommentedFile, term, None, true) == if OccursIn(term, ModuleDoc) then [Match(2, 0, ModuleDoc)] else []
    ensures OccursIn("doc", ModuleDoc)
  {
    assert StartsWith(ModuleDoc[10..], "doc");
    assert StartsWithQuote(ModuleDoc) by { assert ModuleDoc[..1] == "\""; }
    var ts := CommentedFile;
    assert Matches(ts[3..], term, Some(STRING), false) == [] by {
      NoStringNoMatch(ts[3..], term, Some(STRING), false);
    }
    var found := if OccursIn(term, ModuleDoc) then [Match(2, 0, ModuleDoc)] else [];
    assert Matches(ts[2..], term, Some(NL), true) == found by {
      MatchesStep(ts, 2, term, Some(NL), true);
    }
    assert Matches(ts[1..], term, Some(COMMENT), true) == found by {
      MatchesStep(ts, 1, term, Some(COMMENT), true);
    }
    assert Matches(ts[0..], term, None, true) == found by {
      MatchesStep(ts, 0, term, None, true);
    }
    assert ts[0..] == ts;
  }

  const FunctionDoc: string := "\"func doc\""
  const OtherString: string := "\"not a doc\""

  /** The tokens of `def f():` up to the INDENT of its body. */
  const FunctionHeader: seq<Token> :=
    [Token(OTHER, "def", 1, 0), Token(OTHER, "f", 1, 4), Token(OTHER, "(", 1, 5),
     Token(OTHER, ")", 1, 6), Token(OTHER, ":", 1, 7), Token(NEWLINE, "\n", 1, 8),
     Token(INDENT, "    ", 2, 0)]

  /** The tokens after the docstring: `\n    x = "not a doc"\n`, DEDENT, ENDMARKER. */
  const FunctionTail: seq<Token> :=
    [Token(NEWLINE, "\n", 2, 14), Token(OTHER, "x", 3, 4), Token(OTHER, "=", 3, 6),
     Token(STRING, OtherString, 3, 8), Token(NEWLINE, "\n", 3, 19), Token(OTHER, "", 4, 0),
     Token(OTHER, "", 4, 0)]

  /** The function body: its docstring, then the tail. */
  const FunctionBody: seq<Token> := [Token(STRING, FunctionDoc, 2, 4)] + FunctionTail

  /** The tokens of `def f():`, then `    "func doc"`, then `    x = "not a doc"`. */
  const FunctionFile: seq<Token> := FunctionHeader + FunctionBody

  lemma FunctionHeaderYieldsNothing(term: string)
    ensures Matches(FunctionHeader, term, None, true) == []
    ensures !AllTrivial(FunctionHeader) && FunctionHeader[|FunctionHeader| - 1].kind == INDENT
  {
    assert forall j :: 0 <= j < |FunctionHeader| ==> FunctionHeader[j].kind != STRING;
    NoStringNoMatch(FunctionHeader, term, None, true);
    assert !IsTrivial(FunctionHeader[0].kind);
  }

  lemma FunctionTailYieldsNothing(term: string)
    ensures Matches(FunctionTail, term, Some(STRING), false) == []
  {
    assert forall j :: 0 <= j < |FunctionTail| ==> FunctionTail[j].kind != INDENT;
    NoIndentNoMatch(FunctionTail, term, Some(STRING));
  }

  lemma FunctionBodyYieldsDocstring(term: string)
    ensures Matches(FunctionBody, term, Some(INDENT), false)
         == if OccursIn(term, FunctionDoc) then [Match(2, 4, FunctionDoc)] else []
  {
    assert Selected(FunctionBody[0], term, Some(INDENT), false) <==> OccursIn(term, FunctionDoc) by {
      assert FunctionBody[0].text[..1] == "\"";
    }
    FunctionTailYieldsNothing(term);
    assert FunctionBody[1..] == FunctionTail;
  }

  /**
   * Only the function docstring is reported; the assignment's string is not, although
   * it too contains "doc".
   */
  lemma FunctionDocstringScenario(term: string)
    ensures Matches(FunctionFile, term, None, true) == if OccursIn(term, FunctionDoc) then [Match(2, 4, FunctionDoc)] else []
    ensures OccursIn("doc", FunctionDoc) && OccursIn("doc", OtherString)
  {
    FunctionHeaderYieldsNothing(term);
    FunctionBodyYieldsDocstring(term);
    MatchesAppend(FunctionHeader, FunctionBody, term, None, true);
    BothStringsContainDoc();
  }

  lemma BothStringsContainDoc()
    ensures OccursIn("doc", FunctionDoc) && OccursIn("doc", OtherString)
  {
    assert StartsWith(FunctionDoc[6..], "doc");
    assert StartsWith(OtherString[7..], "doc");
  }

  /** The tokens of the one-line file `x = "no docstrings here"`. */
  const AssignmentFile: seq<Token> :=
    [Token(OTHER, "x", 1, 0), Token(OTHER, "=", 1, 2), Token(STRING, "\"no docstrings here\"", 1, 4),
     Token(NEWLINE, "\n", 1, 24), Token(OTHER, "", 2, 0)]

  /** Whatever the term, the string of an assignment is not in docstring position. */
  lemma AssignmentScenario(term: string)
    ensures Matches(AssignmentFile, term, None, true) == []
  {
    var rest := AssignmentFile[1..];
    assert Matches(AssignmentFile, term, None, true) == Matches(rest, term, Some(OTHER), false);
    assert forall j :: 0 <= j < |rest| ==> rest[j].kind != INDENT;
    NoIndentNoMatch(rest, term, Some(OTHER));
  }

  /** Whatever the term, a prefixed literal such as `r"""raw doc"""` is never reported, even first in a file. */
  lemma RawDocstringScenario(term: string)
    ensures Matches([Token(STRING, "r\"\"\"raw doc\"\"\"", 1, 0), Token(NEWLINE, "\n", 1, 14),
                     Token(OTHER, "", 2, 0)], term, None, true)
         == []
  {
    var raw := "r\"\"\"raw doc\"\"\"";
    var ts := [Token(STRING, raw, 1, 0), Token(NEWLINE, "\n", 1, 14), Token(OTHER, "", 2, 0)];
    assert !StartsWithQuote(raw) by { assert raw[..1] == "r"; }
    assert ts[1..][1..][1..] == [];
  }
}
