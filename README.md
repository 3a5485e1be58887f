# docgrep, modelled in Dafny

docgrep searches Python sources for a term, but only inside docstrings. Its core is
`grep` (docgrep.py:48-71): a single forward scan over the tokens that Python's lexer
produces. The scan keeps two pieces of state:

- `previous_token_type`: the kind of the token before the current one (none at the start);
- `only_comments_so_far`: true until a token that is not a COMMENT, NEWLINE or NL is seen.

A STRING token is yielded, as `(start, text)`, when three things hold:

- its raw text starts with `"` or `'`;
- the previous token was an INDENT, or only comments and newlines came before it;
- its raw text contains the search term.

This is a lexical approximation of "first statement of a module, class or function
body". It does not look at scope: a string right after any INDENT counts.

The project has four modules, one file each:

- `strings.dfy` (`Strings`): Python's `startswith`, `endswith` and `in` on strings.
  `Contains` is the executable substring test. It is proved equal to `OccursIn`, which
  defines containment as an occurrence at some offset.
- `scan.dfy` (`Scan`): tokens (`Kind`, `Token`) and matches (`Match`). It holds:
  - the recursive specification `Matches(tokens, term, prev, onlyTrivial)`;
  - the method `Grep`, whose loop mirrors the source's `for` loop;
  - `ReportedIndices`, a reference definition of which token positions are reported,
    stated by position rather than by scan state;
  - lemmas tying these together, and concrete token streams of small files.
- `walk.dfy` (`Walk`): the name tests of the directory expansion in `_main`. Files must
  end in `.py` and not be hidden. Hidden subdirectories are pruned. `os.path.join` is
  modelled with POSIX rules.
- `report.dfy` (`Report`): the output line `filename:line: text` that `grep_file` prints,
  with `str()` of the line number modelled as decimal digits. `ParseLine` reads a line
  back: `FormatLine`'s own contract is the round trip, and `FormatLineInjective` shows that
  a printed line determines the line number and the text.
  `GrepFile` is the printing loop, returning the lines in order.

The whole scan of a file is `Matches(tokens, term, None, true)`. Running it twice on the
same tokens gives the same output, because it is a function of its inputs.

## Model

| member | source | states |
|---|---|---|
| `Scan.Grep` | docgrep.py:48-71 | The loop, with `previous_token_type` and `only_comments_so_far` as locals, yields exactly `Matches(tokens, term, None, true)` |
| `Scan.Selected` | docgrep.py:60-65 | A token is yielded from a given state if and only if it is a STRING whose raw text starts with a quote, it follows an INDENT or only comments and newlines, and the term occurs in its raw text at some offset |
| `Scan.Matches` | docgrep.py:54-71 | The scan from a given state yields no more matches than there are tokens |
| `Scan.MatchesFrom` | docgrep.py:51-71 | After i tokens the scan state is the previous token's kind (none when i = 0) and whether tokens[..i] are all COMMENT/NEWLINE/NL; from that state the rest of the scan yields the remaining reported positions |
| `Scan.StepAgrees` | docgrep.py:60-71 | One loop step updates `only_comments_so_far` to "all tokens so far trivial", and its yield test agrees with the positional rule at that token |
| `Scan.ReportedIndices` | docgrep.py:60-66 | Reference definition of the reported positions below n, by position rather than by scan state; every listed position is below n |
| `Scan.ReportedIndicesSpec` | docgrep.py:60-66 | The listed positions are strictly ascending, each is a quoted STRING in docstring position containing the term, and every such position is listed |
| `Scan.GrepCharacterised` | docgrep.py:54-71 | The scan's output is exactly the matches of the reported positions, in input order: a subsequence of the tokens, each with the token's own line, column and text |
| `Scan.ScanStep` | docgrep.py:54-71 | One loop iteration from the state after i tokens yields exactly the reference's match at position i, if any, and leaves the state after i + 1 tokens |
| `Scan.GrepSound` | docgrep.py:60-66 | Every yielded match comes from a position the reference definition reports |
| `Scan.GrepComplete` | docgrep.py:60-66 | The match of every position the reference definition reports is yielded |
| `Scan.GrepSoundAndComplete` | docgrep.py:60-66 | A match is yielded if and only if it comes from a STRING token that starts with a quote, contains the term, and follows an INDENT or only comments and newlines |
| `Scan.MatchesAreQuotedAndContainTerm` | docgrep.py:60-66 | Every yielded text starts with `"` or `'` and contains the term verbatim (case-sensitive, quotes included) |
| `Scan.OnlyCommentsNeverReturns` | docgrep.py:68-69 | `only_comments_so_far` is monotone: once false after some prefix, it is false after every longer prefix |
| `Scan.FirstRealTokenIsReported` | docgrep.py:63 | A quoted string preceded only by comments and newlines, containing the term, is reported |
| `Scan.StringAfterIndentIsReported` | docgrep.py:63 | A quoted string right after an INDENT, containing the term, is reported |
| `Scan.NoIndentNoMatch` | docgrep.py:63 | Once a real token has been seen, tokens without an INDENT among them (or just before them) yield nothing |
| `Scan.NoStringNoMatch` | docgrep.py:61 | A token stream without STRING tokens yields nothing, from any state |
| `Scan.MatchesAppend` | docgrep.py:54-71 | Scanning a + b yields the scan of a followed by the scan of b from the state a leaves |
| `Scan.ModuleDocstringScenario` | docgrep.py:48-71 | For a file holding only `"""hello world"""`, any term it contains ("hello" among them) yields one match at line 1, column 0; any other term yields nothing |
| `Scan.LeadingCommentScenario` | docgrep.py:52 | After a leading comment line, the module docstring on line 2 is still reported for any term it contains ("doc" among them) |
| `Scan.FunctionDocstringScenario` | docgrep.py:60-64 | In `def f():` with the docstring `"func doc"` and then `x = "not a doc"`, only the docstring is reported, although both contain "doc" |
| `Scan.AssignmentScenario` | docgrep.py:63 | The string in `x = "no docstrings here"` is never reported, whatever the term |
| `Scan.RawDocstringScenario` | docgrep.py:62 | A prefixed literal `r"""raw doc"""` is never reported, even first in a file |
| `Strings.Contains` | docgrep.py:65 | The containment test holds if and only if the term occurs at some offset of the text; the empty term occurs everywhere |
| `Walk.IsHidden` | docgrep.py:129-131 | A name is hidden if and only if its first character is `.`; the empty name is not hidden |
| `Walk.IsSourceFile` | docgrep.py:128-129 | A name is searched if and only if its last three characters are `.py` and its first is not `.`; so it has at least four characters and `.py` itself is not searched |
| `Walk.JoinPath` | docgrep.py:127 | An absolute name replaces the directory. A relative name is appended to the directory with exactly one `/` between them (none when the directory is empty or already ends with `/`), so the path starts with the directory and ends with the name |
| `Walk.ChildFiles` | docgrep.py:127-129 | The paths added are the source-file children, in the walk's order and once per occurrence, each joined to the directory: every source-file child's path is added, no more paths than children |
| `Walk.ChildFilesOnlySourceFiles` | docgrep.py:127-129 | Every path added is the join of a child that is a source file |
| `Walk.Subdirectories` | docgrep.py:130-131 | A subdirectory is descended into if and only if its name does not start with `.`; the kept ones stay in the walk's order, each as often as it was listed |
| `Walk.NameTestsScenario` | docgrep.py:127-129 | `a.py` is eligible, `.b.py` (hidden) and `c.txt` are not; `pkg` joined with `a.py` is `pkg/a.py` |
| `Walk.ChildFilesScenario` | docgrep.py:127-129 | Of `a.py`, `.b.py` and `c.txt` in `pkg`, only `pkg/a.py` is searched |
| `Walk.SubdirectoriesScenario` | docgrep.py:130-131 | `.git` and `.tox` are pruned, `src` and `tests` kept in order |
| `Report.DecimalString` | docgrep.py:102 | `str()` of a line number is a non-empty string of decimal digits with no leading zero |
| `Report.DecimalRoundTrip` | docgrep.py:102 | The printed digits denote the line number |
| `Report.ParseNumberedRoundTrip` | docgrep.py:102 | After the file name, `line: text` reads back to the line number and the text |
| `Report.FormatLine` | docgrep.py:102 | Each printed line `filename:line: text` reads back to the match's line and text; the column is not printed; the number has no leading zero (a `0` right after the file name's colon is the whole number, and the line is 0) |
| `Report.FormatLineInjective` | docgrep.py:102 | Two matches print the same line only if they have the same line number and text; the column is not printed |
| `Report.GrepFile` | docgrep.py:96-103 | One printed line per match, in scan order, each formatted from that match |

## Left out

- Lexing: `tokenize.generate_tokens` over `io.StringIO` (docgrep.py:50, 58) is Python's
  own lexer. The token sequence is an input. Lexical errors are not modelled. If the lexer
  stops part-way, the matches already yielded are those of the tokens so far; `Scan.MatchesAppend`
  shows that a prefix's matches are a prefix of the output.
- Token end positions and the source line (the ignored tuple fields) are not modelled.
  Every lexer category other than STRING, COMMENT, NEWLINE, NL and INDENT is `OTHER`.
- Encoding detection and file opening (`detect_encoding`, `open_with_encoding`,
  docgrep.py:74-93). These do file I/O and use lib2to3's encoding detection, falling back
  to `latin-1`. In `GrepFile` the file's tokens are a parameter.
- Printing to `standard_out` (docgrep.py:102-103) is modelled as returning the lines in order.
- The worklist loop of `_main` (docgrep.py:119-136) is not modelled. This covers the
  default path `.`, de-duplication through `set`, `os.path.isdir`, `os.walk` and the
  per-file `try`/`except`. Only `IOError` is caught there (docgrep.py:133-136), so a
  lexical error is not caught and ends the run. Only the name tests and the join are
  modelled.
- Strings.Contains: the model uses Python 3 `str` semantics, where the term and the token
  text are both text. setup.py:33 also declares Python 2.7. There the term from `sys.argv`
  is a byte string and the token text is unicode, so `search_term in token_string`
  (docgrep.py:65) decodes the term as ASCII. A non-ASCII term then raises
  `UnicodeDecodeError` at the first docstring candidate. That is not an `IOError`, so it
  ends the run (docgrep.py:133-136, 148-153). `Contains` instead returns a result for every term.
- Report.FormatLine: for the same reason, under Python 2.7 a non-ASCII file name from the
  command line can raise while the line is formatted (docgrep.py:102). The model formats
  every name.
- `JoinPath` follows POSIX `os.path.join`; Windows path rules are not modelled.
- Command-line parsing (docgrep.py:108-117), `main` with its SIGPIPE setup and exit code 2
  on interrupt (docgrep.py:139-153), and setup.py are not modelled. They are process and
  packaging glue.
- Behaviours of the code that the model keeps as written, though a reader might not expect them:
  - Literals with a prefix (`r"..."`, `u"..."`, `b"..."`) are lexed as STRING. They do
    not start with a quote, so they are never reported (`Scan.RawDocstringScenario`).
  - An empty search term is accepted and matches every docstring candidate.
