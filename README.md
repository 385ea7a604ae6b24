# const-qualification fixer: a Dafny model

The program modelled here is a source-to-source refactoring tool for a
large C code base (the MOAB scheduler). It works through the functions of
the code base from the leaves of the call graph upwards. For each function
it does the following:

1. Find every prototype of the function in the source tree.
2. Parse the parameter declarations.
3. Pick the parameters that are pointers or references and could be
   `const`.
4. Try adding `const` to each such parameter, rewriting every prototype.
5. Rebuild the code and run the tests.
6. Keep the change when both succeed. Otherwise restore the files from
   their backups.

Each function's outcome is appended to a tab-separated log, so an
interrupted run can resume.

The model follows the five core files of the program:

| file | Dafny | modelled from |
|---|---|---|
| text.dfy | `Text` | the Python string operations these files use (`find`, `rfind`, `strip`, `replace`, slicing) and `_squeeze` |
| param.dfy, normalize.dfy | `Params`, `TypeNormalization` | param.py: one parameter declaration, and the normal form of its type |
| split.dfy | `ParamSplit` | prototype.py: `_split_params`, the cursor scan that cuts a parameter list into declarations |
| scanner.dfy | `Scanners` | prototype.py: `_find_end_of_body` and the scan of `adjust_match_if_true_prototype` |
| prototype.dfy | `Prototypes` | prototype.py: the `Prototype` value, `find_prototypes_in_file` and `PrototypeMap` |
| callgraph.dfy | `Callgraphs` | callgraph.py: class `Callgraph` with its two adjacency maps |
| safechange.dfy | `SafeChange` | safechange.py: backup names, the file store (class `Disk`) and the two rollback callables |
| outcomes.dfy | `Outcomes` | const_fix.py: the outcome log (`tabulate`, `load_previous_results`) |
| constfix.dfy | `ConstFix` | const_fix.py: `_classify_func`, `rewrite_prototypes`, `prove_safe_change`, `fix_func` |
| passes.dfy | `Passes` | const_fix.py: `cut_noise`, `prune` and the pass loop of `fix_prototypes` |

## How each kind of code is modelled

- **Values.** Parameters, prototypes and prototype maps are immutable
  datatypes, so their operations are functions. The file store and the
  call graph are updated in place by the source, so they are classes.
  `Disk.files` is a map from path to contents. `Callgraph.byCaller` and
  `Callgraph.byCallee` are maps from a function to its list of callees or
  callers.
- **Loops.** Every source loop that updates variables is a method with a
  `while` loop. Each such method is proved equal to a specification
  function, and the properties are lemmas about that function. This covers:
  - the three cursor scans;
  - `_parse`'s name loop;
  - the merge, sort and removal loops of the call graph;
  - the splice of `rewrite_prototypes`;
  - the search of `find_best`;
  - the parameter loop of `fix_func`;
  - the loops of `cut_noise` and `prune`, and the pass loop.
- **Errors.** Python exceptions are `Err` values of a `Result` type. Each
  carries the kind of exception and the source line that raises it, for
  example `AssertionFailed(83)` or `KeyMissing(108)`. Every path that
  raises in the source returns that error in the model.
- **External effects.** Compiling, testing and re-reading the tree are
  external. Their results come in as parameters: an `Oracle` holds the
  verdicts of the n-th try and the prototypes found after the n-th accepted
  change.

## What the source does that the model records

These behaviours of the code are stated as contracts and lemmas. The model
follows the code as written. For four of them the evidently intended
version is modelled beside it, with its property proved (see
"## Findings").

- **A comment just before a comma makes parsing fail.**
  `_split_params` rewinds to the comment's start at a comma
  (prototype.py:84-85). It then re-reads the comment, cuts a parameter out
  of it, and meets the same comma with no parameter begun. That is the
  assertion at prototype.py:83 (`ParamSplit.CommentBeforeCommaFails`,
  `ParamSplit.CommentRescan`).
  - Example: `Job * job /* IN */, char * buf`.
- **A comment at the end of the list makes parsing fail.** The cursor
  is rewound to the comment, skips it up to the end of the range with no
  parameter begun, and never meets the end again. The scan then fails
  whatever follows the list: it reads past the text (`IndexOutOfRange(50)`),
  meets an unclosed comment (line 66 or 69) or a comma with nothing begun
  (line 83) (`ParamSplit.TrailingCommentOverruns`, `ParamSplit.PastEndFails`).
  When no `/` or `,` follows the range, it is `IndexOutOfRange(50)`.
- **A blank parameter list fails.** An empty or all-blank range reaches
  prototype.py:44 with no parameter, raising there or at line 41
  (`ParamSplit.BlankRangeFails`).
- **The array-suffix pattern never matches.** `array_spec_pat`
  (param.py:3) puts `^` after the `[` it consumes, so `array_spec` is
  always empty (`Params.ParseDecl`).
- **A backup name can lose an inner `.bak`.** `_backup_name_to_name`
  removes every `.bak`, not only the suffix. So a file whose name contains
  `.bak` is restored under a different name
  (`SafeChange.BackupNameLosesInnerBak`, `SafeChange.RestoreGoesElsewhere`).
  - Stripping only the leading `.` and the trailing `.bak` gives every
    visible name back (`SafeChange.BackupNameSuffixRoundTrip`).
- **A failed `const` is not undone in memory.** `const_rollback` first
  calls `set_const(False)` on the trial parameter. `is_const` reads the
  declaration as written, which has no `const`, so that call does nothing
  (`Params.SetConstNotUndone`).
  - The rollback then writes the `const` type back into every prototype,
    although it undoes the files (`SafeChange.ConstRollbackCapturesTrial`,
    `ConstFix.TryConst`).
  - A rollback that captures the type before the trial puts the old type
    back (`SafeChange.TrialWithRollback`, `SafeChange.RollbackAfterTrial`).
- **An unneeded `const` is dropped in memory.** For a parameter that has
  `const` but is no candidate, `set_const(False)` removes the word from
  the type, and the following `set_const(True)` does nothing, since
  `is_const` reads the declaration. Only `decl` keeps `const`. A later
  accepted or rejected try on the same function re-prints every parameter
  of each dirty prototype, so the file then loses that `const`
  (`ConstFix.StripStays`, `ConstFix.VisitParam`).
- **`remove` keeps the caller's key.** `remove` deletes `func` from
  `by_callee` only, and never from `by_caller` (callgraph.py:107-111).
  - So `is_empty` never becomes true once the graph had a function.
  - A later pass removes an already removed leaf again, which fails with
    a `KeyError` at line 108.
  - On the graph `load` evidently builds, the whole run therefore ends
    without error exactly when the graph starts with no functions at all
    and the log is empty (`Passes.FixPrototypes`, `Passes.PassLoop`). As
    written, `fix_prototypes` never gets that far: the graph is never
    loaded and `get_leaves` returns `None` (see "Callgraph loading"
    under "## Left out").
  - The loop at const_fix.py:404 waits for `is_empty`, so `remove` is
    evidently meant to delete the function from both maps. With that
    removal (`Callgraphs.Callgraph.RemoveFully`) the same loop ends on
    every graph whose two maps agree, and only a `sys.exit` out of
    `fix_func` ends it with an error (`Passes.PassLoopFully`).
- **Recursion breaking fails on any self-call.**
  `recursive.append[func]` raises `TypeError` at callgraph.py:123 as soon
  as any function calls itself (`Callgraphs.Callgraph.BreakSimpleRecursion`).
  - With `recursive.append(func)`, the loop drops exactly the self-edges,
    as its docstring (callgraph.py:115-118) says
    (`Callgraphs.Callgraph.DropSelfCalls`, `Callgraphs.DropSelfLinked`).
- **`end_count` ends only the current pass.** The outer loop goes on
  (`Passes.RunPass`).
- **A missing body end reaches a `TypeError`.** `prove_param_cant_be_const`
  searches up to an end of body the constructor could not find (`None`).
  For a name whose pattern compiles, that raises `TypeError` at
  prototype.py:214
  (`Prototypes.ProveParamCantBeConst`).
- **Parameter names are pasted into the write patterns unescaped.**
  `prove_param_cant_be_const` builds its patterns with `%s` and the raw
  name (prototype.py:213, 217, 221).
  - `char * argv[]` makes the first pattern hold the class
    `[]->[a-zA-Z0-9_]`, whose range runs backwards. `re.compile` raises at
    line 213, so the function is tagged `EXCEPTION ` instead of being
    decided (`Prototypes.EmptySubscriptRaises`).
  - A function-pointer name such as `(*get)(int)` leaves `*` with nothing
    to repeat, with the same outcome.
  - `int * list[10]` reads as `list` followed by one of `1` and `0`: a
    write to `list1->n` counts as a write through `list`, and the literal
    `list[10]` is never matched (`Prototypes.SubscriptIsClass`).

## Model

| member | source | states |
|---|---|---|
| Text.Squeeze | param.py:38-40 | the result has no leading or trailing whitespace and no two adjacent whitespace characters |
| Text.SqueezeFixesSqueezed | param.py:38-40 | text already without edge whitespace or whitespace pairs is returned unchanged |
| Text.SqueezeIdempotent | param.py:38-40 | squeezing twice equals squeezing once |
| Text.SqueezeKeepsLoneSpace | param.py:40 | a single whitespace character between two words is kept as it is (only runs of two or more become a space) |
| Text.CollapseIdentity | param.py:40 | `re.sub(r'\s{2,}', ' ', s)` leaves text without whitespace pairs unchanged |
| Text.StripIdentity | param.py:40 | `strip` leaves text without edge whitespace unchanged |
| Text.IndexOf | param.py:100 | `find`: -1 exactly when the character is absent, else the first position holding it |
| Text.LastIndexOf | param.py:155 | `rfind`: -1 exactly when the character is absent, else the last position holding it |
| Text.FindFrom | prototype.py:128 | `find(sub, from)`: -1 when `sub` occurs nowhere from `from` on, else the first occurrence at or after `from` |
| Text.Slice | const_fix.py:175 | Python slicing: `s[a..b]` for `a <= b <= len`, empty when `b <= a` |
| Text.LStrip | param.py:40 | removes exactly the leading whitespace |
| Text.RStrip | param.py:164 | removes exactly the trailing whitespace |
| Text.ReplaceAllAbsent | safechange.py:28 | replacing a pattern that does not occur changes nothing |
| Params.SkipMarkers | param.py:158-159 | the skip stops at the first character after `i` that is not `*` or `&` |
| Params.NameIndex | param.py:153-162 | no name for a declaration ending in `*`/`&`, matching `moab_type_pat` or without a space; a name exactly when none of these holds and the word after the last space and its markers is not a primitive type keyword, and then it starts right there |
| Params.NameAfter | param.py:157-162 | the name index found after the last space skips only markers and the name is not in `datatype_names` |
| Params.FindNameIndex | param.py:153-162 | the `name_idx` loop computes `NameIndex` (-1 for none) |
| Params.FindNameAfter | param.py:157-162 | the marker-skipping loop computes `NameAfter` |
| Params.ParseDecl | param.py:57-64 | offset and text are kept, the array suffix is always empty; a name is found exactly when the squeezed declaration has one (`Named`), and it is the space-free word from `NameStart` on, with the type the normalised rest; without a name, in every case including the keyword one, the type is the normalised squeezed declaration |
| Params.Parse | param.py:147-168 | `_parse` as written yields `ParseDecl` |
| Params.ParsedTypeNormal | param.py:164-168 | a parsed type is in normal form: normalising it again changes nothing, no edge or double whitespace, and non-empty when a name was found |
| Params.IsConstCandidate | param.py:96-124 | true exactly when the type has no `void`, has a `*` or `&`, is not `char *` named `EMsg`, is not a common numeric out-pointer, is not `*&`, and has at most one `*` |
| Params.Pivot | param.py:129-137 | none exactly when the type has no marker; otherwise the first `*` or `&` |
| Params.SetConst | param.py:139-145 | only the type changes; what `is_const` reports is unchanged; asking for the state `is_const` already reports changes nothing |
| Params.SetConstDropsConst | param.py:144-145 | on the normal form `a const b` that `normalize_type` gives a `const` type, `set_const(False)` yields `a b` (`char const *` becomes `char *`) |
| Params.SetConstNotUndone | safechange.py:12-13 | a `set_const` that changed the type is not undone by `set_const` of the opposite value |
| Params.SetConstInsertsBeforePivot | param.py:143 | adding `const` inserts ` const ` just before the first marker, trimming the space before it |
| Params.InsertConstSqueezed | param.py:143 | the text built by adding `const` is already squeezed, so the `_squeeze` around it changes nothing |
| Params.Render | param.py:170-176 | a new name wins over the parsed name; with neither, only type and suffix are printed |
| Params.RenderParseRoundTrip | param.py:147-176 | parsing the printed form of a named parameter in normal form gives back the same parameter |
| Params.ParseRenderRoundTrip | param.py:147-176 | parsing the printed form of a parsed parameter with a plain name gives back the same type and name |
| TypeNormalization.IdentRun | param.py:4 | the `[a-zA-Z0-9_]+` group of `const_prefix_pat` is the longest run of word characters |
| TypeNormalization.PadMarkersIsPad | param.py:50 | the two `replace` calls put one space on each side of every `*` and `&` |
| TypeNormalization.SqueezeIsScan | param.py:38-40 | `_squeeze` equals a left-to-right scan remembering the whitespace run it is in |
| TypeNormalization.SqueezePadSpaced | param.py:50 | squeezing padded text gives text whose markers are separated by single spaces |
| TypeNormalization.SpacedFixed | param.py:50 | padding and squeezing such spaced text again gives it back |
| TypeNormalization.JoinedSpacedFixed | param.py:50 | the same after `* *` has been joined to `**` |
| TypeNormalization.MoveConstFixed | param.py:51-53 | a type of the form `id const...` is left alone by the `const` prefix rewrite |
| TypeNormalization.ConstMoved | param.py:51-53 | moving a leading `const` after the identifier gives a spaced form that the rewrite then leaves alone |
| TypeNormalization.NormalForm | param.py:42-54 | every normalised type is a joined spaced form with no leading `const ident` left |
| TypeNormalization.NormalizeIdempotent | param.py:42-54 | `normalize_type(normalize_type(t)) == normalize_type(t)` |
| TypeNormalization.NormalizeShape | param.py:42-54 | a normalised type has no edge whitespace and no whitespace pair |
| TypeNormalization.NormalizeNonEmpty | param.py:42-54 | a type that starts with a non-space character normalises to non-empty text |
| TypeNormalization.NormalizedFacts | param.py:42-54 | idempotence, shape and non-emptiness together |
| ParamSplit.SkipComment | prototype.py:62-69 | a `/*` skip is `SkipBlockComment`, a `//` skip is `SkipLineComment`, any other `/` moves one character on; errors are only the assertions at lines 66 and 69 |
| ParamSplit.SkipBlockComment | prototype.py:64-66 | fails at line 66 exactly when no `*/` starts at or after `i + 2`; otherwise lands just past the first such `*/` |
| ParamSplit.SkipLineComment | prototype.py:67-69 | fails at line 69 exactly when no newline follows `i + 2`; otherwise lands just past the first one |
| ParamSplit.CommentScan | prototype.py:62-69 | the skip as written computes `SkipComment` |
| ParamSplit.SplitParams | prototype.py:26-37 | an empty range gives no parameters |
| ParamSplit.SplitParamsScan | prototype.py:26-101 | the imperative scan (skip blanks, scan a fragment, cut at a comma or the end) computes `SplitParams` |
| ParamSplit.SkipBlanks | prototype.py:41-45 | the blank skip either fails as the scan does or goes on from a later position with the same final result |
| ParamSplit.ScanFragment | prototype.py:46-100 | one fragment scan either fails as the scan does or returns to the top with the cut parameters appended and progress made |
| ParamSplit.InnerPass | prototype.py:49-93 | one character of the fragment scan |
| ParamSplit.SlashPass | prototype.py:51-74 | a `/` skips a comment before a parameter, or marks the cut position inside one |
| ParamSplit.CommaPass | prototype.py:81-89 | a top-level comma cuts the parameter at the cut position, or fails the assertion at line 83 when none has begun |
| ParamSplit.EndCheck | prototype.py:93-100 | reaching `end` with a parameter begun (and `begin` non-zero) cuts it and stops |
| ParamSplit.Append | prototype.py:86-87 | appending a cut keeps the parameter list equal to the cuts of the recorded spans |
| ParamSplit.SplitParamsPlaced | prototype.py:86-99 | every parameter found lies inside the text in order after the start, and each is `Param(begin, fragment)` of its own text |
| ParamSplit.CutIsParse | prototype.py:86-87 | a cut parameter is the parse of its offset and its right-stripped fragment |
| ParamSplit.FragmentInside | prototype.py:86 | a right-stripped fragment starting at a name character lies inside its span, starts there and ends with a non-space |
| ParamSplit.CutsPlaced | prototype.py:86-99 | spans in order give parameters in order |
| ParamSplit.SplitFromOrdered | prototype.py:37-101 | from any reachable scan state, a successful scan yields spans in order |
| ParamSplit.BlankRangeFails | prototype.py:41-45 | an all-blank range fails at line 44 (no parameter or unbound `begin`), or at line 41 when it runs to the end of the text |
| ParamSplit.CommaWithoutFragment | prototype.py:81-83 | a top-level comma with nothing begun fails the assertion at line 83 |
| ParamSplit.ParenCommasKept | prototype.py:75-82 | commas nested inside parentheses do not cut: the scan runs over them with the depth updated |
| ParamSplit.CommentRescan | prototype.py:73-85 | after a rewind to a comment that ends just before a comma, the rescan fails the assertion at line 83 |
| ParamSplit.CommentBeforeCommaFails | prototype.py:73-89 | a parameter whose comment ends right before its comma makes the whole split fail at line 83 |
| ParamSplit.RewoundComma | prototype.py:84-85 | the cut at that comma rewinds to the comment and the rest of the scan fails at line 83 |
| ParamSplit.RunsOffText | prototype.py:49-50 | a scan past `end` with no comma or comment left runs off the text (`IndexError` at line 50) |
| ParamSplit.PastEndFails | prototype.py:49-100 | once the cursor and any cut are at or past `end`, the scan never leaves the inner loop and fails at line 50, 66, 69 or 83, whatever the text holds |
| ParamSplit.TrailingCommentOverruns | prototype.py:51-100 | a comment that closes the list after a parameter makes the scan step over `end` and fail (line 50, 66, 69 or 83); at line 50 when no `/` or `,` follows the range |
| ParamSplit.CommentRewound | prototype.py:37-66 | from the cursor rewound to such a comment the scan fails the same way |
| ParamSplit.CommentSkipped | prototype.py:62-100 | a comment before any parameter that closes the list makes the scan run past `end` and fail (line 50, 66, 69 or 83); at line 50 when no `/` or `,` follows the range |
| Scanners.BodyEndFrom | prototype.py:103-136 | a found end is a `}` at or after the start |
| Scanners.BodyEnd | prototype.py:103-136 | a found end is a `}` at or after the first body character |
| Scanners.FindEndOfBody | prototype.py:103-136 | the loop as written computes `BodyEnd` |
| Scanners.PlainBodyEnd | prototype.py:103-136 | on text without quotes, comments or escapes, the end found is the first `}` that balances the braces; when none balances, the scan fails the final assertion |
| Scanners.QuotedBracesIgnored | prototype.py:116-134 | braces inside a string literal do not count |
| Scanners.InQuoteRun | prototype.py:116-118 | inside a string the scan runs to the closing quote |
| Scanners.BlockCommentIgnored | prototype.py:126-129 | a block comment is skipped as a whole |
| Scanners.LineCommentIgnored | prototype.py:130-132 | a line comment is skipped to its line break |
| Scanners.BackslashSkips | prototype.py:113-115 | a backslash hides the next character |
| Scanners.TerminatorAfter | prototype.py:9 | `\s*([{;])` finds the offset of a `{` or `;` |
| Scanners.CommentTail | prototype.py:9 | the lazy comment group ends at `*/` followed by the terminator |
| Scanners.ProtoTail | prototype.py:9 | a match of `_end_of_proto_pat` starts at `)` and ends at a `{` or `;` |
| Scanners.Window | prototype.py:255 | `txt[i:i+200]` is a non-empty window of at most 200 characters of the text |
| Scanners.TailAccepted | prototype.py:255-256 | a match of the pattern in the window marks an accepted end of prototype |
| Scanners.ParenStep | prototype.py:243-275 | a step of the scan moves forward |
| Scanners.ParenStepAccepted | prototype.py:250-263 | a step that stops with a result stops at an accepted `)` |
| Scanners.ParenCloseAccepted | prototype.py:238-275 | any end the scan finds is an accepted `)` with its terminator |
| Scanners.AdjustStep | prototype.py:243-275 | the loop body computes `ParenStep` |
| Scanners.AdjustClose | prototype.py:250-263 | the `)` branch computes `ParenStep` |
| Scanners.AdjustSlash | prototype.py:266-272 | the comment branch computes `ParenStep` |
| Scanners.AdjustScan | prototype.py:238-275 | the scan as written computes `ParenClose` |
| Scanners.QuotedParensIgnored | prototype.py:244-274 | parentheses inside a string literal, with `\` escapes, are not counted: the scan goes on after the closing quote |
| Scanners.BlockCommentParensIgnored | prototype.py:266-272 | a `/* */` comment is passed over whole, parentheses and all |
| Scanners.LineCommentParensIgnored | prototype.py:266-269 | a `//` comment is passed over up to and including its newline |
| Scanners.PlainParenClose | prototype.py:238-275 | on text without quotes or comments, the scan succeeds and stops at the first `)` that closes the list and is followed by a prototype end; none is found exactly when there is no such `)` |
| Scanners.PlainCloseAgrees | prototype.py:238-275 | on such text the scan equals a plain depth count |
| Scanners.PlainCloseFirst | prototype.py:250-263 | the plain depth count finds the first accepting `)` or none |
| Prototypes.BodyOffsets | prototype.py:149-160 | without `{` there is no body; with one, the start is recorded; the end is the body end when found; an `IndexError` while looking leaves the end unset; any other failure propagates |
| Prototypes.MakePrototype | prototype.py:139-162 | the constructor succeeds exactly when the body offsets and the parameter split do; it keeps path, text, name, stripped return type and offsets, and is clean |
| Prototypes.MakePrototypeWellFormed | prototype.py:139-162 | a constructed prototype has its offsets in order, a body exactly when it ends in `{`, and its parameters parsed in order from the text |
| Prototypes.Consider | prototype.py:290-294 | a match that looks like a label or `else` gives nothing |
| Prototypes.ConsiderFound | prototype.py:290-294 | a prototype kept from a match is well formed, from that file and text, carries the match's name, and the match passed the filter |
| Prototypes.ConsiderMatch | prototype.py:290-294 | the loop body computes `Consider` |
| Prototypes.ProtosFrom | prototype.py:288-294 | at most one prototype per match |
| Prototypes.ProtosFromFound | prototype.py:288-294 | every prototype found came from a kept match of the file |
| Prototypes.Stem | prototype.py:280-282 | the name is cut before its first `(` |
| Prototypes.PrototypesInFile | prototype.py:277-300 | returns nothing when the name does not occur in the text; otherwise a list of prototypes or an error |
| Prototypes.ProtosFoundInFile | prototype.py:277-300 | every prototype in the list came from a kept match |
| Prototypes.FindPrototypesInFile | prototype.py:277-300 | the loop as written computes `PrototypesInFile` |
| Prototypes.IsInTests | prototype.py:171-172 | the path contains `test/` |
| Prototypes.IsInHeader | prototype.py:174-175 | the path ends in `.h` |
| Prototypes.IsInImpl | prototype.py:177-178 | the path ends in `.c` |
| Prototypes.JoinRendered | prototype.py:169 | `', '.join` of the printed parameters |
| Prototypes.Ideal | prototype.py:168-169 | `return_type name(params)`, with its exact length |
| Prototypes.HasConstCandidate | prototype.py:180-185 | true exactly when some parameter is a const candidate |
| Prototypes.TypesAgree | prototype.py:189-194 | true exactly when the types agree position by position |
| Prototypes.Matches | prototype.py:187-195 | true exactly when both have the same number of parameters with equal types |
| Prototypes.MatchesEquivalence | prototype.py:187-195 | `matches` is reflexive, symmetric and transitive |
| Prototypes.WordsFrom | prototype.py:213 | `[a-zA-Z0-9_]+` is the longest run of word characters |
| Prototypes.SpacesFrom | prototype.py:213 | `\s*` is the longest run of whitespace |
| Prototypes.BodyText | prototype.py:214 | the searched range is the body text |
| Prototypes.NamePatOfMeaning | prototype.py:213 | a word-character name reads as itself; exactly a leading `(*`, or word characters followed by `[]` under a `*` pivot, cannot be compiled; a class reading `w[d]` has `w` and `d` non-empty runs of word characters |
| Prototypes.ProveParamCantBeConst | prototype.py:197-224 | false without a body, an index in range, a name or a pivot; for a named pointer or reference parameter, `re.error` at line 213 exactly when the name cannot be compiled, else a `TypeError` at line 214 exactly when the body end is missing; true only when the body writes through the parameter as the name's pattern reads (member write, `*name` write for a pointer, or direct write for a reference) |
| Prototypes.ProveParamCantBeConstComplete | prototype.py:204-224 | for a named pointer or reference parameter of a function whose body end was found, an error exactly when the name cannot be compiled, and otherwise true exactly when the body writes through the parameter as the name's pattern reads |
| Prototypes.EmptySubscriptRaises | prototype.py:207-213 | `char * argv[]` raises `re.error` at line 213 |
| Prototypes.SubscriptIsClass | prototype.py:213 | `list[10]` reads as a class: ` list1->n = 0;` is a member write through `list[10]` |
| Prototypes.ProofNeedsName | prototype.py:204-221 | a proof of a write means the body contains the name's pattern after a non-word character; for a word-character name, the name itself |
| Prototypes.ComparisonIsNoWrite | prototype.py:213-221 | `name ==` is not a write (`=(?!=)`) |
| Prototypes.FirstProtoIsFirst | prototype.py:382-384 | the last fallback is the first prototype in map order |
| Prototypes.FunctionName | prototype.py:324-328 | none exactly when the map holds no prototype; otherwise the first prototype's name |
| Prototypes.NonTestPaths | prototype.py:330-333 | exactly the paths of the map without `test/` |
| Prototypes.DirtyPaths | prototype.py:340-348 | exactly the paths holding a dirty prototype |
| Prototypes.NoDirtyPaths | prototype.py:340-348 | no dirty prototype yields no path |
| Prototypes.FirstWithBody | prototype.py:362-366 | the first prototype with a body in a file's list, or none when none has one |
| Prototypes.FirstWithBodyFirst | prototype.py:362-366 | no earlier prototype has a body |
| Prototypes.Pick | prototype.py:359-368 | none exactly when nothing was seen; otherwise a prototype seen |
| Prototypes.PickInFile | prototype.py:362-366 | the inner loop returns the first prototype with a body, else remembers the last one as second best |
| Prototypes.PickIn | prototype.py:360-368 | the loop over one kind of file computes `Pick` of the prototypes of that kind |
| Prototypes.FindBest | prototype.py:350-384 | the search as written computes `Best` |
| Prototypes.BestFromMap | prototype.py:350-384 | none exactly when the map holds no prototype; otherwise one of its prototypes |
| Prototypes.BestPrefersImpl | prototype.py:359-368 | with non-test `.c` files, the first of their prototypes with a body wins; with no body, the last of them wins |
| Prototypes.BestThenHeader | prototype.py:369-384 | with no non-test `.c` prototype, a non-test header prototype is chosen the same way; with neither, the first prototype |
| Prototypes.CppIgnored | prototype.py:361-384 | a map of only `.cpp` files falls back to the first prototype |
| Callgraphs.FuncKey | callgraph.py:22-25 | a function name without a space fails the assertion at line 24; otherwise the last word of the name followed by `()` |
| Callgraphs.KeyErrorMeaning | callgraph.py:18-25 | the merge loop fails exactly when some parsed signature has no key |
| Callgraphs.MergeFoldKeys | callgraph.py:31-34 | after merging, a function has a key exactly when it had one or some parsed entry gives it |
| Callgraphs.MergeFoldLinks | callgraph.py:35-48 | after merging, a function's list holds exactly its old names and every name its parsed entries link to |
| Callgraphs.BuiltContents | callgraph.py:86-96 | the built and sorted maps have a key for exactly the parsed functions and in each list exactly the names its entries link to |
| Callgraphs.AppendNew | callgraph.py:35-48 | the old list is a prefix of the result, the result holds exactly the old names and the links, and no name twice if the old list had none |
| Callgraphs.AppendLinks | callgraph.py:36-41 | the loop as written computes `AppendNew` |
| Callgraphs.MergeKeeps | callgraph.py:31-48 | merging one function adds its key and keeps every list duplicate-free |
| Callgraphs.SortNames | callgraph.py:92-95 | `list.sort`: sorted and a permutation |
| Callgraphs.SortValues | callgraph.py:92-95 | every list of the map is sorted and a permutation of the old one; the keys are unchanged |
| Callgraphs.SortEach | callgraph.py:92-95 | the loop computes `SortValues` |
| Callgraphs.LexTotal | callgraph.py:93 | string order is total |
| Callgraphs.LexTrans | callgraph.py:93 | string order is transitive |
| Callgraphs.InsertSorted | callgraph.py:93 | inserting into a sorted list keeps it sorted |
| Callgraphs.NoDupPermutation | callgraph.py:92-95 | sorting keeps a list duplicate-free |
| Callgraphs.RemoveFirst | callgraph.py:111 | `list.remove` drops one element |
| Callgraphs.RemoveFirstNoDup | callgraph.py:111 | on a duplicate-free list it removes exactly that name |
| Callgraphs.DropCallee | callgraph.py:110-111 | a caller without a key fails with `KeyError`; a caller whose list lacks the name fails with `ValueError` |
| Callgraphs.DropKeeps | callgraph.py:110-111 | the keys of `by_caller` never change, nor do lists of functions that are not callers |
| Callgraphs.DropSucceeds | callgraph.py:110-111 | when every caller has a list that names the function, none fails and each loses that name |
| Callgraphs.DropAll | callgraph.py:110-111 | the loop of `remove` over the callers computes `DropCallee` |
| Callgraphs.DetachLinked | callgraph.py:107-111 | on a graph whose two maps agree, removing a function from both maps cannot fail, deletes its key from both and its name from every list and nothing else, and the maps still agree |
| Callgraphs.DropSelfLinked | callgraph.py:114-127 | on such a graph, dropping each self-caller from its own lists removes exactly the self-edges: no function calls itself, every other edge stays, and the maps still agree |
| Callgraphs.BreakLoops | callgraph.py:119-127 | the intended loop fails exactly when a self-caller is missing from its own caller list, and otherwise drops every self-edge and records each self-caller once |
| Callgraphs.DropMissingCaller | callgraph.py:110-111 | a caller missing from `by_caller` makes the removal fail |
| Callgraphs.KeysWithEmptyList | callgraph.py:97-106 | exactly the keys whose list is empty, each once |
| Callgraphs.Callgraph.constructor | callgraph.py:86-88 | both maps start empty |
| Callgraphs.Callgraph.Merge | callgraph.py:21-48 | a bad name fails with nothing changed; otherwise both maps are extended for the function's key, keys stay in both maps together and lists stay duplicate-free |
| Callgraphs.Callgraph.MergeAll | callgraph.py:18-48 | the loop fails with the first bad signature's error; both maps become the merge fold of the parsed entries, with equal keys and lists without repeats |
| Callgraphs.Callgraph.SortAll | callgraph.py:92-95 | both maps become `SortValues` of the old ones, keys unchanged |
| Callgraphs.Callgraph.Build | callgraph.py:86-96 | a bad signature fails first; otherwise the build fails exactly when some function calls itself; a successful build holds the sorted merge folds of the parsed entries, is key-consistent, duplicate-free and sorted, has `recursive` empty and no function calling itself |
| Callgraphs.Callgraph.RemoveFully | callgraph.py:107-111 | `remove` deleting from both maps: a name missing from either map fails at line 108; otherwise it fails exactly when a list lacks the name, and on success the maps are those of `Detached` |
| Callgraphs.Callgraph.Remove | callgraph.py:107-111 | a name missing from `by_callee` fails with `KeyError` at line 108 with nothing changed; otherwise the name leaves `by_callee` and each caller's list, while `by_caller` keeps all its keys |
| Callgraphs.Callgraph.LeavesBuilt | callgraph.py:102-106 | exactly the functions that call nothing, each once |
| Callgraphs.Callgraph.OrphansBuilt | callgraph.py:97-101 | exactly the functions nothing calls, each once |
| Callgraphs.Callgraph.IsEmpty | callgraph.py:112-113 | true exactly when both maps are empty |
| Callgraphs.Callgraph.BreakSimpleRecursion | callgraph.py:114-127 | the maps are untouched; it fails with `TypeError` at line 123 exactly when some function calls itself, else `recursive` becomes empty |
| Callgraphs.Callgraph.DropSelfCalls | callgraph.py:114-127 | with `recursive.append(func)`: it succeeds exactly when every self-caller is in its own caller list; then both maps lose exactly the self-edges and `recursive` lists each self-caller once |
| SafeChange.BackupName | safechange.py:22-24 | a hidden name fails the assertion at line 23; otherwise `.name.bak` |
| SafeChange.NameOfBackup | safechange.py:26-28 | a name that is not hidden fails the assertion at line 27 |
| SafeChange.BackupNameRoundTrip | safechange.py:22-28 | for a name that is not hidden and has no `.bak`, the backup name maps back to the name |
| SafeChange.NameOfBackupSuffix | safechange.py:26-28 | the intended inverse: a name that is not hidden fails the assertion at line 27; otherwise the leading `.` and one trailing `.bak` go |
| SafeChange.BackupNameSuffixRoundTrip | safechange.py:22-28 | with the suffix-only inverse, every name that is not hidden comes back from its backup name, `.bak` inside it or not |
| SafeChange.BackupNameLosesInnerBak | safechange.py:26-28 | `a.bak.c` maps back to `a.c`: every `.bak` is removed |
| SafeChange.Folder | safechange.py:31 | `os.path.split`'s folder: a prefix ending in `/`, or empty |
| SafeChange.FileName | safechange.py:31 | folder and file name make up the path, and the name has no `/` |
| SafeChange.Sibling | safechange.py:32 | `os.path.join(folder, name)` |
| SafeChange.SiblingParts | safechange.py:31-32 | a sibling has the same folder and the given name |
| SafeChange.Copy | safechange.py:30-38 | a missing source fails with `IOError` at line 33; otherwise the target gets the source's text and nothing else changes |
| SafeChange.ShadowOf | safechange.py:44-45 | the backup path fails for a hidden file, else lies in the same folder under another name |
| SafeChange.ShadowInjective | safechange.py:44-45 | two paths with the same backup path are the same path |
| SafeChange.BackedUpIs | safechange.py:40-41 | a successful backup is of a visible existing file, to a different path, which gets the file's text |
| SafeChange.BackupEffect | safechange.py:40-41 | backing up copies the file to its backup path and changes nothing else |
| SafeChange.RestoreTargetIsFile | safechange.py:43-46 | for a name without `.bak`, restoring writes back to the original path |
| SafeChange.RestoreEffect | safechange.py:43-46 | restoring copies the backup to the original path and changes nothing else |
| SafeChange.BackupWriteRestore | safechange.py:40-46 | backing up, overwriting the file and restoring gives the state just after the backup |
| SafeChange.RestoreGoesElsewhere | safechange.py:43-46 | a file named `a.bak.c` is restored to `a.c`, not to itself |
| SafeChange.Disk.constructor | safechange.py:30-38 | the store starts with the given files |
| SafeChange.Disk.CopyFile | safechange.py:30-38 | the store becomes `Copy` of the old one, or is unchanged on error |
| SafeChange.Disk.BackupFile | safechange.py:40-41 | the store becomes the backed-up store, or is unchanged on error |
| SafeChange.Disk.RestoreFile | safechange.py:43-46 | the store becomes the restored store, or is unchanged on error |
| SafeChange.RetypedMapEffect | safechange.py:16-20 | the rollback sets the type of parameter `idx` and the dirty flag of every prototype and changes nothing else |
| SafeChange.RetypeFile | safechange.py:18-20 | a prototype with too few parameters fails with `IndexError`; otherwise each prototype of the file is retyped |
| SafeChange.RetypeAll | safechange.py:16-20 | fails exactly when some prototype is too short; otherwise computes `RetypedMap` |
| SafeChange.NewConstRollback | safechange.py:12-15 | the rollback captures the parameter's type after `set_const` and its index; `is_const` and the declaration are unchanged |
| SafeChange.ConstRollbackCapturesTrial | safechange.py:12-15 | on a trial parameter given `const`, the rollback keeps the trial unchanged and captures the `const` type |
| SafeChange.TrialWithRollback | const_fix.py:258-278 | the intended rollback: the trial is the parameter with `const` set, and the rollback captures the type from before the trial |
| SafeChange.RollbackAfterTrial | safechange.py:12-20 | after a trial on prototypes that all had the parameter's type, the intended rollback gives back every prototype as it was, with dirty cleared; the rollback as written leaves the trial's type |
| SafeChange.ApplyConstRollback | safechange.py:16-20 | applying the rollback fails with `IndexError` at line 19 on a short prototype, else writes the captured type with dirty cleared |
| SafeChange.NamesClearedEffect | safechange.py:3-9 | clearing names resets every parameter's new name and every dirty flag, and keeps paths and list lengths |
| SafeChange.ParamNameRollback | safechange.py:3-9 | the loops as written clear every entry |
| Outcomes.TabName | const_fix.py:368-369 | `()` is appended unless already there |
| Outcomes.TabNameIdempotent | const_fix.py:368-369 | adding `()` twice is adding it once |
| Outcomes.Record | const_fix.py:374 | the `name\ttags\n` line, with its length and the tab and newline in place |
| Outcomes.AppendedEffect | const_fix.py:373-374 | appending adds the text to the end of the log and changes no other file |
| Outcomes.WrittenTwice | const_fix.py:343-346 | appending two texts is appending their concatenation |
| Outcomes.Tabulate | const_fix.py:367-374 | the log gets one record for the name with `()` |
| Outcomes.LineLength | const_fix.py:380 | `readlines` cuts after each newline |
| Outcomes.NamesOf | const_fix.py:381 | at most one name per line |
| Outcomes.LinesAppend | const_fix.py:380 | lines of a log made of complete lines followed by more text are the old lines followed by the new |
| Outcomes.NamesOfAppend | const_fix.py:381 | names of appended lines are appended |
| Outcomes.RecordReadBack | const_fix.py:374-381 | a record is read back as one line with the recorded name |
| Outcomes.TabulateThenLoad | const_fix.py:367-383 | after `tabulate`, `load_previous_results` returns the old names followed by the new one, and the log still ends in a complete line |
| ConstFix.ClassifyMeaning | const_fix.py:300-308 | `CONST_MATTERS` exactly when some parameter has a `*` or `&` and neither `const` nor `void`; `OBNOXIOUS_CONST` exactly when none does and some has `const`; `CONST_IRRELEVANT` for no parameters |
| ConstFix.ClassifyFromMeaning | const_fix.py:302-307 | the loop with a given starting class, stated without the loop |
| ConstFix.ClassifyOrderFree | const_fix.py:300-308 | the class does not depend on the order of the parameters |
| ConstFix.Pluralize | const_fix.py:189-192 | the noun, with `s` unless the count is 1 |
| ConstFix.NatToString | const_fix.py:288 | `str(n)` is a non-empty string of digits |
| ConstFix.NatToStringValue | const_fix.py:288 | the digits read back as `n` |
| ConstFix.Edits | const_fix.py:172-177 | one edit per parameter, replacing its declaration by its printed form |
| ConstFix.AppliedIdentity | const_fix.py:168-185 | ordered edits that each put back the text they replace leave the text unchanged |
| ConstFix.AppliedOne | const_fix.py:168-185 | when every edit but one puts back its text, the result is the text with that one edit |
| ConstFix.SplicedIdentity | const_fix.py:163-187 | rewriting parameters that print as they were read leaves the file unchanged |
| ConstFix.SplicedOne | const_fix.py:163-187 | rewriting where only parameter `j` prints differently changes exactly its declaration |
| ConstFix.SpliceParams | const_fix.py:172-177 | the inner loop emits the text up to each parameter followed by its printed form |
| ConstFix.SpliceFile | const_fix.py:168-185 | the splice of one file as written computes `Spliced` |
| ConstFix.RewritePrototypes | const_fix.py:163-187 | backs up and rewrites every dirty file; the store and error are those of `Rewritten` |
| ConstFix.RewrittenEffect | const_fix.py:163-187 | when the files of the map are distinct and the rewrite succeeds, each dirty file's backup holds its old text, the file holds its spliced text, every other file is unchanged, and only backups are new |
| ConstFix.Checks | const_fix.py:195 | the compile always runs; the tests run exactly when it succeeds |
| ConstFix.RestoreAll | const_fix.py:197-198 | restores every dirty file; the store and error are those of `RestoredAll` |
| ConstFix.RestoredAllEffect | const_fix.py:197-198 | restoring visible files without `.bak` in their names whose backups exist succeeds, gives each its backup's text and changes no other file |
| ConstFix.RejectedTryRestores | const_fix.py:163-198 | after a successful rewrite of distinct files without `.bak` in their names, restoring the dirty files succeeds and gives each its text from before the rewrite; other files are unchanged and only backups remain new |
| ConstFix.UndoneIsClean | safechange.py:3-20 | after either rollback no prototype is dirty |
| ConstFix.UndoChange | const_fix.py:199 | the undo callable computes `Undone` |
| ConstFix.ProveSafeChange | const_fix.py:194-206 | on a clean first verdict nothing changes and the change is kept; otherwise the dirty files are restored, the undo is applied and the checks rerun; a clean second verdict rejects the change, else `sys.exit(1)` |
| ConstFix.Lower | const_fix.py:209 | `lower` maps each character |
| ConstFix.LowerIdempotent | const_fix.py:209 | lowering twice is lowering once |
| ConstFix.CheckConsistent | const_fix.py:219-226 | true exactly when every prototype matches the chosen one |
| ConstFix.DecideTries | const_fix.py:253-260 | a parameter is tried exactly when it is a candidate, has no `const` and no write was proved; the trial differs only in its type and still reads as non-const |
| ConstFix.StripStays | const_fix.py:261-268 | a parameter is reported as unneeded `const` exactly when it has `const` and is no candidate; its declaration keeps `const` and `is_const` still reports it, so `set_const(True)` leaves it alone, while its type in memory has lost the word |
| ConstFix.DecideFails | const_fix.py:253-255 | the decision fails exactly when the write search fails |
| ConstFix.ReplaceProto | const_fix.py:251-268 | replacing a prototype changes that one in every list and nothing else |
| ConstFix.RewrittenFails | safechange.py:22-41 | `rewrite_prototypes` fails only on a hidden file name (line 23) or a missing file (line 33) |
| ConstFix.RestoredAllFails | safechange.py:22-46 | restoring fails only on a hidden file name (line 23 or 27) or a missing file (line 33) |
| ConstFix.TryOutcome | const_fix.py:271-285 | when the rewrite and restore errors are file errors, a try ends in `sys.exit` only as `sys.exit(1)` after an unclean first verdict and an unclean re-check |
| ConstFix.Tried | const_fix.py:271-285 | a try ends in `sys.exit` only as `sys.exit(1)` after an unclean first verdict and an unclean re-check |
| ConstFix.TriedImpl | const_fix.py:278-284 | a kept try goes on with the reloaded map and its best prototype; a rejected one keeps the arity; a try is kept exactly when its first verdict is clean |
| ConstFix.TryConst | const_fix.py:271-285 | equals `Tried` on the store before it. Spelled out: a prototype too short for the index fails at line 275 with the store unchanged; a rewrite error is returned with the store as `Rewritten` left it. After a clean rewrite, a clean first verdict keeps the change with the reloaded map and its best prototype, or fails at line 250 when the reload has none. An unclean first verdict restores the dirty files: a restore error is returned; otherwise a clean re-check rejects the change with the map and prototype retyped to the trial type and nothing dirty, and an unclean one is `sys.exit(1)`. A rejected try puts the dirty files' text back |
| ConstFix.VisitParam | const_fix.py:251-286 | equals `Visited` on the store before it. A failed decision fails with nothing changed; a kept parameter leaves everything as it was; an unneeded `const` adds its note and changes only that parameter in the map and the implementation; a try is kept exactly when its first verdict is clean, then goes on with the reloaded map and its best prototype; a rejected try goes on with the trial type set in every prototype and nothing dirty; the store is rewritten when kept and restored when rejected |
| ConstFix.Visited | const_fix.py:251-286 | a visit ends in `sys.exit` only after an unclean re-check of its try |
| ConstFix.VisitedStep | const_fix.py:251-286 | a successful visit takes the step `Decide` takes, adds that step's note, tries exactly on a try step, keeps a try exactly when its first verdict is clean, and keeps the arity |
| ConstFix.VisitedArity | const_fix.py:279-284 | a visit keeps the number of parameters when reloading keeps it |
| ConstFix.FixParams | const_fix.py:248-286 | the result, the attempts and the store are those of `LoopFrom` from the first parameter, so the implementation and the prototypes each visit goes on with are the ones its visit left, and the loop fails exactly at the first visit that fails, with that visit's error. On success every parameter is visited once in order; a try is made exactly at the indexes where `Decide` on the implementation of that moment says so; the change count is the number of kept tries, each kept exactly when its first verdict was clean; the notes are those of the steps in order |
| ConstFix.FixStep | const_fix.py:251-286 | one turn of the loop: a failed visit makes the loop from this index fail with that error, the attempts so far and the store it leaves; a successful one leaves the arity as it was, and the loop from this index is the loop from the next one on the values and store it leaves |
| ConstFix.Run | const_fix.py:248-286 | for any visit, the attempts only grow, by at most one per parameter left, and a finished loop never lowers the change count |
| ConstFix.LoopFrom | const_fix.py:248-286 | the same bounds for the visits of `fix_func`, up to the arity the loop starts with |
| ConstFix.VisitAtVisits | const_fix.py:251-286 | the visits of `fix_func` take `Decide`'s step, add its note, try exactly on a try step, keep a try exactly when its first verdict is clean, keep the arity and exit only after an unclean re-check |
| ConstFix.RunAttempts | const_fix.py:248-286 | however the loop ends it makes at most one attempt per parameter, each kept exactly when its first verdict was clean, and a finished loop keeps the arity |
| ConstFix.RunHistory | const_fix.py:248-286 | a finished loop has visited every parameter in order, each on the implementation left by the visit before, with the loop state (tried indexes, kept count, notes) of those steps |
| ConstFix.RunExits | const_fix.py:194-206 | the loop ends in `sys.exit` only when some re-check is not clean |
| ConstFix.LoopFromMeaning | const_fix.py:248-286 | from the first parameter: at most one attempt per parameter, each kept exactly when its first verdict was clean; on success every parameter is visited once in order, a try exactly at the try steps, the kept tries counted and the notes in order |
| ConstFix.LoopFromExits | const_fix.py:194-206 | the loop ends in `sys.exit` only when some re-check is not clean |
| ConstFix.TryIndexesMeaning | const_fix.py:249-286 | the tried indexes are exactly those whose step is a try, in rising order |
| ConstFix.ChangeTags | const_fix.py:287-290 | the tags are the notes and the change count, followed by `--> ideal` when there were changes |
| ConstFix.FixFunc | const_fix.py:208-293 | equals `FuncFixed` on the store before it. `printf` functions are skipped, no prototype fails with `AttributeError` at line 242, and inconsistent prototypes, no body and no candidate each give their tag with nothing changed. Every result starts with the incoming tags. The main branch returns the tags followed by `ChangeTags` of the parameter loop |
| ConstFix.FuncFixed | const_fix.py:208-293 | every successful result starts with the incoming tags |
| ConstFix.FuncFixedExits | const_fix.py:194-206 | `fix_func` ends in `sys.exit` only when some re-check is not clean |
| Passes.Select | const_fix.py:336-340 | exactly the keys that pass the filter, each once |
| Passes.RemoveAll | const_fix.py:362-364 | `remove` of each function in turn; on success they have left `by_callee`; a name not in it fails |
| Passes.TabulateClasses | const_fix.py:355-360 | the log gets one record per pruned function with its class label |
| Passes.Prune | const_fix.py:352-365 | exactly the functions whose class is not `CONST_MATTERS` are logged and removed, and the count is their number |
| Passes.CutOne | const_fix.py:346-347 | logs the function as `CONST_IRRELEVANT` and removes it |
| Passes.CutAll | const_fix.py:342-348 | on success every cut function has left `by_callee` and the log holds one record per function |
| Passes.CutNoise | const_fix.py:326-350 | removes the logged functions and then exactly the `CONST_IRRELEVANT` ones; fails if a logged function is gone or is cut again; the count is both numbers together |
| Passes.Tagged | const_fix.py:433-445 | only a `sys.exit` escapes, and only when some re-check is not clean |
| Passes.Process | const_fix.py:422-450 | equals `Tagged` on the store before it. The orphan tag comes first. `OBNOXIOUS_CONST` and `CONST_IRRELEVANT` functions get their tag with nothing changed, and a function above `start_count` is skipped. A `printf` function gets `SKIPPED`. Inconsistent prototypes, no body and no candidate give their tag. A missing prototype gives `EXCEPTION `. In the main branch, the loop's `ChangeTags` follow the orphan tag; a `sys.exit` of the loop escapes; any other error of it gives `EXCEPTION `. With every re-check clean nothing escapes |
| Passes.Handle | const_fix.py:424-452 | a `sys.exit` out of processing is returned with the store as processing left it; otherwise the log gets the record of the tags `Tagged` gives, appended to that store; a function missing from `by_callee` then fails at line 108; on success it was a key of `by_callee` and no longer is |
| Passes.RunPass | const_fix.py:421-455 | the leaves handled are a prefix of the list; on success each was a key of `by_callee` and is removed from it, the count drops by their number, and either all leaves were handled or the count reached `end_count`; `by_caller` keeps its keys |
| Passes.PassLoop | const_fix.py:402-456 | the loop ends without error exactly when `by_caller` starts empty |
| Passes.RemoveAllFully | const_fix.py:362-364 | with removal from both maps, removing distinct functions of a graph whose maps agree never fails, deletes exactly their keys and keeps the maps in agreement |
| Passes.PruneFully | const_fix.py:352-365 | with that removal, exactly the functions whose class is not `CONST_MATTERS` are logged with their class and leave both maps |
| Passes.HandleFully | const_fix.py:424-452 | with that removal, only a `sys.exit` out of processing fails a leaf, with the graph unchanged and the store as processing left it, and never when every re-check is clean; otherwise the record of the tags `Tagged` gives is appended to that store and the function leaves both maps |
| Passes.RunPassFully | const_fix.py:421-455 | with that removal, the leaves handled leave both maps, only `sys.exit` fails the pass, never when every re-check is clean, and a pass over any leaf handles at least one |
| Passes.PassLoopFully | const_fix.py:398-456 | with that removal, the pass loop ends on every graph whose maps agree; it ends with an error only on `sys.exit`, never when every re-check is clean, and otherwise with both maps empty |
| Passes.FixPrototypes | const_fix.py:385-456 | the run ends without error exactly when the call graph has no functions and the log names none |

## Left out

- File reading and writing are modelled as a map from path to text. Open
  handles, permissions and the `os.path.isfile` test before deleting a
  backup are not modelled; the last one does not change the result.
- The compile and test commands (`compile_is_clean`, `tests_pass`, `run`,
  const_fix.py:100-161) are external. Their verdicts are the parameters
  `Verdict` and `Oracle`. `verify_clean` and `verify_makefile`
  (const_fix.py:310-324) run only these checks and are left out.
- Console output and the crash e-mail (`report_crash`) are not modelled.
- Regular expressions are modelled either as predicates or as inputs:
  - The patterns the core decides with are written out as predicates in
    Dafny: `_end_of_proto_pat`, `moab_type_pat`, `moab_common_out_pat`
    and `const_prefix_pat`.
  - The write patterns of `prove_param_cant_be_const` are written out
    as predicates over the name's pattern (`NamePat`): a word-character
    name, a `w[d]` class suffix, or a name that cannot be compiled. Other
    names are matched as literal text; see the next two lines.
- Prototypes.ProveParamCantBeConst: a name with other regular-expression
  metacharacters is matched as literal text. The source compiles it as a
  pattern, which may match other text or raise. For instance `a[N-1]`
  reads as a class, and `char & argv[]` compiles at line 213 but raises
  `re.error` at line 221 when the first search finds nothing; the model
  answers instead of giving that `EXCEPTION ` tag.
- ProveParamCantBeConstComplete: its "exactly when" holds for the name
  patterns above; for names with other metacharacters it is about the
  literal name, not about what the source's pattern would match.
  - The matches of `_prototype_pat_template` are an input list of
    `Candidate`s.
  - The re-match at prototype.py:257-263 is taken to give the groups the
    scan found; its assertion at line 262 is not modelled.
  - The mock patterns for test files (prototype.py:10-19, 295-299) are
    not modelled.
  - The documentation patterns of callgraph.py:6-9 are not modelled
    either: the parsed entries (`Parsed`) are an input.
- `find_prototypes_in_codebase` (prototype.py:302-321) walks the
  directory tree with `os.walk`.
  - The model takes the map it builds as an input.
  - Its `files` branch (line 306) uses an unbound `fpath` and calls
    `find_prototypes_in_file` with one argument. So that branch can only
    raise.
- Dictionary order: Python 2 dicts have no order the program relies on.
  - The call-graph maps are Dafny maps, and loops over them pick keys in
    any order.
  - A `PrototypeMap` is a sequence of (path, prototypes) entries in the
    order the map is walked.
  - Passes.Prune, Passes.CutNoise: the order of the log records follows
    the order of the key list the loop chose, which is not fixed.
- Callgraph loading: `Callgraph.__init__` (callgraph.py:74-75) never calls
  `load`.
  - `_build_call_graphs` uses the unbound names `analyze`, `folder`,
    `by_caller` and `by_callee`.
  - `get_leaves` and `get_orphans` return `None`, and `cg.get_params` is
    not defined anywhere.
  - The model builds the graph as `load` evidently intends
    (`Callgraphs.Callgraph.Build`). `LeavesBuilt` and `OrphansBuilt`
    return the lists the two queries build. The parameter texts are the
    input `ParamsOf`.
  - The doxygen date check and run (callgraph.py:52-85) are left out.
- `Param.propose_name` (param.py:66-94) and the `if False and
  improve_param_names(...)` branch (const_fix.py:233-240) are never
  reached, and are left out.
- Prototype: the fields `indent` and `original` (prototype.py:143-148,
  158) are only printed, and are left out.
- The parameter renaming in `rewrite_prototypes` (const_fix.py:173-174,
  178-184) needs a non-empty `new_name`. Nothing in the core sets one, so
  the model rewrites parameter declarations only.
- Exceptions inside `fix_func` are values: an exception other than
  `sys.exit` is caught (const_fix.py:442-444) and tagged `EXCEPTION`. The
  model's `FixFunc` returns such errors as `Err` values, and `Process`
  turns them into that tag. Interrupts (`KeyboardInterrupt`) are not
  modelled.
- ConstFix.TryConst, Passes.FixPrototypes: the reload oracle is required
  to find an implementation with the same number of parameters after a
  change (`ArityKept`, `Coherent`). A change that only adds `const`
  cannot change the arity, but the model cannot see the source tree to
  prove it.
- The `tabulate` branch for non-string tags (const_fix.py:370-372) is
  never taken, since every caller passes a string.
- check_log_messages.py is not part of this model.
- TryConst, VisitParam, RejectedTryRestores: that a rejected try puts
  every dirty file back is stated only when the files of the map are
  distinct and no file name contains `.bak`. For other names the backup is
  restored to another path (`SafeChange.RestoreGoesElsewhere`).
- RunPass: the log after a whole pass is not stated; each leaf's record
  is stated by `Passes.Handle`, and `fix_func`'s own writes sit between
  the records.
- HandleFully: states the keys left after the removal; which edges go is
  stated by `Callgraphs.DetachLinked` and `Callgraphs.Callgraph.RemoveFully`.
- PassLoopFully, RunPassFully, PruneFully: these need the two maps to
  agree (`Callgraphs.Linked`), which the documentation pages do not ensure.
  `cut_noise` with the corrected removal is not modelled.

## Findings

Each row names a member that models the code as written and the
corrected member beside it, with the intended property proved. The rest
of the model follows the code as written.

| source | as written | input that shows it | evidently intended | confidence | as-written member | corrected member |
|---|---|---|---|---|---|---|
| safechange.py:26-28 | `fname[1:].replace('.bak', '')` removes every `.bak` | the file `a.bak.c`: its backup `.a.bak.c.bak` maps back to `a.c` | strip only the leading `.` and the trailing `.bak`, so every visible name comes back (`SafeChange.BackupNameSuffixRoundTrip`) | not executed; proved on the model | SafeChange.BackupNameLosesInnerBak | SafeChange.NameOfBackupSuffix |
| callgraph.py:107-111 | `remove` deletes the function from `by_callee` only | any graph with a function: its key stays in `by_caller`, `is_empty` stays false, and a later pass removes it again and raises `KeyError` at line 108 | delete the function from both maps, so that `while not cg.is_empty()` (const_fix.py:404) ends (`Passes.PassLoopFully`) | not executed; proved on the model | Passes.PassLoop | Callgraphs.Callgraph.RemoveFully |
| callgraph.py:123 | `recursive.append[func]` subscripts the method | any function that calls itself raises `TypeError` | `recursive.append(func)`, then drop the self-edge from both lists, as the docstring says (`Callgraphs.DropSelfLinked`) | not executed; proved on the model | Callgraphs.Callgraph.BreakSimpleRecursion | Callgraphs.Callgraph.DropSelfCalls |
| safechange.py:12-15 | `const_rollback` captures the type after `set_const`, which is the trial's `const` type | a rejected try on `char * buf`: the prototypes keep the `const` type in memory | capture the type from before the trial, so the rollback puts it back (`SafeChange.RollbackAfterTrial`) | not executed; proved on the model | SafeChange.ConstRollbackCapturesTrial | SafeChange.TrialWithRollback |
