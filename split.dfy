/** `_split_params` (prototype.py:26-101): the cursor scan that cuts the
    text of a parameter list into `Param`s. */
module ParamSplit {
  import opened Wrappers
  import opened Text
  import opened Params

  /** The local `begin`: not yet assigned (it is first assigned inside the
      loop), `None`, or the offset where the current fragment starts. */
  datatype Begin = Unbound | Unset | At(pos: nat)

  /** Python's truth value of `begin` and of `cut_position`: offset 0 is
      false. */
  predicate BeginTruthy(b: Begin) { b.At? && b.pos != 0 }

  predicate CutTruthy(c: Option<nat>) { c.Some? && c.value != 0 }

  /** A character that may start a fragment: a letter, `_`, or the `(` of
      a function-pointer type. */
  predicate StartChar(c: char) { IsAlpha(c) || c == '_' || c == '(' }

  /** Where the scan is: at the head of the outer loop (line 37), in the
      whitespace skip (line 41), or in the `while True` loop (line 49). */
  datatype Phase = Top | Skip | Inner

  function Rank(ph: Phase): nat {
    match ph
    case Top => 2
    case Skip => 1
    case Inner => 0
  }

  /** A fragment `txt[from:to]` as cut off, before it is right-stripped
      and parsed. */
  datatype Span = Span(from: nat, to: nat)

  /** The local variables of the scan, with the parameters found so far
      kept as the spans they were cut from. `floor` is bookkeeping only:
      the lowest offset the cursor can still be rewound to. */
  datatype SplitState = SplitState(
    phase: Phase,
    i: nat,
    paren: int,
    begin: Begin,
    cut: Option<nat>,
    spans: seq<Span>,
    floor: nat)

  datatype SplitStep = Done(result: Result<seq<Span>>) | Next(st: SplitState)

  /** The relations between the cursor, `begin` and `cut_position` that
      the scan keeps. */
  predicate Valid(txt: string, st: SplitState) {
    && st.floor <= st.i <= |txt|
    && (st.phase == Inner ==> st.begin != Unbound)
    && (st.phase == Inner && st.begin.At? ==> st.floor <= st.begin.pos < st.i)
    && (st.phase == Inner && st.cut.Some? ==> st.begin.At? && st.begin.pos < st.cut.value < st.i)
  }

  /** The next state is further on: the rewind floor rose, or it stayed
      and the cursor moved forward, or the cursor stayed and the scan went
      one loop deeper. At most one fragment was cut off. */
  predicate Progress(st: SplitState, st': SplitState) {
    && (|| st'.floor > st.floor
        || (st'.floor == st.floor && st'.i > st.i)
        || (st'.floor == st.floor && st'.i == st.i && Rank(st'.phase) < Rank(st.phase)))
    && (st'.spans == st.spans || (|st'.spans| == |st.spans| + 1 && st'.spans == st.spans + [st'.spans[|st.spans|]]))
  }

  /** The fragment of a span as a `Param`: `Param(begin, txt[begin:j].rstrip())`
      (lines 86-87 and 98-99). */
  function Cut(txt: string, sp: Span): Param {
    ParseDecl(sp.from, RStrip(Slice(txt, sp.from, sp.to)))
  }

  function Cuts(txt: string, spans: seq<Span>): (ps: seq<Param>)
    ensures |ps| == |spans|
  {
    if spans == [] then [] else Cuts(txt, spans[..|spans| - 1]) + [Cut(txt, spans[|spans| - 1])]
  }

  /** Lines 93-100, with `i` already incremented: at the end of the range a
      started fragment is cut off, at `cut_position` if one was seen, and
      the inner loop is left. */
  function AfterChar(txt: string, end: nat, st: SplitState): (s: SplitStep)
    requires st.phase == Inner && Valid(txt, st)
    ensures s.Next? && Valid(txt, s.st) && s.st.floor >= st.floor && s.st.phase != Skip
    ensures s.st.floor == st.floor ==> s.st.i == st.i
    ensures s.st.spans == st.spans || (|s.st.spans| == |st.spans| + 1 && s.st.spans == st.spans + [s.st.spans[|st.spans|]])
  {
    if st.i == end && BeginTruthy(st.begin) then
      var j := if CutTruthy(st.cut) then st.cut.value else st.i;
      Next(st.(phase := Top, i := j, spans := st.spans + [Span(st.begin.pos, j)],
               floor := if CutTruthy(st.cut) then st.cut.value else st.floor))
    else Next(st)
  }

  /** One pass of the `while True` body (lines 50-100). */
  function InnerStep(txt: string, end: nat, st: SplitState): (s: SplitStep)
    requires st.phase == Inner && Valid(txt, st)
    ensures s.Next? ==> Valid(txt, s.st) && Progress(st, s.st) && s.st.phase != Skip
    ensures s.Done? ==> s.result.Err?
  {
    if st.i >= |txt| then Done(Err(IndexOutOfRange(50)))
    else if txt[st.i] == '/' then SlashStep(txt, end, st)
    else if txt[st.i] == ',' && st.paren == 0 then CommaStep(txt, end, st)
    else PlainStep(txt, end, st)
  }

  /** A `/`: a comment before the fragment is skipped whole, one after its
      start marks where the fragment ends (lines 51-74). */
  function SlashStep(txt: string, end: nat, st: SplitState): (s: SplitStep)
    requires st.phase == Inner && Valid(txt, st) && st.i < |txt|
    ensures s.Next? ==> Valid(txt, s.st) && Progress(st, s.st) && s.st.phase != Skip
  {
    var i := st.i;
    if st.begin.Unset? then
      var r := SkipComment(txt, i);
      if r.Err? then Done(Err(r.error)) else AfterChar(txt, end, st.(i := r.value))
    else AfterChar(txt, end, st.(i := i + 1, cut := if st.cut.None? then Some(i) else st.cut))
  }

  /** Where the cursor goes from a `/` met before a fragment starts: past
      the end of a block comment or the newline of a line comment, or one
      character on when the `/` starts neither (lines 55-72). A comment that
      is not closed fails the assertion after the search. */
  function SkipComment(txt: string, i: nat): (r: Result<nat>)
    requires i < |txt|
    ensures r.Ok? ==> i < r.value <= |txt|
    ensures r.Err? ==> r.error == AssertionFailed(66) || r.error == AssertionFailed(69)
    ensures OccursAt(txt, "/*", i) ==> r == SkipBlockComment(txt, i)
    ensures !OccursAt(txt, "/*", i) && OccursAt(txt, "//", i) ==> r == SkipLineComment(txt, i)
    ensures !OccursAt(txt, "/*", i) && !OccursAt(txt, "//", i) ==> r == Ok(i + 1)
  {
    if OccursAt(txt, "/*", i) then SkipBlockComment(txt, i)
    else if OccursAt(txt, "//", i) then SkipLineComment(txt, i)
    else Ok(i + 1)
  }

  /** From a `/*` at `i`: just past the first `*/` that starts at or after
      `i + 2`, or the assertion of line 66 when there is none. */
  function SkipBlockComment(txt: string, i: nat): (r: Result<nat>)
    requires i + 2 <= |txt|
    ensures r.Err? <==> forall k :: i + 2 <= k ==> !OccursAt(txt, "*/", k)
    ensures r.Err? ==> r.error == AssertionFailed(66)
    ensures r.Ok? ==> && i + 4 <= r.value <= |txt| && OccursAt(txt, "*/", r.value - 2)
                      && forall k :: i + 2 <= k < r.value - 2 ==> !OccursAt(txt, "*/", k)
  {
    var f := FindFrom(txt, "*/", i + 2);
    if f + 1 <= 0 then Err(AssertionFailed(66))
    else
      assert OccursAt(txt, "*/", f);
      Ok(f + 2)
  }

  /** From a `//` at `i`: just past the first newline at or after `i + 2`,
      or the assertion of line 69 when there is none. */
  function SkipLineComment(txt: string, i: nat): (r: Result<nat>)
    requires i + 2 <= |txt|
    ensures r.Err? <==> forall k :: i + 2 <= k < |txt| ==> txt[k] != '\n'
    ensures r.Err? ==> r.error == AssertionFailed(69)
    ensures r.Ok? ==> && i + 3 <= r.value <= |txt| && txt[r.value - 1] == '\n'
                      && forall k :: i + 2 <= k < r.value - 1 ==> txt[k] != '\n'
  {
    var j := FindFrom(txt, "\n", i + 2);
    assert forall k :: i + 2 <= k < |txt| ==> (OccursAt(txt, "\n", k) <==> txt[k] == '\n') by {
      forall k | i + 2 <= k < |txt|
        ensures OccursAt(txt, "\n", k) <==> txt[k] == '\n'
      {
        assert txt[k..k + 1] == [txt[k]];
      }
    }
    if j <= -1 then Err(AssertionFailed(69))
    else
      assert txt[j..j + 1] == [txt[j]];
      Ok(j + 1)
  }

  /** A `,` outside parentheses ends the fragment, at the cut if there is
      one, and the scan goes on just after that point (lines 81-89). */
  function CommaStep(txt: string, end: nat, st: SplitState): (s: SplitStep)
    requires st.phase == Inner && Valid(txt, st) && st.i < |txt|
    ensures s.Next? ==> Valid(txt, s.st) && Progress(st, s.st) && s.st.phase != Skip
  {
    // `begin` is `None` again, so the end check of lines 94-100 does
    // nothing after a comma.
    if st.begin.Unset? then Done(Err(AssertionFailed(83)))
    else Next(CommaCut(txt, st))
  }

  /** The state after the fragment ended by a `,` is cut off. */
  function CommaCut(txt: string, st: SplitState): (st': SplitState)
    requires st.phase == Inner && Valid(txt, st) && st.i < |txt| && st.begin.At?
    ensures Valid(txt, st') && st'.phase == Inner && Progress(st, st')
  {
    var j := if CutTruthy(st.cut) then st.cut.value else st.i;
    st.(i := j + 1, begin := Unset, cut := None,
        spans := st.spans + [Span(st.begin.pos, j)],
        floor := if CutTruthy(st.cut) then st.cut.value else st.floor)
  }

  /** Any other character: parentheses are counted, and a letter, `_` or
      `(` starts a fragment if none is started (lines 75-80, 90-92). */
  function PlainStep(txt: string, end: nat, st: SplitState): (s: SplitStep)
    requires st.phase == Inner && Valid(txt, st) && st.i < |txt|
    ensures s.Next? ==> Valid(txt, s.st) && Progress(st, s.st) && s.st.phase != Skip
  {
    var i := st.i;
    var c := txt[i];
    if c == '(' then
      AfterChar(txt, end, st.(i := i + 1, paren := st.paren + 1,
                              begin := if st.begin.Unset? then At(i) else st.begin))
    else if c == ')' then
      AfterChar(txt, end, st.(i := i + 1, paren := st.paren - 1))
    else if st.begin.Unset? && (IsAlpha(c) || c == '_') then
      AfterChar(txt, end, st.(i := i + 1, begin := At(i)))
    else AfterChar(txt, end, st.(i := i + 1))
  }

  /** One step of the scan: the outer loop test, one character of the
      whitespace skip with the check after it (lines 41-48), or one pass of
      the inner loop. */
  function SplitStepOf(txt: string, end: nat, st: SplitState): (s: SplitStep)
    requires Valid(txt, st)
    ensures s.Next? ==> Valid(txt, s.st) && Progress(st, s.st)
  {
    match st.phase
    case Top =>
      if st.i < end then Next(st.(phase := Skip)) else Done(Ok(st.spans))
    case Skip =>
      if st.i >= |txt| then Done(Err(IndexOutOfRange(41)))
      else if IsSpace(txt[st.i]) && st.i < end then Next(st.(i := st.i + 1))
      else if st.i == end then
        // `param.end = suffix = txt[begin:i]`: `begin` may be unbound, and
        // `param` is always `None`.
        Done(Err(if st.begin.Unbound? then UnboundName(44) else NoneAttribute(44)))
      else Next(st.(phase := Inner, begin := Unset, cut := None))
    case Inner => InnerStep(txt, end, st)
  }

  /** The scan from state `st` to its end. */
  function SplitFrom(txt: string, end: nat, st: SplitState): Result<seq<Span>>
    requires Valid(txt, st)
    decreases |txt| + 1 - st.floor, |txt| + 1 - st.i, Rank(st.phase)
  {
    match SplitStepOf(txt, end, st)
    case Done(r) => r
    case Next(st') => SplitFrom(txt, end, st')
  }

  /** The scan from an inner-loop state continues from the state one pass
      later. */
  lemma InnerUnfold(txt: string, end: nat, st: SplitState)
    requires st.phase == Inner && Valid(txt, st)
    ensures var s := InnerStep(txt, end, st);
      SplitFrom(txt, end, st) == if s.Done? then s.result else SplitFrom(txt, end, s.st)
  {
  }

  /** The scan from an inner-loop state that passes on to `st'` is the
      scan from `st'`. */
  lemma InnerGoes(txt: string, end: nat, st: SplitState, st': SplitState)
    requires st.phase == Inner && Valid(txt, st) && InnerStep(txt, end, st) == Next(st')
    ensures SplitFrom(txt, end, st) == SplitFrom(txt, end, st')
  {
    InnerUnfold(txt, end, st);
  }

  function Start(i: nat): SplitState {
    SplitState(Top, i, 0, Unbound, None, [], i)
  }

  /** `_split_params(txt, i, end)`: the spans the scan cuts, parsed. An
      empty range gives no parameters. */
  function SplitParams(txt: string, i: nat, end: nat): (r: Result<seq<Param>>)
    requires i <= |txt|
    ensures end <= i ==> r == Ok([])
  {
    match SplitFrom(txt, end, Start(i))
    case Ok(spans) => Ok(Cuts(txt, spans))
    case Err(e) => Err(e)
  }

  // ---------------------------------------------------------------------
  // What the scan does

  /** The scan from a state continues from the state one step later. */
  lemma Unfold(txt: string, end: nat, st: SplitState)
    requires Valid(txt, st)
    ensures var s := SplitStepOf(txt, end, st);
      SplitFrom(txt, end, st) == if s.Done? then s.result else SplitFrom(txt, end, s.st)
  {
  }

  lemma {:induction false} BlankSkip(txt: string, end: nat, st: SplitState)
    requires Valid(txt, st) && st.phase == Skip && st.begin.Unbound? && st.i <= end
    requires forall k :: st.i <= k < end && k < |txt| ==> IsSpace(txt[k])
    ensures SplitFrom(txt, end, st) == Err(if end < |txt| then UnboundName(44) else IndexOutOfRange(41))
    decreases end - st.i
  {
    Unfold(txt, end, st);
    if st.i < |txt| && st.i < end {
      BlankSkip(txt, end, SplitStepOf(txt, end, st).st);
    }
  }

  /** A range holding only whitespace makes the scan fail: the whitespace
      skip reaches the end of the range, where `begin` was never assigned
      (or, when the range runs to the end of the text, the skip reads past
      it). */
  lemma BlankRangeFails(txt: string, start: nat, end: nat)
    requires start < end && start <= |txt|
    requires forall k :: start <= k < end && k < |txt| ==> IsSpace(txt[k])
    ensures SplitParams(txt, start, end) == Err(if end < |txt| then UnboundName(44) else IndexOutOfRange(41))
  {
    Unfold(txt, end, Start(start));
    BlankSkip(txt, end, SplitStepOf(txt, end, Start(start)).st);
  }

  /** The parenthesis count when the scan reaches `m`, if it is `paren`
      at `i` and nothing between is a comment. */
  function DepthAt(txt: string, i: nat, paren: int, m: nat): int
    requires m <= |txt|
    decreases m - i
  {
    if m <= i then paren
    else DepthAt(txt, i + 1, paren + Delta(txt[i]), m)
  }

  /** How a character moves the parenthesis count. */
  function Delta(c: char): int {
    if c == '(' then 1 else if c == ')' then -1 else 0
  }

  /** Inside a started fragment, a character that is not a top-level comma
      and not a comment's `/` only moves the cursor and the count. */
  lemma Advance(txt: string, end: nat, st: SplitState)
    requires st.phase == Inner && Valid(txt, st) && st.begin.At? && st.i < |txt|
    requires txt[st.i] == ',' ==> st.paren != 0
    requires txt[st.i] == '/' ==> st.cut.Some?
    ensures InnerStep(txt, end, st) == AfterChar(txt, end, st.(i := st.i + 1, paren := st.paren + Delta(txt[st.i])))
  {
    if txt[st.i] == '/' {
      assert InnerStep(txt, end, st) == SlashStep(txt, end, st);
    } else {
      assert InnerStep(txt, end, st) == PlainStep(txt, end, st);
    }
  }

  /** The same, away from the end of the range: the scan goes on from the
      next character. */
  lemma AdvanceGoes(txt: string, end: nat, st: SplitState)
    requires st.phase == Inner && Valid(txt, st) && st.begin.At? && st.i < |txt| && st.i + 1 != end
    requires txt[st.i] == ',' ==> st.paren != 0
    requires txt[st.i] == '/' ==> st.cut.Some?
    ensures SplitFrom(txt, end, st) == SplitFrom(txt, end, st.(i := st.i + 1, paren := st.paren + Delta(txt[st.i])))
  {
    var st' := st.(i := st.i + 1, paren := st.paren + Delta(txt[st.i]));
    Advance(txt, end, st);
    assert AfterChar(txt, end, st') == Next(st');
    InnerGoes(txt, end, st, st');
  }

  /** From `i` to `e` the text holds no `/`, and every comma in it is
      inside parentheses, the count being `paren` at `i`. */
  predicate NestedRun(txt: string, i: nat, paren: int, e: nat)
    requires e <= |txt|
    decreases e - i
  {
    i >= e || (txt[i] != '/' && (txt[i] == ',' ==> paren != 0) && NestedRun(txt, i + 1, paren + Delta(txt[i]), e))
  }

  /** Inside a started fragment, text without comments whose every comma
      is inside parentheses (a function-pointer parameter) is passed over:
      nothing is cut, only the parenthesis count moves. */
  lemma {:induction false} ParenCommasKept(txt: string, end: nat, st: SplitState, e: nat)
    requires Valid(txt, st) && st.phase == Inner && st.begin.At?
    requires st.i <= e < end && e <= |txt|
    requires NestedRun(txt, st.i, st.paren, e)
    ensures SplitFrom(txt, end, st) == SplitFrom(txt, end, st.(i := e, paren := DepthAt(txt, st.i, st.paren, e)))
    decreases e - st.i
  {
    if st.i < e {
      var st' := st.(i := st.i + 1, paren := st.paren + Delta(txt[st.i]));
      assert DepthAt(txt, st.i, st.paren, e) == DepthAt(txt, st'.i, st'.paren, e);
      ParenCommasKept(txt, end, st', e);
      AdvanceGoes(txt, end, st);
    } else {
      assert st.(i := e, paren := DepthAt(txt, st.i, st.paren, e)) == st;
    }
  }

  /** A comma met with no fragment started fails the assertion. */
  lemma CommaWithoutFragment(txt: string, end: nat, st: SplitState)
    requires Valid(txt, st) && st.phase == Inner && st.begin.Unset? && st.paren == 0
    requires st.i < |txt| && txt[st.i] == ','
    ensures SplitFrom(txt, end, st) == Err(AssertionFailed(83))
  {
    Unfold(txt, end, st);
  }

  /** The rescan of a comment's text after the cursor was rewound into it:
      the `/` just before the comma either ends a fragment made out of the
      comment's words, which rewinds the cursor to that `/`, or is passed
      over; either way the comma is met again with no fragment started. */
  lemma {:induction false} CommentRescan(txt: string, end: nat, st: SplitState, c: nat)
    requires Valid(txt, st) && st.phase == Inner && st.paren == 0 && st.cut.None?
    requires 0 < st.i < c < end && c < |txt| && txt[c] == ',' && txt[c - 1] == '/'
    requires st.begin.At? ==> st.begin.pos != 0
    requires forall m :: st.i <= m < c - 1 ==> txt[m] != ',' && txt[m] != '/' && txt[m] != '(' && txt[m] != ')'
    ensures SplitFrom(txt, end, st) == Err(AssertionFailed(83))
    decreases c - st.i
  {
    if st.i < c - 1 {
      var s := InnerStep(txt, end, st);
      assert s == PlainStep(txt, end, st);
      assert s.Next? && s.st.i == st.i + 1 && s.st.cut.None? && s.st.paren == 0 && s.st.phase == Inner;
      CommentRescan(txt, end, s.st, c);
      InnerGoes(txt, end, st, s.st);
    } else if st.begin.Unset? {
      SlashBeforeComma(txt, end, st);
    } else {
      CutBeforeComma(txt, end, st);
    }
  }

  /** With no fragment started, the `/` just before the comma is passed
      over and the comma is met. */
  lemma SlashBeforeComma(txt: string, end: nat, st: SplitState)
    requires Valid(txt, st) && st.phase == Inner && st.paren == 0 && st.begin.Unset?
    requires st.i + 1 < end && st.i + 1 < |txt| && txt[st.i + 1] == ',' && txt[st.i] == '/'
    ensures SplitFrom(txt, end, st) == Err(AssertionFailed(83))
  {
    CommaWithoutFragment(txt, end, st.(i := st.i + 1));
    assert !OccursAt(txt, "/*", st.i) && !OccursAt(txt, "//", st.i) by {
      assert txt[st.i..st.i + 2][1] == ',';
    }
    assert InnerStep(txt, end, st) == SlashStep(txt, end, st) == Next(st.(i := st.i + 1));
    InnerGoes(txt, end, st, st.(i := st.i + 1));
  }

  /** A fragment made of the comment's words is cut at the `/` just before
      the comma, which moves the cursor back onto the comma with no
      fragment started. */
  lemma CutBeforeComma(txt: string, end: nat, st: SplitState)
    requires Valid(txt, st) && st.phase == Inner && st.paren == 0 && st.begin.At? && st.cut.None?
    requires st.i + 1 < end && st.i + 1 < |txt| && txt[st.i + 1] == ',' && txt[st.i] == '/'
    ensures SplitFrom(txt, end, st) == Err(AssertionFailed(83))
  {
    var t := st.(i := st.i + 1, cut := Some(st.i));
    CutComma(txt, end, t);
    assert InnerStep(txt, end, st) == SlashStep(txt, end, st) == Next(t);
    InnerGoes(txt, end, st, t);
  }

  lemma CutComma(txt: string, end: nat, t: SplitState)
    requires Valid(txt, t) && t.phase == Inner && t.paren == 0 && t.begin.At? && t.cut == Some(t.i - 1)
    requires t.i < |txt| && txt[t.i] == ','
    ensures SplitFrom(txt, end, t) == Err(AssertionFailed(83))
  {
    var u := CommaCut(txt, t);
    assert InnerStep(txt, end, t) == CommaStep(txt, end, t) == Next(u);
    assert u.i == t.i && u.begin.Unset? && u.paren == 0;
    CommaWithoutFragment(txt, end, u);
    InnerGoes(txt, end, t, u);
  }

  /** A comment between a fragment and the comma after it fails the scan:
      the comment set the cut, the comma rewinds the cursor into the
      comment, and its text is scanned again (prototype.py:73-89). */
  lemma CommentBeforeCommaFails(txt: string, end: nat, st: SplitState)
    requires Valid(txt, st) && st.phase == Inner && st.paren == 0
    requires st.i < end && st.i < |txt| && txt[st.i] == ','
    requires st.cut.Some? && st.cut.value != 0 && txt[st.i - 1] == '/'
    requires forall m :: st.cut.value < m < st.i - 1 ==>
      txt[m] != ',' && txt[m] != '/' && txt[m] != '(' && txt[m] != ')'
    ensures SplitFrom(txt, end, st) == Err(AssertionFailed(83))
  {
    RewoundComma(txt, end, st);
    assert InnerStep(txt, end, st) == CommaStep(txt, end, st) == Next(CommaCut(txt, st));
    InnerGoes(txt, end, st, CommaCut(txt, st));
  }

  /** The comma of `CommentBeforeCommaFails` rewinds the cursor to just
      after the cut, from where the comma is met again with no fragment
      started. */
  lemma RewoundComma(txt: string, end: nat, st: SplitState)
    requires Valid(txt, st) && st.phase == Inner && st.paren == 0
    requires st.i < end && st.i < |txt| && txt[st.i] == ','
    requires st.cut.Some? && st.cut.value != 0 && txt[st.i - 1] == '/'
    requires forall m :: st.cut.value < m < st.i - 1 ==>
      txt[m] != ',' && txt[m] != '/' && txt[m] != '(' && txt[m] != ')'
    ensures SplitFrom(txt, end, CommaCut(txt, st)) == Err(AssertionFailed(83))
  {
    var t := CommaCut(txt, st);
    assert t.i == st.cut.value + 1 && t.paren == 0 && t.begin.Unset? && t.cut.None?;
    if t.i == st.i {
      CommaWithoutFragment(txt, end, t);
    } else {
      CommentRescan(txt, end, t, st.i);
    }
  }

  /** Once the cursor is past the end of the range, a fragment is never
      cut by the end check again: without a comma or a comment to stop it,
      the scan reads past the end of the text. */
  lemma {:induction false} RunsOffText(txt: string, end: nat, st: SplitState)
    requires Valid(txt, st) && st.phase == Inner && end <= st.i
    requires forall m :: st.i <= m < |txt| ==> txt[m] != '/' && txt[m] != ','
    ensures SplitFrom(txt, end, st) == Err(IndexOutOfRange(50))
    decreases |txt| - st.i
  {
    if st.i < |txt| {
      var s := InnerStep(txt, end, st);
      assert s == PlainStep(txt, end, st);
      assert s.Next? && s.st.phase == Inner && s.st.i == st.i + 1;
      RunsOffText(txt, end, s.st);
      InnerGoes(txt, end, st, s.st);
    } else {
      InnerUnfold(txt, end, st);
    }
  }

  /** The failures of the inner loop: reading past the text (line 50), a
      comment that is not closed (lines 66 and 69), or a comma with no
      fragment begun (line 83). */
  predicate InnerLoopError(e: Error) {
    e == IndexOutOfRange(50) || e == AssertionFailed(66) || e == AssertionFailed(69) || e == AssertionFailed(83)
  }

  /** Once the cursor is at or past the end of the range, and so is any
      cut, the end check never fires again: the scan cannot leave the
      inner loop and ends in one of its failures, whatever the text
      holds. */
  lemma {:induction false} PastEndFails(txt: string, end: nat, st: SplitState)
    requires Valid(txt, st) && st.phase == Inner && end <= st.i
    requires st.cut.Some? ==> end <= st.cut.value
    ensures SplitFrom(txt, end, st).Err? && InnerLoopError(SplitFrom(txt, end, st).error)
    decreases |txt| + 1 - st.floor, |txt| + 1 - st.i
  {
    InnerUnfold(txt, end, st);
    var s := InnerStep(txt, end, st);
    if st.i < |txt| && txt[st.i] == '/' && st.begin.Unset? {
      var r := SkipComment(txt, st.i);
      if r.Ok? {
        assert s == Next(st.(i := r.value));
        PastEndFails(txt, end, st.(i := r.value));
      }
    } else if st.i < |txt| && txt[st.i] == ',' && st.paren == 0 && st.begin.At? {
      assert s == Next(CommaCut(txt, st));
      PastEndFails(txt, end, CommaCut(txt, st));
    } else if s.Next? {
      assert s.st.phase == Inner && st.i < s.st.i;
      PastEndFails(txt, end, s.st);
    }
  }

  /** After the cut is set, the scan walks to the end of the range (no
      comma in the way) and cuts the fragment there at the cut, rewinding
      the cursor to it. */
  lemma {:induction false} CommentWalk(txt: string, end: nat, st: SplitState)
    requires Valid(txt, st) && st.phase == Inner && st.begin.At? && st.begin.pos != 0 && st.cut.Some?
    requires st.i < end <= |txt|
    requires forall m :: st.i <= m < end ==> txt[m] != ','
    ensures SplitFrom(txt, end, st) == SplitFrom(txt, end,
      SplitState(Top, st.cut.value, DepthAt(txt, st.i, st.paren, end), st.begin, st.cut,
                 st.spans + [Span(st.begin.pos, st.cut.value)], st.cut.value))
    decreases end - st.i
  {
    var st' := st.(i := st.i + 1, paren := st.paren + Delta(txt[st.i]));
    Advance(txt, end, st);
    assert DepthAt(txt, st.i, st.paren, end) == DepthAt(txt, st'.i, st'.paren, end);
    if st'.i < end {
      CommentWalk(txt, end, st');
      assert AfterChar(txt, end, st') == Next(st');
      InnerGoes(txt, end, st, st');
    } else {
      WalkEnd(txt, end, st');
      assert DepthAt(txt, st'.i, st'.paren, end) == st'.paren;
      InnerGoes(txt, end, st, AfterChar(txt, end, st').st);
    }
  }

  /** At the end of the range the fragment is cut at the cut, and the
      cursor goes back there. */
  lemma WalkEnd(txt: string, end: nat, st: SplitState)
    requires Valid(txt, st) && st.phase == Inner && st.begin.At? && st.begin.pos != 0 && st.cut.Some?
    requires st.i == end
    ensures AfterChar(txt, end, st) == Next(SplitState(Top, st.cut.value, st.paren, st.begin, st.cut,
                                                       st.spans + [Span(st.begin.pos, st.cut.value)], st.cut.value))
  {
  }

  /** A comment between the last parameter and the end of the range makes
      the scan run past the end: the fragment is cut before the comment,
      the cursor is rewound to the comment, the comment is skipped up to
      the end of the range, and there, with no fragment started, the end
      check does not stop the scan (prototype.py:51-66, 93-100). The scan
      then fails whatever follows the range; when nothing after it is a
      `/` or a `,`, it fails by reading past the text. */
  lemma TrailingCommentOverruns(txt: string, end: nat, st: SplitState)
    requires Valid(txt, st) && st.phase == Inner && st.begin.At? && st.begin.pos != 0 && st.cut.None?
    requires st.i + 2 <= end && OccursAt(txt, "/*", st.i)
    requires FindFrom(txt, "*/", st.i + 2) == end - 2
    requires forall m :: st.i <= m < end ==> txt[m] != ','
    ensures SplitFrom(txt, end, st).Err? && InnerLoopError(SplitFrom(txt, end, st).error)
    ensures (forall m :: end <= m < |txt| ==> txt[m] != '/' && txt[m] != ',') ==>
      SplitFrom(txt, end, st) == Err(IndexOutOfRange(50))
  {
    assert end <= |txt|;
    CommentRewound(txt, end, SplitState(Top, st.i, DepthAt(txt, st.i + 1, st.paren, end), st.begin, Some(st.i),
                                        st.spans + [Span(st.begin.pos, st.i)], st.i));
    CommentCutWalk(txt, end, st);
  }

  /** The first half of `TrailingCommentOverruns`: the comment sets the
      cut, the scan walks to the end of the range and cuts the fragment
      there, rewinding the cursor to the comment. */
  lemma CommentCutWalk(txt: string, end: nat, st: SplitState)
    requires Valid(txt, st) && st.phase == Inner && st.begin.At? && st.begin.pos != 0 && st.cut.None?
    requires st.i + 2 <= end <= |txt| && OccursAt(txt, "/*", st.i)
    requires forall m :: st.i <= m < end ==> txt[m] != ','
    ensures SplitFrom(txt, end, st) == SplitFrom(txt, end,
      SplitState(Top, st.i, DepthAt(txt, st.i + 1, st.paren, end), st.begin, Some(st.i),
                 st.spans + [Span(st.begin.pos, st.i)], st.i))
  {
    var s1 := st.(i := st.i + 1, cut := Some(st.i));
    var goal := SplitState(Top, st.i, DepthAt(txt, st.i + 1, st.paren, end), st.begin, Some(st.i),
                           st.spans + [Span(st.begin.pos, st.i)], st.i);
    assert goal == SplitState(Top, s1.cut.value, DepthAt(txt, s1.i, s1.paren, end), s1.begin, s1.cut,
                              s1.spans + [Span(s1.begin.pos, s1.cut.value)], s1.cut.value);
    CommentCutGoes(txt, end, st);
    CommentWalk(txt, end, s1);
  }

  /** The scan from the comment goes on from the character after its `/`. */
  lemma CommentCutGoes(txt: string, end: nat, st: SplitState)
    requires Valid(txt, st) && st.phase == Inner && st.begin.At? && st.cut.None?
    requires st.i + 2 <= end && OccursAt(txt, "/*", st.i)
    ensures SplitFrom(txt, end, st) == SplitFrom(txt, end, st.(i := st.i + 1, cut := Some(st.i)))
  {
    CommentCuts(txt, end, st);
    InnerGoes(txt, end, st, st.(i := st.i + 1, cut := Some(st.i)));
  }

  /** A comment after the start of a fragment sets the cut at the `/`. */
  lemma CommentCuts(txt: string, end: nat, st: SplitState)
    requires Valid(txt, st) && st.phase == Inner && st.begin.At? && st.cut.None?
    requires st.i + 2 <= end && OccursAt(txt, "/*", st.i)
    ensures InnerStep(txt, end, st) == Next(st.(i := st.i + 1, cut := Some(st.i)))
  {
    assert txt[st.i] == '/' by { assert txt[st.i..st.i + 2][0] == '/'; }
    assert InnerStep(txt, end, st) == SlashStep(txt, end, st);
  }

  /** The second half of `TrailingCommentOverruns`: from the cursor
      rewound to the comment, the comment is skipped to the end of the
      range with no fragment started, and the scan reads on. */
  lemma CommentRewound(txt: string, end: nat, top: SplitState)
    requires Valid(txt, top) && top.phase == Top
    requires top.i + 2 <= end && OccursAt(txt, "/*", top.i)
    requires FindFrom(txt, "*/", top.i + 2) == end - 2
    ensures SplitFrom(txt, end, top).Err? && InnerLoopError(SplitFrom(txt, end, top).error)
    ensures (forall m :: end <= m < |txt| ==> txt[m] != '/' && txt[m] != ',') ==>
      SplitFrom(txt, end, top) == Err(IndexOutOfRange(50))
  {
    assert txt[top.i] == '/' by { assert txt[top.i..top.i + 2][0] == '/'; }
    var skip := top.(phase := Skip);
    var inner := top.(phase := Inner, begin := Unset, cut := None);
    CommentSkipped(txt, end, inner);
    assert SplitStepOf(txt, end, skip) == Next(inner);
    Unfold(txt, end, skip);
    Unfold(txt, end, top);
  }

  /** A comment met before any fragment that closes at the end of the
      range takes the cursor to the end with no fragment started, so the
      end check lets the scan run on and fail. */
  lemma CommentSkipped(txt: string, end: nat, inner: SplitState)
    requires Valid(txt, inner) && inner.phase == Inner && inner.begin.Unset?
    requires inner.i + 2 <= end && OccursAt(txt, "/*", inner.i) && txt[inner.i] == '/'
    requires FindFrom(txt, "*/", inner.i + 2) == end - 2
    ensures SplitFrom(txt, end, inner).Err? && InnerLoopError(SplitFrom(txt, end, inner).error)
    ensures (forall m :: end <= m < |txt| ==> txt[m] != '/' && txt[m] != ',') ==>
      SplitFrom(txt, end, inner) == Err(IndexOutOfRange(50))
  {
    PastEndFails(txt, end, inner.(i := end));
    if forall m :: end <= m < |txt| ==> txt[m] != '/' && txt[m] != ',' {
      RunsOffText(txt, end, inner.(i := end));
    }
    assert InnerStep(txt, end, inner) == SlashStep(txt, end, inner);
    assert SlashStep(txt, end, inner) == AfterChar(txt, end, inner.(i := end));
    assert AfterChar(txt, end, inner.(i := end)) == Next(inner.(i := end));
    InnerGoes(txt, end, inner, inner.(i := end));
  }

  // ---------------------------------------------------------------------
  // Where the fragments lie

  /** The spans are inside `[lo, hi]`, each starts at a character that can
      start a fragment, and each ends before the next one starts. */
  predicate Ordered(txt: string, lo: nat, spans: seq<Span>, hi: nat) {
    && (forall k :: 0 <= k < |spans| ==>
          lo <= spans[k].from < spans[k].to <= hi && spans[k].to <= |txt| && StartChar(txt[spans[k].from]))
    && (forall j, k :: 0 <= j < k < |spans| ==> spans[j].to <= spans[k].from)
  }

  /** What a scan started at `start` keeps about the fragments: they lie
      behind the cursor, and a started fragment begins after all of them. */
  predicate Fragments(txt: string, start: nat, st: SplitState) {
    && Valid(txt, st)
    && start <= st.floor
    && Ordered(txt, start, st.spans, st.i)
    && (st.phase == Inner && st.begin.At? ==>
          StartChar(txt[st.begin.pos]) && forall k :: 0 <= k < |st.spans| ==> st.spans[k].to <= st.begin.pos)
  }

  lemma OrderedSnoc(txt: string, lo: nat, spans: seq<Span>, hi: nat, sp: Span, hi': nat)
    requires Ordered(txt, lo, spans, hi)
    requires lo <= sp.from < sp.to <= hi' && sp.to <= |txt| && StartChar(txt[sp.from])
    requires forall k :: 0 <= k < |spans| ==> spans[k].to <= sp.from
    ensures Ordered(txt, lo, spans + [sp], hi')
  {
    var spans' := spans + [sp];
    assert forall k :: 0 <= k < |spans| ==> spans'[k] == spans[k];
  }

  lemma AfterCharKeeps(txt: string, end: nat, start: nat, st: SplitState)
    requires st.phase == Inner && Fragments(txt, start, st)
    ensures Fragments(txt, start, AfterChar(txt, end, st).st)
  {
    if st.i == end && BeginTruthy(st.begin) {
      var j := if CutTruthy(st.cut) then st.cut.value else st.i;
      OrderedSnoc(txt, start, st.spans, st.i, Span(st.begin.pos, j), j);
    }
  }

  lemma OrderedWiden(txt: string, lo: nat, spans: seq<Span>, hi: nat, hi': nat)
    requires Ordered(txt, lo, spans, hi) && hi <= hi'
    ensures Ordered(txt, lo, spans, hi')
  {
  }

  /** Moving the cursor forward, and perhaps starting a fragment where it
      was, keeps `Fragments`. */
  lemma MovedKeeps(txt: string, start: nat, st: SplitState, st': SplitState)
    requires st.phase == Inner && Fragments(txt, start, st)
    requires st'.phase == Inner && Valid(txt, st') && st'.spans == st.spans && st'.floor == st.floor && st.i <= st'.i
    requires st'.begin == st.begin || (st.begin.Unset? && st'.begin == At(st.i) && StartChar(txt[st.i]))
    ensures Fragments(txt, start, st')
  {
    OrderedWiden(txt, start, st.spans, st.i, st'.i);
  }

  lemma SlashKeeps(txt: string, end: nat, start: nat, st: SplitState)
    requires st.phase == Inner && Fragments(txt, start, st) && st.i < |txt|
    ensures var s := SlashStep(txt, end, st); s.Next? ==> Fragments(txt, start, s.st)
  {
    var s := SlashStep(txt, end, st);
    if s.Next? {
      var st' := if st.begin.Unset? then st.(i := SkipComment(txt, st.i).value)
                 else st.(i := st.i + 1, cut := if st.cut.None? then Some(st.i) else st.cut);
      assert SlashStep(txt, end, st) == AfterChar(txt, end, st');
      MovedKeeps(txt, start, st, st');
      AfterCharKeeps(txt, end, start, st');
    }
  }

  lemma CommaKeeps(txt: string, start: nat, st: SplitState)
    requires st.phase == Inner && Fragments(txt, start, st) && st.i < |txt| && st.begin.At?
    ensures Fragments(txt, start, CommaCut(txt, st))
  {
    var j := if CutTruthy(st.cut) then st.cut.value else st.i;
    OrderedSnoc(txt, start, st.spans, st.i, Span(st.begin.pos, j), j + 1);
  }

  lemma PlainKeeps(txt: string, end: nat, start: nat, st: SplitState)
    requires st.phase == Inner && Fragments(txt, start, st) && st.i < |txt|
    ensures var s := PlainStep(txt, end, st); s.Next? ==> Fragments(txt, start, s.st)
  {
    var i := st.i;
    var c := txt[i];
    var st' := st.(i := i + 1, paren := st.paren + Delta(c),
                   begin := if st.begin.Unset? && StartChar(c) then At(i) else st.begin);
    assert PlainStep(txt, end, st) == AfterChar(txt, end, st');
    MovedKeeps(txt, start, st, st');
    AfterCharKeeps(txt, end, start, st');
  }

  lemma InnerKeeps(txt: string, end: nat, start: nat, st: SplitState)
    requires st.phase == Inner && Fragments(txt, start, st)
    ensures var s := InnerStep(txt, end, st); s.Next? ==> Fragments(txt, start, s.st)
  {
    if st.i < |txt| {
      if txt[st.i] == '/' {
        SlashKeeps(txt, end, start, st);
      } else if txt[st.i] == ',' && st.paren == 0 {
        if st.begin.At? {
          CommaKeeps(txt, start, st);
        }
      } else {
        PlainKeeps(txt, end, start, st);
      }
    }
  }

  lemma StepKeeps(txt: string, end: nat, start: nat, st: SplitState)
    requires Fragments(txt, start, st)
    ensures var s := SplitStepOf(txt, end, st); s.Next? ==> Fragments(txt, start, s.st)
  {
    if st.phase == Inner {
      InnerKeeps(txt, end, start, st);
    }
  }

  /** Every state the scan passes through keeps `Fragments`, so the spans
      it ends with are ordered and inside the text. */
  lemma {:induction false} SplitFromOrdered(txt: string, end: nat, start: nat, st: SplitState)
    requires Fragments(txt, start, st)
    ensures SplitFrom(txt, end, st).Ok? ==> Ordered(txt, start, SplitFrom(txt, end, st).value, |txt|)
    decreases |txt| + 1 - st.floor, |txt| + 1 - st.i, Rank(st.phase)
  {
    var s := SplitStepOf(txt, end, st);
    if s.Next? {
      StepKeeps(txt, end, start, st);
      SplitFromOrdered(txt, end, start, s.st);
    }
  }

  lemma {:induction false} CutsAt(txt: string, spans: seq<Span>, k: nat)
    requires k < |spans|
    ensures Cuts(txt, spans)[k] == Cut(txt, spans[k])
  {
    var init := spans[..|spans| - 1];
    assert Cuts(txt, spans) == Cuts(txt, init) + [Cut(txt, spans[|spans| - 1])];
    if k < |spans| - 1 {
      CutsAt(txt, init, k);
      assert spans[k] == init[k];
    }
  }

  /** A span's fragment, right-stripped, is non-empty, begins where the
      span begins and ends inside it. */
  lemma FragmentInside(txt: string, sp: Span)
    requires sp.from < sp.to <= |txt| && StartChar(txt[sp.from])
    ensures var d := RStrip(Slice(txt, sp.from, sp.to));
      && sp.from + |d| <= sp.to && d != [] && txt[sp.from..sp.from + |d|] == d
      && StartChar(d[0]) && !IsSpace(d[|d| - 1])
  {
    var raw := txt[sp.from..sp.to];
    assert Slice(txt, sp.from, sp.to) == raw;
    assert raw[0] == txt[sp.from];
    RStripKeepsHead(raw);
    var d := RStrip(raw);
    assert txt[sp.from..sp.from + |d|] == raw[..|d|];
  }

  /** `decl` is the text at `b`: non-empty, starting with a letter, `_`
      or `(`, and without trailing whitespace. */
  predicate Placed(txt: string, b: nat, decl: string) {
    && b + |decl| <= |txt|
    && decl != [] && txt[b..b + |decl|] == decl
    && StartChar(decl[0]) && !IsSpace(decl[|decl| - 1])
  }

  /** The parameters were parsed from the text at their `begin`, at or
      after `lo`, one after another. */
  predicate PlacedInOrder(txt: string, lo: nat, ps: seq<Param>) {
    && (forall k :: 0 <= k < |ps| ==> lo <= ps[k].begin && Placed(txt, ps[k].begin, ps[k].decl))
    && (forall j, k :: 0 <= j < k < |ps| ==> ps[j].begin + |ps[j].decl| <= ps[k].begin)
  }

  /** Each parameter is what `_parse` makes of its declaration. */
  predicate AllParsed(ps: seq<Param>) {
    forall k :: 0 <= k < |ps| ==> ps[k] == ParseDecl(ps[k].begin, ps[k].decl)
  }

  lemma CutPlaced(txt: string, sp: Span)
    requires sp.from < sp.to <= |txt| && StartChar(txt[sp.from])
    ensures var p := Cut(txt, sp); Placed(txt, p.begin, p.decl) && p.begin == sp.from && p.begin + |p.decl| <= sp.to
  {
    FragmentInside(txt, sp);
    var d := RStrip(Slice(txt, sp.from, sp.to));
    assert Placed(txt, sp.from, d);
    var p := ParseDecl(sp.from, d);
    assert p.begin == sp.from && p.decl == d;
  }

  lemma CutIsParse(txt: string, sp: Span)
    ensures var p := Cut(txt, sp); p == ParseDecl(p.begin, p.decl)
  {
    var d := RStrip(Slice(txt, sp.from, sp.to));
    var p := ParseDecl(sp.from, d);
    assert p.begin == sp.from && p.decl == d;
  }

  lemma CutsPlaced(txt: string, lo: nat, spans: seq<Span>)
    requires Ordered(txt, lo, spans, |txt|)
    ensures PlacedInOrder(txt, lo, Cuts(txt, spans))
    ensures AllParsed(Cuts(txt, spans))
  {
    var ps := Cuts(txt, spans);
    forall k | 0 <= k < |spans|
      ensures ps[k].begin == spans[k].from && ps[k].begin + |ps[k].decl| <= spans[k].to && Placed(txt, ps[k].begin, ps[k].decl)
      ensures ps[k] == ParseDecl(ps[k].begin, ps[k].decl)
    {
      CutsAt(txt, spans, k);
      CutPlaced(txt, spans[k]);
      CutIsParse(txt, spans[k]);
    }
  }

  /** The parameters `_split_params` returns were cut from the text in
      order, each from the text at its `begin`. */
  lemma SplitParamsPlaced(txt: string, start: nat, end: nat)
    requires start <= |txt|
    ensures SplitParams(txt, start, end).Ok? ==> PlacedInOrder(txt, start, SplitParams(txt, start, end).value)
    ensures SplitParams(txt, start, end).Ok? ==> AllParsed(SplitParams(txt, start, end).value)
  {
    SplitFromOrdered(txt, end, start, Start(start));
    var r := SplitFrom(txt, end, Start(start));
    if r.Ok? {
      CutsPlaced(txt, start, r.value);
    }
  }

  // ---------------------------------------------------------------------
  // The cursor loops

  lemma CutsSnoc(txt: string, spans: seq<Span>, sp: Span)
    ensures Cuts(txt, spans + [sp]) == Cuts(txt, spans) + [Cut(txt, sp)]
  {
    assert (spans + [sp])[..|spans|] == spans;
  }

  method SplitParamsScan(txt: string, start: nat, end: nat) returns (r: Result<seq<Param>>)
    requires start <= |txt|
    ensures r == SplitParams(txt, start, end)
  {
    var params: seq<Param> := [];
    var spans: seq<Span> := [];
    var parenCount := 0;
    var begin := Unbound;
    var cut: Option<nat> := None;
    var i: nat := start;
    var floor: nat := start;
    while i < end
      invariant Valid(txt, SplitState(Top, i, parenCount, begin, cut, spans, floor))
      invariant SplitFrom(txt, end, SplitState(Top, i, parenCount, begin, cut, spans, floor))
        == SplitFrom(txt, end, Start(start))
      invariant params == Cuts(txt, spans)
      decreases |txt| + 1 - floor, |txt| + 1 - i
    {
      Unfold(txt, end, SplitState(Top, i, parenCount, begin, cut, spans, floor));
      var s := SkipBlanks(txt, end, SplitState(Skip, i, parenCount, begin, cut, spans, floor));
      if s.Done? {
        return Err(s.result.error);
      }
      s, params := ScanFragment(txt, end, s.st, params);
      if s.Done? {
        return Err(s.result.error);
      }
      i, parenCount, begin, cut, spans, floor := s.st.i, s.st.paren, s.st.begin, s.st.cut, s.st.spans, s.st.floor;
    }
    return Ok(params);
  }

  /** The whitespace skip and the check after it (lines 41-48). */
  method SkipBlanks(txt: string, end: nat, st0: SplitState) returns (s: SplitStep)
    requires st0.phase == Skip && Valid(txt, st0)
    ensures s.Done? ==> s.result.Err? && s.result == SplitFrom(txt, end, st0)
    ensures s.Next? ==> s.st == st0.(phase := Inner, i := s.st.i, begin := Unset, cut := None)
    ensures s.Next? ==> Valid(txt, s.st) && s.st.i >= st0.i && SplitFrom(txt, end, s.st) == SplitFrom(txt, end, st0)
  {
    var i := st0.i;
    while i < |txt| && IsSpace(txt[i]) && i < end
      invariant st0.i <= i <= |txt|
      invariant SplitFrom(txt, end, st0.(i := i)) == SplitFrom(txt, end, st0)
      decreases |txt| - i
    {
      Unfold(txt, end, st0.(i := i));
      i := i + 1;
    }
    Unfold(txt, end, st0.(i := i));
    if i >= |txt| {
      return Done(Err(IndexOutOfRange(41)));
    }
    if i == end {
      return Done(Err(if st0.begin.Unbound? then UnboundName(44) else NoneAttribute(44)));
    }
    return Next(st0.(phase := Inner, i := i, begin := Unset, cut := None));
  }

  /** The `while True` loop (lines 50-100): from the start of a fragment
      to the failure or to the end of the range. */
  method ScanFragment(txt: string, end: nat, st0: SplitState, params0: seq<Param>) returns (s: SplitStep, params: seq<Param>)
    requires st0.phase == Inner && Valid(txt, st0)
    requires params0 == Cuts(txt, st0.spans)
    ensures s.Done? ==> s.result.Err? && s.result == SplitFrom(txt, end, st0)
    ensures s.Next? ==> s.st.phase == Top && Valid(txt, s.st) && SplitFrom(txt, end, s.st) == SplitFrom(txt, end, st0)
    ensures s.Next? ==> params == Cuts(txt, s.st.spans)
    ensures s.Next? ==> s.st.floor > st0.floor || (s.st.floor == st0.floor && s.st.i > st0.i)
  {
    var st := st0;
    params := params0;
    while true
      invariant st.phase == Inner && Valid(txt, st)
      invariant SplitFrom(txt, end, st) == SplitFrom(txt, end, st0)
      invariant params == Cuts(txt, st.spans)
      invariant st.floor > st0.floor || (st.floor == st0.floor && st.i >= st0.i)
      decreases |txt| + 1 - st.floor, |txt| + 1 - st.i
    {
      s := InnerPass(txt, end, st);
      InnerUnfold(txt, end, st);
      if s.Done? {
        return;
      }
      if s.st.spans != st.spans {
        params := Append(txt, params, st.spans, s.st.spans[|st.spans|]);
      }
      if s.st.phase == Top {
        return;
      }
      st := s.st;
    }
  }

  /** `params.append(Param(begin, txt[begin:i].rstrip()))`. */
  method Append(txt: string, params: seq<Param>, ghost spans: seq<Span>, sp: Span) returns (params': seq<Param>)
    requires params == Cuts(txt, spans)
    ensures params' == Cuts(txt, spans + [sp])
  {
    var fragment := RStrip(Slice(txt, sp.from, sp.to));
    var p := Parse(sp.from, fragment);
    CutsSnoc(txt, spans, sp);
    params' := params + [p];
  }

  /** The body of the `while True` loop. */
  method InnerPass(txt: string, end: nat, st: SplitState) returns (s: SplitStep)
    requires st.phase == Inner && Valid(txt, st)
    ensures s == InnerStep(txt, end, st)
  {
    var i := st.i;
    if i >= |txt| {
      return Done(Err(IndexOutOfRange(50)));
    }
    var c := txt[i];
    if c == '/' {
      s := SlashPass(txt, end, st);
    } else if c == ',' && st.paren == 0 {
      s := CommaPass(txt, end, st);
    } else {
      var next := st.(i := i + 1);
      if c == '(' {
        if st.begin.Unset? {
          next := next.(begin := At(i));
        }
        next := next.(paren := st.paren + 1);
      } else if c == ')' {
        next := next.(paren := st.paren - 1);
      } else if st.begin.Unset? && (IsAlpha(c) || c == '_') {
        next := next.(begin := At(i));
      }
      s := EndCheck(txt, end, next);
    }
  }

  /** Comparing the two characters at `i` with a two-character pattern is
      finding the pattern there. */
  lemma SliceTwo(txt: string, i: nat, sub: string)
    requires |sub| == 2
    ensures (Slice(txt, i, i + 2) == sub) == OccursAt(txt, sub, i)
  {
    if i + 2 > |txt| {
      assert |Slice(txt, i, i + 2)| < 2;
    }
  }

  method SlashPass(txt: string, end: nat, st: SplitState) returns (s: SplitStep)
    requires st.phase == Inner && Valid(txt, st) && st.i < |txt|
    ensures s == SlashStep(txt, end, st)
  {
    if st.begin.Unset? {
      var r := CommentScan(txt, st.i);
      if r.Err? {
        return Done(Err(r.error));
      }
      s := EndCheck(txt, end, st.(i := r.value));
    } else {
      var next := st;
      if st.cut.None? {
        next := next.(cut := Some(st.i));
      }
      s := EndCheck(txt, end, next.(i := st.i + 1));
    }
  }

  /** Lines 55-72: the two characters at the `/` decide whether a comment
      is skipped. */
  method CommentScan(txt: string, i: nat) returns (r: Result<nat>)
    requires i < |txt|
    ensures r == SkipComment(txt, i)
  {
    var two := Slice(txt, i, i + 2);
    SliceTwo(txt, i, "/*");
    SliceTwo(txt, i, "//");
    var j := i;
    if two == "/*" {
      j := FindFrom(txt, "*/", i + 2) + 1;
      if j <= 0 {
        return Err(AssertionFailed(66));
      }
    } else if two == "//" {
      j := FindFrom(txt, "\n", i + 2);
      if j <= -1 {
        return Err(AssertionFailed(69));
      }
    }
    return Ok(j + 1);
  }

  /** Lines 81-89; the parameter itself is parsed by `Append`. */
  method CommaPass(txt: string, end: nat, st: SplitState) returns (s: SplitStep)
    requires st.phase == Inner && Valid(txt, st) && st.i < |txt|
    ensures s == CommaStep(txt, end, st)
  {
    if st.begin.Unset? {
      return Done(Err(AssertionFailed(83)));
    }
    var i := st.i;
    var floor := st.floor;
    if CutTruthy(st.cut) {
      i := st.cut.value;
      floor := i;
    }
    return Next(st.(i := i + 1, begin := Unset, cut := None, spans := st.spans + [Span(st.begin.pos, i)], floor := floor));
  }

  /** Lines 93-100 after `i += 1`. */
  method EndCheck(txt: string, end: nat, st: SplitState) returns (s: SplitStep)
    requires st.phase == Inner && Valid(txt, st)
    ensures s == AfterChar(txt, end, st)
  {
    var i := st.i;
    if i == end && BeginTruthy(st.begin) {
      var floor := st.floor;
      if CutTruthy(st.cut) {
        i := st.cut.value;
        floor := i;
      }
      return Next(st.(phase := Top, i := i, spans := st.spans + [Span(st.begin.pos, i)], floor := floor));
    }
    return Next(st);
  }
}
