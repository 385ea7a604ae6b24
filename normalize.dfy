/** `normalize_type` (param.py:42-54) and the proof that it yields a normal
    form: normalising twice gives the same text as normalising once.

    The proof reads `_squeeze` as a left-to-right scanner (`Scan`) that
    remembers the whitespace run it is in, proves that scanner equal to the
    regex-and-strip definition in Text, and then follows what the scanner does
    to each padded character. */
module TypeNormalization {
  import opened Text

  /** `typ.replace('*', ' * ').replace('&', ' & ')` */
  function PadMarkers(typ: string): string {
    ReplaceAll(ReplaceAll(typ, "*", " * "), "&", " & ")
  }

  /** `.replace('* *', '**')` */
  function JoinStars(t: string): string {
    ReplaceAll(t, "* *", "**")
  }

  /** The number of characters of `[a-zA-Z0-9_]` that `s` starts with. */
  function IdentRun(s: string): (n: nat)
    ensures n <= |s|
    ensures forall k :: 0 <= k < n ==> IsWordChar(s[k])
    ensures n < |s| ==> !IsWordChar(s[n])
  {
    if s != [] && IsWordChar(s[0]) then 1 + IdentRun(s[1..]) else 0
  }

  /** `const_prefix_pat.match(t)`, i.e. `^const ([a-zA-Z0-9_]+)(.*)$`, on a
      squeezed `t` (which never ends in a newline): the identifier group is
      the longest run of word characters after `const `, and `.` does not
      match a newline, so a newline anywhere after `const ` defeats it. */
  predicate ConstPrefixMatches(t: string) {
    6 < |t| && t[..6] == "const " && IsWordChar(t[6]) && '\n' !in t[6..]
  }

  /** `'%s const%s' % (m.group(1), m.group(2))` when the prefix pattern matches. */
  function MoveConst(t: string): string {
    if ConstPrefixMatches(t) then
      var n := IdentRun(t[6..]);
      t[6..6 + n] + " const" + t[6 + n..]
    else t
  }

  /** `normalize_type` (param.py:42-54). */
  function NormalizeType(typ: string): string {
    MoveConst(JoinStars(Squeeze(PadMarkers(typ))))
  }

  predicate IsMarker(c: char) { c == '*' || c == '&' }

  // ---------------------------------------------------------------------
  // `_squeeze` as a scanner

  /** The whitespace run the scanner is inside: none, one character (kept
      as it is if a word follows), or two or more (which become one space). */
  datatype Pend = NoPend | OnePend(c: char) | ManyPend

  /** `started` says whether anything has been emitted: a leading run is
      dropped. A trailing run is never emitted. */
  datatype SqState = SqState(started: bool, pend: Pend)

  const Init := SqState(false, NoPend)

  function Flush(p: Pend): string {
    match p
    case NoPend => []
    case OnePend(c) => [c]
    case ManyPend => " "
  }

  function Bump(p: Pend, c: char): Pend {
    if p == NoPend then OnePend(c) else ManyPend
  }

  function Step(st: SqState, c: char): (string, SqState) {
    if IsSpace(c) then ([], st.(pend := Bump(st.pend, c)))
    else ((if st.started then Flush(st.pend) else []) + [c], SqState(true, NoPend))
  }

  function Scan(s: string, st: SqState): (string, SqState)
    decreases |s|
  {
    if s == [] then ([], st)
    else
      var first := Step(st, s[0]);
      var rest := Scan(s[1..], first.1);
      (first.0 + rest.0, rest.1)
  }

  lemma {:induction false} ScanConcat(a: string, b: string, st: SqState)
    ensures Scan(a + b, st).0 == Scan(a, st).0 + Scan(b, Scan(a, st).1).0
    ensures Scan(a + b, st).1 == Scan(b, Scan(a, st).1).1
    decreases |a|
  {
    if a == [] {
      assert a + b == b;
    } else {
      assert (a + b)[0] == a[0];
      assert (a + b)[1..] == a[1..] + b;
      ScanConcat(a[1..], b, Step(st, a[0]).1);
    }
  }

  // ---- the scanner agrees with `re.sub(r'\s{2,}', ' ', s).strip()`

  function PendText(p: Pend): string {
    match p
    case NoPend => []
    case OnePend(c) => [c]
    case ManyPend => "  "
  }

  predicate AllSpace(s: string) {
    forall k :: 0 <= k < |s| ==> IsSpace(s[k])
  }

  lemma {:induction false} SpaceRunAfterSpaces(a: string, b: string)
    requires AllSpace(a)
    ensures SpaceRun(a + b) == |a| + SpaceRun(b)
    decreases |a|
  {
    if a == [] {
      assert a + b == b;
    } else {
      assert (a + b)[1..] == a[1..] + b;
      SpaceRunAfterSpaces(a[1..], b);
    }
  }

  /** A run of at least two whitespace characters collapses to one space,
      whatever follows it. */
  lemma CollapseLongRun(a: string, b: string)
    requires |a| >= 2 && AllSpace(a)
    ensures CollapseRuns(a + b) == " " + CollapseRuns(b[SpaceRun(b)..])
  {
    SpaceRunAfterSpaces(a, b);
    assert (a + b)[|a| + SpaceRun(b)..] == b[SpaceRun(b)..];
  }

  lemma {:induction false} CollapseAllSpace(s: string)
    requires AllSpace(s)
    ensures AllSpace(CollapseRuns(s))
    decreases |s|
  {
    if s != [] {
      var n := SpaceRun(s);
      if n >= 2 { CollapseAllSpace(s[n..]); } else { CollapseAllSpace(s[1..]); }
    }
  }

  lemma {:induction false} RStripAllSpace(s: string)
    requires AllSpace(s)
    ensures RStrip(s) == []
    decreases |s|
  {
    if s != [] { RStripAllSpace(s[..|s| - 1]); }
  }

  lemma {:induction false} RStripAfterWord(a: string, b: string)
    requires a != [] && !IsSpace(a[|a| - 1])
    ensures RStrip(a + b) == a + RStrip(b)
    decreases |b|
  {
    if b == [] {
      assert a + b == a;
    } else if IsSpace(b[|b| - 1]) {
      assert (a + b)[..|a + b| - 1] == a + b[..|b| - 1];
      RStripAfterWord(a, b[..|b| - 1]);
    }
  }

  /** Any two whitespace characters collapse like two spaces. */
  lemma TwoSpacesAgree(a: string, s: string)
    requires |a| == 2 && AllSpace(a)
    ensures CollapseRuns(a + s) == CollapseRuns("  " + s)
  {
    CollapseLongRun(a, s);
    CollapseLongRun("  ", s);
  }

  /** Three whitespace characters collapse like two spaces. */
  lemma ThreeSpacesAgree(a: string, s: string)
    requires |a| == 3 && AllSpace(a)
    ensures CollapseRuns(a + s) == CollapseRuns("  " + s)
  {
    CollapseLongRun(a, s);
    CollapseLongRun("  ", s);
  }

  lemma CollapseBumped(p: Pend, c: char, s: string)
    requires p.OnePend? ==> IsSpace(p.c)
    requires IsSpace(c)
    ensures CollapseRuns(PendText(Bump(p, c)) + s) == CollapseRuns(PendText(p) + ([c] + s))
  {
    var a := PendText(p) + [c];
    assert PendText(p) + ([c] + s) == a + s;
    if p.NoPend? {
      assert a == [c];
    } else if p.OnePend? {
      assert AllSpace(a) by {
        assert a[0] == p.c && a[1] == c;
      }
      TwoSpacesAgree(a, s);
    } else {
      assert AllSpace(a) by {
        assert a[0] == ' ' && a[1] == ' ' && a[2] == c;
      }
      ThreeSpacesAgree(a, s);
    }
  }

  lemma CollapseBeforeWord(p: Pend, d: char, s: string)
    requires p.OnePend? ==> IsSpace(p.c)
    requires !IsSpace(d)
    ensures CollapseRuns(PendText(p) + ([d] + s)) == Flush(p) + [d] + CollapseRuns(s)
  {
    assert CollapseRuns([d] + s) == [d] + CollapseRuns(s) by {
      assert ([d] + s)[1..] == s;
    }
    match p
    case NoPend =>
      assert PendText(p) + ([d] + s) == [d] + s;
    case OnePend(c0) =>
      assert PendText(p) + ([d] + s) == [c0] + ([d] + s);
      assert SpaceRun([c0] + ([d] + s)) == 1;
    case ManyPend =>
      CollapseLongRun("  ", [d] + s);
      assert PendText(p) + ([d] + s) == "  " + ([d] + s);
  }

  /** With a word already emitted, the scanner's output is the collapsed text
      of the pending run and the rest, right-stripped. */
  lemma {:induction false} ScanStarted(s: string, p: Pend)
    requires p.OnePend? ==> IsSpace(p.c)
    ensures Scan(s, SqState(true, p)).0 == RStrip(CollapseRuns(PendText(p) + s))
    decreases |s|
  {
    if s == [] {
      assert PendText(p) + s == PendText(p);
      CollapseAllSpace(PendText(p));
      RStripAllSpace(CollapseRuns(PendText(p)));
    } else {
      assert s == [s[0]] + s[1..];
      if IsSpace(s[0]) {
        ScanStarted(s[1..], Bump(p, s[0]));
        CollapseBumped(p, s[0], s[1..]);
      } else {
        ScanStarted(s[1..], NoPend);
        assert PendText(NoPend) + s[1..] == s[1..];
        CollapseBeforeWord(p, s[0], s[1..]);
        RStripAfterWord(Flush(p) + [s[0]], CollapseRuns(s[1..]));
      }
    }
  }

  lemma {:induction false} ScanNotStarted(s: string, p: Pend)
    ensures Scan(s, SqState(false, p)).0 == RStrip(CollapseRuns(LStrip(s)))
    decreases |s|
  {
    if s == [] {
    } else if IsSpace(s[0]) {
      ScanNotStarted(s[1..], Bump(p, s[0]));
      assert LStrip(s) == LStrip(s[1..]);
    } else {
      ScanStarted(s[1..], NoPend);
      assert PendText(NoPend) + s[1..] == s[1..];
      assert CollapseRuns(s) == [s[0]] + CollapseRuns(s[1..]);
      RStripAfterWord([s[0]], CollapseRuns(s[1..]));
    }
  }

  lemma {:induction false} CollapseThenLStrip(s: string)
    ensures LStrip(CollapseRuns(s)) == CollapseRuns(LStrip(s))
    decreases |s|
  {
    if s != [] && IsSpace(s[0]) {
      var n := SpaceRun(s);
      if n >= 2 {
        CollapseHead(s[n..]);
        assert LStrip(s) == s[n..] by {
          assert SpaceRun(s[n..]) == 0;
        }
      } else {
        CollapseHead(s[1..]);
      }
    }
  }

  /** The scanner is `_squeeze`. */
  lemma SqueezeIsScan(s: string)
    ensures Squeeze(s) == Scan(s, Init).0
  {
    ScanNotStarted(s, NoPend);
    CollapseThenLStrip(s);
  }

  // ---------------------------------------------------------------------
  // Padding `*` and `&`

  function PadChar(c: char): string {
    if c == '*' then " * " else if c == '&' then " & " else [c]
  }

  /** The two `replace` calls, one character at a time. */
  function Pad(s: string): string
    decreases |s|
  {
    if s == [] then [] else PadChar(s[0]) + Pad(s[1..])
  }

  lemma {:induction false} PadConcat(a: string, b: string)
    ensures Pad(a + b) == Pad(a) + Pad(b)
    decreases |a|
  {
    if a == [] {
      assert a + b == b;
    } else {
      assert (a + b)[0] == a[0];
      assert (a + b)[1..] == a[1..] + b;
      PadConcat(a[1..], b);
    }
  }

  lemma {:induction false} ReplaceCharConcat(a: string, b: string, c: char, r: string)
    ensures ReplaceAll(a + b, [c], r) == ReplaceAll(a, [c], r) + ReplaceAll(b, [c], r)
    decreases |a|
  {
    if a == [] {
      assert a + b == b;
    } else {
      assert (a + b)[0] == a[0];
      assert (a + b)[1..] == a[1..] + b;
      assert [c] <= a + b <==> [c] <= a;
      ReplaceCharConcat(a[1..], b, c, r);
    }
  }

  lemma {:induction false} PadMarkersIsPad(s: string)
    ensures PadMarkers(s) == Pad(s)
    decreases |s|
  {
    if s != [] {
      var c := s[0];
      assert s == [c] + s[1..];
      ReplaceCharConcat([c], s[1..], '*', " * ");
      var one := ReplaceAll([c], "*", " * ");
      ReplaceCharConcat(one, ReplaceAll(s[1..], "*", " * "), '&', " & ");
      PadMarkersIsPad(s[1..]);
      if c == '*' {
        assert one == " * ";
        assert ReplaceAll(" * ", "&", " & ") == " * ";
      } else if c == '&' {
        assert one == "&";
      } else {
        assert one == [c];
      }
    }
  }

  lemma ScanOne(c: char, st: SqState)
    ensures Scan([c], st) == Step(st, c)
  {
    var f := Step(st, c);
    assert [c][1..] == [];
    assert Scan([c], st) == (f.0 + [], f.1);
    assert f.0 + [] == f.0;
  }

  /** What the scanner does with one padded character. */
  lemma PadCharScan(c: char, st: SqState)
    ensures Scan(PadChar(c), st) ==
      if IsSpace(c) then ([], st.(pend := Bump(st.pend, c)))
      else if IsMarker(c) then ((if st.started then " " else []) + [c], SqState(true, OnePend(' ')))
      else ((if st.started then Flush(st.pend) else []) + [c], SqState(true, NoPend))
  {
    if IsMarker(c) {
      var s1 := st.(pend := Bump(st.pend, ' '));
      var s2 := SqState(true, NoPend);
      assert Flush(s1.pend) == " ";
      assert PadChar(c) == [' '] + ([c] + [' ']);
      ScanConcat([' '], [c] + [' '], st);
      ScanOne(' ', st);
      ScanConcat([c], [' '], s1);
      ScanOne(c, s1);
      ScanOne(' ', s2);
      var tail := Scan([c] + [' '], s1);
      assert tail == ((if st.started then " " else []) + [c], SqState(true, OnePend(' ')));
      assert Scan([' '], st) == ([], s1);
      assert Scan(PadChar(c), st).0 == [] + tail.0;
      assert Scan(PadChar(c), st).1 == tail.1;
      assert [] + tail.0 == tail.0;
    } else {
      ScanOne(c, st);
    }
  }

  lemma PadScanFirst(x: string, st: SqState)
    requires x != []
    ensures Scan(Pad(x), st).0 == Scan(PadChar(x[0]), st).0 + Scan(Pad(x[1..]), Scan(PadChar(x[0]), st).1).0
    ensures Scan(Pad(x), st).1 == Scan(Pad(x[1..]), Scan(PadChar(x[0]), st).1).1
  {
    ScanConcat(PadChar(x[0]), Pad(x[1..]), st);
  }

  // ---------------------------------------------------------------------
  // The shape of a squeezed, padded type

  /** Every `*` and `&` has a plain space or the end of the text on either
      side. */
  predicate MarkersSpaced(w: string) {
    forall k {:trigger IsMarker(w[k])} :: 0 <= k < |w| && IsMarker(w[k]) ==>
      (k == 0 || w[k - 1] == ' ') && (k == |w| - 1 || w[k + 1] == ' ')
  }

  predicate Spaced(w: string) {
    NoEdgeSpace(w) && NoAdjacentSpace(w) && MarkersSpaced(w)
  }

  /** What the scanner has emitted so far, and the state it is in, after any
      padded prefix. */
  predicate ScanInv(out: string, st: SqState) {
    && (st.started <==> out != [])
    && (out != [] ==> !IsSpace(out[0]) && !IsSpace(out[|out| - 1]))
    && NoAdjacentSpace(out)
    && MarkersSpaced(out)
    && (st.pend.OnePend? ==> IsSpace(st.pend.c))
    && (out != [] && IsMarker(out[|out| - 1]) ==> st.pend == ManyPend || st.pend == OnePend(' '))
  }

  lemma ScanInvStep(out: string, st: SqState, c: char)
    requires ScanInv(out, st)
    ensures ScanInv(out + Scan(PadChar(c), st).0, Scan(PadChar(c), st).1)
  {
    PadCharScan(c, st);
    if !IsSpace(c) {
      var piece := Scan(PadChar(c), st).0;
      var out' := out + piece;
      assert piece[|piece| - 1] == c;
      assert |piece| <= 2;
      assert |piece| == 2 ==> IsSpace(piece[0]);
      assert |piece| == 2 ==> st.started;
      assert IsMarker(c) && |piece| == 2 ==> piece[0] == ' ';
      assert out != [] && IsMarker(out[|out| - 1]) ==> |piece| == 2 && piece[0] == ' ';
      forall k | 0 <= k < |out'| - 1
        ensures !(IsSpace(out'[k]) && IsSpace(out'[k + 1]))
      {
        if k + 1 < |out| {
          assert out'[k] == out[k] && out'[k + 1] == out[k + 1];
        }
      }
      forall k | 0 <= k < |out'| && IsMarker(out'[k])
        ensures (k == 0 || out'[k - 1] == ' ') && (k == |out'| - 1 || out'[k + 1] == ' ')
      {
        if k < |out| {
          assert out'[k] == out[k];
          if k > 0 { assert out'[k - 1] == out[k - 1]; }
          if k + 1 < |out| { assert out'[k + 1] == out[k + 1]; }
        }
      }
    }
  }

  lemma {:induction false} ScanInvPad(out: string, st: SqState, x: string)
    requires ScanInv(out, st)
    ensures ScanInv(out + Scan(Pad(x), st).0, Scan(Pad(x), st).1)
    decreases |x|
  {
    if x != [] {
      var whole := Scan(Pad(x), st);
      var r := Scan(PadChar(x[0]), st);
      var r2 := Scan(Pad(x[1..]), r.1);
      PadScanFirst(x, st);
      assert whole.0 == r.0 + r2.0 && whole.1 == r2.1;
      assert out + whole.0 == (out + r.0) + r2.0;
      ScanInvStep(out, st, x[0]);
      ScanInvPad(out + r.0, r.1, x[1..]);
      ScanInvTransfer((out + r.0) + r2.0, out + whole.0, r2.1, whole.1);
    }
  }

  lemma ScanInvTransfer(a: string, b: string, st1: SqState, st2: SqState)
    requires a == b && st1 == st2 && ScanInv(a, st1)
    ensures ScanInv(b, st2)
  {
  }

  /** `_squeeze` of a padded type: no whitespace at the ends, no two
      whitespace characters in a row, and a plain space beside every `*` and
      `&`. */
  lemma SqueezePadSpaced(x: string)
    ensures Spaced(Squeeze(PadMarkers(x)))
  {
    PadMarkersIsPad(x);
    SqueezeIsScan(Pad(x));
    ScanInvPad([], Init, x);
    assert [] + Scan(Pad(x), Init).0 == Scan(Pad(x), Init).0;
  }

  // ---------------------------------------------------------------------
  // A spaced text is a fixed point of pad-then-squeeze

  /** The scanner's output and state after the padded prefix `w[..i]` of a
      spaced `w`: the prefix itself, less a trailing whitespace character,
      which is still pending. */
  function Expected(w: string, i: nat): (string, SqState)
    requires i <= |w|
  {
    if i == 0 then ([], Init)
    else if !IsSpace(w[i - 1]) then
      (w[..i], SqState(true, if IsMarker(w[i - 1]) then OnePend(' ') else NoPend))
    else if i >= 2 && IsMarker(w[i - 2]) then (w[..i - 1], SqState(true, ManyPend))
    else (w[..i - 1], SqState(true, OnePend(w[i - 1])))
  }

  lemma ScanPadSnoc(a: string, c: char, st: SqState)
    ensures Scan(Pad(a + [c]), st).0 == Scan(Pad(a), st).0 + Scan(PadChar(c), Scan(Pad(a), st).1).0
    ensures Scan(Pad(a + [c]), st).1 == Scan(PadChar(c), Scan(Pad(a), st).1).1
  {
    PadConcat(a, [c]);
    assert Pad([c]) == PadChar(c) + [] == PadChar(c);
    ScanConcat(Pad(a), PadChar(c), st);
  }

  /** The step predicate of `SpacedStep`, one case at a time. */
  predicate StepAgrees(w: string, i: nat)
    requires i < |w|
  {
    Expected(w, i + 1).0 == Expected(w, i).0 + Scan(PadChar(w[i]), Expected(w, i).1).0 &&
    Expected(w, i + 1).1 == Scan(PadChar(w[i]), Expected(w, i).1).1
  }

  lemma StepFirst(w: string)
    requires Spaced(w) && 0 < |w|
    ensures StepAgrees(w, 0)
  {
    PadCharScan(w[0], Init);
    assert w[..1] == [w[0]];
  }

  lemma StepIntoSpace(w: string, i: nat)
    requires Spaced(w) && 0 < i < |w| && IsSpace(w[i])
    ensures StepAgrees(w, i)
  {
    var e := Expected(w, i);
    assert !IsSpace(w[i - 1]);
    assert e == (w[..i], SqState(true, if IsMarker(w[i - 1]) then OnePend(' ') else NoPend));
    PadCharScan(w[i], e.1);
    if IsMarker(w[i - 1]) {
      assert w[i] == ' ';
    }
  }

  lemma StepAfterSpace(w: string, i: nat)
    requires Spaced(w) && 0 < i < |w| && !IsSpace(w[i]) && IsSpace(w[i - 1])
    ensures StepAgrees(w, i)
  {
    var c := w[i];
    assert i >= 2;
    assert w[..i + 1] == w[..i] + [c];
    assert w[..i] == w[..i - 1] + [w[i - 1]];
    PadCharScan(c, Expected(w, i).1);
    if IsMarker(c) {
      assert w[i - 1] == ' ';
    }
  }

  lemma StepInWord(w: string, i: nat)
    requires Spaced(w) && 0 < i < |w| && !IsSpace(w[i]) && !IsSpace(w[i - 1])
    ensures StepAgrees(w, i)
  {
    var c := w[i];
    assert w[..i + 1] == w[..i] + [c];
    assert !IsMarker(c);
    assert !IsMarker(w[i - 1]);
    PadCharScan(c, Expected(w, i).1);
  }

  lemma SpacedStep(w: string, i: nat)
    requires Spaced(w) && i < |w|
    ensures StepAgrees(w, i)
  {
    if i == 0 {
      StepFirst(w);
    } else if IsSpace(w[i]) {
      StepIntoSpace(w, i);
    } else if IsSpace(w[i - 1]) {
      StepAfterSpace(w, i);
    } else {
      StepInWord(w, i);
    }
  }

  lemma {:induction false} SpacedScanPrefix(w: string, i: nat)
    requires Spaced(w) && i <= |w|
    ensures Scan(Pad(w[..i]), Init) == Expected(w, i)
    decreases i
  {
    if i > 0 {
      SpacedScanPrefix(w, i - 1);
      assert w[..i] == w[..i - 1] + [w[i - 1]];
      ScanPadSnoc(w[..i - 1], w[i - 1], Init);
      SpacedStep(w, i - 1);
    }
  }

  /** Padding and squeezing a spaced text gives it back. */
  lemma SpacedFixed(w: string)
    requires Spaced(w)
    ensures Squeeze(PadMarkers(w)) == w
  {
    SpacedScanPrefix(w, |w|);
    assert w[..|w|] == w;
    PadMarkersIsPad(w);
    SqueezeIsScan(Pad(w));
  }

  // ---------------------------------------------------------------------
  // Joining `* *` is invisible to pad-then-squeeze

  /** What the scanner emits for a padded `*` from state `st`. */
  function StarOut(st: SqState): string {
    (if st.started then " " else []) + ['*']
  }

  lemma StarOnce(st: SqState)
    ensures Scan(Pad("*"), st) == (StarOut(st), SqState(true, OnePend(' ')))
  {
    assert "*" == [] + ['*'];
    ScanPadSnoc([], '*', st);
    PadCharScan('*', st);
  }

  lemma StarTwice(st: SqState)
    ensures Scan(Pad("**"), st) == (StarOut(st) + " *", SqState(true, OnePend(' ')))
  {
    StarOnce(st);
    assert "*" + ['*'] == "**";
    ScanPadSnoc("*", '*', st);
    PadCharScan('*', SqState(true, OnePend(' ')));
    assert " " + ['*'] == " *";
  }

  lemma StarSpace(st: SqState)
    ensures Scan(Pad("* "), st) == (StarOut(st), SqState(true, ManyPend))
  {
    StarOnce(st);
    assert "*" + [' '] == "* ";
    ScanPadSnoc("*", ' ', st);
    PadCharScan(' ', SqState(true, OnePend(' ')));
  }

  lemma StarSpaceStar(st: SqState)
    ensures Scan(Pad("* *"), st) == (StarOut(st) + " *", SqState(true, OnePend(' ')))
  {
    StarSpace(st);
    assert "* " + ['*'] == "* *";
    ScanPadSnoc("* ", '*', st);
    PadCharScan('*', SqState(true, ManyPend));
    assert " " + ['*'] == " *";
  }

  lemma StarPairScan(st: SqState)
    ensures Scan(Pad("**"), st) == Scan(Pad("* *"), st)
  {
    StarTwice(st);
    StarSpaceStar(st);
  }

  lemma ScanPadConcat(a: string, b: string, st: SqState)
    ensures Scan(Pad(a + b), st).0 == Scan(Pad(a), st).0 + Scan(Pad(b), Scan(Pad(a), st).1).0
    ensures Scan(Pad(a + b), st).1 == Scan(Pad(b), Scan(Pad(a), st).1).1
  {
    PadConcat(a, b);
    ScanConcat(Pad(a), Pad(b), st);
  }

  lemma {:induction false} JoinInvisible(s: string, st: SqState)
    ensures Scan(Pad(JoinStars(s)), st) == Scan(Pad(s), st)
    decreases |s|
  {
    if s != [] {
      if "* *" <= s {
        var t := s[3..];
        assert s == "* *" + t;
        assert JoinStars(s) == "**" + JoinStars(t);
        StarPairScan(st);
        ScanPadConcat("**", JoinStars(t), st);
        ScanPadConcat("* *", t, st);
        JoinInvisible(t, Scan(Pad("**"), st).1);
      } else {
        var t := s[1..];
        assert s == [s[0]] + t;
        assert JoinStars(s) == [s[0]] + JoinStars(t);
        ScanPadConcat([s[0]], JoinStars(t), st);
        ScanPadConcat([s[0]], t, st);
        JoinInvisible(t, Scan(Pad([s[0]]), st).1);
      }
    }
  }

  /** Squeezing a padded, star-joined spaced text gives the spaced text. */
  lemma JoinedSpacedFixed(w: string)
    requires Spaced(w)
    ensures Squeeze(PadMarkers(JoinStars(w))) == w
  {
    SpacedFixed(w);
    PadMarkersIsPad(w);
    PadMarkersIsPad(JoinStars(w));
    SqueezeIsScan(Pad(w));
    SqueezeIsScan(Pad(JoinStars(w)));
    JoinInvisible(w, Init);
  }

  lemma {:induction false} JoinPrefix(a: string, b: string)
    requires '*' !in a
    ensures JoinStars(a + b) == a + JoinStars(b)
    decreases |a|
  {
    if a == [] {
      assert a + b == b;
    } else {
      assert (a + b)[0] == a[0];
      assert (a + b)[1..] == a[1..] + b;
      assert !("* *" <= a + b);
      JoinPrefix(a[1..], b);
    }
  }

  lemma JoinHead(z: string)
    ensures JoinStars(z) == [] <==> z == []
    ensures z != [] ==> JoinStars(z)[0] == z[0]
  {
  }

  /** A star-free prefix of the joined text is a prefix of the text itself. */
  lemma {:induction false} JoinUnprefix(w: string, a: string, y: string) returns (z: string)
    requires '*' !in a && JoinStars(w) == a + y
    ensures w == a + z && JoinStars(z) == y
    decreases |a|
  {
    if a == [] {
      z := w;
      assert a + y == y;
      assert a + z == z;
    } else {
      JoinHead(w);
      assert (a + y)[0] == a[0];
      assert !("* *" <= w);
      assert JoinStars(w) == [w[0]] + JoinStars(w[1..]);
      assert (a + y)[1..] == a[1..] + y;
      assert JoinStars(w[1..]) == ([w[0]] + JoinStars(w[1..]))[1..];
      var z' := JoinUnprefix(w[1..], a[1..], y);
      z := z';
      assert w == [w[0]] + w[1..];
    }
  }

  // ---------------------------------------------------------------------
  // Moving a leading `const`

  lemma {:induction false} IdentRunOfWord(a: string, b: string)
    requires forall k :: 0 <= k < |a| ==> IsWordChar(a[k])
    requires b == [] || !IsWordChar(b[0])
    ensures IdentRun(a + b) == |a|
    decreases |a|
  {
    if a == [] {
      assert a + b == b;
    } else {
      assert (a + b)[1..] == a[1..] + b;
      IdentRunOfWord(a[1..], b);
    }
  }

  /** `const x` moved to `x const` is still spaced. */
  lemma SpacedMove(id: string, z: string)
    requires id != [] && forall k :: 0 <= k < |id| ==> IsWordChar(id[k])
    requires z == [] || !IsWordChar(z[0])
    requires Spaced("const " + id + z)
    ensures Spaced(id + " const" + z)
  {
    var w := "const " + id + z;
    var w' := id + " const" + z;
    var L := 6 + |id|;
    assert |w| == |w'|;
    assert forall k :: L <= k < |w| ==> w'[k] == w[k] && w[k] == z[k - L];
    assert forall k :: 0 <= k < |id| ==> w'[k] == id[k] && !IsSpace(w'[k]) && !IsMarker(w'[k]);
    assert w[L - 1] == id[|id| - 1];
    assert w'[L - 1] == 't';
    assert forall k :: |id| < k < L ==> !IsSpace(w'[k]) && !IsMarker(w'[k]);
    assert w'[|id|] == ' ';
    assert z != [] ==> w[L] == z[0];
    assert w'[0] == id[0];
    assert NoEdgeSpace(w');
    forall k | 0 <= k < |w'| - 1
      ensures !(IsSpace(w'[k]) && IsSpace(w'[k + 1]))
    {
      if k >= L { assert w'[k] == w[k] && w'[k + 1] == w[k + 1]; }
    }
    forall k | 0 <= k < |w'| && IsMarker(w'[k])
      ensures (k == 0 || w'[k - 1] == ' ') && (k == |w'| - 1 || w'[k + 1] == ' ')
    {
      assert k > L;
      assert IsMarker(w[k]);
      assert w'[k - 1] == w[k - 1];
      if k < |w'| - 1 { assert w'[k + 1] == w[k + 1]; }
    }
  }

  /** Once moved, the `const` is not moved again. */
  lemma MoveConstFixed(id: string, y: string)
    requires id != [] && forall k :: 0 <= k < |id| ==> IsWordChar(id[k])
    requires y == [] || !IsWordChar(y[0])
    ensures MoveConst(id + " const" + y) == id + " const" + y
  {
    var u := id + " const" + y;
    if ConstPrefixMatches(u) {
      assert u[5] == ' ';
      assert |id| == 5;
      assert id == u[..5] == "const";
      assert u[6..] == "const" + y;
      IdentRunOfWord("const", y);
      assert u[6..11] + " const" + u[11..] == u;
    }
  }

  // ---------------------------------------------------------------------
  // The normal form

  /** A text whose leading `const` is moved splits as `const `, the
      identifier after it, and the rest. */
  lemma ConstParts(v: string) returns (id: string, y: string)
    requires ConstPrefixMatches(v)
    ensures v == "const " + id + y && MoveConst(v) == id + " const" + y
    ensures id != [] && forall k :: 0 <= k < |id| ==> IsWordChar(id[k])
    ensures y == [] || !IsWordChar(y[0])
  {
    var n := IdentRun(v[6..]);
    id := v[6..6 + n];
    y := v[6 + n..];
    assert v[..6 + n] == "const " + id;
    assert v == v[..6 + n] + y;
  }

  /** Moving the leading `const` of a joined spaced text gives the joined
      form of another spaced text, whose `const` stays put. */
  lemma ConstMoved(w: string) returns (w': string)
    requires Spaced(w) && ConstPrefixMatches(JoinStars(w))
    ensures Spaced(w') && MoveConst(JoinStars(w)) == JoinStars(w')
    ensures MoveConst(JoinStars(w')) == JoinStars(w')
  {
    var id, y := ConstParts(JoinStars(w));
    var a := "const " + id;
    assert '*' !in a;
    var z := JoinUnprefix(w, a, y);
    JoinHead(z);
    SpacedMove(id, z);
    JoinPrefix(id + " const", z);
    MoveConstFixed(id, y);
    w' := id + " const" + z;
  }

  /** Every normalised type is a spaced text with its `* *` pairs joined,
      and it does not start with a `const` that would still be moved. */
  lemma NormalForm(t: string) returns (w: string)
    ensures Spaced(w) && NormalizeType(t) == JoinStars(w)
    ensures MoveConst(JoinStars(w)) == JoinStars(w)
  {
    w := Squeeze(PadMarkers(t));
    SqueezePadSpaced(t);
    if ConstPrefixMatches(JoinStars(w)) {
      w := ConstMoved(w);
    }
  }

  /** `normalize_type` is a normal form: applying it to its own output
      changes nothing, so two declarations compare equal after one pass
      exactly when they would after any number of passes. */
  lemma NormalizeIdempotent(t: string)
    ensures NormalizeType(NormalizeType(t)) == NormalizeType(t)
  {
    var w := NormalForm(t);
    JoinedSpacedFixed(w);
  }

  lemma {:induction false} JoinLast(z: string)
    requires z != []
    ensures JoinStars(z) != [] && JoinStars(z)[|JoinStars(z)| - 1] == z[|z| - 1]
    decreases |z|
  {
    if "* *" <= z {
      assert JoinStars(z) == "**" + JoinStars(z[3..]);
      if |z| > 3 {
        JoinLast(z[3..]);
        assert z[3..][|z| - 4] == z[|z| - 1];
      } else {
        assert JoinStars(z[3..]) == [];
      }
    } else {
      assert JoinStars(z) == [z[0]] + JoinStars(z[1..]);
      if |z| > 1 {
        JoinLast(z[1..]);
        assert z[1..][|z| - 2] == z[|z| - 1];
      } else {
        assert JoinStars(z[1..]) == [];
      }
    }
  }

  lemma {:induction false} JoinKeepsNoAdjacent(z: string)
    requires NoAdjacentSpace(z)
    ensures NoAdjacentSpace(JoinStars(z))
    decreases |z|
  {
    if z != [] {
      if "* *" <= z {
        var t := z[3..];
        assert NoAdjacentSpace(t) by {
          assert forall k :: 0 <= k < |t| ==> t[k] == z[k + 3];
        }
        JoinKeepsNoAdjacent(t);
        JoinHead(t);
      } else {
        var t := z[1..];
        assert NoAdjacentSpace(t) by {
          assert forall k :: 0 <= k < |t| ==> t[k] == z[k + 1];
        }
        JoinKeepsNoAdjacent(t);
        JoinHead(t);
        var r := [z[0]] + JoinStars(t);
        assert forall k :: 1 <= k < |r| ==> r[k] == JoinStars(t)[k - 1];
      }
    }
  }

  /** A normalised type has no whitespace at either end and no two
      whitespace characters in a row. */
  lemma NormalizeShape(t: string)
    ensures NoEdgeSpace(NormalizeType(t)) && NoAdjacentSpace(NormalizeType(t))
  {
    var w := NormalForm(t);
    JoinKeepsNoAdjacent(w);
    JoinHead(w);
    if w != [] { JoinLast(w); }
  }

  lemma {:induction false} ScanEmitsWord(s: string, st: SqState, k: nat)
    requires k < |s| && !IsSpace(s[k])
    ensures Scan(s, st).0 != []
    decreases |s|
  {
    if k > 0 && IsSpace(s[0]) {
      ScanEmitsWord(s[1..], Step(st, s[0]).1, k - 1);
    }
  }

  /** A type that starts with a non-whitespace character normalises to a
      non-empty text. */
  lemma NormalizeNonEmpty(t: string)
    ensures t != [] && !IsSpace(t[0]) ==> NormalizeType(t) != []
  {
    if t != [] && !IsSpace(t[0]) {
      PadMarkersIsPad(t);
      var k := if IsMarker(t[0]) then 1 else 0;
      assert Pad(t) == PadChar(t[0]) + Pad(t[1..]);
      assert !IsSpace(Pad(t)[k]);
      ScanEmitsWord(Pad(t), Init, k);
      SqueezeIsScan(Pad(t));
      JoinHead(Squeeze(PadMarkers(t)));
    }
  }

  /** What the rest of the model uses about a normalised type. */
  lemma NormalizedFacts(t: string)
    ensures NormalizeType(NormalizeType(t)) == NormalizeType(t)
    ensures NoEdgeSpace(NormalizeType(t)) && NoAdjacentSpace(NormalizeType(t))
    ensures t != [] && !IsSpace(t[0]) ==> NormalizeType(t) != []
  {
    NormalizeIdempotent(t);
    NormalizeShape(t);
    NormalizeNonEmpty(t);
  }
}
