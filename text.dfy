/** Character classes and the Python string operations the tool relies on,
    written as explicit functions over `string` (Python 2 byte strings, whose
    character classes are the ASCII ones). */
module Text {

  /** Python's `str.isspace` and the regex class `\s`: the space and the
      control characters tab, newline, vertical tab, form feed and return. */
  predicate IsSpace(c: char) {
    c == ' ' || c == '\t' || c == '\n' || c == '\r' || c == '\U{B}' || c == '\U{C}'
  }

  predicate IsLower(c: char) { 'a' <= c <= 'z' }

  predicate IsDigit(c: char) { '0' <= c <= '9' }

  /** Python's `str.isalpha` on a byte string. */
  predicate IsAlpha(c: char) { IsLower(c) || 'A' <= c <= 'Z' }

  /** The regex class `\w`, i.e. `[a-zA-Z0-9_]`. */
  predicate IsWordChar(c: char) { IsAlpha(c) || IsDigit(c) || c == '_' }

  predicate StartsWith(s: string, p: string) { p <= s }

  predicate EndsWith(s: string, p: string) {
    |p| <= |s| && s[|s| - |p|..] == p
  }

  /** `sub in s` */
  predicate Contains(s: string, sub: string)
    decreases |s|
  {
    sub <= s || (s != [] && Contains(s[1..], sub))
  }

  lemma {:induction false} ContainsAt(s: string, sub: string, k: nat)
    requires k <= |s| && sub <= s[k..]
    ensures Contains(s, sub)
    decreases k
  {
    if k > 0 {
      assert s[1..][k - 1..] == s[k..];
      ContainsAt(s[1..], sub, k - 1);
    }
  }

  lemma {:induction false} ContainsChar(s: string, c: char)
    ensures Contains(s, [c]) <==> c in s
    decreases |s|
  {
    if s != [] {
      ContainsChar(s[1..], c);
      assert s == [s[0]] + s[1..];
    }
  }

  /** `s.find(c)`: the first index of `c`, or -1. */
  function IndexOf(s: string, c: char): (r: int)
    ensures -1 <= r < |s|
    ensures r == -1 <==> c !in s
    ensures r >= 0 ==> s[r] == c && c !in s[..r]
    ensures forall k :: 0 <= k < |s| && (r == -1 || k < r) ==> s[k] != c
  {
    if s == [] then -1
    else if s[0] == c then 0
    else
      var k := IndexOf(s[1..], c);
      if k == -1 then -1 else assert s[..k + 1] == [s[0]] + s[1..][..k]; k + 1
  }

  /** `s.rfind(c)`: the last index of `c`, or -1. */
  function LastIndexOf(s: string, c: char): (r: int)
    ensures -1 <= r < |s|
    ensures r == -1 <==> c !in s
    ensures r >= 0 ==> s[r] == c && c !in s[r + 1..]
    ensures forall k :: r < k < |s| ==> s[k] != c
  {
    if s == [] then -1
    else if s[|s| - 1] == c then |s| - 1
    else
      var t := s[..|s| - 1];
      var k := LastIndexOf(t, c);
      assert s == t + [s[|s| - 1]];
      LastAfterSnoc(t, s[|s| - 1], c, k, s);
      k
  }

  /** A last index of `c` in `t` is still one after appending another
      character. */
  lemma LastAfterSnoc(t: string, x: char, c: char, k: int, s: string)
    requires s == t + [x] && x != c && -1 <= k < |t|
    requires k == -1 <==> c !in t
    requires k >= 0 ==> t[k] == c
    requires forall j :: k < j < |t| ==> t[j] != c
    ensures k == -1 <==> c !in s
    ensures k >= 0 ==> s[k] == c && c !in s[k + 1..]
    ensures forall j :: k < j < |s| ==> s[j] != c
  {
    assert forall j :: 0 <= j < |t| ==> s[j] == t[j];
    assert s[|t|] == x;
    if k >= 0 {
      var u := s[k + 1..];
      assert forall j :: 0 <= j < |u| ==> u[j] == s[k + 1 + j];
    }
  }

  /** `txt.find(sub, from)`: the first index at or after `from` where `sub`
      occurs, or -1. */
  function FindFrom(txt: string, sub: string, from: nat): (r: int)
    ensures r == -1 || (from <= r && r + |sub| <= |txt| && txt[r..r + |sub|] == sub)
    ensures r == -1 ==> forall k :: from <= k ==> !OccursAt(txt, sub, k)
    ensures r >= 0 ==> forall k :: from <= k < r ==> !OccursAt(txt, sub, k)
    decreases |txt| - from
  {
    if from + |sub| > |txt| then -1
    else if txt[from..from + |sub|] == sub then from
    else FindFrom(txt, sub, from + 1)
  }

  predicate OccursAt(txt: string, sub: string, k: nat) {
    k + |sub| <= |txt| && txt[k..k + |sub|] == sub
  }

  /** Python slicing `s[a:b]` for non-negative bounds: out-of-range bounds are
      clamped and a reversed range is empty. */
  function Slice(s: string, a: nat, b: nat): (r: string)
    ensures a <= b <= |s| ==> r == s[a..b]
    ensures b <= a ==> r == []
  {
    var hi := if b <= |s| then b else |s|;
    if a >= hi then [] else s[a..hi]
  }

  // ---------------------------------------------------------------------
  // Whitespace: strip, rstrip and the squeeze of param.py

  /** The length of the run of whitespace `s` starts with. */
  function SpaceRun(s: string): (n: nat)
    ensures n <= |s|
    ensures forall k :: 0 <= k < n ==> IsSpace(s[k])
    ensures n < |s| ==> !IsSpace(s[n])
  {
    if s != [] && IsSpace(s[0]) then 1 + SpaceRun(s[1..]) else 0
  }

  /** `s.lstrip()` */
  function LStrip(s: string): (r: string)
    ensures |r| <= |s| && r == s[|s| - |r|..]
    ensures r != [] ==> !IsSpace(r[0])
    ensures forall k :: 0 <= k < |s| - |r| ==> IsSpace(s[k])
  {
    s[SpaceRun(s)..]
  }

  /** `s.rstrip()` */
  function RStrip(s: string): (r: string)
    ensures |r| <= |s| && r == s[..|r|]
    ensures r != [] ==> !IsSpace(r[|r| - 1])
    ensures forall k :: |r| <= k < |s| ==> IsSpace(s[k])
  {
    if s != [] && IsSpace(s[|s| - 1]) then RStrip(s[..|s| - 1]) else s
  }

  lemma RStripKeepsHead(s: string)
    requires s != [] && !IsSpace(s[0])
    ensures RStrip(s) != [] && RStrip(s)[0] == s[0]
  {
  }

  /** `s.strip()` */
  function Strip(s: string): (r: string)
  {
    RStrip(LStrip(s))
  }

  /** The effect of `re.sub(r'\s{2,}', ' ', s)`: every maximal run of two
      or more whitespace characters becomes one space; a lone whitespace
      character is kept as it is. */
  function CollapseRuns(s: string): (r: string)
    decreases |s|
  {
    if s == [] then []
    else if !IsSpace(s[0]) then [s[0]] + CollapseRuns(s[1..])
    else
      var n := SpaceRun(s);
      if n >= 2 then " " + CollapseRuns(s[n..]) else [s[0]] + CollapseRuns(s[1..])
  }

  /** `_squeeze` (param.py): collapse whitespace runs, then strip. */
  function Squeeze(s: string): (r: string)
    ensures NoEdgeSpace(r) && NoAdjacentSpace(r)
  {
    CollapseNoAdjacent(s);
    StripKeepsNoAdjacent(CollapseRuns(s));
    Strip(CollapseRuns(s))
  }

  predicate NoEdgeSpace(s: string) {
    s != [] ==> !IsSpace(s[0]) && !IsSpace(s[|s| - 1])
  }

  predicate NoAdjacentSpace(s: string) {
    forall i, j :: 0 <= i < |s| && 0 <= j < |s| && j == i + 1 ==> !(IsSpace(s[i]) && IsSpace(s[j]))
  }

  lemma CollapseHead(s: string)
    ensures CollapseRuns(s) == [] <==> s == []
    ensures s != [] ==> (IsSpace(CollapseRuns(s)[0]) <==> IsSpace(s[0]))
  {
  }

  lemma {:induction false} CollapseNoAdjacent(s: string)
    ensures NoAdjacentSpace(CollapseRuns(s))
    decreases |s|
  {
    if s == [] {
    } else if !IsSpace(s[0]) {
      CollapseNoAdjacent(s[1..]);
    } else {
      var n := SpaceRun(s);
      if n >= 2 {
        CollapseNoAdjacent(s[n..]);
        CollapseHead(s[n..]);
      } else {
        CollapseNoAdjacent(s[1..]);
        CollapseHead(s[1..]);
      }
    }
  }

  lemma StripKeepsNoAdjacent(s: string)
    requires NoAdjacentSpace(s)
    ensures NoAdjacentSpace(Strip(s)) && NoEdgeSpace(Strip(s))
  {
    var l := LStrip(s);
    var r := RStrip(l);
    var a := |s| - |l|;
    assert r == s[a..a + |r|] by {
      assert l[..|r|] == s[a..][..|r|];
    }
    NoAdjacentSlice(s, a, a + |r|);
    if r != [] {
      assert r[0] == l[0];
    }
  }

  lemma {:induction false} CollapseIdentity(s: string)
    requires NoAdjacentSpace(s)
    ensures CollapseRuns(s) == s
    decreases |s|
  {
    if s != [] {
      assert NoAdjacentSpace(s[1..]) by {
        assert forall k :: 0 <= k < |s| - 2 ==> s[1..][k] == s[k + 1];
      }
      CollapseIdentity(s[1..]);
      if IsSpace(s[0]) {
        assert SpaceRun(s) == 1 by {
          assert |s| > 1 ==> !IsSpace(s[1]);
        }
      }
    }
  }

  lemma StripIdentity(s: string)
    requires NoEdgeSpace(s)
    ensures Strip(s) == s
  {
  }

  /** A string that is already squeezed is left unchanged; in particular a
      lone tab or newline between words survives. */
  lemma SqueezeFixesSqueezed(s: string)
    requires NoEdgeSpace(s) && NoAdjacentSpace(s)
    ensures Squeeze(s) == s
  {
    CollapseIdentity(s);
    StripIdentity(s);
  }

  lemma SqueezeIdempotent(s: string)
    ensures Squeeze(Squeeze(s)) == Squeeze(s)
  {
    SqueezeFixesSqueezed(Squeeze(s));
  }

  /** `x + [c] + y` with no whitespace in `x` or `y` other than the lone `c`
      squeezes to itself: a single tab or newline is not turned into a space. */
  lemma SqueezeKeepsLoneSpace(x: string, c: char, y: string)
    requires x != [] && y != [] && IsSpace(c)
    requires forall k :: 0 <= k < |x| ==> !IsSpace(x[k])
    requires forall k :: 0 <= k < |y| ==> !IsSpace(y[k])
    ensures Squeeze(x + [c] + y) == x + [c] + y
  {
    var s := x + [c] + y;
    forall k | 0 <= k < |s| - 1
      ensures !(IsSpace(s[k]) && IsSpace(s[k + 1]))
    {
      if k < |x| - 1 { assert s[k] == x[k]; }
      else if k == |x| - 1 { assert s[k] == x[k]; }
      else if k == |x| { assert s[k + 1] == y[0]; }
      else { assert s[k] == y[k - |x| - 1]; }
    }
    assert s[|s| - 1] == y[|y| - 1];
    SqueezeFixesSqueezed(s);
  }

  lemma {:induction false} SpaceRunAppend(x: string, y: string)
    requires x != [] && !IsSpace(x[|x| - 1])
    ensures SpaceRun(x + y) == SpaceRun(x)
    decreases |x|
  {
    if IsSpace(x[0]) {
      assert (x + y)[1..] == x[1..] + y;
      SpaceRunAppend(x[1..], y);
    }
  }

  /** Whitespace runs do not straddle a non-space character, so collapsing
      a concatenation that breaks after one collapses each part. */
  lemma {:induction false} CollapseAppend(x: string, y: string)
    requires x == [] || !IsSpace(x[|x| - 1])
    ensures CollapseRuns(x + y) == CollapseRuns(x) + CollapseRuns(y)
    decreases |x|
  {
    if x == [] {
      assert x + y == y;
    } else {
      var s := x + y;
      assert s[0] == x[0];
      var n := if IsSpace(x[0]) && SpaceRun(x) >= 2 then SpaceRun(x) else 1;
      assert s[n..] == x[n..] + y;
      CollapseAppend(x[n..], y);
      CollapseAppendStep(x, y, n);
    }
  }

  /** One step of `CollapseAppend`: the first character or whitespace run
      of `x` is the first of `x + y`. */
  lemma CollapseAppendStep(x: string, y: string, n: nat)
    requires x != [] && !IsSpace(x[|x| - 1])
    requires n == if IsSpace(x[0]) && SpaceRun(x) >= 2 then SpaceRun(x) else 1
    requires CollapseRuns(x[n..] + y) == CollapseRuns(x[n..]) + CollapseRuns(y)
    ensures CollapseRuns(x + y) == CollapseRuns(x) + CollapseRuns(y)
  {
    if IsSpace(x[0]) {
      SpaceRunAppend(x, y);
    }
    if n >= 2 {
      CollapseRunStep(x, y, n);
    } else {
      CollapseCharStep(x, y);
    }
  }

  lemma CollapseRunStep(x: string, y: string, n: nat)
    requires x != [] && IsSpace(x[0]) && n == SpaceRun(x) == SpaceRun(x + y) && n >= 2
    requires CollapseRuns(x[n..] + y) == CollapseRuns(x[n..]) + CollapseRuns(y)
    ensures CollapseRuns(x + y) == CollapseRuns(x) + CollapseRuns(y)
  {
    DropAppend(x, y, n);
    CollapseRunHead(x + y, n);
    CollapseRunHead(x, n);
    calc {
      CollapseRuns(x + y);
      " " + CollapseRuns(x[n..] + y);
      " " + (CollapseRuns(x[n..]) + CollapseRuns(y));
      (" " + CollapseRuns(x[n..])) + CollapseRuns(y);
    }
  }

  /** A run of two or more whitespace characters collapses to one space. */
  lemma CollapseRunHead(s: string, n: nat)
    requires s != [] && IsSpace(s[0]) && n == SpaceRun(s) && n >= 2
    ensures CollapseRuns(s) == " " + CollapseRuns(s[n..])
  {
  }

  lemma CollapseCharStep(x: string, y: string)
    requires x != [] && (!IsSpace(x[0]) || (SpaceRun(x) < 2 && SpaceRun(x + y) == SpaceRun(x)))
    requires CollapseRuns(x[1..] + y) == CollapseRuns(x[1..]) + CollapseRuns(y)
    ensures CollapseRuns(x + y) == CollapseRuns(x) + CollapseRuns(y)
  {
    DropAppend(x, y, 1);
    var s := x + y;
    assert s != [] && s[0] == x[0];
    calc {
      CollapseRuns(s);
      [x[0]] + CollapseRuns(x[1..] + y);
      [x[0]] + (CollapseRuns(x[1..]) + CollapseRuns(y));
      ([x[0]] + CollapseRuns(x[1..])) + CollapseRuns(y);
      CollapseRuns(x) + CollapseRuns(y);
    }
  }

  lemma DropAppend(x: string, y: string, n: nat)
    requires n <= |x|
    ensures (x + y)[n..] == x[n..] + y
  {
  }

  /** Two squeezed texts joined by a double space squeeze to the texts
      joined by one space. */
  lemma SqueezeDoubleSpace(a: string, b: string)
    requires a != [] && NoEdgeSpace(a) && NoAdjacentSpace(a)
    requires b != [] && NoEdgeSpace(b) && NoAdjacentSpace(b)
    ensures Squeeze(a + "  " + b) == a + " " + b
  {
    var t := "  " + b;
    assert a + "  " + b == a + t;
    CollapseAppend(a, t);
    CollapseIdentity(a);
    CollapseDoubleSpace(b);
    assert CollapseRuns(a + t) == a + " " + b;
    SpaceJoin(a, b);
    StripIdentity(a + " " + b);
  }

  /** A double space before a squeezed text collapses to one. */
  lemma CollapseDoubleSpace(b: string)
    requires b != [] && NoEdgeSpace(b) && NoAdjacentSpace(b)
    ensures CollapseRuns("  " + b) == " " + b
  {
    var t := "  " + b;
    assert SpaceRun(t) == 2 by {
      assert t[1..] == " " + b;
      assert (" " + b)[1..] == b;
    }
    assert t[2..] == b;
    CollapseIdentity(b);
  }

  lemma NoAdjacentSlice(s: string, i: nat, j: nat)
    requires NoAdjacentSpace(s) && i <= j <= |s|
    ensures NoAdjacentSpace(s[i..j])
  {
    var t := s[i..j];
    forall k | 0 <= k < |t| - 1
      ensures !(IsSpace(t[k]) && IsSpace(t[k + 1]))
    {
      assert t[k] == s[i + k] && t[k + 1] == s[i + k + 1];
    }
  }

  /** Two squeezed words joined by one space form a squeezed text. */
  lemma SpaceJoin(a: string, b: string)
    requires a != [] && NoEdgeSpace(a) && NoAdjacentSpace(a)
    requires b != [] && NoEdgeSpace(b) && NoAdjacentSpace(b)
    ensures NoEdgeSpace(a + " " + b) && NoAdjacentSpace(a + " " + b)
  {
    var s := a + " " + b;
    forall k | 0 <= k < |s| - 1
      ensures !(IsSpace(s[k]) && IsSpace(s[k + 1]))
    {
      if k + 1 < |a| {
        assert s[k] == a[k] && s[k + 1] == a[k + 1];
      } else if k + 1 == |a| {
        assert s[k] == a[k];
      } else if k == |a| {
        assert s[k + 1] == b[0];
      } else {
        assert s[k] == b[k - |a| - 1] && s[k + 1] == b[k - |a|];
      }
    }
    assert s[0] == a[0] && s[|s| - 1] == b[|b| - 1];
  }

  // ---------------------------------------------------------------------
  // str.replace

  /** `s.replace(pat, rep)`: non-overlapping occurrences of `pat`, left to
      right, are replaced by `rep`. */
  function ReplaceAll(s: string, pat: string, rep: string): (r: string)
    requires pat != []
    decreases |s|
  {
    if s == [] then []
    else if pat <= s then rep + ReplaceAll(s[|pat|..], pat, rep)
    else [s[0]] + ReplaceAll(s[1..], pat, rep)
  }

  lemma {:induction false} ReplaceAllAbsent(s: string, pat: string, rep: string)
    requires pat != [] && !Contains(s, pat)
    ensures ReplaceAll(s, pat, rep) == s
    decreases |s|
  {
    if s != [] {
      ReplaceAllAbsent(s[1..], pat, rep);
    }
  }

  /** `replace` leaves a prefix alone when no occurrence of the pattern
      starts inside it. */
  lemma {:induction false} ReplaceAllKeepsPrefix(x: string, y: string, pat: string, rep: string)
    requires pat != []
    requires forall k :: 0 <= k < |x| ==> !(pat <= (x + y)[k..])
    ensures ReplaceAll(x + y, pat, rep) == x + ReplaceAll(y, pat, rep)
    decreases |x|
  {
    if x != [] {
      var s := x + y;
      assert s[0..] == s;
      assert s[1..] == x[1..] + y;
      forall k | 0 <= k < |x| - 1
        ensures !(pat <= (x[1..] + y)[k..])
      {
        assert (x[1..] + y)[k..] == s[k + 1..];
      }
      ReplaceAllKeepsPrefix(x[1..], y, pat, rep);
    }
  }

  /** No occurrence of a word without spaces starts inside `a + " "` when
      `a` does not contain it. */
  lemma NoWordBeforeSpace(a: string, w: string, y: string)
    requires w != [] && ' ' !in w && !Contains(a, w)
    ensures forall k :: 0 <= k < |a| + 1 ==> !(w <= (a + " " + y)[k..])
  {
    var s := a + " " + y;
    forall k | 0 <= k < |a| + 1
      ensures !(w <= s[k..])
    {
      if k + |w| <= |a| {
        if w <= s[k..] {
          assert a[k..][..|w|] == s[k..][..|w|];
          ContainsAt(a, w, k);
        }
      } else {
        assert |a| - k < |w| && s[k..][|a| - k] == ' ';
      }
    }
  }

  /** Deleting every `w` from `w + " " + b`, where `b` does not contain
      `w`, leaves `" " + b`. */
  lemma ReplaceLeadingWord(w: string, b: string)
    requires w != [] && w[0] != ' ' && !Contains(b, w)
    ensures ReplaceAll(w + " " + b, w, "") == " " + b
  {
    var y := w + " " + b;
    assert w <= y && y[|w|..] == " " + b;
    assert ReplaceAll(y, w, "") == ReplaceAll(" " + b, w, "");
    assert (" " + b)[1..] == b;
    assert !(w <= " " + b) by { assert (" " + b)[0] == ' '; }
    ReplaceAllAbsent(b, w, "");
  }

  /** Deleting every `w` from `a + " " + w + " " + b`, where neither `a`
      nor `b` contains `w`, leaves the two spaces. */
  lemma ReplaceDropsWord(a: string, w: string, b: string)
    requires w != [] && ' ' !in w && !Contains(a, w) && !Contains(b, w)
    ensures ReplaceAll(a + " " + w + " " + b, w, "") == a + "  " + b
  {
    var y := w + " " + b;
    calc {
      ReplaceAll(a + " " + w + " " + b, w, "");
    == { assert a + " " + w + " " + b == (a + " ") + y; }
      ReplaceAll((a + " ") + y, w, "");
    == { NoWordBeforeSpace(a, w, y); ReplaceAllKeepsPrefix(a + " ", y, w, ""); }
      (a + " ") + ReplaceAll(y, w, "");
    == { ReplaceLeadingWord(w, b); }
      (a + " ") + (" " + b);
      a + "  " + b;
    }
  }
}
