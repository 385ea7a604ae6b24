/** The driver of the const-qualification tool (const_fix.py): classifying
    functions by their parameter texts, splicing rendered parameters back
    into files, trying a change and backing it out when the build or the
    tests fail, the per-parameter decisions of `fix_func`, pruning the call
    graph, the main loop over leaves, and the outcomes log. The compiler,
    the test suite, the prototype search over the codebase and the call
    graph's parameter lookup are parameters of the model. */
module ConstFix {
  import opened Wrappers
  import opened Text
  import opened Params
  import opened Prototypes
  import opened Callgraphs
  import opened SafeChange

  // ---------------------------------------------------------------------
  // `_classify_func` (const_fix.py:295-308)

  datatype ConstClass = ConstIrrelevant | ConstMatters | ObnoxiousConst

  /** `classify_labels` */
  function Label(c: ConstClass): string {
    match c
    case ConstIrrelevant => "CONST_IRRELEVANT"
    case ConstMatters => "CONST_MATTERS"
    case ObnoxiousConst => "OBNOXIOUS_CONST"
  }

  /** A parameter text through which a caller's data could be changed: a
      pointer or reference that is neither `const` nor `void`. */
  predicate Mutable(p: string) {
    ('*' in p || '&' in p) && !Contains(p, "const") && !Contains(p, "void")
  }

  /** The loop of `_classify_func` over the parameter texts left, `cls`
      being the class found so far; the first mutable parameter returns at
      once. */
  function ClassifyFrom(ps: seq<string>, cls: ConstClass): ConstClass
    decreases |ps|
  {
    if ps == [] then cls
    else if Mutable(ps[0]) then ConstMatters
    else if Contains(ps[0], "const") then ClassifyFrom(ps[1..], ObnoxiousConst)
    else ClassifyFrom(ps[1..], cls)
  }

  /** `_classify_func(params)`: `None` and the empty list are irrelevant. */
  function Classify(params: Option<seq<string>>): ConstClass {
    if params.None? || params.value == [] then ConstIrrelevant
    else ClassifyFrom(params.value, ConstIrrelevant)
  }

  /** What the loop finds: any mutable parameter decides; otherwise a
      `const` parameter, or the class it started with. */
  lemma {:induction false} ClassifyFromMeaning(ps: seq<string>, cls: ConstClass)
    requires cls != ConstMatters
    ensures ClassifyFrom(ps, cls) ==
      if exists p :: p in ps && Mutable(p) then ConstMatters
      else if cls == ObnoxiousConst || exists p :: p in ps && Contains(p, "const") then ObnoxiousConst
      else cls
    decreases |ps|
  {
    if ps != [] {
      assert ps == [ps[0]] + ps[1..];
      if !Mutable(ps[0]) {
        ClassifyFromMeaning(ps[1..], if Contains(ps[0], "const") then ObnoxiousConst else cls);
      }
    }
  }

  /** The three classes of `_classify_func`. */
  lemma ClassifyMeaning(params: Option<seq<string>>)
    ensures Classify(params) == ConstMatters <==>
      params.Some? && exists p :: p in params.value && Mutable(p)
    ensures Classify(params) == ObnoxiousConst <==>
      && params.Some? && (forall p :: p in params.value ==> !Mutable(p))
      && exists p :: p in params.value && Contains(p, "const")
    ensures params.None? || params.value == [] ==> Classify(params) == ConstIrrelevant
  {
    if params.Some? && params.value != [] {
      ClassifyFromMeaning(params.value, ConstIrrelevant);
    }
  }

  /** The class does not depend on the order of the parameters. */
  lemma ClassifyOrderFree(a: seq<string>, b: seq<string>)
    requires multiset(a) == multiset(b)
    ensures Classify(Some(a)) == Classify(Some(b))
  {
    ClassifyMeaning(Some(a));
    ClassifyMeaning(Some(b));
    assert forall p :: p in a <==> p in b by {
      forall p ensures p in a <==> p in b {
        assert p in a <==> p in multiset(a);
        assert p in b <==> p in multiset(b);
      }
    }
  }

  /** `_pluralize` */
  function Pluralize(noun: string, count: int): (r: string)
    ensures StartsWith(r, noun)
    ensures |r| == if count == 1 then |noun| else |noun| + 1
    ensures count != 1 ==> r[|noun|] == 's'
  {
    if count == 1 then noun else noun + "s"
  }

  /** `str(n)` for a count. */
  function NatToString(n: nat): (r: string)
    ensures r != [] && forall k :: 0 <= k < |r| ==> IsDigit(r[k])
    decreases n
  {
    var d := ['0' + (n % 10) as char];
    if n < 10 then d else NatToString(n / 10) + d
  }

  /** Reading decimal digits back. */
  function DigitsValue(s: string): nat
    requires forall k :: 0 <= k < |s| ==> IsDigit(s[k])
    decreases |s|
  {
    if s == [] then 0
    else
      assert IsDigit(s[|s| - 1]);
      DigitsValue(s[..|s| - 1]) * 10 + (s[|s| - 1] as int - '0' as int)
  }

  lemma {:induction false} NatToStringValue(n: nat)
    ensures DigitsValue(NatToString(n)) == n
    decreases n
  {
    var d := ['0' + (n % 10) as char];
    if n >= 10 {
      NatToStringValue(n / 10);
      var s := NatToString(n / 10) + d;
      assert s[..|s| - 1] == NatToString(n / 10);
    }
  }

  // ---------------------------------------------------------------------
  // The splice of `rewrite_prototypes` (const_fix.py:163-187)

  /** One replacement in a file's text: the span `[begin, end)` gives way
      to `text`. */
  datatype Edit = Edit(begin: nat, end: nat, text: string)

  /** A parameter's edit: its declaration as read gives way to
      `str(param)`. */
  function EditOf(p: Param): Edit {
    Edit(p.begin, p.begin + |p.decl|, Render(p))
  }

  function Edits(ps: seq<Param>): (es: seq<Edit>)
    ensures |es| == |ps| && forall k :: 0 <= k < |ps| ==> es[k] == EditOf(ps[k])
  {
    seq(|ps|, k requires 0 <= k < |ps| => EditOf(ps[k]))
  }

  /** The text written: from cursor `i`, the text up to each edit, the
      edit's text, the cursor moved to the edit's end; then the rest of
      the file. Python's slices clamp. */
  function Applied(txt: string, i: nat, es: seq<Edit>): string
    decreases |es|
  {
    if es == [] then Slice(txt, i, |txt|)
    else Slice(txt, i, es[0].begin) + es[0].text + Applied(txt, es[0].end, es[1..])
  }

  /** The edits lie in `txt` from `lo` on, in ascending order without
      overlap. */
  predicate Ordered(txt: string, lo: nat, es: seq<Edit>)
    decreases |es|
  {
    es == [] || (lo <= es[0].begin <= es[0].end <= |txt| && Ordered(txt, es[0].end, es[1..]))
  }

  /** An edit that writes back the text it replaces. */
  predicate Keeps(txt: string, e: Edit) {
    e.begin <= e.end <= |txt| && e.text == txt[e.begin..e.end]
  }

  /** Every edit but the one at `except` writes back what it replaces. */
  predicate KeepsAll(txt: string, es: seq<Edit>, except: int) {
    forall k :: 0 <= k < |es| && k != except ==> Keeps(txt, es[k])
  }

  lemma AppliedStep(txt: string, i: nat, es: seq<Edit>)
    requires es != []
    ensures Applied(txt, i, es) == Slice(txt, i, es[0].begin) + es[0].text + Applied(txt, es[0].end, es[1..])
  {
  }

  lemma KeepsRest(txt: string, es: seq<Edit>, except: int)
    requires es != [] && KeepsAll(txt, es, except)
    ensures KeepsAll(txt, es[1..], except - 1)
  {
    forall k | 0 <= k < |es[1..]| && k != except - 1 ensures Keeps(txt, es[1..][k]) {
      assert es[1..][k] == es[k + 1];
    }
  }

  /** Edits that write back what they replace give the text back. */
  lemma {:induction false} AppliedIdentity(txt: string, i: nat, es: seq<Edit>)
    requires i <= |txt| && Ordered(txt, i, es) && KeepsAll(txt, es, -1)
    ensures Applied(txt, i, es) == txt[i..]
    decreases |es|
  {
    if es != [] {
      var e := es[0].end;
      assert Keeps(txt, es[0]);
      KeepsRest(txt, es, -1);
      assert txt[i..] == txt[i..e] + txt[e..];
      AppliedSkip(txt, i, es);
      AppliedIdentity(txt, e, es[1..]);
    }
  }

  /** Every edit of an ordered list lies at or after `lo`. */
  lemma {:induction false} OrderedFrom(txt: string, lo: nat, es: seq<Edit>)
    requires Ordered(txt, lo, es)
    ensures forall k :: 0 <= k < |es| ==> lo <= es[k].begin <= es[k].end <= |txt|
    decreases |es|
  {
    if es != [] {
      OrderedFrom(txt, es[0].end, es[1..]);
      forall k | 1 <= k < |es| ensures lo <= es[k].begin <= es[k].end <= |txt| {
        assert es[1..][k - 1] == es[k];
      }
    }
  }

  /** A first edit that writes back what it replaces is copied with the
      text before it. */
  lemma AppliedSkip(txt: string, i: nat, es: seq<Edit>)
    requires i <= |txt| && Ordered(txt, i, es) && es != [] && Keeps(txt, es[0])
    ensures Applied(txt, i, es) == txt[i..es[0].end] + Applied(txt, es[0].end, es[1..])
  {
    AppliedStep(txt, i, es);
    var b := es[0].begin;
    var e := es[0].end;
    assert txt[i..e] == txt[i..b] + txt[b..e];
  }

  /** When every other edit writes back what it replaces, the new text is
      the old one with only the span of edit `j` replaced. */
  lemma {:induction false} AppliedOne(txt: string, i: nat, es: seq<Edit>, j: nat)
    requires i <= |txt| && Ordered(txt, i, es) && j < |es| && KeepsAll(txt, es, j)
    ensures i <= es[j].begin <= es[j].end <= |txt|
    ensures Applied(txt, i, es) == txt[i..es[j].begin] + es[j].text + txt[es[j].end..]
    decreases |es|
  {
    OrderedFrom(txt, i, es);
    var e := es[0].end;
    KeepsRest(txt, es, j);
    if j == 0 {
      AppliedIdentity(txt, e, es[1..]);
      AppliedStep(txt, i, es);
    } else {
      assert Keeps(txt, es[0]);
      AppliedSkip(txt, i, es);
      AppliedOne(txt, e, es[1..], j - 1);
      assert es[1..][j - 1] == es[j];
      Prepend(txt, i, e, es[j].begin, es[j].end, es[j].text, Applied(txt, i, es), Applied(txt, e, es[1..]));
    }
  }

  /** Text copied in front of a text already spliced. */
  lemma Prepend(txt: string, i: nat, e: nat, bj: nat, ej: nat, rj: string, s: string, s1: string)
    requires i <= e <= bj <= ej <= |txt|
    requires s1 == txt[e..bj] + rj + txt[ej..] && s == txt[i..e] + s1
    ensures s == txt[i..bj] + rj + txt[ej..]
  {
    assert txt[i..bj] == txt[i..e] + txt[e..bj];
  }

  // The same facts for the parameters of a file

  /** The parameter's declaration is what the file holds at its offset. */
  predicate ReadAt(txt: string, p: Param) {
    p.begin + |p.decl| <= |txt| && txt[p.begin..p.begin + |p.decl|] == p.decl
  }

  /** The parameters lie in `txt` where their declarations were read, in
      ascending order without overlap. */
  predicate Laid(txt: string, ps: seq<Param>) {
    Ordered(txt, 0, Edits(ps)) && forall k :: 0 <= k < |ps| ==> ReadAt(txt, ps[k])
  }

  /** Every parameter but the one at `except` renders as it was written. */
  predicate RendersAsRead(ps: seq<Param>, except: int) {
    forall k :: 0 <= k < |ps| && k != except ==> Render(ps[k]) == ps[k].decl
  }

  lemma ParamsKept(txt: string, ps: seq<Param>, except: int)
    requires Laid(txt, ps) && RendersAsRead(ps, except)
    ensures KeepsAll(txt, Edits(ps), except)
  {
    forall k | 0 <= k < |ps| && k != except ensures Keeps(txt, Edits(ps)[k]) {
      assert ReadAt(txt, ps[k]);
    }
  }

  /** Rewriting parameters that render as they were read gives the file
      back unchanged. */
  lemma SplicedIdentity(txt: string, ps: seq<Param>)
    requires Laid(txt, ps) && RendersAsRead(ps, -1)
    ensures Applied(txt, 0, Edits(ps)) == txt
  {
    ParamsKept(txt, ps, -1);
    AppliedIdentity(txt, 0, Edits(ps));
  }

  /** When every other parameter renders as it was read, the new text is
      the old one with the declaration of parameter `j` replaced by its
      rendering, and all other text copied in order. */
  lemma SplicedOne(txt: string, ps: seq<Param>, j: nat)
    requires Laid(txt, ps) && j < |ps| && RendersAsRead(ps, j)
    ensures var b := ps[j].begin; var e := b + |ps[j].decl|;
      e <= |txt| && Applied(txt, 0, Edits(ps)) == txt[..b] + Render(ps[j]) + txt[e..]
  {
    var es := Edits(ps);
    ParamsKept(txt, ps, j);
    AppliedOne(txt, 0, es, j);
    assert es[j] == EditOf(ps[j]);
  }

  /** The parameters of a file's prototypes, in the order the nested loop
      visits them. */
  function AllParams(protos: seq<Prototype>): seq<Param>
    decreases |protos|
  {
    if protos == [] then [] else protos[0].params + AllParams(protos[1..])
  }

  lemma AllParamsStep(protos: seq<Prototype>, j: nat)
    requires j < |protos|
    ensures Edits(AllParams(protos[j..])) == Edits(protos[j].params) + Edits(AllParams(protos[j + 1..]))
  {
    assert protos[j..][1..] == protos[j + 1..];
  }

  lemma EditsFrom(es: seq<Edit>, k: nat, rest: seq<Edit>)
    requires k < |es|
    ensures es[k..] + rest == [es[k]] + (es[k + 1..] + rest)
  {
  }

  lemma AppliedCons(txt: string, i: nat, e: Edit, more: seq<Edit>)
    ensures Applied(txt, i, [e] + more) == (Slice(txt, i, e.begin) + e.text) + Applied(txt, e.end, more)
  {
    AppliedStep(txt, i, [e] + more);
    assert ([e] + more)[1..] == more;
  }

  lemma Assoc(a: string, b: string, c: string)
    ensures a + (b + c) == (a + b) + c
  {
  }

  /** The text `rewrite_prototypes` writes for a file whose prototypes are
      `protos`. */
  function Spliced(txt: string, protos: seq<Prototype>): string {
    Applied(txt, 0, Edits(AllParams(protos)))
  }

  /** One edit of the splice written out: the text before it and its
      replacement move from the edits still to apply to the output. */
  lemma SpliceStep(txt: string, i: nat, ps: seq<Param>, k: nat, rest: seq<Edit>, out: string)
    requires k < |ps|
    ensures var es := Edits(ps); var p := ps[k];
      out + Applied(txt, i, es[k..] + rest)
      == (out + (Slice(txt, i, p.begin) + Render(p))) + Applied(txt, p.begin + |p.decl|, es[k + 1..] + rest)
  {
    var es := Edits(ps);
    var e := es[k];
    assert e == EditOf(ps[k]);
    EditsFrom(es, k, rest);
    AppliedCons(txt, i, e, es[k + 1..] + rest);
    Assoc(out, Slice(txt, i, e.begin) + e.text, Applied(txt, e.end, es[k + 1..] + rest));
  }

  /** The inner loop over one prototype's parameters. */
  method SpliceParams(txt: string, i0: nat, ps: seq<Param>, ghost rest: seq<Edit>, out0: string)
    returns (out: string, i: nat)
    ensures out + Applied(txt, i, rest) == out0 + Applied(txt, i0, Edits(ps) + rest)
  {
    ghost var es := Edits(ps);
    assert es[0..] == es;
    out, i := out0, i0;
    var k := 0;
    while k < |ps|
      invariant k <= |ps|
      invariant out + Applied(txt, i, es[k..] + rest) == out0 + Applied(txt, i0, es + rest)
    {
      var p := ps[k];
      SpliceStep(txt, i, ps, k, rest, out);
      out := out + (Slice(txt, i, p.begin) + Render(p));
      i := p.begin + |p.decl|;
      k := k + 1;
    }
    assert es[k..] + rest == rest;
  }

  /** The splice loop over one file's prototypes and their parameters. */
  method SpliceFile(txt: string, protos: seq<Prototype>) returns (newTxt: string)
    ensures newTxt == Spliced(txt, protos)
  {
    ghost var target := Spliced(txt, protos);
    var i: nat := 0;
    newTxt := "";
    var j := 0;
    while j < |protos|
      invariant j <= |protos|
      invariant newTxt + Applied(txt, i, Edits(AllParams(protos[j..]))) == target
    {
      AllParamsStep(protos, j);
      newTxt, i := SpliceParams(txt, i, protos[j].params, Edits(AllParams(protos[j + 1..])), newTxt);
      j := j + 1;
    }
    newTxt := newTxt + Slice(txt, i, |txt|);
  }

  /** The files after `rewrite_prototypes`, with the error that stopped it:
      each file that holds a dirty prototype is backed up, then read, then
      written with its parameters spliced in. The walk is over the map's
      entries, which with distinct paths is the order of `dirty_fpaths`. */
  function Rewritten(files: Files, m: PrototypeMap): (Files, Option<Error>)
    decreases |m|
  {
    if m == [] then (files, None)
    else if !AnyDirty(m[0].protos) then Rewritten(files, m[1..])
    else
      var p := m[0].path;
      var b := BackedUp(files, p);
      if b.Err? then (files, Some(b.error))
      else
        BackupEffect(files, p);
        Rewritten(b.value[p := Spliced(b.value[p], m[0].protos)], m[1..])
  }

  /** `rewrite_prototypes(prototypes)` on the disk. */
  method RewritePrototypes(disk: Disk, m: PrototypeMap) returns (err: Option<Error>)
    modifies disk
    ensures (disk.files, err) == Rewritten(old(disk.files), m)
  {
    var i := 0;
    while i < |m|
      invariant i <= |m|
      invariant Rewritten(disk.files, m[i..]) == Rewritten(old(disk.files), m)
    {
      assert m[i..][1..] == m[i + 1..];
      if AnyDirty(m[i].protos) {
        var p := m[i].path;
        BackupEffect(disk.files, p);
        err := disk.BackupFile(p);
        if err.Some? {
          return;
        }
        var txt := disk.files[p];
        var newTxt := SpliceFile(txt, m[i].protos);
        disk.files := disk.files[p := newTxt];
      }
      i := i + 1;
    }
    return None;
  }

  /** The files that rewriting `m` may write: each path with a dirty
      prototype and its shadow. */
  function Touched(m: PrototypeMap): set<string>
    decreases |m|
  {
    if m == [] then {}
    else if !AnyDirty(m[0].protos) then Touched(m[1..])
    else
      var p := m[0].path;
      {p} + (if ShadowOf(p).Ok? then {ShadowOf(p).value} else {}) + Touched(m[1..])
  }

  /** When the entry `e` has a dirty prototype, its shadow holds the file's
      text from `files`, and the file holds that text with the parameters
      spliced in. */
  ghost predicate ShadowedEntry(files: Files, e: Entry, r: Files) {
    AnyDirty(e.protos) ==>
      var p := e.path;
      && p in files && ShadowOf(p).Ok? && ShadowOf(p).value in r && p in r
      && r[ShadowOf(p).value] == files[p] && r[p] == Spliced(files[p], e.protos)
  }

  ghost predicate Shadowed(files: Files, m: PrototypeMap, r: Files) {
    forall i :: 0 <= i < |m| ==> ShadowedEntry(files, m[i], r)
  }

  /** Every file that is not written keeps its text. */
  ghost predicate Untouched(files: Files, m: PrototypeMap, r: Files) {
    forall q :: q in files && q !in Touched(m) ==> q in r && r[q] == files[q]
  }

  /** The store `r` after rewriting `m` over `files`. */
  ghost predicate RewriteEffect(files: Files, m: PrototypeMap, r: Files) {
    Shadowed(files, m, r) && Untouched(files, m, r) && r.Keys <= files.Keys + Touched(m)
  }

  /** Every file is backed up before it is written (const_fix.py:165,
      186): with distinct paths, a rewrite without an error leaves each
      dirty file's old text in its shadow and the file with its parameters
      spliced in, and changes no other file. */
  lemma {:induction false} RewrittenEffect(files: Files, m: PrototypeMap)
    requires DistinctPaths(m) && Rewritten(files, m).1.None?
    ensures RewriteEffect(files, m, Rewritten(files, m).0)
    decreases |m|
  {
    if m != [] {
      var m' := m[1..];
      assert DistinctPaths(m') by {
        assert forall i :: 0 <= i < |m'| ==> m'[i] == m[i + 1];
      }
      if !AnyDirty(m[0].protos) {
        RewrittenEffect(files, m');
        ShadowedSkip(files, m, Rewritten(files, m).0);
      } else {
        var p := m[0].path;
        BackedUpIs(files, p);
        var s := ShadowOf(p).value;
        var f1 := files[s := files[p]][p := Spliced(files[p], m[0].protos)];
        assert Rewritten(files, m) == Rewritten(f1, m');
        RewrittenEffect(f1, m');
        RewrittenHead(files, m, p, s, f1, Rewritten(f1, m').0);
      }
    }
  }

  /** A clean first entry changes nothing of the effect. */
  lemma ShadowedSkip(files: Files, m: PrototypeMap, r: Files)
    requires m != [] && !AnyDirty(m[0].protos) && Shadowed(files, m[1..], r)
    ensures Shadowed(files, m, r)
  {
    forall i | 1 <= i < |m| ensures ShadowedEntry(files, m[i], r) {
      assert m[i] == m[1..][i - 1];
    }
  }

  /** The step of `RewrittenEffect` for a dirty first entry, whose file
      `p` and shadow `s` hold their new texts in `f1`. */
  lemma RewrittenHead(files: Files, m: PrototypeMap, p: string, s: string, f1: Files, r: Files)
    requires m != [] && AnyDirty(m[0].protos) && DistinctPaths(m) && p == m[0].path
    requires p in files && ShadowOf(p) == Ok(s) && s != p
    requires f1 == files[s := files[p]][p := Spliced(files[p], m[0].protos)]
    requires RewriteEffect(f1, m[1..], r)
    ensures RewriteEffect(files, m, r)
  {
    TailNotHead(m, p, f1, r);
    TouchedDirty(m);
    UntouchedOverBackup(files, p, s, files[p], Spliced(files[p], m[0].protos), f1, Touched(m[1..]), r);
    TailShadowed(files, m, p, s, f1, r);
    Assembled(files, m, Touched(m[1..]), r);
  }

  /** No later entry rewrites the first entry's file or its shadow. */
  lemma TailNotHead(m: PrototypeMap, p: string, f1: Files, r: Files)
    requires m != [] && DistinctPaths(m) && p == m[0].path && ShadowOf(p).Ok?
    requires Shadowed(f1, m[1..], r)
    ensures p !in Touched(m[1..]) && ShadowOf(p).value !in Touched(m[1..])
  {
    var m' := m[1..];
    forall j | 0 <= j < |m'| && AnyDirty(m'[j].protos)
      ensures m'[j].path != p && ShadowOf(m'[j].path).Ok?
    {
      assert m'[j] == m[j + 1];
      assert ShadowedEntry(f1, m'[j], r);
    }
    HeadNotRewritten(m', p);
  }

  /** The effect of the whole map from the effect of its first entry and
      of the rest. */
  lemma {:induction false} Assembled(files: Files, m: PrototypeMap, t: set<string>, r: Files)
    requires m != [] && AnyDirty(m[0].protos) && ShadowOf(m[0].path).Ok?
    requires Touched(m) == {m[0].path, ShadowOf(m[0].path).value} + t
    requires m[0].path in files && ShadowOf(m[0].path).value in r && m[0].path in r
    requires r[ShadowOf(m[0].path).value] == files[m[0].path]
    requires r[m[0].path] == Spliced(files[m[0].path], m[0].protos)
    requires forall i :: 1 <= i < |m| ==> ShadowedEntry(files, m[i], r)
    requires forall q :: q in files && q !in t + {m[0].path, ShadowOf(m[0].path).value} ==> q in r && r[q] == files[q]
    requires r.Keys <= files.Keys + ({m[0].path, ShadowOf(m[0].path).value} + t)
    ensures RewriteEffect(files, m, r)
  {
    assert ShadowedEntry(files, m[0], r);
  }

  /** What the rest of the rewrite leaves alone over `f1` it leaves alone
      over `files`, and it finds `p` and `s` as the first step wrote them. */
  lemma UntouchedOverBackup(files: Files, p: string, s: string, a: string, b: string, f1: Files, t: set<string>, r: Files)
    requires p in files && f1 == files[s := a][p := b] && s != p && p !in t && s !in t
    requires forall q :: q in f1 && q !in t ==> q in r && r[q] == f1[q]
    requires r.Keys <= f1.Keys + t
    ensures p in r && r[p] == b && s in r && r[s] == a
    ensures forall q :: q in files && q !in t + {p, s} ==> q in r && r[q] == files[q]
    ensures r.Keys <= files.Keys + ({p, s} + t)
  {
    assert r[p] == f1[p] && r[s] == f1[s];
  }

  /** The entries after a dirty first one keep their effect over `files`. */
  lemma TailShadowed(files: Files, m: PrototypeMap, p: string, s: string, f1: Files, r: Files)
    requires m != [] && DistinctPaths(m) && p == m[0].path
    requires p in files && ShadowOf(p) == Ok(s)
    requires f1 == files[s := files[p]][p := Spliced(files[p], m[0].protos)]
    requires Shadowed(f1, m[1..], r)
    ensures forall i :: 1 <= i < |m| ==> ShadowedEntry(files, m[i], r)
  {
    forall i | 1 <= i < |m| ensures ShadowedEntry(files, m[i], r) {
      assert m[i] == m[1..][i - 1];
      assert ShadowedEntry(f1, m[1..][i - 1], r);
      if AnyDirty(m[i].protos) {
        OtherFile(m[i].path, p);
      }
      EntryOverBackup(files, m[i], p, s, files[p], Spliced(files[p], m[0].protos), f1, r);
    }
  }

  /** An entry for a file other than `p` and `s` has the same effect over
      `files` as over `files` with `s` and `p` rewritten. */
  lemma EntryOverBackup(files: Files, e: Entry, p: string, s: string, a: string, b: string, f1: Files, r: Files)
    requires f1 == files[s := a][p := b]
    requires ShadowedEntry(f1, e, r)
    requires AnyDirty(e.protos) ==> e.path != p && e.path != s
    ensures ShadowedEntry(files, e, r)
  {
    if AnyDirty(e.protos) {
      assert f1[e.path] == files[e.path];
    }
  }

  /** `Touched` of a map whose first entry is dirty. */
  lemma TouchedDirty(m: PrototypeMap)
    requires m != [] && AnyDirty(m[0].protos) && ShadowOf(m[0].path).Ok?
    ensures Touched(m) == {m[0].path, ShadowOf(m[0].path).value} + Touched(m[1..])
  {
  }

  /** Neither a later path nor a later shadow is `x`. */
  lemma {:induction false} NotTouched(m: PrototypeMap, x: string)
    requires forall j :: 0 <= j < |m| && AnyDirty(m[j].protos) ==> m[j].path != x && ShadowOf(m[j].path) != Ok(x)
    ensures x !in Touched(m)
    decreases |m|
  {
    if m != [] {
      assert forall j :: 0 <= j < |m[1..]| ==> m[1..][j] == m[j + 1];
      NotTouched(m[1..], x);
    }
  }

  /** No entry of `m'`, whose dirty paths differ from `p` and can be backed
      up, writes `p` or its shadow. */
  lemma HeadNotRewritten(m': PrototypeMap, p: string)
    requires ShadowOf(p).Ok?
    requires forall j :: 0 <= j < |m'| && AnyDirty(m'[j].protos) ==> m'[j].path != p && ShadowOf(m'[j].path).Ok?
    ensures p !in Touched(m') && ShadowOf(p).value !in Touched(m')
  {
    var s := ShadowOf(p).value;
    forall j | 0 <= j < |m'| && AnyDirty(m'[j].protos) {
      OtherFile(m'[j].path, p);
    }
    NotTouched(m', s);
    NotTouched(m', p);
  }

  // ---------------------------------------------------------------------
  // `prove_safe_change` (const_fix.py:194-206)

  /** What the build and the test suite report in one try. */
  datatype Verdict = Verdict(compiles: bool, testsPass: bool)

  /** `compile_is_clean(...) and tests_pass(...)` */
  predicate Clean(v: Verdict) {
    v.compiles && v.testsPass
  }

  datatype Check = Compile | Test

  /** The checks one `not compile_is_clean(...) or not tests_pass(...)`
      runs: the tests run only after a clean compile. */
  function Checks(v: Verdict): (r: seq<Check>)
    ensures |r| > 0 && r[0] == Compile && (Test in r <==> v.compiles)
  {
    if v.compiles then [Compile, Test] else [Compile]
  }

  /** The files after `restore_file` on each path in turn, with the error
      that stopped the walk. */
  function RestoredAll(files: Files, paths: seq<string>): (Files, Option<Error>)
    decreases |paths|
  {
    if paths == [] then (files, None)
    else
      var r := Restored(files, paths[0]);
      if r.Err? then (files, Some(r.error)) else RestoredAll(r.value, paths[1..])
  }

  method RestoreAll(disk: Disk, paths: seq<string>) returns (err: Option<Error>)
    modifies disk
    ensures (disk.files, err) == RestoredAll(old(disk.files), paths)
  {
    var i := 0;
    while i < |paths|
      invariant i <= |paths|
      invariant RestoredAll(disk.files, paths[i..]) == RestoredAll(old(disk.files), paths)
    {
      assert paths[i..][1..] == paths[i + 1..];
      err := disk.RestoreFile(paths[i]);
      if err.Some? {
        return;
      }
      i := i + 1;
    }
    return None;
  }

  /** A store error: a hidden file name, refused by the `assert` of
      safechange.py:23 or safechange.py:27, or a missing file
      (safechange.py:33). */
  predicate FileError(e: Error) {
    e == AssertionFailed(23) || e == AssertionFailed(27) || e == FileMissing(33)
  }

  /** `rewrite_prototypes` fails only with a store error. */
  lemma {:induction false} RewrittenFails(files: Files, m: PrototypeMap)
    ensures Rewritten(files, m).1.Some? ==> FileError(Rewritten(files, m).1.value)
    decreases |m|
  {
    if m != [] {
      if !AnyDirty(m[0].protos) {
        RewrittenFails(files, m[1..]);
      } else {
        var p := m[0].path;
        var b := BackedUp(files, p);
        if b.Ok? {
          BackupEffect(files, p);
          RewrittenFails(b.value[p := Spliced(b.value[p], m[0].protos)], m[1..]);
        }
      }
    }
  }

  /** Restoring fails only with a store error. */
  lemma {:induction false} RestoredAllFails(files: Files, paths: seq<string>)
    ensures RestoredAll(files, paths).1.Some? ==> FileError(RestoredAll(files, paths).1.value)
    decreases |paths|
  {
    if paths != [] {
      var r := Restored(files, paths[0]);
      if r.Ok? {
        RestoredAllFails(r.value, paths[1..]);
      }
    }
  }

  /** Restoring the visible, `.bak`-free files `ps` whose shadows exist
      copies each shadow back over its file and changes nothing else. */
  lemma {:induction false} RestoredAllEffect(x: Files, ps: seq<string>)
    requires forall j :: 0 <= j < |ps| ==> !StartsWith(FileName(ps[j]), ".") && !Contains(FileName(ps[j]), ".bak")
    requires forall j :: 0 <= j < |ps| ==> ps[j] in x && ShadowOf(ps[j]).value in x
    ensures RestoredAll(x, ps).1.None? && RestoredAll(x, ps).0.Keys == x.Keys
    ensures forall q :: q in x && q !in ps ==> RestoredAll(x, ps).0[q] == x[q]
    ensures forall j :: 0 <= j < |ps| ==> RestoredAll(x, ps).0[ps[j]] == x[ShadowOf(ps[j]).value]
  {
    forall j | 0 <= j < |ps| ensures RestoreTarget(ShadowOf(ps[j]).value) == Ok(ps[j]) {
      RestoreTargetIsFile(ps[j]);
    }
    assert ShadowsBack(x, ps);
    RestoredAllFrame(x, ps);
    forall j | 0 <= j < |ps| ensures RestoredAll(x, ps).0[ps[j]] == x[ShadowOf(ps[j]).value] {
      RestoredAllAt(x, ps, ps[j]);
    }
  }

  /** Every file of `ps` is in the store, with its shadow, and the shadow
      is restored to that file. */
  ghost predicate ShadowsBack(x: Files, ps: seq<string>) {
    forall j :: 0 <= j < |ps| ==>
      && ps[j] in x && ShadowOf(ps[j]).Ok? && ShadowOf(ps[j]).value in x
      && RestoreTarget(ShadowOf(ps[j]).value) == Ok(ps[j])
  }

  /** The first step of a restore walk: the first file gets its shadow's
      text, and the rest of the walk still finds every shadow. */
  lemma RestoredFirst(x: Files, ps: seq<string>)
    requires |ps| > 0 && ShadowsBack(x, ps)
    ensures var y := x[ps[0] := x[ShadowOf(ps[0]).value]];
      && RestoredAll(x, ps) == RestoredAll(y, ps[1..])
      && ShadowsBack(y, ps[1..])
  {
    var y := x[ps[0] := x[ShadowOf(ps[0]).value]];
    assert Restored(x, ps[0]) == Ok(y);
    forall i | 0 <= i < |ps[1..]| ensures ps[1..][i] == ps[i + 1] {
    }
  }

  /** A restore walk keeps the files and changes only the walked ones. */
  lemma {:induction false} RestoredAllFrame(x: Files, ps: seq<string>)
    requires ShadowsBack(x, ps)
    ensures RestoredAll(x, ps).1.None? && RestoredAll(x, ps).0.Keys == x.Keys
    ensures forall q :: q in x && q !in ps ==> RestoredAll(x, ps).0[q] == x[q]
    decreases |ps|
  {
    if ps != [] {
      RestoredFirst(x, ps);
      var y := x[ps[0] := x[ShadowOf(ps[0]).value]];
      RestoredAllFrame(y, ps[1..]);
      forall q | q in x && q !in ps ensures RestoredAll(x, ps).0[q] == x[q] {
        assert q !in ps[1..] && q != ps[0];
      }
    }
  }

  /** A walked file ends with its shadow's text from before the walk: no
      walked file is another one's shadow. */
  lemma {:induction false} RestoredAllAt(x: Files, ps: seq<string>, q: string)
    requires q in ps && ShadowsBack(x, ps) && ShadowOf(q).Ok?
    ensures q in RestoredAll(x, ps).0 && RestoredAll(x, ps).0[q] == x[ShadowOf(q).value]
    decreases |ps|
  {
    RestoredAllFrame(x, ps);
    RestoredFirst(x, ps);
    var p, ps' := ps[0], ps[1..];
    var y := x[p := x[ShadowOf(p).value]];
    RestoredAllFrame(y, ps');
    VisibleIsNoShadow(q, p);
    if q in ps' {
      RestoredAllAt(y, ps', q);
    }
  }

  /** No file of the map has `.bak` inside its name. */
  predicate PlainNames(m: PrototypeMap) {
    forall i :: 0 <= i < |m| ==> !Contains(FileName(m[i].path), ".bak")
  }

  /** `r` holds the text of `files` again for every dirty file and every
      file the rewrite did not touch; only the shadows stay behind. */
  ghost predicate Restores(files: Files, m: PrototypeMap, r: Files) {
    && r.Keys <= files.Keys + Touched(m)
    && (forall q :: q in files && q !in Touched(m) ==> q in r && r[q] == files[q])
    && (forall i :: 0 <= i < |m| && AnyDirty(m[i].protos) ==> m[i].path in files && m[i].path in r && r[m[i].path] == files[m[i].path])
  }

  /** A dirty file is among the touched ones. */
  lemma {:induction false} DirtyTouched(m: PrototypeMap, i: nat)
    requires i < |m| && AnyDirty(m[i].protos)
    ensures m[i].path in Touched(m)
    decreases i
  {
    if i > 0 {
      assert m[1..][i - 1] == m[i];
      DirtyTouched(m[1..], i - 1);
    }
  }

  /** A rejected try puts everything back (const_fix.py:199-201 with
      safechange.py:36-42): restoring the dirty files after a rewrite
      without error gives every dirty file its old text again and leaves
      every other file as it was before the rewrite, with only the shadows
      added. Files with `.bak` inside their names are excluded: they are
      restored elsewhere (`RestoreGoesElsewhere`). */
  lemma {:induction false} RejectedTryRestores(files: Files, m: PrototypeMap)
    requires DistinctPaths(m) && PlainNames(m) && Rewritten(files, m).1.None?
    ensures RestoredAll(Rewritten(files, m).0, DirtyPaths(m)).1.None?
    ensures Restores(files, m, RestoredAll(Rewritten(files, m).0, DirtyPaths(m)).0)
  {
    var x := Rewritten(files, m).0;
    var ps := DirtyPaths(m);
    RewrittenEffect(files, m);
    DirtyRestorable(files, m, x, ps);
    RestoredAllEffect(x, ps);
    RestoresFrom(files, m, x, ps, RestoredAll(x, ps).0);
  }

  /** After a rewrite, the dirty files can be restored from their shadows. */
  lemma {:induction false} DirtyRestorable(files: Files, m: PrototypeMap, x: Files, ps: seq<string>)
    requires PlainNames(m) && Shadowed(files, m, x) && ps == DirtyPaths(m)
    ensures forall j :: 0 <= j < |ps| ==> !StartsWith(FileName(ps[j]), ".") && !Contains(FileName(ps[j]), ".bak")
    ensures forall j :: 0 <= j < |ps| ==> ps[j] in x && ShadowOf(ps[j]).value in x
  {
    forall j | 0 <= j < |ps|
      ensures !StartsWith(FileName(ps[j]), ".") && !Contains(FileName(ps[j]), ".bak")
      ensures ps[j] in x && ShadowOf(ps[j]).value in x
    {
      assert ps[j] in DirtyPaths(m);
      var i :| 0 <= i < |m| && m[i].path == ps[j] && AnyDirty(m[i].protos);
      EntryRestorable(files, m[i], x);
    }
  }

  lemma EntryRestorable(files: Files, e: Entry, x: Files)
    requires AnyDirty(e.protos) && ShadowedEntry(files, e, x) && !Contains(FileName(e.path), ".bak")
    ensures !StartsWith(FileName(e.path), ".") && !Contains(FileName(e.path), ".bak")
    ensures e.path in x && ShadowOf(e.path).value in x
  {
  }

  /** Copying each shadow back over a rewrite restores the files. */
  lemma {:induction false} RestoresFrom(files: Files, m: PrototypeMap, x: Files, ps: seq<string>, back: Files)
    requires RewriteEffect(files, m, x) && ps == DirtyPaths(m)
    requires back.Keys == x.Keys
    requires forall q :: q in x && q !in ps ==> back[q] == x[q]
    requires forall j :: 0 <= j < |ps| ==> ps[j] in x && ShadowOf(ps[j]).Ok? && ShadowOf(ps[j]).value in x
    requires forall j :: 0 <= j < |ps| ==> back[ps[j]] == x[ShadowOf(ps[j]).value]
    ensures Restores(files, m, back)
  {
    forall q | q in files && q !in Touched(m) ensures q in back && back[q] == files[q] {
      if q in ps {
        var i :| 0 <= i < |m| && m[i].path == q && AnyDirty(m[i].protos);
        DirtyTouched(m, i);
      }
    }
    forall i | 0 <= i < |m| && AnyDirty(m[i].protos) ensures m[i].path in back && back[m[i].path] == files[m[i].path] {
      assert ShadowedEntry(files, m[i], x);
      assert m[i].path in ps;
      var j :| 0 <= j < |ps| && ps[j] == m[i].path;
    }
  }

  /** The undo callable handed to `prove_safe_change`. */
  datatype Undo = NameUndo | ConstUndo(rollback: ConstRollback)

  /** The prototypes after the undo callable. */
  function Undone(m: PrototypeMap, u: Undo): Result<PrototypeMap> {
    match u
    case NameUndo => Ok(seq(|m|, i requires 0 <= i < |m| => NamesClearedEntry(m[i])))
    case ConstUndo(rb) =>
      if Covers(m, rb.idx) then Ok(RetypedMap(m, rb.idx, rb.dataType, false)) else Err(IndexOutOfRange(19))
  }

  /** Either undo leaves no prototype dirty, so no file would be backed up
      or restored again. */
  lemma UndoneIsClean(m: PrototypeMap, u: Undo)
    requires Undone(m, u).Ok?
    ensures DirtyPaths(Undone(m, u).value) == []
  {
    var r := Undone(m, u).value;
    if u.NameUndo? {
      NamesClearedEffect(m);
    } else {
      RetypedMapEffect(m, u.rollback.idx, u.rollback.dataType, false);
    }
    forall i, k | 0 <= i < |r| && 0 <= k < |r[i].protos| ensures !r[i].protos[k].dirty {
      if u.NameUndo? {
        assert NamesClearedFrom(m[i].protos[k], r[i].protos[k]);
      } else {
        assert RetypedFrom(m[i].protos[k], r[i].protos[k], u.rollback.idx, u.rollback.dataType, false);
      }
    }
    NoDirtyPaths(r);
  }

  method UndoChange(m: PrototypeMap, u: Undo) returns (r: Result<PrototypeMap>)
    ensures r == Undone(m, u)
  {
    match u
    case NameUndo =>
      var cleared := ParamNameRollback(m);
      assert cleared == Undone(m, u).value;
      return Ok(cleared);
    case ConstUndo(rb) =>
      r := ApplyConstRollback(m, rb);
  }

  /** `prove_safe_change(root, prototypes, undo)` with the build and the
      tests of the try and of the re-check after backing out given as
      `first` and `second`. The result is the boolean and the prototypes
      as the undo left them; `checks` are the build and test runs made. A
      failed re-check is `sys.exit(1)`. */
  method ProveSafeChange(disk: Disk, m: PrototypeMap, u: Undo, first: Verdict, second: Verdict)
    returns (r: Result<(bool, PrototypeMap)>, checks: seq<Check>)
    modifies disk
    ensures Clean(first) ==> r == Ok((true, m)) && checks == Checks(first) && disk.files == old(disk.files)
    ensures !Clean(first) ==>
      var back := RestoredAll(old(disk.files), DirtyPaths(m));
      disk.files == back.0 && (back.1.Some? ==> r == Err(back.1.value) && checks == Checks(first))
    ensures !Clean(first) && RestoredAll(old(disk.files), DirtyPaths(m)).1.None? ==>
      var undone := Undone(m, u);
      && (undone.Err? ==> r == Err(undone.error) && checks == Checks(first))
      && (undone.Ok? ==> checks == Checks(first) + Checks(second))
      && (undone.Ok? && Clean(second) ==> r == Ok((false, undone.value)))
      && (undone.Ok? && !Clean(second) ==> r == Err(Exit(1)))
  {
    checks := Checks(first);
    if Clean(first) {
      return Ok((true, m)), checks;
    }
    var err := RestoreAll(disk, DirtyPaths(m));
    if err.Some? {
      return Err(err.value), checks;
    }
    var undone := UndoChange(m, u);
    if undone.Err? {
      return Err(undone.error), checks;
    }
    checks := checks + Checks(second);
    if !Clean(second) {
      return Err(Exit(1)), checks;
    }
    return Ok((false, undone.value)), checks;
  }

  // ---------------------------------------------------------------------
  // `fix_func` (const_fix.py:208-293)

  function LowerChar(c: char): char {
    if 'A' <= c <= 'Z' then (c as int + 32) as char else c
  }

  /** `s.lower()` on ASCII text. */
  function Lower(s: string): (r: string)
    ensures |r| == |s| && forall k :: 0 <= k < |s| ==> r[k] == LowerChar(s[k])
  {
    seq(|s|, k requires 0 <= k < |s| => LowerChar(s[k]))
  }

  /** Lower-casing twice is lower-casing once. */
  lemma LowerIdempotent(s: string)
    ensures Lower(Lower(s)) == Lower(s)
  {
  }

  /** Every prototype of the function agrees with the chosen one. The
      source skips the chosen prototype itself (`proto is not impl`); with
      `matches` reflexive that changes nothing. */
  predicate Consistent(m: PrototypeMap, impl: Prototype) {
    forall i, j :: 0 <= i < |m| && 0 <= j < |m[i].protos| ==> Matches(m[i].protos[j], impl)
  }

  /** The consistency loop of `fix_func` (const_fix.py:219-226). */
  method CheckConsistent(m: PrototypeMap, impl: Prototype) returns (ok: bool)
    ensures ok <==> Consistent(m, impl)
  {
    MatchesEquivalence(impl, impl, impl);
    ok := true;
    var i := 0;
    while i < |m|
      invariant i <= |m|
      invariant ok <==> forall a, b :: 0 <= a < i && 0 <= b < |m[a].protos| ==> Matches(m[a].protos[b], impl)
    {
      var j := 0;
      ghost var okBefore := ok;
      while j < |m[i].protos|
        invariant j <= |m[i].protos|
        invariant ok <==> okBefore && forall b :: 0 <= b < j ==> Matches(m[i].protos[b], impl)
      {
        var proto := m[i].protos[j];
        if proto != impl && !Matches(proto, impl) {
          ok := false;
        }
        j := j + 1;
      }
      i := i + 1;
    }
  }

  /** What `fix_func` does with parameter `k` of the implementation
      (const_fix.py:251-270): try it as `const`, strip an unneeded
      `const` from the type in memory, or leave it. */
  datatype Step = Keep | Try(trial: Param) | Strip(stripped: Param)

  function Decide(impl: Prototype, k: nat): (r: Result<Step>)
    requires k < |impl.params|
  {
    var p := impl.params[k];
    if IsConstCandidate(p) then
      if IsConst(p) then Ok(Keep)
      else
        var proved := ProveParamCantBeConst(impl, k);
        if proved.Err? then Err(proved.error)
        else if proved.value then Ok(Keep)
        else Ok(Try(SetConst(p, true)))
    else if IsConst(p) then Ok(Strip(SetConst(p, false)))
    else Ok(Keep)
  }

  /** An attempt is made exactly on a candidate whose declaration lacks
      `const` and whose body does not visibly write through it; the trial
      keeps the declaration and the name and changes only the type. */
  lemma DecideTries(impl: Prototype, k: nat)
    requires k < |impl.params|
    ensures var p := impl.params[k];
      (Decide(impl, k).Ok? && Decide(impl, k).value.Try?) <==>
      IsConstCandidate(p) && !IsConst(p) && ProveParamCantBeConst(impl, k) == Ok(false)
    ensures var p := impl.params[k];
      Decide(impl, k).Ok? && Decide(impl, k).value.Try? ==>
      var q := Decide(impl, k).value.trial; q == p.(dataType := q.dataType) && !IsConst(q)
  {
  }

  /** An unneeded `const` is reported and stripped from the type in memory:
      the `set_const(True)` meant to put it back does nothing, since the
      declaration still says `const`. */
  lemma StripStays(impl: Prototype, k: nat)
    requires k < |impl.params|
    ensures (Decide(impl, k).Ok? && Decide(impl, k).value.Strip?) <==>
      !IsConstCandidate(impl.params[k]) && IsConst(impl.params[k])
    ensures Decide(impl, k).Ok? && Decide(impl, k).value.Strip? ==>
      var q := Decide(impl, k).value.stripped;
      SetConst(q, true) == q && IsConst(q) && q.decl == impl.params[k].decl
  {
  }

  /** Only a `prove_param_cant_be_const` failure makes the decision fail. */
  lemma DecideFails(impl: Prototype, k: nat)
    requires k < |impl.params|
    ensures Decide(impl, k).Err? <==>
      IsConstCandidate(impl.params[k]) && !IsConst(impl.params[k]) && ProveParamCantBeConst(impl, k).Err?
  {
  }

  /** Every prototype of the map equal to `old` replaced by `new`: the
      in-place update of the implementation's parameter seen through the
      map that holds the same object. */
  function ReplaceProto(m: PrototypeMap, was: Prototype, now: Prototype): (r: PrototypeMap)
    ensures |r| == |m|
    ensures forall i :: 0 <= i < |m| ==> r[i].path == m[i].path && |r[i].protos| == |m[i].protos|
    ensures forall i, j :: 0 <= i < |m| && 0 <= j < |m[i].protos| ==>
      r[i].protos[j] == if m[i].protos[j] == was then now else m[i].protos[j]
  {
    seq(|m|, i requires 0 <= i < |m| =>
      Entry(m[i].path, seq(|m[i].protos|, j requires 0 <= j < |m[i].protos| =>
        if m[i].protos[j] == was then now else m[i].protos[j])))
  }

  /** Replacing a prototype keeps the files of the map. */
  lemma ReplacedNames(m: PrototypeMap, was: Prototype, now: Prototype)
    ensures DistinctPaths(m) ==> DistinctPaths(ReplaceProto(m, was, now))
    ensures PlainNames(m) ==> PlainNames(ReplaceProto(m, was, now))
  {
  }

  /** The oracles `fix_func` consults: the build and test verdicts of the
      n-th try and of its re-check, and the prototypes
      `find_prototypes_in_codebase` finds after the n-th accepted change. */
  datatype Oracle = Oracle(verdicts: nat -> (Verdict, Verdict), reload: nat -> PrototypeMap)

  /** Reloading after a change finds an implementation with `n` parameters,
      if any: a change only adds `const`, so the arity does not change. */
  ghost predicate ArityKept(o: Oracle, n: nat) {
    forall c :: Best(o.reload(c)).Some? ==> |Best(o.reload(c)).value.params| == n
  }

  /** One try: the index of the parameter tried and whether the change
      was kept. */
  datatype Attempt = Attempt(idx: nat, kept: bool)

  /** What the first `k` steps leave behind: the indexes tried, in order,
      and the notes written, in order. */
  datatype History = History(tries: seq<nat>, notes: string)

  function HistoryOf(steps: seq<Step>, k: nat): (r: History)
    requires k <= |steps|
    ensures |r.tries| <= k
  {
    if k == 0 then History([], "") else
      var h := HistoryOf(steps, k - 1);
      var s := steps[k - 1];
      History(h.tries + (if s.Try? then [k - 1] else []), h.notes + NoteOf(s))
  }

  /** The indexes below `k` whose step is a try, in rising order. */
  function TryIndexes(steps: seq<Step>, k: nat): (r: seq<nat>)
    requires k <= |steps|
    ensures |r| <= k
  {
    HistoryOf(steps, k).tries
  }

  /** `TryIndexes` holds each index whose step is a try, and only those,
      in rising order. */
  lemma {:induction false} TryIndexesMeaning(steps: seq<Step>, k: nat)
    requires k <= |steps|
    ensures forall j: nat :: j in TryIndexes(steps, k) <==> j < k && steps[j].Try?
    ensures var r := TryIndexes(steps, k); forall s, t :: 0 <= s < t < |r| ==> r[s] < r[t]
  {
    if k > 0 {
      TryIndexesMeaning(steps, k - 1);
      var r := TryIndexes(steps, k - 1);
      var r' := r + if steps[k - 1].Try? then [k - 1] else [];
      assert TryIndexes(steps, k) == r';
      forall t | 0 <= t < |r|
        ensures r[t] < k - 1
      {
        assert r[t] in TryIndexes(steps, k - 1);
      }
      forall j: nat
        ensures j in r' <==> j < k && steps[j].Try?
      {
        assert j in r' <==> j in r || (steps[k - 1].Try? && j == k - 1);
      }
    }
  }

  /** The number of attempts whose change was kept. */
  function KeptCount(attempts: seq<Attempt>): (r: nat)
    ensures r <= |attempts|
  {
    if attempts == [] then 0
    else KeptCount(attempts[..|attempts| - 1]) + if attempts[|attempts| - 1].kept then 1 else 0
  }

  /** The note a step adds: `OBNOXIOUS_CONST: ` and the parameter after
      `set_const(False)` for an unneeded `const`, nothing otherwise. */
  function NoteOf(step: Step): string {
    if step.Strip? then "OBNOXIOUS_CONST: " + Render(step.stripped) + " " else ""
  }

  /** The notes of the first `k` steps, in order. */
  function Notes(steps: seq<Step>, k: nat): string
    requires k <= |steps|
  {
    HistoryOf(steps, k).notes
  }

  /** `steps` are the decisions on the first `k` parameters, each taken on
      the implementation of its moment. */
  ghost predicate StepsOf(impls: seq<Prototype>, steps: seq<Step>, k: nat)
    requires k <= |impls| && k <= |steps|
  {
    forall j {:trigger Decided(impls[j], j, steps[j])} :: 0 <= j < k ==> Decided(impls[j], j, steps[j])
  }

  /** `step` is what `Decide` makes of parameter `k` of `impl`. */
  ghost predicate Decided(impl: Prototype, k: nat, step: Step) {
    k < |impl.params| && Decide(impl, k) == Ok(step)
  }

  /** The functions over the steps depend only on the steps taken. */
  lemma {:induction false} StepsPrefix(steps: seq<Step>, x: Step, k: nat)
    requires k <= |steps|
    ensures TryIndexes(steps + [x], k) == TryIndexes(steps, k)
    ensures Notes(steps + [x], k) == Notes(steps, k)
  {
    if k > 0 {
      StepsPrefix(steps, x, k - 1);
      assert (steps + [x])[k - 1] == steps[k - 1];
    }
  }

  /** What the loop leaves: the notes on unneeded `const`, the number of
      accepted changes and the implementation as it ends. */
  datatype Fixed = Fixed(notes: string, changes: nat, impl: Prototype)

  /** What one try leaves: whether the change was kept, the prototypes and
      the implementation to go on with. */
  datatype Outcome = Outcome(kept: bool, m: PrototypeMap, impl: Prototype)

  /** The outcome of one try of `const` on parameter `k`, given the error,
      if any, of rewriting the files and of restoring them: `v` are the
      verdicts of the try and of the re-check after backing out, and
      `reloaded` the prototypes found again after an accepted change. A
      `sys.exit` comes only from a re-check that is not clean. */
  function TryOutcome(m: PrototypeMap, impl: Prototype, k: nat, q: Param, v: (Verdict, Verdict),
                      reloaded: PrototypeMap, rewrite: Option<Error>, restore: Option<Error>): (r: Result<Outcome>)
    requires k < |impl.params|
    ensures (rewrite.Some? ==> FileError(rewrite.value)) && (restore.Some? ==> FileError(restore.value)) ==>
      (r.Err? && r.error.Exit? ==> r.error == Exit(1) && !Clean(v.0) && !Clean(v.1))
  {
    if !Covers(m, k) then Err(IndexOutOfRange(275))
    else if rewrite.Some? then Err(rewrite.value)
    else if Clean(v.0) then
      var best := Best(reloaded);
      if best.None? then Err(NoneAttribute(250)) else Ok(Outcome(true, reloaded, best.value))
    else if restore.Some? then Err(restore.value)
    else
      var rb := NewConstRollback(q, k, false).1;
      match Undone(RetypedMap(m, k, q.dataType, true), ConstUndo(rb))
      case Err(e) => Err(e)
      case Ok(back) =>
        if Clean(v.1) then Ok(Outcome(false, back, Retyped(impl, k, rb.dataType, false)))
        else Err(Exit(1))
  }

  /** One try of `const` on parameter `k` as a function of the store
      before it: the outcome and the store after it. The files are
      rewritten with the trial type, and restored when the first verdict
      is not clean. */
  function Tried(files: Files, m: PrototypeMap, impl: Prototype, k: nat, q: Param,
                 v: (Verdict, Verdict), reloaded: PrototypeMap): (r: (Result<Outcome>, Files))
    requires k < |impl.params|
    ensures r.0.Err? && r.0.error.Exit? ==> r.0.error == Exit(1) && !Clean(v.0) && !Clean(v.1)
  {
    if !Covers(m, k) then (Err(IndexOutOfRange(275)), files)
    else
      var trial := RetypedMap(m, k, q.dataType, true);
      var w := Rewritten(files, trial);
      var back := RestoredAll(w.0, DirtyPaths(trial));
      RewrittenFails(files, trial);
      RestoredAllFails(w.0, DirtyPaths(trial));
      (TryOutcome(m, impl, k, q, v, reloaded, w.1, back.1), if w.1.Some? || Clean(v.0) then w.0 else back.0)
  }

  /** The implementation a try goes on with: the one found again after an
      accepted change, or the trial with the type it already has; a try
      is kept exactly when its first verdict is clean. */
  lemma TriedImpl(files: Files, m: PrototypeMap, impl: Prototype, k: nat, q: Param,
                  v: (Verdict, Verdict), reloaded: PrototypeMap)
    requires k < |impl.params|
    ensures var r := Tried(files, m, impl, k, q, v, reloaded);
      && (r.0.Ok? && r.0.value.kept ==> Best(reloaded) == Some(r.0.value.impl) && r.0.value.m == reloaded)
      && (r.0.Ok? && !r.0.value.kept ==> |r.0.value.impl.params| == |impl.params|)
      && (r.0.Ok? ==> (r.0.value.kept <==> Clean(v.0)))
  {
    if Covers(m, k) {
      var trial := RetypedMap(m, k, q.dataType, true);
      var w := Rewritten(files, trial);
      var back := RestoredAll(w.0, DirtyPaths(trial));
      TryOutcomeImpl(m, impl, k, q, v, reloaded, w.1, back.1);
    }
  }

  lemma TryOutcomeImpl(m: PrototypeMap, impl: Prototype, k: nat, q: Param, v: (Verdict, Verdict),
                       reloaded: PrototypeMap, rewrite: Option<Error>, restore: Option<Error>)
    requires k < |impl.params|
    ensures var r := TryOutcome(m, impl, k, q, v, reloaded, rewrite, restore);
      && (r.Ok? && r.value.kept ==> Best(reloaded) == Some(r.value.impl) && r.value.m == reloaded)
      && (r.Ok? && !r.value.kept ==> |r.value.impl.params| == |impl.params|)
      && (r.Ok? ==> (r.value.kept <==> Clean(v.0)))
  {
  }

  /** Setting the same type twice is setting it once, with the last dirty
      flag. */
  lemma RetypedMapTwice(m: PrototypeMap, idx: nat, dt: string, d1: bool, d2: bool)
    requires Covers(m, idx)
    ensures RetypedMap(RetypedMap(m, idx, dt, d1), idx, dt, d2) == RetypedMap(m, idx, dt, d2)
  {
    var a, b := RetypedMap(RetypedMap(m, idx, dt, d1), idx, dt, d2), RetypedMap(m, idx, dt, d2);
    RetypedMapEffect(m, idx, dt, d1);
    forall i | 0 <= i < |m| ensures a[i] == b[i] {
      forall j | 0 <= j < |m[i].protos| ensures a[i].protos[j] == b[i].protos[j] {
        assert a[i].protos[j] == Retyped(Retyped(m[i].protos[j], idx, dt, d1), idx, dt, d2);
      }
    }
  }

  /** One try of `const` on parameter `k` (const_fix.py:271-285), with `q`
      the parameter after `set_const(True)`: every prototype's parameter
      takes its type and the files are rewritten; if the build or the tests
      fail, the files are restored and the rollback applied; if they pass,
      the prototypes are found again (`reloaded`). The rollback records the
      type after `set_const(False)`, which does nothing to a declaration
      without `const`: a rejected `const` stays in the prototypes in
      memory, though no longer marked dirty. */
  method TryConst(disk: Disk, m: PrototypeMap, impl: Prototype, k: nat, q: Param,
                  o: Oracle, attempt: nat, changes: nat)
    returns (r: Result<Outcome>)
    requires k < |impl.params| && !IsConst(q)
    requires ArityKept(o, |impl.params|)
    modifies disk
    ensures var (first, second) := o.verdicts(attempt); var reloaded := o.reload(changes);
      && (r.Ok? ==> |r.value.impl.params| == |impl.params|)
      && (r.Ok? && r.value.kept ==> Best(reloaded) == Some(r.value.impl) && r.value.m == reloaded)
    ensures r.Ok? && !r.value.kept ==>
      && r.value.impl == Retyped(impl, k, q.dataType, false)
      && r.value.impl.params[k].dataType == q.dataType
      && DirtyPaths(r.value.m) == []
    ensures var (first, second) := o.verdicts(attempt);
      && (r.Ok? && r.value.kept ==> Clean(first))
      && (r.Ok? && !r.value.kept ==> !Clean(first) && Clean(second))
    ensures !Covers(m, k) ==> r == Err(IndexOutOfRange(275)) && disk.files == old(disk.files)
    ensures Covers(m, k) ==>
      var trial := RetypedMap(m, k, q.dataType, true); var w := Rewritten(old(disk.files), trial);
      && (w.1.Some? ==> r == Err(w.1.value) && disk.files == w.0)
      && (w.1.None? && Clean(o.verdicts(attempt).0) ==> disk.files == w.0)
      && (w.1.None? && !Clean(o.verdicts(attempt).0) ==> disk.files == RestoredAll(w.0, DirtyPaths(trial)).0)
    ensures Covers(m, k) && DistinctPaths(m) && PlainNames(m) && r.Ok? && !r.value.kept ==>
      Restores(old(disk.files), RetypedMap(m, k, q.dataType, true), disk.files)
    ensures Covers(m, k) ==>
      var (first, second) := o.verdicts(attempt); var reloaded := o.reload(changes);
      var trial := RetypedMap(m, k, q.dataType, true); var w := Rewritten(old(disk.files), trial);
      var back := RestoredAll(w.0, DirtyPaths(trial));
      && (w.1.None? && Clean(first) && Best(reloaded).Some? ==> r == Ok(Outcome(true, reloaded, Best(reloaded).value)))
      && (w.1.None? && Clean(first) && Best(reloaded).None? ==> r == Err(NoneAttribute(250)))
      && (w.1.None? && !Clean(first) && back.1.Some? ==> r == Err(back.1.value))
      && (w.1.None? && !Clean(first) && back.1.None? && Clean(second) ==>
            r == Ok(Outcome(false, RetypedMap(m, k, q.dataType, false), Retyped(impl, k, q.dataType, false))))
      && (w.1.None? && !Clean(first) && back.1.None? && !Clean(second) ==> r == Err(Exit(1)))
    ensures (r, disk.files) == Tried(old(disk.files), m, impl, k, q, o.verdicts(attempt), o.reload(changes))
  {
    ghost var before := disk.files;
    var (first, second) := o.verdicts(attempt);
    var reloaded := o.reload(changes);
    var trial := RetypeAll(m, k, q.dataType, true, 275);
    if trial.Err? {
      return Err(trial.error);
    }
    var err := RewritePrototypes(disk, trial.value);
    if err.Some? {
      return Err(err.value);
    }
    var (p2, rb) := NewConstRollback(q, k, false);
    var res, checks := ProveSafeChange(disk, trial.value, ConstUndo(rb), first, second);
    if res.Err? {
      return Err(res.error);
    }
    if res.value.0 {
      var best := FindBest(reloaded);
      if best.None? {
        return Err(NoneAttribute(250));
      }
      return Ok(Outcome(true, reloaded, best.value));
    }
    UndoneIsClean(trial.value, ConstUndo(rb));
    RetypedMapTwice(m, k, q.dataType, true, false);
    if DistinctPaths(m) && PlainNames(m) {
      RetypedNames(m, k, q.dataType, true);
      RejectedTryRestores(before, trial.value);
    }
    return Ok(Outcome(false, res.value.1, Retyped(impl, k, rb.dataType, false)));
  }

  /** Setting a parameter's type keeps the files of the map. */
  lemma RetypedNames(m: PrototypeMap, idx: nat, dt: string, dirty: bool)
    requires Covers(m, idx)
    ensures DistinctPaths(m) ==> DistinctPaths(RetypedMap(m, idx, dt, dirty))
    ensures PlainNames(m) ==> PlainNames(RetypedMap(m, idx, dt, dirty))
  {
    RetypedMapEffect(m, idx, dt, dirty);
  }

  /** What one visit of a parameter leaves: the note it adds, whether it
      tried `const` and whether the change was kept, and the prototypes and
      the implementation to go on with. */
  datatype Visit = Visit(step: Step, note: string, tried: bool, kept: bool, m: PrototypeMap, impl: Prototype)

  /** One visit of parameter `k` as a function of the store before it:
      what the visit leaves and the store after it. `attempt` numbers the
      try, if it is one, and `changes` counts the changes accepted before
      it. */
  function Visited(files: Files, m: PrototypeMap, impl: Prototype, k: nat, o: Oracle, attempt: nat, changes: nat)
    : (r: (Result<Visit>, Files))
    requires k < |impl.params|
    ensures r.0.Err? && r.0.error.Exit? ==> !Clean(o.verdicts(attempt).1)
  {
    var step := Decide(impl, k);
    if step.Err? then (Err(step.error), files)
    else match step.value
      case Keep => (Ok(Visit(Keep, "", false, false, m, impl)), files)
      case Strip(q) =>
        var stripped := impl.(params := impl.params[k := q]);
        (Ok(Visit(Strip(q), "OBNOXIOUS_CONST: " + Render(q) + " ", false, false, ReplaceProto(m, impl, stripped), stripped)), files)
      case Try(q) =>
        var tried := impl.(params := impl.params[k := q]);
        var out := Tried(files, ReplaceProto(m, impl, tried), tried, k, q, o.verdicts(attempt), o.reload(changes));
        (if out.0.Err? then Err(out.0.error) else Ok(Visit(Try(q), "", true, out.0.value.kept, out.0.value.m, out.0.value.impl)), out.1)
  }

  /** A visit keeps the number of parameters: a strip or a try changes
      one parameter, and the prototypes found again after a change keep
      the arity. */
  lemma VisitedArity(files: Files, m: PrototypeMap, impl: Prototype, k: nat, o: Oracle, attempt: nat, changes: nat)
    requires k < |impl.params| && ArityKept(o, |impl.params|)
    ensures var r := Visited(files, m, impl, k, o, attempt, changes);
      r.0.Ok? ==> |r.0.value.impl.params| == |impl.params|
  {
    var step := Decide(impl, k);
    if step.Ok? && step.value.Try? {
      var q := step.value.trial;
      var tried := impl.(params := impl.params[k := q]);
      TriedImpl(files, ReplaceProto(m, impl, tried), tried, k, q, o.verdicts(attempt), o.reload(changes));
    }
  }

  /** The body of the parameter loop (const_fix.py:251-286) for parameter
      `k`, the `attempt`-th try if it is one, after `changes` accepted
      changes. */
  method VisitParam(disk: Disk, m: PrototypeMap, impl: Prototype, k: nat, o: Oracle, attempt: nat, changes: nat)
    returns (r: Result<Visit>)
    requires k < |impl.params| && ArityKept(o, |impl.params|)
    modifies disk
    ensures Decide(impl, k).Err? ==> r == Err(Decide(impl, k).error) && disk.files == old(disk.files)
    ensures r.Ok? ==> |r.value.impl.params| == |impl.params| && (r.value.kept ==> r.value.tried)
    ensures r.Ok? ==> Decide(impl, k) == Ok(r.value.step) && r.value.note == NoteOf(r.value.step)
    ensures r.Ok? ==> (r.value.tried <==> Decide(impl, k).value.Try?)
    ensures r.Ok? && Decide(impl, k).value.Keep? ==>
      r.value == Visit(Keep, "", false, false, m, impl) && disk.files == old(disk.files)
    ensures r.Ok? && Decide(impl, k).value.Strip? ==> var q := Decide(impl, k).value.stripped;
      && r.value.note == "OBNOXIOUS_CONST: " + Render(q) + " " && !r.value.tried
      && r.value.impl == impl.(params := impl.params[k := q])
      && r.value.m == ReplaceProto(m, impl, r.value.impl)
      && disk.files == old(disk.files)
    ensures r.Ok? && r.value.tried ==> r.value.note == ""
    ensures r.Ok? && r.value.tried ==> (r.value.kept <==> Clean(o.verdicts(attempt).0))
    ensures Decide(impl, k).Ok? && Decide(impl, k).value.Try? ==>
      var q := Decide(impl, k).value.trial;
      var m' := ReplaceProto(m, impl, impl.(params := impl.params[k := q]));
      && (!Covers(m', k) ==> r == Err(IndexOutOfRange(275)) && disk.files == old(disk.files))
      && (Covers(m', k) && r.Ok? && r.value.kept ==>
            disk.files == Rewritten(old(disk.files), RetypedMap(m', k, q.dataType, true)).0)
      && (Covers(m', k) && DistinctPaths(m) && PlainNames(m) && r.Ok? && !r.value.kept ==>
            Restores(old(disk.files), RetypedMap(m', k, q.dataType, true), disk.files))
    ensures Decide(impl, k).Ok? && Decide(impl, k).value.Try? && r.Ok? ==>
      var q := Decide(impl, k).value.trial;
      var tried := impl.(params := impl.params[k := q]);
      var m' := ReplaceProto(m, impl, tried);
      && (r.value.kept ==> r.value.m == o.reload(changes) && Best(r.value.m) == Some(r.value.impl))
      && (!r.value.kept ==>
            Covers(m', k) && r.value.impl == Retyped(tried, k, q.dataType, false)
            && r.value.m == RetypedMap(m', k, q.dataType, false))
    ensures (r, disk.files) == Visited(old(disk.files), m, impl, k, o, attempt, changes)
  {
    var step := Decide(impl, k);
    if step.Err? {
      return Err(step.error);
    }
    match step.value {
      case Keep =>
        return Ok(Visit(Keep, "", false, false, m, impl));
      case Strip(q) =>
        var stripped := impl.(params := impl.params[k := q]);
        return Ok(Visit(Strip(q), "OBNOXIOUS_CONST: " + Render(q) + " ", false, false, ReplaceProto(m, impl, stripped), stripped));
      case Try(q) =>
        DecideTries(impl, k);
        var tried := impl.(params := impl.params[k := q]);
        ReplacedNames(m, impl, tried);
        var out := TryConst(disk, ReplaceProto(m, impl, tried), tried, k, q, o, attempt, changes);
        if out.Err? {
          return Err(out.error);
        }
        return Ok(Visit(Try(q), "", true, out.value.kept, out.value.m, out.value.impl));
    }
  }

  /** `steps` grow by the decision on the implementation met at `k`. */
  lemma StepsOfSnoc(impls: seq<Prototype>, steps: seq<Step>, next: Prototype, step: Step, k: nat)
    requires |impls| == k + 1 && |steps| == k && StepsOf(impls, steps, k)
    requires k < |impls[k].params| && Decide(impls[k], k) == Ok(step)
    ensures StepsOf(impls + [next], steps + [step], k + 1)
  {
    var impls', steps' := impls + [next], steps + [step];
    forall j | 0 <= j < k + 1
      ensures Decided(impls'[j], j, steps'[j])
    {
      if j < k {
        assert impls'[j] == impls[j] && steps'[j] == steps[j];
        assert Decided(impls[j], j, steps[j]);
      }
    }
  }

  lemma TryIndexesSnoc(steps: seq<Step>, step: Step, k: nat)
    requires |steps| == k
    ensures TryIndexes(steps + [step], k + 1) == TryIndexes(steps, k) + if step.Try? then [k] else []
    ensures Notes(steps + [step], k + 1) == Notes(steps, k) + NoteOf(step)
  {
    StepsPrefix(steps, step, k);
    assert (steps + [step])[k] == step;
  }

  lemma KeptCountSnoc(attempts: seq<Attempt>, a: Attempt)
    ensures KeptCount(attempts + [a]) == KeptCount(attempts) + if a.kept then 1 else 0
  {
    assert (attempts + [a])[..|attempts|] == attempts;
  }

  /** Every implementation met has `n` parameters. */
  ghost predicate SameArity(impls: seq<Prototype>, n: nat) {
    forall j :: 0 <= j < |impls| ==> |impls[j].params| == n
  }

  /** The attempts, at most `k`, are made at the indexes `tries`, each
      kept exactly when its first build and tests were clean. */
  ghost predicate AttemptsAt(attempts: seq<Attempt>, tries: seq<nat>, k: nat, o: Oracle) {
    && |attempts| == |tries| && |attempts| <= k
    && (forall t :: 0 <= t < |attempts| ==> attempts[t].idx == tries[t])
    && (forall t :: 0 <= t < |attempts| ==> (attempts[t].kept <==> Clean(o.verdicts(t).0)))
  }

  lemma AttemptsSnoc(attempts: seq<Attempt>, tries: seq<nat>, k: nat, o: Oracle, kept: bool)
    requires AttemptsAt(attempts, tries, k, o)
    requires kept <==> Clean(o.verdicts(|attempts|).0)
    ensures AttemptsAt(attempts + [Attempt(k, kept)], tries + [k], k + 1, o)
  {
    var attempts', tries' := attempts + [Attempt(k, kept)], tries + [k];
    forall t | 0 <= t < |attempts'|
      ensures attempts'[t].idx == tries'[t]
      ensures attempts'[t].kept <==> Clean(o.verdicts(t).0)
    {
      if t < |attempts| {
        assert attempts'[t] == attempts[t] && tries'[t] == tries[t];
      }
    }
  }

  /** The state of the parameter loop before index `k`: the
      implementations met, the steps taken on them, the attempts (one at
      each index whose step is a try, kept exactly when the first build and
      tests were clean), the kept count and the notes so far. */
  ghost predicate FixState(impl0: Prototype, o: Oracle, k: nat, impls: seq<Prototype>, steps: seq<Step>,
                           attempts: seq<Attempt>, changes: nat, notes: string)
  {
    && k <= |impl0.params| && |impls| == k + 1 && |steps| == k && impls[0] == impl0
    && SameArity(impls, |impl0.params|)
    && AttemptsAt(attempts, TryIndexes(steps, k), k, o)
    && changes == KeptCount(attempts)
    && notes == Notes(steps, k)
  }

  /** A visit that makes no try keeps the loop state. */
  lemma FixStatePass(impl0: Prototype, o: Oracle, k: nat, impls: seq<Prototype>, steps: seq<Step>,
                     attempts: seq<Attempt>, changes: nat, notes: string, next: Prototype, step: Step)
    requires FixState(impl0, o, k, impls, steps, attempts, changes, notes) && k < |impl0.params|
    requires |next.params| == |impl0.params| && !step.Try?
    ensures FixState(impl0, o, k + 1, impls + [next], steps + [step], attempts, changes, notes + NoteOf(step))
  {
    var impls', steps' := impls + [next], steps + [step];
    TryIndexesSnoc(steps, step, k);
    assert SameArity(impls', |impl0.params|);
    assert TryIndexes(steps', k + 1) == TryIndexes(steps, k);
  }

  /** A try keeps the loop state, with one attempt more, kept exactly when
      the first build and tests of this try were clean. */
  lemma FixStateTry(impl0: Prototype, o: Oracle, k: nat, impls: seq<Prototype>, steps: seq<Step>,
                    attempts: seq<Attempt>, changes: nat, notes: string, next: Prototype, step: Step, kept: bool)
    requires FixState(impl0, o, k, impls, steps, attempts, changes, notes) && k < |impl0.params|
    requires |next.params| == |impl0.params| && step.Try? && NoteOf(step) == ""
    requires kept <==> Clean(o.verdicts(|attempts|).0)
    ensures FixState(impl0, o, k + 1, impls + [next], steps + [step], attempts + [Attempt(k, kept)],
                     if kept then changes + 1 else changes, notes)
  {
    var impls', steps' := impls + [next], steps + [step];
    var tries := TryIndexes(steps, k);
    TryIndexesSnoc(steps, step, k);
    assert SameArity(impls', |impl0.params|);
    assert Notes(steps', k + 1) == notes;
    assert TryIndexes(steps', k + 1) == tries + [k];
    AttemptsSnoc(attempts, tries, k, o, kept);
    KeptCountSnoc(attempts, Attempt(k, kept));
  }

  /** What the loop state says once every parameter is visited. */
  lemma FixStateDone(impl0: Prototype, o: Oracle, impls: seq<Prototype>, steps: seq<Step>,
                     attempts: seq<Attempt>, changes: nat, notes: string)
    requires FixState(impl0, o, |impl0.params|, impls, steps, attempts, changes, notes)
    requires StepsOf(impls, steps, |impl0.params|)
    ensures var n := |impl0.params|;
      && |impls| == n + 1 && |steps| == n && impls[0] == impl0
      && SameArity(impls, n)
      && StepsOf(impls, steps, n)
      && AttemptsAt(attempts, TryIndexes(steps, n), n, o)
      && changes == KeptCount(attempts)
      && notes == Notes(steps, n)
  {
  }

  /** A successful visit takes the step `Decide` takes on parameter `k`. */
  lemma DecideStep(files: Files, m: PrototypeMap, impl: Prototype, k: nat, o: Oracle, attempt: nat, changes: nat)
    requires k < |impl.params|
    ensures var r := Visited(files, m, impl, k, o, attempt, changes).0;
      r.Ok? ==> Decide(impl, k) == Ok(r.value.step)
  {
  }

  /** A visit as the loop sees it: the step `Decide` takes on parameter
      `k`, the note it adds, a try exactly for a try step and, for a try,
      kept exactly when its first build and tests were clean. */
  lemma VisitedStep(files: Files, m: PrototypeMap, impl: Prototype, k: nat, o: Oracle, attempt: nat, changes: nat)
    requires k < |impl.params| && ArityKept(o, |impl.params|)
    ensures var r := Visited(files, m, impl, k, o, attempt, changes).0;
      r.Ok? ==> var v := r.value;
        && Decide(impl, k) == Ok(v.step)
        && |v.impl.params| == |impl.params| && (v.kept ==> v.tried) && (v.tried <==> v.step.Try?)
        && v.note == NoteOf(v.step) && (v.tried ==> (v.kept <==> Clean(o.verdicts(attempt).0)))
  {
    VisitedArity(files, m, impl, k, o, attempt, changes);
    var step := Decide(impl, k);
    if step.Ok? && step.value.Try? {
      var q := step.value.trial;
      var tried := impl.(params := impl.params[k := q]);
      TriedImpl(files, ReplaceProto(m, impl, tried), tried, k, q, o.verdicts(attempt), o.reload(changes));
    }
  }

  /** The loop's running values: the prototypes, the implementation, the
      attempts, the accepted changes and the notes. */
  datatype Progress = Progress(m: PrototypeMap, impl: Prototype, attempts: seq<Attempt>, changes: nat, notes: string)

  /** The running values after a visit of parameter `k`: its prototypes
      and implementation, one attempt more for a try, one change more for
      a kept one, and its note. */
  function Advance(p: Progress, k: nat, v: Visit): Progress {
    Progress(v.m, v.impl, p.attempts + (if v.tried then [Attempt(k, v.kept)] else []),
             p.changes + (if v.kept then 1 else 0), p.notes + v.note)
  }

  /** The type of one visit as the loop makes it: from the store, the
      running values and the index of the parameter, the visit and the
      store after it. */
  type VisitFn = (Files, Progress, nat) -> (Result<Visit>, Files)

  /** The visit of parameter `k` from the running values `p`: the
      `impl.params[param_idx]` of const_fix.py:251 raises `IndexError`
      past the last parameter, which the loop never reaches. */
  function VisitAt(o: Oracle): (r: VisitFn)
    ensures forall files, p: Progress, k: nat :: k < |p.impl.params| ==>
      r(files, p, k) == Visited(files, p.m, p.impl, k, o, |p.attempts|, p.changes)
  {
    (files: Files, p: Progress, k: nat) =>
      if k < |p.impl.params| then Visited(files, p.m, p.impl, k, o, |p.attempts|, p.changes)
      else (Err(IndexOutOfRange(251)), files)
  }

  /** The parameter loop from index `k` up to `n`, for any visit: the
      result, the attempts made and the store when the loop ends or the
      first visit fails. The attempts only grow, by at most one per index
      left, and the change count never drops. */
  function Run(visit: VisitFn, files: Files, p: Progress, k: nat, n: nat): (r: (Result<Fixed>, seq<Attempt>, Files))
    requires k <= n
    ensures p.attempts <= r.1 && |r.1| <= |p.attempts| + n - k
    ensures r.0.Ok? ==> p.changes <= r.0.value.changes
    decreases n - k
  {
    if k == n then (Ok(Fixed(p.notes, p.changes, p.impl)), p.attempts, files)
    else
      var v := visit(files, p, k);
      if v.0.Err? then (Err(v.0.error), p.attempts, v.1)
      else Run(visit, v.1, Advance(p, k, v.0.value), k + 1, n)
  }

  /** The `while param_idx < len(impl.params)` loop (const_fix.py:248-286)
      from index `k` on, as a function of the store and of the values `p`
      reached so far. Every visit keeps the number of parameters
      (`VisitedArity`), so the loop's bound is the arity it starts with. */
  function LoopFrom(files: Files, p: Progress, k: nat, o: Oracle): (r: (Result<Fixed>, seq<Attempt>, Files))
    requires k <= |p.impl.params| && ArityKept(o, |p.impl.params|)
    ensures p.attempts <= r.1 && |r.1| <= |p.attempts| + |p.impl.params| - k
    ensures r.0.Ok? ==> p.changes <= r.0.value.changes
  {
    Run(VisitAt(o), files, p, k, |p.impl.params|)
  }

  /** One turn of the loop: a failed visit ends it with the attempts so
      far, a successful one goes on from the next index. */
  lemma LoopFromStep(files: Files, p: Progress, k: nat, o: Oracle)
    requires k < |p.impl.params| && ArityKept(o, |p.impl.params|)
    ensures var v := Visited(files, p.m, p.impl, k, o, |p.attempts|, p.changes);
      && (v.0.Err? ==> LoopFrom(files, p, k, o) == (Err(v.0.error), p.attempts, v.1))
      && (v.0.Ok? ==>
            |v.0.value.impl.params| == |p.impl.params| &&
            LoopFrom(files, p, k, o) == LoopFrom(v.1, Advance(p, k, v.0.value), k + 1, o))
  {
    VisitedArity(files, p.m, p.impl, k, o, |p.attempts|, p.changes);
  }

  /** The loop past the last parameter ends with the values reached. */
  lemma LoopFromDone(files: Files, p: Progress, k: nat, o: Oracle)
    requires k == |p.impl.params| && ArityKept(o, |p.impl.params|)
    ensures LoopFrom(files, p, k, o) == (Ok(Fixed(p.notes, p.changes, p.impl)), p.attempts, files)
  {
  }

  /** The re-check after backing out of a rejected change is clean on
      every try. */
  ghost predicate Rechecks(o: Oracle) {
    forall t :: Clean(o.verdicts(t).1)
  }

  /** What the loop relies on of visit `r` of parameter `k` from the
      running values `p`: it adds the note of its step, tries exactly on a
      try step, keeps a try exactly when its first verdict is clean, keeps
      `n` parameters, and calls `sys.exit` only after a re-check that is
      not clean. */
  ghost predicate VisitMeaning(o: Oracle, n: nat, p: Progress, r: (Result<Visit>, Files)) {
    && (r.0.Err? && r.0.error.Exit? ==> !Clean(o.verdicts(|p.attempts|).1))
    && (r.0.Ok? ==> var v := r.0.value;
          && |v.impl.params| == n && (v.kept ==> v.tried) && (v.tried <==> v.step.Try?)
          && v.note == NoteOf(v.step) && (v.tried ==> (v.kept <==> Clean(o.verdicts(|p.attempts|).0))))
  }

  /** Every visit of an implementation with `n` parameters means what
      `VisitMeaning` says. */
  ghost predicate Visits(visit: VisitFn, o: Oracle, n: nat) {
    forall files, p: Progress, k: nat :: k < |p.impl.params| == n ==> VisitMeaning(o, n, p, visit(files, p, k))
  }

  /** Every successful visit of parameter `k` takes the step `Decide`
      takes on it. */
  ghost predicate VisitsDecide(visit: VisitFn) {
    forall files, p: Progress, k: nat :: k < |p.impl.params| && visit(files, p, k).0.Ok? ==>
      Decided(p.impl, k, visit(files, p, k).0.value.step)
  }

  /** The visits of `fix_func` mean what the loop relies on. */
  lemma VisitAtVisits(o: Oracle, n: nat)
    requires ArityKept(o, n)
    ensures Visits(VisitAt(o), o, n) && VisitsDecide(VisitAt(o))
  {
    forall files, p: Progress, k: nat | k < |p.impl.params|
      ensures (|p.impl.params| == n ==> VisitMeaning(o, n, p, VisitAt(o)(files, p, k)))
      ensures VisitAt(o)(files, p, k).0.Ok? ==> Decided(p.impl, k, VisitAt(o)(files, p, k).0.value.step)
    {
      if |p.impl.params| == n {
        VisitedStep(files, p.m, p.impl, k, o, |p.attempts|, p.changes);
      } else {
        DecideStep(files, p.m, p.impl, k, o, |p.attempts|, p.changes);
      }
    }
  }

  /** However the loop ends, it has made at most one attempt per
      parameter, each kept exactly when its first verdict was clean, and a
      loop that reaches the end keeps the number of parameters. */
  lemma {:induction false} RunAttempts(visit: VisitFn, o: Oracle, n: nat, files: Files, p: Progress, k: nat)
    requires Visits(visit, o, n) && k <= n == |p.impl.params|
    requires |p.attempts| <= k
    requires forall t :: 0 <= t < |p.attempts| ==> (p.attempts[t].kept <==> Clean(o.verdicts(t).0))
    ensures var r := Run(visit, files, p, k, n);
      && |r.1| <= n
      && (forall t :: 0 <= t < |r.1| ==> (r.1[t].kept <==> Clean(o.verdicts(t).0)))
      && (r.0.Ok? ==> |r.0.value.impl.params| == n)
    decreases n - k
  {
    if k < n {
      var v := visit(files, p, k);
      assert VisitMeaning(o, n, p, v);
      if v.0.Ok? {
        var p' := Advance(p, k, v.0.value);
        forall t | 0 <= t < |p'.attempts| ensures p'.attempts[t].kept <==> Clean(o.verdicts(t).0) {
          if t >= |p.attempts| {
            assert p'.attempts[t] == Attempt(k, v.0.value.kept);
          }
        }
        RunAttempts(visit, o, n, v.1, p', k + 1);
      }
    }
  }

  /** The parameter loop before index `k`: the loop state, the steps taken
      on the implementations met, and `p.impl` the last of them. */
  ghost predicate Loop(impl0: Prototype, o: Oracle, k: nat, impls: seq<Prototype>, steps: seq<Step>, p: Progress) {
    && FixState(impl0, o, k, impls, steps, p.attempts, p.changes, p.notes)
    && StepsOf(impls, steps, k)
    && impls[k] == p.impl && |p.impl.params| == |impl0.params|
  }

  /** A successful visit keeps the loop state, with the implementation it
      goes on with and the step it took. */
  lemma LoopStep(visit: VisitFn, impl0: Prototype, o: Oracle, files: Files, p: Progress, k: nat,
                 impls: seq<Prototype>, steps: seq<Step>)
    requires Visits(visit, o, |impl0.params|) && VisitsDecide(visit)
    requires k < |impl0.params| && Loop(impl0, o, k, impls, steps, p)
    ensures var v := visit(files, p, k).0;
      v.Ok? ==> Loop(impl0, o, k + 1, impls + [v.value.impl], steps + [v.value.step], Advance(p, k, v.value))
  {
    var v := visit(files, p, k);
    assert VisitMeaning(o, |impl0.params|, p, v);
    if v.0.Ok? {
      var x := v.0.value;
      StepsOfSnoc(impls, steps, x.impl, x.step, k);
      if x.tried {
        FixStateTry(impl0, o, k, impls, steps, p.attempts, p.changes, p.notes, x.impl, x.step, x.kept);
        assert p.notes + x.note == p.notes;
      } else {
        FixStatePass(impl0, o, k, impls, steps, p.attempts, p.changes, p.notes, x.impl, x.step);
        assert p.attempts + [] == p.attempts;
      }
    }
  }

  /** Every successful visit keeps the loop state. */
  ghost predicate LoopSteps(visit: VisitFn, impl0: Prototype, o: Oracle) {
    forall files, p: Progress, k: nat, impls: seq<Prototype>, steps: seq<Step> ::
      k < |impl0.params| && Loop(impl0, o, k, impls, steps, p) && visit(files, p, k).0.Ok? ==>
        var x := visit(files, p, k).0.value;
        Loop(impl0, o, k + 1, impls + [x.impl], steps + [x.step], Advance(p, k, x))
  }

  /** Visits that mean what the loop relies on keep the loop state. */
  lemma LoopStepsHold(visit: VisitFn, impl0: Prototype, o: Oracle)
    requires Visits(visit, o, |impl0.params|) && VisitsDecide(visit)
    ensures LoopSteps(visit, impl0, o)
  {
    forall files, p: Progress, k: nat, impls: seq<Prototype>, steps: seq<Step>
      | k < |impl0.params| && Loop(impl0, o, k, impls, steps, p) && visit(files, p, k).0.Ok?
      ensures var x := visit(files, p, k).0.value;
        Loop(impl0, o, k + 1, impls + [x.impl], steps + [x.step], Advance(p, k, x))
    {
      LoopStep(visit, impl0, o, files, p, k, impls, steps);
    }
  }

  /** The loop state, followed along the loop from index `k`: a loop that
      reaches the end has visited every parameter, with the
      implementations met and the steps taken on them in `impls'` and
      `steps'`. */
  lemma {:induction false} RunHistory(visit: VisitFn, impl0: Prototype, o: Oracle, files: Files, p: Progress, k: nat,
                                      impls: seq<Prototype>, steps: seq<Step>)
    returns (impls': seq<Prototype>, steps': seq<Step>)
    requires LoopSteps(visit, impl0, o)
    requires k <= |impl0.params| && Loop(impl0, o, k, impls, steps, p)
    ensures var r := Run(visit, files, p, k, |impl0.params|);
      r.0.Ok? ==> var n := |impl0.params|;
        && FixState(impl0, o, n, impls', steps', r.1, r.0.value.changes, r.0.value.notes)
        && StepsOf(impls', steps', n) && impls'[n] == r.0.value.impl
    decreases |impl0.params| - k
  {
    if k == |impl0.params| {
      return impls, steps;
    }
    var v := visit(files, p, k);
    if v.0.Err? {
      return impls, steps;
    }
    var x := v.0.value;
    assert Loop(impl0, o, k + 1, impls + [x.impl], steps + [x.step], Advance(p, k, x));
    impls', steps' := RunHistory(visit, impl0, o, v.1, Advance(p, k, x), k + 1, impls + [x.impl], steps + [x.step]);
  }

  /** The loop calls `sys.exit` only after a re-check that is not clean. */
  lemma {:induction false} RunExits(visit: VisitFn, o: Oracle, n: nat, files: Files, p: Progress, k: nat)
    requires Visits(visit, o, n) && k <= n == |p.impl.params|
    ensures var r := Run(visit, files, p, k, n);
      r.0.Err? && r.0.error.Exit? ==> !Rechecks(o)
    decreases n - k
  {
    if k < n {
      var v := visit(files, p, k);
      assert VisitMeaning(o, n, p, v);
      if v.0.Ok? {
        RunExits(visit, o, n, v.1, Advance(p, k, v.0.value), k + 1);
      } else if v.0.error.Exit? {
        var t := |p.attempts|;
        assert !Clean(o.verdicts(t).1);
      }
    }
  }

  /** What the loop from the first parameter makes of an implementation
      with `n` parameters: at most `n` attempts, each kept exactly when its
      first verdict was clean, and, when it ends without error, every
      parameter visited once in index order on the implementation of its
      moment (`impls`, starting from `impl0` and ending with the result's),
      with a try exactly at the indexes whose step is a try, the kept tries
      counted, and the steps' notes in order. */
  lemma LoopFromMeaning(files: Files, m0: PrototypeMap, impl0: Prototype, o: Oracle)
    returns (impls: seq<Prototype>, steps: seq<Step>)
    requires ArityKept(o, |impl0.params|)
    ensures var r := LoopFrom(files, Progress(m0, impl0, [], 0, ""), 0, o); var n := |impl0.params|;
      && |r.1| <= n
      && (forall t :: 0 <= t < |r.1| ==> (r.1[t].kept <==> Clean(o.verdicts(t).0)))
      && (r.0.Ok? ==>
            && |impls| == n + 1 && |steps| == n && impls[0] == impl0 && impls[n] == r.0.value.impl
            && SameArity(impls, n)
            && StepsOf(impls, steps, n)
            && AttemptsAt(r.1, TryIndexes(steps, n), n, o)
            && r.0.value.changes == KeptCount(r.1)
            && r.0.value.notes == Notes(steps, n))
  {
    var n := |impl0.params|;
    var p := Progress(m0, impl0, [], 0, "");
    VisitAtVisits(o, n);
    RunAttempts(VisitAt(o), o, n, files, p, 0);
    LoopStepsHold(VisitAt(o), impl0, o);
    impls, steps := RunHistory(VisitAt(o), impl0, o, files, p, 0, [impl0], []);
    var r := Run(VisitAt(o), files, p, 0, n);
    if r.0.Ok? {
      FixStateDone(impl0, o, impls, steps, r.1, r.0.value.changes, r.0.value.notes);
    }
  }

  /** The loop calls `sys.exit` only after a re-check that is not clean. */
  lemma LoopFromExits(files: Files, p: Progress, k: nat, o: Oracle)
    requires k <= |p.impl.params| && ArityKept(o, |p.impl.params|)
    ensures var r := LoopFrom(files, p, k, o);
      r.0.Err? && r.0.error.Exit? ==> !Rechecks(o)
  {
    VisitAtVisits(o, |p.impl.params|);
    RunExits(VisitAt(o), o, |p.impl.params|, files, p, k);
  }

  /** One turn of the parameter loop: the visit of parameter `k`, after
      which the rest of the loop is what is left of `LoopFrom`. */
  method FixStep(disk: Disk, o: Oracle, k: nat, p: Progress) returns (r: Result<Progress>)
    requires k < |p.impl.params| && ArityKept(o, |p.impl.params|)
    modifies disk
    ensures r.Ok? ==> |r.value.impl.params| == |p.impl.params|
    ensures r.Err? ==> LoopFrom(old(disk.files), p, k, o) == (Err(r.error), p.attempts, disk.files)
    ensures r.Ok? ==> LoopFrom(old(disk.files), p, k, o) == LoopFrom(disk.files, r.value, k + 1, o)
  {
    LoopFromStep(disk.files, p, k, o);
    var visit := VisitParam(disk, p.m, p.impl, k, o, |p.attempts|, p.changes);
    if visit.Err? {
      return Err(visit.error);
    }
    r := Ok(Advance(p, k, visit.value));
  }

  /** The `while param_idx < len(impl.params)` loop (const_fix.py:248-286).
      `impls` is the implementation as the loop finds it at each index,
      then as it ends, and `steps` what `Decide` makes of each. Every
      parameter is visited once, in index order; a try is made exactly at
      the indexes whose step is a try; the change count is the number of
      kept tries, each one whose first build and tests were clean; the
      notes are those of the steps in order. */
  method FixParams(disk: Disk, m0: PrototypeMap, impl0: Prototype, o: Oracle)
    returns (r: Result<Fixed>, attempts: seq<Attempt>, ghost impls: seq<Prototype>, ghost steps: seq<Step>)
    requires ArityKept(o, |impl0.params|)
    modifies disk
    ensures |attempts| <= |impl0.params|
    ensures forall t :: 0 <= t < |attempts| ==> (attempts[t].kept <==> Clean(o.verdicts(t).0))
    ensures r.Ok? ==> var n := |impl0.params|;
      && |impls| == n + 1 && |steps| == n && impls[0] == impl0 && impls[n] == r.value.impl
      && SameArity(impls, n)
      && StepsOf(impls, steps, n)
      && AttemptsAt(attempts, TryIndexes(steps, n), n, o)
      && r.value.changes == KeptCount(attempts)
      && r.value.notes == Notes(steps, n)
    ensures (r, attempts, disk.files) == LoopFrom(old(disk.files), Progress(m0, impl0, [], 0, ""), 0, o)
  {
    var n := |impl0.params|;
    var p := Progress(m0, impl0, [], 0, "");
    var k := 0;
    while k < n
      invariant k <= n == |p.impl.params|
      invariant LoopFrom(disk.files, p, k, o) == LoopFrom(old(disk.files), Progress(m0, impl0, [], 0, ""), 0, o)
      decreases n - k
    {
      var next := FixStep(disk, o, k, p);
      if next.Err? {
        r, attempts := Err(next.error), p.attempts;
        impls, steps := LoopFromMeaning(old(disk.files), m0, impl0, o);
        return;
      }
      p := next.value;
      k := k + 1;
    }
    LoopFromDone(disk.files, p, k, o);
    r, attempts := Ok(Fixed(p.notes, p.changes, p.impl)), p.attempts;
    impls, steps := LoopFromMeaning(old(disk.files), m0, impl0, o);
  }

  /** The tags `fix_func` adds after the loop (const_fix.py:287-290). */
  function ChangeTags(f: Fixed): (r: string)
    ensures StartsWith(r, f.notes + NatToString(f.changes))
    ensures f.changes == 0 ==> r == f.notes + NatToString(0)
    ensures f.changes > 0 ==> EndsWith(r, Ideal(f.impl))
  {
    var t := f.notes + NatToString(f.changes);
    var r := if f.changes > 0 then t + " --> " + Ideal(f.impl) else t;
    assert t <= r;
    r
  }

  /** `fix_func(func, root, cg, tags)` as a function of the store: the
      tags it returns, or the error it raises, and the store after it. */
  function FuncFixed(func: string, m: PrototypeMap, tags: string, files: Files, o: Oracle): (r: (Result<string>, Files))
    requires Best(m).Some? ==> ArityKept(o, |Best(m).value.params|)
    ensures r.0.Ok? ==> StartsWith(r.0.value, tags)
  {
    if EndsWith(Lower(func), "printf") then (Ok(tags + "SKIPPED"), files)
    else if Best(m).None? then (Err(NoneAttribute(242)), files)
    else
      var impl := Best(m).value;
      if !Consistent(m, impl) then (Ok(tags + "INCONSISTENT_PROTOTYPES "), files)
      else if !HasBody(impl) then (Ok(tags + "NO_IMPL "), files)
      else if !HasConstCandidate(impl.params) then (Ok(tags + "CANT_MODIFY"), files)
      else
        var run := LoopFrom(files, Progress(m, impl, [], 0, ""), 0, o);
        (if run.0.Err? then Err(run.0.error) else Ok(tags + ChangeTags(run.0.value)), run.2)
  }

  /** `fix_func` calls `sys.exit` only after a re-check that is not
      clean. */
  lemma FuncFixedExits(func: string, m: PrototypeMap, tags: string, files: Files, o: Oracle)
    requires Best(m).Some? ==> ArityKept(o, |Best(m).value.params|)
    ensures var r := FuncFixed(func, m, tags, files, o);
      r.0.Err? && r.0.error.Exit? ==> !Rechecks(o)
  {
    if !EndsWith(Lower(func), "printf") && Best(m).Some? {
      LoopFromExits(files, Progress(m, Best(m).value, [], 0, ""), 0, o);
    }
  }

  /** `fix_func(func, root, cg, tags)` with the prototypes that
      `find_prototypes_in_codebase` finds given as `m`. */
  method FixFunc(func: string, m: PrototypeMap, tags: string, disk: Disk, o: Oracle)
    returns (r: Result<string>, ghost fixed: Option<Fixed>, ghost attempts: seq<Attempt>,
             ghost impls: seq<Prototype>, ghost steps: seq<Step>)
    requires Best(m).Some? ==> ArityKept(o, |Best(m).value.params|)
    modifies disk
    ensures EndsWith(Lower(func), "printf") ==> r == Ok(tags + "SKIPPED") && disk.files == old(disk.files)
    ensures !EndsWith(Lower(func), "printf") && Best(m).None? ==>
      r == Err(NoneAttribute(242)) && disk.files == old(disk.files)
    ensures !EndsWith(Lower(func), "printf") && Best(m).Some? ==> var impl := Best(m).value;
      && (!Consistent(m, impl) ==> r == Ok(tags + "INCONSISTENT_PROTOTYPES ") && disk.files == old(disk.files))
      && (Consistent(m, impl) && !HasBody(impl) ==> r == Ok(tags + "NO_IMPL ") && disk.files == old(disk.files))
      && (Consistent(m, impl) && HasBody(impl) && !HasConstCandidate(impl.params) ==>
            r == Ok(tags + "CANT_MODIFY") && disk.files == old(disk.files))
    ensures (!EndsWith(Lower(func), "printf") && Best(m).Some? && Consistent(m, Best(m).value) &&
             HasBody(Best(m).value) && HasConstCandidate(Best(m).value.params) && r.Ok?) ==>
        var n := |Best(m).value.params|;
        && fixed.Some? && r == Ok(tags + ChangeTags(fixed.value))
        && |impls| == n + 1 && |steps| == n && impls[0] == Best(m).value && impls[n] == fixed.value.impl
        && StepsOf(impls, steps, n)
        && AttemptsAt(attempts, TryIndexes(steps, n), n, o)
        && fixed.value.changes == KeptCount(attempts) && fixed.value.notes == Notes(steps, n)
    ensures r.Ok? ==> StartsWith(r.value, tags)
    ensures r.Err? ==> fixed.None?
    ensures fixed.Some? ==> r == Ok(tags + ChangeTags(fixed.value))
    ensures (r, disk.files) == FuncFixed(func, m, tags, old(disk.files), o)
  {
    if EndsWith(Lower(func), "printf") {
      return Ok(tags + "SKIPPED"), None, [], [], [];
    }
    var best := FindBest(m);
    if best.None? {
      return Err(NoneAttribute(242)), None, [], [], [];
    }
    var impl := best.value;
    var ok := CheckConsistent(m, impl);
    if !ok {
      return Ok(tags + "INCONSISTENT_PROTOTYPES "), None, [], [], [];
    }
    if !HasBody(impl) {
      return Ok(tags + "NO_IMPL "), None, [], [], [];
    }
    if !HasConstCandidate(impl.params) {
      return Ok(tags + "CANT_MODIFY"), None, [], [], [];
    }
    var loop;
    loop, attempts, impls, steps := FixParams(disk, m, impl, o);
    if loop.Err? {
      return Err(loop.error), None, attempts, impls, steps;
    }
    fixed := Some(loop.value);
    var more := ChangeTags(loop.value);
    return Ok(tags + more), fixed, attempts, impls, steps;
  }
}
