/** One parameter of a C prototype (param.py): its declaration text split
    into a normalised type and a name, the tests that decide whether adding
    `const` to it is worth trying, and the `const` toggle itself. */
module Params {
  import opened Wrappers
  import opened Text
  import opened TypeNormalization

  /** `datatype_names` (param.py:6): primitive type keywords that are never
      taken as a parameter name. */
  const DatatypeNames: seq<string> := ["int", "short", "long", "double", "float", "char", "bool"]

  /** The prefixes `m?u?(long|int)|mbool_t` of `moab_common_out_pat`
      (param.py:8). */
  const CommonOutPrefixes: seq<string> :=
    ["long", "int", "ulong", "uint", "mlong", "mint", "mulong", "muint", "mbool_t"]

  /** A `Param` (param.py:56-64). `begin` is the offset of `decl` in the
      file text. `new_name` starts as `None` and is reset to `''`; the tool
      treats both alike, so it is a string here with `""` for none. */
  datatype Param = Param(
    begin: nat,
    decl: string,
    arraySpec: string,
    dataType: string,
    name: Option<string>,
    newName: string)

  // ---------------------------------------------------------------------
  // The regular expressions, as character predicates

  /** The class `[a-z_0-9]`. */
  predicate IsMoabClassChar(c: char) { IsLower(c) || IsDigit(c) || c == '_' }

  /** `moab_type_pat` (`.*\Wm[a-z_0-9]+_t$`) matching with its `\W` at
      position `k`. `.` does not match a newline, so none may precede `k`;
      the text is squeezed, so `$` can only match at the very end. */
  predicate MoabTypeAt(d: string, k: nat) {
    && k + 5 <= |d|
    && !IsWordChar(d[k])
    && d[k + 1] == 'm'
    && d[|d| - 2..] == "_t"
    && (forall j :: k + 2 <= j < |d| - 2 ==> IsMoabClassChar(d[j]))
    && '\n' !in d[..k]
  }

  /** `moab_type_pat.match(d)`: the declaration ends in a MOAB type name
      such as `mjob_t`, so it has no parameter name. */
  predicate MoabType(d: string) {
    exists k :: 0 <= k < |d| && MoabTypeAt(d, k)
  }

  /** `\s*\*\s*$`: one `*` with optional whitespace around it. */
  predicate StarTail(s: string) {
    var n := SpaceRun(s);
    n < |s| && s[n] == '*' && AllSpace(s[n + 1..])
  }

  /** `moab_common_out_pat.match(dt)`: a pointer to `int`, `long` or
      `mbool_t` and their MOAB variants, the common out-parameter types. */
  predicate CommonOut(dt: string) {
    exists p :: p in CommonOutPrefixes && p <= dt && StarTail(dt[|p|..])
  }

  predicate MultipleStars(dt: string) {
    exists a, b :: 0 <= a < b < |dt| && dt[a] == '*' && dt[b] == '*'
  }

  predicate HasMarker(dt: string) {
    exists k :: 0 <= k < |dt| && IsMarker(dt[k])
  }

  // ---------------------------------------------------------------------
  // `_parse`

  /** The first index at or after `i` that is not `*` or `&`. */
  function SkipMarkers(s: string, i: nat): (j: nat)
    requires i <= |s|
    ensures i <= j <= |s|
    ensures forall k :: i <= k < j ==> IsMarker(s[k])
    ensures j < |s| ==> !IsMarker(s[j])
    decreases |s| - i
  {
    if i < |s| && IsMarker(s[i]) then SkipMarkers(s, i + 1) else i
  }

  /** Where the name would begin: past the `*`/`&` run that follows the
      last plain space of `sq`. */
  function NameStart(sq: string): (j: nat)
    ensures j <= |sq|
  {
    SkipMarkers(sq, LastIndexOf(sq, ' ') + 1)
  }

  /** The squeezed declaration `sq` has a parameter name: it has a space,
      does not end in `*`, `&` or a MOAB type name, and the word after the
      last space is not a primitive type keyword. */
  predicate Named(sq: string) {
    && !(EndsWith(sq, "*") || EndsWith(sq, "&") || MoabType(sq))
    && ' ' in sq
    && sq[NameStart(sq)..] !in DatatypeNames
  }

  /** Where `_parse` takes the name to begin in the squeezed declaration
      `sq` (param.py:153-162): after the last plain space and the `*`/`&`
      run that follows it, unless the declaration ends in `*`, `&` or a MOAB
      type name, or the word found is a primitive type keyword. */
  function NameIndex(sq: string): (r: Option<nat>)
    requires NoEdgeSpace(sq)
    ensures EndsWith(sq, "*") || EndsWith(sq, "&") || MoabType(sq) || ' ' !in sq ==> r == None
    ensures r.Some? ==> 0 < r.value < |sq| && !IsMarker(sq[r.value]) && !IsMarker(sq[|sq| - 1])
    ensures r.Some? ==> ' ' !in sq[r.value..] && sq[r.value..] !in DatatypeNames
    ensures r.Some? ==> var i := LastIndexOf(sq, ' ');
      0 <= i < r.value && forall k :: i < k < r.value ==> IsMarker(sq[k])
    ensures r.Some? <==> Named(sq)
    ensures r.Some? ==> r.value == NameStart(sq)
  {
    if EndsWith(sq, "*") || EndsWith(sq, "&") || MoabType(sq) then None
    else
      var i := LastIndexOf(sq, ' ');
      if i == -1 then None
      else
        assert sq[|sq| - 1..] == [sq[|sq| - 1]];
        assert NameStart(sq) == SkipMarkers(sq, i + 1);
        NameAfter(sq, i)
  }

  /** The name after the last space `sq[i]`: past the `*`/`&` run, unless it
      is a primitive type keyword. */
  function NameAfter(sq: string, i: nat): (r: Option<nat>)
    requires i + 1 < |sq| && ' ' !in sq[i + 1..] && !IsMarker(sq[|sq| - 1])
    ensures r.Some? ==> i < r.value < |sq| && !IsMarker(sq[r.value])
    ensures r.Some? ==> ' ' !in sq[r.value..] && sq[r.value..] !in DatatypeNames
    ensures r.Some? ==> forall k :: i < k < r.value ==> IsMarker(sq[k])
    ensures r.Some? <==> sq[SkipMarkers(sq, i + 1)..] !in DatatypeNames
    ensures r.Some? ==> r.value == SkipMarkers(sq, i + 1)
  {
    var j := SkipMarkers(sq, i + 1);
    assert j < |sq|;
    assert sq[j..] == sq[i + 1..][j - i - 1..];
    if sq[j..] in DatatypeNames then None else Some(j)
  }

  /** `Param(begin, decl)` (param.py:57-64, 147-168). */
  function ParseDecl(begin: nat, decl: string): (p: Param)
    ensures p.begin == begin && p.decl == decl && p.newName == ""
    ensures p.arraySpec == ""
    ensures var sq := Squeeze(decl);
      EndsWith(sq, "*") || EndsWith(sq, "&") || MoabType(sq) || ' ' !in sq ==>
        p.name == None && p.dataType == NormalizeType(sq)
    ensures p.name.Some? ==> var n := p.name.value; var sq := Squeeze(decl);
      && n != [] && EndsWith(sq, n) && |n| < |sq|
      && ' ' !in n && !IsMarker(n[0]) && !IsMarker(n[|n| - 1]) && n !in DatatypeNames
      && p.dataType == NormalizeType(RStrip(sq[..|sq| - |n|]))
    ensures var sq := Squeeze(decl);
      (p.name.Some? <==> Named(sq))
      && (p.name.Some? ==> p.name.value == sq[NameStart(sq)..])
      && (p.name.None? ==> p.dataType == NormalizeType(sq))
  {
    var sq := Squeeze(decl);
    // `array_spec_pat` (param.py:3) puts `^` after the `[` it consumes, so
    // it never matches and the array suffix stays ''.
    var ni := NameIndex(sq);
    var raw := if ni.Some? then RStrip(sq[..ni.value]) else sq;
    var dt := NormalizeType(raw);
    Param(begin, decl, "", dt, if ni.Some? then Some(sq[ni.value..]) else None, "")
  }

  /** The parsed type is in normal form, has no stray whitespace, and is not
      empty when a name was split off. */
  lemma ParsedTypeNormal(begin: nat, decl: string)
    ensures var p := ParseDecl(begin, decl);
      && NormalizeType(p.dataType) == p.dataType
      && NoEdgeSpace(p.dataType) && NoAdjacentSpace(p.dataType)
      && (p.name.Some? ==> p.dataType != [])
  {
    var sq := Squeeze(decl);
    var ni := NameIndex(sq);
    var raw := if ni.Some? then RStrip(sq[..ni.value]) else sq;
    assert ParseDecl(begin, decl).dataType == NormalizeType(raw);
    if ni.Some? {
      RStripKeepsHead(sq[..ni.value]);
    }
    NormalizedFacts(raw);
  }

  /** The `name_idx` loop of `_parse` (param.py:153-162). */
  method FindNameIndex(sq: string) returns (nameIdx: int)
    requires NoEdgeSpace(sq)
    ensures nameIdx == if NameIndex(sq).Some? then NameIndex(sq).value else -1
  {
    nameIdx := -1;
    if !(EndsWith(sq, "*") || EndsWith(sq, "&") || MoabType(sq)) {
      var i := LastIndexOf(sq, ' ');
      if i > -1 {
        assert sq[|sq| - 1..] == [sq[|sq| - 1]];
        nameIdx := FindNameAfter(sq, i);
      }
    }
  }

  /** The loop of `_parse` that steps over the `*`/`&` run after the last
      space. */
  method FindNameAfter(sq: string, i: nat) returns (nameIdx: int)
    requires i + 1 < |sq| && ' ' !in sq[i + 1..] && !IsMarker(sq[|sq| - 1])
    ensures nameIdx == if NameAfter(sq, i).Some? then NameAfter(sq, i).value else -1
  {
    nameIdx := i + 1;
    while sq[nameIdx] == '*' || sq[nameIdx] == '&'
      invariant i + 1 <= nameIdx < |sq|
      invariant SkipMarkers(sq, nameIdx) == SkipMarkers(sq, i + 1)
      decreases |sq| - nameIdx
    {
      nameIdx := nameIdx + 1;
    }
    if sq[nameIdx..] in DatatypeNames {
      nameIdx := -1;
    }
  }

  /** `_parse` as the source writes it (param.py:147-168). */
  method Parse(begin: nat, decl: string) returns (p: Param)
    ensures p == ParseDecl(begin, decl)
  {
    var sq := Squeeze(decl);
    var nameIdx := FindNameIndex(sq);
    if nameIdx > -1 {
      p := Param(begin, decl, "", NormalizeType(RStrip(sq[..nameIdx])), Some(sq[nameIdx..]), "");
    } else {
      p := Param(begin, decl, "", NormalizeType(sq), None, "");
    }
  }

  // ---------------------------------------------------------------------
  // Queries

  /** `is_const` (param.py:126-127): it reads the declaration as written,
      not the current type. */
  predicate IsConst(p: Param) {
    Contains(p.decl, "const")
  }

  /** `is_const_candidate` (param.py:96-124). */
  function IsConstCandidate(p: Param): (r: bool)
    ensures r <==>
      && !Contains(p.dataType, "void")
      && HasMarker(p.dataType)
      && !('*' in p.dataType && p.dataType == "char *" && p.name == Some("EMsg"))
      && !('*' in p.dataType && CommonOut(p.dataType))
      && !('*' in p.dataType && '&' in p.dataType)
      && !MultipleStars(p.dataType)
  {
    var dt := p.dataType;
    var i := IndexOf(dt, '*');
    var j := IndexOf(dt, '&');
    assert HasMarker(dt) <==> '*' in dt || '&' in dt by {
      if '*' in dt { assert IsMarker(dt[i]); }
      if '&' in dt { assert IsMarker(dt[j]); }
    }
    assert MultipleStars(dt) <==> i > -1 && i < LastIndexOf(dt, '*') by {
      if i > -1 && i < LastIndexOf(dt, '*') {
        assert dt[i] == '*' && dt[LastIndexOf(dt, '*')] == '*';
      }
    }
    if Contains(dt, "void") then false
    else if i == -1 && j == -1 then false
    else if i > -1 && dt == "char *" && p.name == Some("EMsg") then false
    else if i > -1 && CommonOut(dt) then false
    else if i > -1 && j > -1 then false
    else if i > -1 && i < LastIndexOf(dt, '*') then false
    else true
  }

  /** `get_pivot_point` (param.py:129-137): the first `*` or `&` of the
      type. */
  function Pivot(p: Param): (r: Option<nat>)
    ensures r.None? <==> !HasMarker(p.dataType)
    ensures r.Some? ==> r.value < |p.dataType| && IsMarker(p.dataType[r.value])
    ensures r.Some? ==> forall k :: 0 <= k < r.value ==> !IsMarker(p.dataType[k])
  {
    var dt := p.dataType;
    var i := IndexOf(dt, '*');
    var j := IndexOf(dt, '&');
    assert !HasMarker(dt) <==> i == -1 && j == -1 by {
      if i >= 0 { assert IsMarker(dt[i]); }
      if j >= 0 { assert IsMarker(dt[j]); }
    }
    if i > -1 then
      if j > -1 then Some(if i < j then i else j) else Some(i)
    else if j > -1 then Some(j)
    else None
  }

  // ---------------------------------------------------------------------
  // `set_const`

  /** `set_const(value)` (param.py:139-145). With no pivot, Python's
      `dt[:None]` and `dt[None:]` are the whole type. */
  function SetConst(p: Param, value: bool): (r: Param)
    ensures r == p.(dataType := r.dataType)
    ensures IsConst(r) == IsConst(p)
    ensures value == IsConst(p) ==> r == p
    ensures !value && IsConst(p) ==> NoEdgeSpace(r.dataType) && NoAdjacentSpace(r.dataType)
  {
    var dt := p.dataType;
    var piv := Pivot(p);
    if value then
      if !IsConst(p) then
        var before := if piv.Some? then dt[..piv.value] else dt;
        var after := if piv.Some? then dt[piv.value..] else dt;
        p.(dataType := Squeeze(RStrip(before) + " const " + after))
      else p
    else if IsConst(p) then
      p.(dataType := Squeeze(ReplaceAll(dt, "const", "")))
    else p
  }

  /** On the normal form `X const Y` that `normalize_type` gives a `const`
      type, `set_const(False)` drops the word: `char const *` becomes
      `char *`. */
  lemma SetConstDropsConst(p: Param, a: string, b: string)
    requires IsConst(p) && p.dataType == a + " const " + b
    requires a != [] && NoEdgeSpace(a) && NoAdjacentSpace(a) && !Contains(a, "const")
    requires b != [] && NoEdgeSpace(b) && NoAdjacentSpace(b) && !Contains(b, "const")
    ensures SetConst(p, false).dataType == a + " " + b
  {
    assert p.dataType == a + " " + "const" + " " + b;
    ReplaceDropsWord(a, "const", b);
    SqueezeDoubleSpace(a, b);
  }

  /** Whenever `set_const(v)` changes a parameter, a later `set_const(!v)`
      does nothing: `is_const` still reads the unchanged declaration. */
  lemma SetConstNotUndone(p: Param, v: bool)
    requires SetConst(p, v) != p
    ensures SetConst(SetConst(p, v), !v) == SetConst(p, v)
  {
  }

  /** Putting ` const ` before a non-whitespace position of a squeezed text
      (after right-stripping the part before it) leaves nothing to squeeze. */
  lemma InsertConstSqueezed(dt: string, i: nat)
    requires NoEdgeSpace(dt) && NoAdjacentSpace(dt) && 0 < i < |dt| && !IsSpace(dt[i])
    ensures var s := RStrip(dt[..i]) + " const " + dt[i..]; Squeeze(s) == s
  {
    var a := RStrip(dt[..i]);
    var b := dt[i..];
    assert a != [] && a[0] == dt[0];
    NoAdjacentSlice(dt, 0, |a|);
    assert dt[..|a|] == a;
    NoAdjacentSlice(dt, i, |dt|);
    assert b[|b| - 1] == dt[|dt| - 1];
    SpaceJoin(a, "const");
    SpaceJoin(a + " " + "const", b);
    assert a + " " + "const" + " " + b == a + " const " + b;
    SqueezeFixesSqueezed(a + " const " + b);
  }

  /** On a type with no stray whitespace, `set_const(True)` puts ` const `
      right before the pivot: `mjob_t *` becomes `mjob_t const *`. */
  lemma SetConstInsertsBeforePivot(p: Param, i: nat)
    requires !IsConst(p) && Pivot(p) == Some(i) && i > 0
    requires NoEdgeSpace(p.dataType) && NoAdjacentSpace(p.dataType)
    ensures SetConst(p, true).dataType == RStrip(p.dataType[..i]) + " const " + p.dataType[i..]
  {
    InsertConstSqueezed(p.dataType, i);
  }

  // ---------------------------------------------------------------------
  // `__str__`

  /** `__str__` (param.py:170-176): the new name wins over the parsed one;
      with neither the type stands alone. */
  function Render(p: Param): (r: string)
    ensures p.newName != "" ==> r == p.dataType + " " + p.newName + p.arraySpec
    ensures p.newName == "" && p.name.Some? && p.name.value != "" ==>
      r == p.dataType + " " + p.name.value + p.arraySpec
    ensures p.newName == "" && (p.name.None? || p.name.value == "") ==> r == p.dataType + p.arraySpec
  {
    var nm := if p.newName != "" then Some(p.newName) else p.name;
    if nm.Some? && nm.value != "" then p.dataType + " " + nm.value + p.arraySpec
    else p.dataType + p.arraySpec
  }

  lemma SqueezedJoin(dt: string, n: string)
    requires dt != [] && NoEdgeSpace(dt) && NoAdjacentSpace(dt)
    requires n != [] && forall k :: 0 <= k < |n| ==> !IsSpace(n[k])
    ensures Squeeze(dt + " " + n) == dt + " " + n
  {
    SpaceJoin(dt, n);
    SqueezeFixesSqueezed(dt + " " + n);
  }

  lemma NameIndexOfJoin(dt: string, n: string)
    requires dt != [] && NoEdgeSpace(dt + " " + n)
    requires n != [] && ' ' !in n && !IsMarker(n[0]) && !IsMarker(n[|n| - 1])
    requires n !in DatatypeNames && !EndsWith(n, "_t")
    ensures NameIndex(dt + " " + n) == Some(|dt| + 1)
  {
    var r := dt + " " + n;
    assert r[|r| - 1] == n[|n| - 1];
    assert r[|r| - 1..] == [n[|n| - 1]];
    assert !MoabType(r) by {
      if |n| >= 2 { assert r[|r| - 2..] == n[|n| - 2..]; }
      else { assert r[|r| - 2] == ' '; }
    }
    LastSpaceOfJoin(dt, n);
    assert r[|dt| + 1..] == n;
    assert r[|dt| + 1] == n[0];
    assert SkipMarkers(r, |dt| + 1) == |dt| + 1;
    assert r[|dt|] == ' ';
    assert NameStart(r) == |dt| + 1;
    assert Named(r);
  }

  lemma {:induction false} LastIndexPastTail(s: string, t: string, c: char)
    requires s != [] && s[|s| - 1] == c && c !in t
    ensures LastIndexOf(s + t, c) == |s| - 1
    decreases |t|
  {
    if t == [] {
      assert s + t == s;
    } else {
      var u := s + t;
      assert u[|u| - 1] == t[|t| - 1];
      assert u[..|u| - 1] == s + t[..|t| - 1];
      LastIndexPastTail(s, t[..|t| - 1], c);
    }
  }

  lemma LastSpaceOfJoin(dt: string, n: string)
    requires ' ' !in n
    ensures LastIndexOf(dt + " " + n, ' ') == |dt|
  {
    LastIndexPastTail(dt + " ", n, ' ');
  }

  lemma SplitJoin(dt: string, n: string)
    requires dt != [] && !IsSpace(dt[|dt| - 1])
    ensures RStrip((dt + " " + n)[..|dt| + 1]) == dt && (dt + " " + n)[|dt| + 1..] == n
  {
    assert (dt + " " + n)[..|dt| + 1] == dt + " ";
    assert (dt + " ")[..|dt|] == dt;
  }

  /** Parsing a normalised type, one space and a plain name gives them back. */
  lemma ParseJoined(begin: nat, dt: string, n: string)
    requires dt != [] && NoEdgeSpace(dt) && NoAdjacentSpace(dt) && NormalizeType(dt) == dt
    requires n != [] && forall k :: 0 <= k < |n| ==> !IsSpace(n[k])
    requires !IsMarker(n[0]) && !IsMarker(n[|n| - 1])
    requires n !in DatatypeNames && !EndsWith(n, "_t")
    ensures ParseDecl(begin, dt + " " + n) == Param(begin, dt + " " + n, "", dt, Some(n), "")
  {
    SqueezedJoin(dt, n);
    assert ' ' !in n by {
      assert forall k :: 0 <= k < |n| ==> n[k] != ' ';
    }
    NameIndexOfJoin(dt, n);
    SplitJoin(dt, n);
  }

  /** Rendering a parameter and parsing the text again gives back its type
      and name, for a name free of whitespace that neither ends like a MOAB
      type nor is a type keyword. */
  lemma RenderParseRoundTrip(p: Param, begin: nat)
    requires p.newName == "" && p.arraySpec == ""
    requires p.dataType != [] && NoEdgeSpace(p.dataType) && NoAdjacentSpace(p.dataType)
    requires NormalizeType(p.dataType) == p.dataType
    requires p.name.Some? && p.name.value != []
    requires forall k :: 0 <= k < |p.name.value| ==> !IsSpace(p.name.value[k])
    requires !IsMarker(p.name.value[0]) && !IsMarker(p.name.value[|p.name.value| - 1])
    requires p.name.value !in DatatypeNames && !EndsWith(p.name.value, "_t")
    ensures ParseDecl(begin, Render(p)) == p.(begin := begin, decl := Render(p))
  {
    assert Render(p) == p.dataType + " " + p.name.value;
    ParseJoined(begin, p.dataType, p.name.value);
  }

  /** The same for a parameter as parsed from its declaration. */
  lemma ParseRenderRoundTrip(begin: nat, decl: string)
    requires var p := ParseDecl(begin, decl);
      p.name.Some? && (forall k :: 0 <= k < |p.name.value| ==> !IsSpace(p.name.value[k]))
      && !EndsWith(p.name.value, "_t")
    ensures var p := ParseDecl(begin, decl);
      ParseDecl(begin, Render(p)) == p.(decl := Render(p))
  {
    var p := ParseDecl(begin, decl);
    ParsedTypeNormal(begin, decl);
    RenderParseRoundTrip(p, begin);
  }
}
