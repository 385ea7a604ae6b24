/** The call graph of the codebase (callgraph.py): for every function, the
    functions it calls (`by_caller`) and the functions that call it
    (`by_callee`), both keyed by a name such as `MJobFree()`. The graph is
    built from names already extracted from the documentation pages. */
module Callgraphs {
  import opened Wrappers
  import opened Text

  // ---------------------------------------------------------------------
  // Lists of names

  /** Python 2 string comparison: code point by code point, a proper
      prefix first. */
  predicate LexLe(a: string, b: string)
    decreases |a|
  {
    a == [] || (b != [] && (a[0] < b[0] || (a[0] == b[0] && LexLe(a[1..], b[1..]))))
  }

  lemma {:induction false} LexTotal(a: string, b: string)
    ensures LexLe(a, b) || LexLe(b, a)
    decreases |a|
  {
    if a != [] && b != [] && a[0] == b[0] {
      LexTotal(a[1..], b[1..]);
    }
  }

  lemma {:induction false} LexTrans(a: string, b: string, c: string)
    requires LexLe(a, b) && LexLe(b, c)
    ensures LexLe(a, c)
    decreases |a|
  {
    if a != [] && a[0] == b[0] && b[0] == c[0] {
      LexTrans(a[1..], b[1..], c[1..]);
    }
  }

  predicate Sorted(s: seq<string>) {
    forall i, j :: 0 <= i < j < |s| ==> LexLe(s[i], s[j])
  }

  predicate NoDup(s: seq<string>) {
    forall i, j :: 0 <= i < j < |s| ==> s[i] != s[j]
  }

  function Insert(x: string, s: seq<string>): seq<string> {
    if s == [] then [x]
    else if LexLe(x, s[0]) then [x] + s
    else [s[0]] + Insert(x, s[1..])
  }

  lemma {:induction false} InsertMembers(x: string, s: seq<string>)
    ensures forall y :: y in Insert(x, s) <==> y == x || y in s
    ensures multiset(Insert(x, s)) == multiset(s) + multiset{x}
  {
    if s != [] && !LexLe(x, s[0]) {
      InsertMembers(x, s[1..]);
      assert s == [s[0]] + s[1..];
    }
  }

  lemma {:induction false} InsertSorted(x: string, s: seq<string>)
    requires Sorted(s)
    ensures Sorted(Insert(x, s))
  {
    if s == [] {
    } else if LexLe(x, s[0]) {
      forall y | y in s ensures LexLe(x, y) {
        var k :| 0 <= k < |s| && s[k] == y;
        if k > 0 { LexTrans(x, s[0], s[k]); }
      }
      ConsSorted(x, s);
    } else {
      LexTotal(x, s[0]);
      var t := s[1..];
      SortedTail(s);
      InsertSorted(x, t);
      InsertMembers(x, t);
      var q := Insert(x, t);
      forall y | y in q ensures LexLe(s[0], y) {
        if y != x {
          var k :| 0 <= k < |t| && t[k] == y;
          assert s[k + 1] == t[k];
        }
      }
      ConsSorted(s[0], q);
    }
  }

  lemma SortedTail(s: seq<string>)
    requires Sorted(s) && s != []
    ensures Sorted(s[1..])
  {
    var t := s[1..];
    forall i, j | 0 <= i < j < |t| ensures LexLe(t[i], t[j]) { assert t[i] == s[i + 1] && t[j] == s[j + 1]; }
  }

  /** A name no greater than any of a sorted list, put in front of it. */
  lemma ConsSorted(a: string, q: seq<string>)
    requires Sorted(q) && forall y :: y in q ==> LexLe(a, y)
    ensures Sorted([a] + q)
  {
    var r := [a] + q;
    forall i, j | 0 <= i < j < |r| ensures LexLe(r[i], r[j]) {
      if i == 0 {
        assert r[j] == q[j - 1] && q[j - 1] in q;
      } else {
        assert r[i] == q[i - 1] && r[j] == q[j - 1];
      }
    }
  }

  lemma MultisetCons(s: seq<string>)
    requires s != []
    ensures multiset(s) == multiset(s[1..]) + multiset{s[0]}
  {
    assert s == [s[0]] + s[1..];
  }

  /** `list.sort()` on a list of names: a sorted permutation. */
  function SortNames(s: seq<string>): (r: seq<string>)
    ensures Sorted(r) && multiset(r) == multiset(s)
  {
    if s == [] then []
    else
      var t := SortNames(s[1..]);
      InsertSorted(s[0], t);
      InsertMembers(s[0], t);
      MultisetCons(s);
      Insert(s[0], t)
  }

  lemma {:induction false} NoDupCount(s: seq<string>)
    requires NoDup(s)
    ensures forall x :: multiset(s)[x] <= 1
  {
    if s != [] {
      var t := s[1..];
      assert NoDup(t) by {
        forall i, j | 0 <= i < j < |t| ensures t[i] != t[j] { assert t[i] == s[i + 1] && t[j] == s[j + 1]; }
      }
      NoDupCount(t);
      forall i | 0 <= i < |t| ensures t[i] != s[0] { assert t[i] == s[i + 1]; }
      assert s[0] !in t;
      assert s == [s[0]] + t;
    }
  }

  /** A name counted once occurs at one position only. */
  lemma CountOnce(s: seq<string>, i: nat, j: nat)
    requires i < j < |s| && multiset(s)[s[j]] <= 1
    ensures s[i] != s[j]
  {
    assert s == s[..j] + [s[j]] + s[j + 1..];
    assert s[..j][i] == s[i];
    assert multiset(s)[s[j]] == multiset(s[..j])[s[j]] + 1 + multiset(s[j + 1..])[s[j]];
    assert s[i] in multiset(s[..j]);
  }

  /** A permutation of a list without repeats has none either. */
  lemma NoDupPermutation(a: seq<string>, b: seq<string>)
    requires NoDup(a) && multiset(a) == multiset(b)
    ensures NoDup(b)
  {
    NoDupCount(a);
    forall i, j | 0 <= i < j < |b| ensures b[i] != b[j] {
      CountOnce(b, i, j);
    }
  }

  /** The merging loops of `_analyze` (callgraph.py:35-48): each link is
      appended unless the list already has it. */
  function AppendNew(xs: seq<string>, links: seq<string>): (r: seq<string>)
    ensures xs <= r
    ensures forall y :: y in r <==> y in xs || y in links
    ensures NoDup(xs) ==> NoDup(r)
    decreases |links|
  {
    if links == [] then xs
    else
      var y := links[0];
      var xs' := if y in xs then xs else xs + [y];
      AddNewNoDup(xs, y);
      Decompose(links);
      AppendNew(xs', links[1..])
  }

  lemma AddNewNoDup(xs: seq<string>, y: string)
    ensures NoDup(xs) ==> NoDup(if y in xs then xs else xs + [y])
  {
    if NoDup(xs) && y !in xs {
      var xs' := xs + [y];
      forall i, j | 0 <= i < j < |xs'| ensures xs'[i] != xs'[j] {
        if j == |xs| { assert xs'[i] == xs[i]; }
      }
    }
  }

  lemma Decompose(links: seq<string>)
    requires links != []
    ensures forall z :: z in links <==> z == links[0] || z in links[1..]
  {
    assert links == [links[0]] + links[1..];
  }

  method AppendLinks(xs: seq<string>, links: seq<string>) returns (r: seq<string>)
    ensures r == AppendNew(xs, links)
  {
    r := xs;
    var k := 0;
    while k < |links|
      invariant k <= |links|
      invariant AppendNew(r, links[k..]) == AppendNew(xs, links)
    {
      assert links[k..][1..] == links[k + 1..];
      if links[k] !in r {
        r := r + [links[k]];
      }
      k := k + 1;
    }
  }

  /** The position of the first `x` in `xs`. */
  function FirstIndex(xs: seq<string>, x: string): (i: nat)
    requires x in xs
    ensures i < |xs| && xs[i] == x && x !in xs[..i]
  {
    if xs[0] == x then 0
    else
      var i := FirstIndex(xs[1..], x);
      assert xs[..i + 1] == [xs[0]] + xs[1..][..i];
      i + 1
  }

  /** `list.remove(x)`: the first occurrence of `x` is deleted. */
  function RemoveFirst(xs: seq<string>, x: string): (r: seq<string>)
    requires x in xs
    ensures |r| == |xs| - 1
  {
    var i := FirstIndex(xs, x);
    xs[..i] + xs[i + 1..]
  }

  lemma RemoveFirstNoDup(xs: seq<string>, x: string)
    requires x in xs && NoDup(xs)
    ensures NoDup(RemoveFirst(xs, x))
    ensures forall y :: y in RemoveFirst(xs, x) <==> y in xs && y != x
  {
    var i := FirstIndex(xs, x);
    var r := RemoveFirst(xs, x);
    assert forall a :: 0 <= a < |r| ==> r[a] == xs[if a < i then a else a + 1];
    forall y ensures y in r <==> y in xs && y != x {
      if y in xs && y != x {
        var k :| 0 <= k < |xs| && xs[k] == y;
        assert k != i;
        assert r[if k < i then k else k - 1] == y;
      }
    }
  }

  /** The name `_analyze` gives a function: the last space-separated word
      of its stripped signature, followed by `()`. A signature without a
      space fails the assertion at callgraph.py:24. */
  function FuncKey(sig: string): (r: Result<string>)
    ensures r.Err? ==> r.error == AssertionFailed(24)
    ensures r.Ok? ==> EndsWith(r.value, "()") && ' ' !in r.value
  {
    var s := Strip(sig);
    var i := LastIndexOf(s, ' ');
    if i <= -1 then Err(AssertionFailed(24))
    else
      var k := s[i + 1..] + "()";
      assert k[|k| - 2..] == "()";
      Ok(k)
  }

  /** The key's relation to the signature: it fails exactly when the
      stripped signature has no space, and otherwise it is a word that ends
      the stripped signature, followed by `()`. */
  lemma FuncKeyMeaning(sig: string)
    ensures FuncKey(sig).Err? <==> ' ' !in Strip(sig)
    ensures FuncKey(sig).Ok? ==> var k := FuncKey(sig).value;
      EndsWith(Strip(sig), k[..|k| - 2]) && |k[..|k| - 2]| < |Strip(sig)|
  {
    var s := Strip(sig);
    var i := LastIndexOf(s, ' ');
    if i > -1 {
      var k := s[i + 1..] + "()";
      assert k[..|k| - 2] == s[i + 1..];
    }
  }

  function Lookup(m: map<string, seq<string>>, f: string): seq<string> {
    if f in m then m[f] else []
  }

  function Links(o: Option<seq<string>>): seq<string> {
    if o.Some? then o.value else []
  }

  /** Every list is sorted. */
  function SortValues(m: map<string, seq<string>>): (r: map<string, seq<string>>)
    ensures r.Keys == m.Keys
    ensures forall f :: f in r ==> Sorted(r[f]) && multiset(r[f]) == multiset(m[f])
  {
    map f | f in m :: SortNames(m[f])
  }

  /** The keys whose list is empty, in the order the loop meets them. */
  method KeysWithEmptyList(m: map<string, seq<string>>) returns (ks: seq<string>)
    ensures NoDup(ks)
    ensures forall f :: f in ks <==> f in m && m[f] == []
  {
    ks := [];
    var todo := m.Keys;
    while todo != {}
      invariant todo <= m.Keys
      invariant NoDup(ks)
      invariant forall f :: f in ks ==> f !in todo
      invariant forall f :: f in ks <==> f in m && f !in todo && m[f] == []
      decreases |todo|
    {
      var f :| f in todo;
      if m[f] == [] {
        ks := ks + [f];
      }
      todo := todo - {f};
    }
  }

  // ---------------------------------------------------------------------
  // `remove` (callgraph.py:107-111)

  /** The state after the loop of `remove` over `callers`, and the
      exception that ended it early, if any: a caller without a list
      (`KeyError`) or whose list lacks `f` (`ValueError`), both at
      callgraph.py:111. Lists changed before the exception stay changed. */
  datatype Drop = Drop(lists: map<string, seq<string>>, err: Option<Error>)

  function DropCallee(m: map<string, seq<string>>, f: string, callers: seq<string>): (d: Drop)
    ensures d.err.Some? ==> d.err.value == KeyMissing(111) || d.err.value == ValueMissing(111)
    decreases |callers|
  {
    if callers == [] then Drop(m, None)
    else
      var c := callers[0];
      if c !in m then Drop(m, Some(KeyMissing(111)))
      else if f !in m[c] then Drop(m, Some(ValueMissing(111)))
      else DropCallee(m[c := RemoveFirst(m[c], f)], f, callers[1..])
  }

  /** `remove` keeps every key of `by_caller`, and the lists of functions
      that do not call `f` as they were. */
  lemma {:induction false} DropKeeps(m: map<string, seq<string>>, f: string, callers: seq<string>)
    ensures DropCallee(m, f, callers).lists.Keys == m.Keys
    ensures forall c :: c in m && c !in callers ==> DropCallee(m, f, callers).lists[c] == m[c]
    decreases |callers|
  {
    if callers != [] {
      var c := callers[0];
      if c in m && f in m[c] {
        var m' := m[c := RemoveFirst(m[c], f)];
        assert m'.Keys == m.Keys;
        DropKeeps(m', f, callers[1..]);
        assert forall c' :: c' in callers[1..] ==> c' in callers;
      }
    }
  }

  /** When every caller is listed once and its list has `f`, the loop
      ends normally and each caller's list loses its first `f`. */
  lemma {:induction false} DropSucceeds(m: map<string, seq<string>>, f: string, callers: seq<string>)
    requires NoDup(callers)
    requires forall c :: c in callers ==> c in m && f in m[c]
    ensures DropCallee(m, f, callers).err.None?
    ensures forall c :: c in callers ==>
      c in DropCallee(m, f, callers).lists && DropCallee(m, f, callers).lists[c] == RemoveFirst(m[c], f)
    decreases |callers|
  {
    if callers != [] {
      var c := callers[0];
      var rest := callers[1..];
      var m' := m[c := RemoveFirst(m[c], f)];
      assert callers == [c] + rest;
      assert NoDup(rest) by {
        forall i, j | 0 <= i < j < |rest| ensures rest[i] != rest[j] { assert rest[i] == callers[i + 1] && rest[j] == callers[j + 1]; }
      }
      forall i | 0 <= i < |rest| ensures rest[i] != c { assert rest[i] == callers[i + 1]; }
      assert c !in rest;
      DropSucceeds(m', f, rest);
      DropKeeps(m', f, rest);
    }
  }

  /** A caller without a list makes the loop fail. */
  lemma {:induction false} DropMissingCaller(m: map<string, seq<string>>, f: string, callers: seq<string>, c: string)
    requires c in callers && c !in m
    ensures DropCallee(m, f, callers).err.Some?
    decreases |callers|
  {
    if callers[0] != c && callers[0] in m && f in m[callers[0]] {
      assert callers == [callers[0]] + callers[1..];
      DropMissingCaller(m[callers[0] := RemoveFirst(m[callers[0]], f)], f, callers[1..], c);
    }
  }

  predicate ListsNoDup(m: map<string, seq<string>>) {
    forall g :: g in m ==> NoDup(m[g])
  }

  /** Replacing one list by a list without repeats keeps every list
      without repeats. */
  lemma UpdateNoDup(m: map<string, seq<string>>, f: string, v: seq<string>)
    requires ListsNoDup(m) && NoDup(v)
    ensures ListsNoDup(m[f := v])
  {
  }

  /** Merging one function's links adds its key and keeps every list
      without repeats. */
  lemma MergeKeeps(m: map<string, seq<string>>, f: string, links: seq<string>)
    ensures (m[f := AppendNew(Lookup(m, f), links)]).Keys == m.Keys + {f}
    ensures ListsNoDup(m) ==> ListsNoDup(m[f := AppendNew(Lookup(m, f), links)])
  {
    if ListsNoDup(m) {
      assert NoDup(Lookup(m, f));
      UpdateNoDup(m, f, AppendNew(Lookup(m, f), links));
    }
  }

  /** Merging one function into both maps keeps their keys equal and their
      lists free of repeats. */
  lemma MergeBothKeeps(calls: map<string, seq<string>>, callers: map<string, seq<string>>, f: string,
                       refs: seq<string>, refBy: seq<string>)
    ensures var calls', callers' := calls[f := AppendNew(Lookup(calls, f), refs)], callers[f := AppendNew(Lookup(callers, f), refBy)];
      && (calls.Keys == callers.Keys ==> calls'.Keys == callers'.Keys)
      && (ListsNoDup(calls) && ListsNoDup(callers) ==> ListsNoDup(calls') && ListsNoDup(callers'))
  {
    MergeKeeps(calls, f, refs);
    MergeKeeps(callers, f, refBy);
  }

  // ---------------------------------------------------------------------
  // The graph

  /** A function's parsed documentation: its signature text and the
      names in its "References" and "Referenced by" paragraphs, when
      those are present. */
  datatype Parsed = Parsed(sig: string, refs: Option<seq<string>>, refBy: Option<seq<string>>)

  /** The names a parsed function contributes to one of the two maps: the
      "Referenced by" names for `by_callee`, the "References" names for
      `by_caller`. */
  function LinksOf(p: Parsed, referencedBy: bool): seq<string> {
    if referencedBy then Links(p.refBy) else Links(p.refs)
  }

  /** The first failure of the `_analyze` loop: a signature without a
      space. */
  function KeyError(parsed: seq<Parsed>): (r: Option<Error>)
    ensures r.Some? ==> r.value == AssertionFailed(24)
    decreases |parsed|
  {
    if parsed == [] then None
    else if FuncKey(parsed[0].sig).Err? then Some(FuncKey(parsed[0].sig).error)
    else KeyError(parsed[1..])
  }

  /** The loop fails exactly when some signature has no key. */
  lemma {:induction false} KeyErrorMeaning(parsed: seq<Parsed>)
    ensures KeyError(parsed).None? <==> forall i :: 0 <= i < |parsed| ==> FuncKey(parsed[i].sig).Ok?
    decreases |parsed|
  {
    if parsed != [] {
      KeyErrorMeaning(parsed[1..]);
      assert forall i :: 1 <= i < |parsed| ==> parsed[i] == parsed[1..][i - 1];
    }
  }

  /** One map after the `_analyze` loop has merged `parsed` into `m` in
      order, up to the first signature that fails. */
  function MergeFold(m: map<string, seq<string>>, parsed: seq<Parsed>, referencedBy: bool): map<string, seq<string>>
    decreases |parsed|
  {
    if parsed == [] then m
    else
      var key := FuncKey(parsed[0].sig);
      if key.Err? then m
      else
        var f := key.value;
        MergeFold(m[f := AppendNew(Lookup(m, f), LinksOf(parsed[0], referencedBy))], parsed[1..], referencedBy)
  }

  /** A parsed function whose signature gives the key `f`. */
  predicate KeyedAs(parsed: seq<Parsed>, f: string) {
    exists i :: 0 <= i < |parsed| && FuncKey(parsed[i].sig) == Ok(f)
  }

  /** A parsed function with the key `f` that links to `y`. */
  predicate LinkedAs(parsed: seq<Parsed>, f: string, y: string, referencedBy: bool) {
    exists i :: 0 <= i < |parsed| && FuncKey(parsed[i].sig) == Ok(f) && y in LinksOf(parsed[i], referencedBy)
  }

  lemma KeyedCons(parsed: seq<Parsed>, f: string)
    requires parsed != []
    ensures KeyedAs(parsed, f) <==> FuncKey(parsed[0].sig) == Ok(f) || KeyedAs(parsed[1..], f)
  {
    KeyedTail(parsed, f);
    if KeyedAs(parsed, f) {
      KeyedHeadOrTail(parsed, f);
    }
  }

  lemma KeyedTail(parsed: seq<Parsed>, f: string)
    requires parsed != []
    ensures FuncKey(parsed[0].sig) == Ok(f) || KeyedAs(parsed[1..], f) ==> KeyedAs(parsed, f)
  {
    var rest := parsed[1..];
    if FuncKey(parsed[0].sig) == Ok(f) {
      assert 0 < |parsed| && FuncKey(parsed[0].sig) == Ok(f);
    } else if KeyedAs(rest, f) {
      var i :| 0 <= i < |rest| && FuncKey(rest[i].sig) == Ok(f);
      assert parsed[i + 1] == rest[i];
      assert i + 1 < |parsed| && FuncKey(parsed[i + 1].sig) == Ok(f);
    }
  }

  lemma KeyedHeadOrTail(parsed: seq<Parsed>, f: string)
    requires parsed != [] && KeyedAs(parsed, f)
    ensures FuncKey(parsed[0].sig) == Ok(f) || KeyedAs(parsed[1..], f)
  {
    var rest := parsed[1..];
    var i :| 0 <= i < |parsed| && FuncKey(parsed[i].sig) == Ok(f);
    if i > 0 {
      assert rest[i - 1] == parsed[i];
    }
  }

  lemma LinkedCons(parsed: seq<Parsed>, f: string, y: string, referencedBy: bool)
    requires parsed != []
    ensures LinkedAs(parsed, f, y, referencedBy) <==>
      (FuncKey(parsed[0].sig) == Ok(f) && y in LinksOf(parsed[0], referencedBy)) || LinkedAs(parsed[1..], f, y, referencedBy)
  {
    LinkedTail(parsed, f, y, referencedBy);
    if LinkedAs(parsed, f, y, referencedBy) {
      LinkedHeadOrTail(parsed, f, y, referencedBy);
    }
  }

  lemma LinkedTail(parsed: seq<Parsed>, f: string, y: string, referencedBy: bool)
    requires parsed != []
    ensures (FuncKey(parsed[0].sig) == Ok(f) && y in LinksOf(parsed[0], referencedBy)) || LinkedAs(parsed[1..], f, y, referencedBy)
      ==> LinkedAs(parsed, f, y, referencedBy)
  {
    var rest := parsed[1..];
    if FuncKey(parsed[0].sig) == Ok(f) && y in LinksOf(parsed[0], referencedBy) {
      assert 0 < |parsed| && FuncKey(parsed[0].sig) == Ok(f) && y in LinksOf(parsed[0], referencedBy);
    } else if LinkedAs(rest, f, y, referencedBy) {
      var i :| 0 <= i < |rest| && FuncKey(rest[i].sig) == Ok(f) && y in LinksOf(rest[i], referencedBy);
      assert parsed[i + 1] == rest[i];
      assert i + 1 < |parsed| && FuncKey(parsed[i + 1].sig) == Ok(f) && y in LinksOf(parsed[i + 1], referencedBy);
    }
  }

  lemma LinkedHeadOrTail(parsed: seq<Parsed>, f: string, y: string, referencedBy: bool)
    requires parsed != [] && LinkedAs(parsed, f, y, referencedBy)
    ensures (FuncKey(parsed[0].sig) == Ok(f) && y in LinksOf(parsed[0], referencedBy)) || LinkedAs(parsed[1..], f, y, referencedBy)
  {
    var rest := parsed[1..];
    var i :| 0 <= i < |parsed| && FuncKey(parsed[i].sig) == Ok(f) && y in LinksOf(parsed[i], referencedBy);
    if i > 0 {
      assert rest[i - 1] == parsed[i];
      assert i - 1 < |rest| && FuncKey(rest[i - 1].sig) == Ok(f) && y in LinksOf(rest[i - 1], referencedBy);
    }
  }

  /** When every signature has a key, the merged map has a key for every
      parsed function and for nothing else new (callgraph.py:31-34). */
  lemma {:induction false} MergeFoldKeys(m: map<string, seq<string>>, parsed: seq<Parsed>, referencedBy: bool, f: string)
    requires KeyError(parsed).None?
    ensures f in MergeFold(m, parsed, referencedBy) <==> f in m || KeyedAs(parsed, f)
    decreases |parsed|
  {
    if parsed != [] {
      var g := FuncKey(parsed[0].sig).value;
      var m' := m[g := AppendNew(Lookup(m, g), LinksOf(parsed[0], referencedBy))];
      MergeFoldKeys(m', parsed[1..], referencedBy, f);
      KeyedCons(parsed, f);
    }
  }

  /** ... and a function's list holds what it held before and every name
      that any of its parsed entries links to (callgraph.py:35-48). */
  lemma {:induction false} MergeFoldLinks(m: map<string, seq<string>>, parsed: seq<Parsed>, referencedBy: bool, f: string, y: string)
    requires KeyError(parsed).None?
    ensures y in Lookup(MergeFold(m, parsed, referencedBy), f) <==>
      y in Lookup(m, f) || LinkedAs(parsed, f, y, referencedBy)
    decreases |parsed|
  {
    if parsed != [] {
      var g := FuncKey(parsed[0].sig).value;
      var m' := m[g := AppendNew(Lookup(m, g), LinksOf(parsed[0], referencedBy))];
      MergeFoldLinks(m', parsed[1..], referencedBy, f, y);
      LinkedCons(parsed, f, y, referencedBy);
    }
  }

  /** Merging keeps the two maps' key sets equal and every list free of
      repeats. */
  lemma {:induction false} MergeFoldKeeps(mc: map<string, seq<string>>, me: map<string, seq<string>>, parsed: seq<Parsed>)
    requires mc.Keys == me.Keys && ListsNoDup(mc) && ListsNoDup(me)
    ensures MergeFold(mc, parsed, false).Keys == MergeFold(me, parsed, true).Keys
    ensures ListsNoDup(MergeFold(mc, parsed, false)) && ListsNoDup(MergeFold(me, parsed, true))
    decreases |parsed|
  {
    if parsed != [] && FuncKey(parsed[0].sig).Ok? {
      var f := FuncKey(parsed[0].sig).value;
      MergeKeeps(mc, f, LinksOf(parsed[0], false));
      MergeKeeps(me, f, LinksOf(parsed[0], true));
      MergeFoldKeeps(mc[f := AppendNew(Lookup(mc, f), LinksOf(parsed[0], false))],
                     me[f := AppendNew(Lookup(me, f), LinksOf(parsed[0], true))], parsed[1..]);
    }
  }

  /** Some function calls itself. */
  predicate SelfCalls(m: map<string, seq<string>>) {
    exists f :: f in m && f in m[f]
  }

  /** Sorting the lists keeps their members. */
  lemma SortValuesMembers(m: map<string, seq<string>>)
    ensures forall f, y :: f in m ==> (y in SortValues(m)[f] <==> y in m[f])
    ensures SelfCalls(SortValues(m)) <==> SelfCalls(m)
  {
    forall f, y | f in m ensures y in SortValues(m)[f] <==> y in m[f] {
      assert multiset(SortValues(m)[f]) == multiset(m[f]);
      assert y in SortValues(m)[f] <==> y in multiset(SortValues(m)[f]);
    }
  }

  /** The graph `_build_call_graphs` makes from well-formed pages: a key
      for exactly the parsed functions, and in each list exactly the names
      its entries link to. */
  lemma BuiltContents(parsed: seq<Parsed>, referencedBy: bool, f: string, y: string)
    requires KeyError(parsed).None?
    ensures f in SortValues(MergeFold(map[], parsed, referencedBy)) <==> KeyedAs(parsed, f)
    ensures f in SortValues(MergeFold(map[], parsed, referencedBy)) ==>
      (y in SortValues(MergeFold(map[], parsed, referencedBy))[f] <==> LinkedAs(parsed, f, y, referencedBy))
  {
    var m := MergeFold(map[], parsed, referencedBy);
    MergeFoldKeys(map[], parsed, referencedBy, f);
    MergeFoldLinks(map[], parsed, referencedBy, f, y);
    SortValuesMembers(m);
  }

  // ---------------------------------------------------------------------
  // The graph as the two maps should relate

  /** `by_caller` and `by_callee` describe the same edges: same keys, no
      repeats, and `g` is in `f`'s callee list exactly when `f` is in
      `g`'s caller list. */
  predicate Linked(cm: map<string, seq<string>>, ce: map<string, seq<string>>) {
    cm.Keys == ce.Keys && ListsNoDup(cm) && ListsNoDup(ce) && HalfLinked(cm, ce) && HalfLinked(ce, cm)
  }

  /** Every edge of `a` is an edge of `b` in the other direction. */
  predicate HalfLinked(a: map<string, seq<string>>, b: map<string, seq<string>>) {
    forall f, g :: f in a && g in a[f] ==> g in b && f in b[g]
  }

  /** Deleting `f` from the lists of exactly the keys that hold it, which are
      those in `holders`, succeeds and deletes `f` from every list. */
  lemma {:induction false} DropEverywhere(m: map<string, seq<string>>, f: string, holders: seq<string>)
    requires ListsNoDup(m) && NoDup(holders)
    requires forall c :: c in m ==> (f in m[c] <==> c in holders)
    requires forall c :: c in holders ==> c in m
    ensures DropCallee(m, f, holders).err.None?
    ensures DropCallee(m, f, holders).lists.Keys == m.Keys
    ensures ListsNoDup(DropCallee(m, f, holders).lists)
    ensures forall g, y :: g in m ==> (y in DropCallee(m, f, holders).lists[g] <==> y in m[g] && y != f)
  {
    DropSucceeds(m, f, holders);
    DropKeeps(m, f, holders);
    var r := DropCallee(m, f, holders).lists;
    forall g | g in m
      ensures NoDup(r[g]) && forall y :: y in r[g] <==> y in m[g] && y != f
    {
      if g in holders {
        RemoveFirstNoDup(m[g], f);
      }
    }
  }

  /** The edges after `f` is detached from both maps. */
  function Detached(cm: map<string, seq<string>>, ce: map<string, seq<string>>, f: string)
    : (map<string, seq<string>>, map<string, seq<string>>)
    requires f in cm && f in ce
  {
    (DropCallee(cm, f, ce[f]).lists - {f}, DropCallee(ce, f, cm[f]).lists - {f})
  }

  /** Detaching a function from a linked graph cannot fail, removes its key
      from both maps and its name from every list and nothing else, and
      leaves the graph linked. */
  lemma DetachLinked(cm: map<string, seq<string>>, ce: map<string, seq<string>>, f: string)
    requires Linked(cm, ce) && f in cm
    ensures DropCallee(cm, f, ce[f]).err.None? && DropCallee(ce, f, cm[f]).err.None?
    ensures Detached(cm, ce, f).0.Keys == cm.Keys - {f}
    ensures Detached(cm, ce, f).1.Keys == ce.Keys - {f}
    ensures forall g, y :: g in Detached(cm, ce, f).0 ==> (y in Detached(cm, ce, f).0[g] <==> y in cm[g] && y != f)
    ensures forall g, y :: g in Detached(cm, ce, f).1 ==> (y in Detached(cm, ce, f).1[g] <==> y in ce[g] && y != f)
    ensures Linked(Detached(cm, ce, f).0, Detached(cm, ce, f).1)
  {
    HoldersOf(cm, ce, f);
    HoldersOf(ce, cm, f);
    DropEverywhere(cm, f, ce[f]);
    DropEverywhere(ce, f, cm[f]);
    var cm' := DropCallee(cm, f, ce[f]).lists - {f};
    var ce' := DropCallee(ce, f, cm[f]).lists - {f};
    HalfDetached(cm, ce, f, cm', ce');
    HalfDetached(ce, cm, f, ce', cm');
  }

  /** In a linked graph the lists of `a` that name `f` are those of the
      names in `f`'s list of `b`. */
  lemma HoldersOf(a: map<string, seq<string>>, b: map<string, seq<string>>, f: string)
    requires HalfLinked(a, b) && HalfLinked(b, a) && f in b
    ensures forall c :: c in a ==> (f in a[c] <==> c in b[f])
    ensures forall c :: c in b[f] ==> c in a
  {
  }

  lemma HalfDetached(a: map<string, seq<string>>, b: map<string, seq<string>>, f: string,
                     a': map<string, seq<string>>, b': map<string, seq<string>>)
    requires HalfLinked(a, b)
    requires a'.Keys <= a.Keys - {f} && b'.Keys == b.Keys - {f}
    requires forall g, y :: g in a' ==> (y in a'[g] <==> y in a[g] && y != f)
    requires forall g, y :: g in b' ==> (y in b'[g] <==> y in b[g] && y != f)
    ensures HalfLinked(a', b')
  {
    forall g, y | g in a' && y in a'[g]
      ensures y in b' && g in b'[y]
    {
      assert y in a[g] && y != f;
      assert y in b && g in b[y];
    }
  }

  /** The functions that call themselves. */
  function SelfCallers(cm: map<string, seq<string>>): set<string> {
    set f | f in cm && f in cm[f]
  }

  /** Each function of `loops` loses the first occurrence of its own name
      from its list. */
  function DropSelf(m: map<string, seq<string>>, loops: set<string>): (r: map<string, seq<string>>)
    requires forall f :: f in loops ==> f in m && f in m[f]
    ensures r.Keys == m.Keys
  {
    map g | g in m :: if g in loops then RemoveFirst(m[g], g) else m[g]
  }

  lemma DropSelfStep(m: map<string, seq<string>>, done: set<string>, f: string)
    requires forall g :: g in done ==> g in m && g in m[g]
    requires f in m && f in m[f] && f !in done
    ensures DropSelf(m, done + {f}) == DropSelf(m, done)[f := RemoveFirst(m[f], f)]
  {
  }

  /** On a linked graph, breaking direct recursion cannot fail, and it
      drops exactly the self-edges: no function calls itself afterwards,
      every other edge stays, and the graph stays linked. */
  lemma DropSelfLinked(cm: map<string, seq<string>>, ce: map<string, seq<string>>)
    requires Linked(cm, ce)
    ensures forall f :: f in SelfCallers(cm) ==> f in ce && f in ce[f]
    ensures forall g, y :: g in cm ==>
      (y in DropSelf(cm, SelfCallers(cm))[g] <==> y in cm[g] && y != g)
    ensures forall g, y :: g in ce ==>
      (y in DropSelf(ce, SelfCallers(cm))[g] <==> y in ce[g] && y != g)
    ensures !SelfCalls(DropSelf(cm, SelfCallers(cm)))
    ensures Linked(DropSelf(cm, SelfCallers(cm)), DropSelf(ce, SelfCallers(cm)))
  {
    var loops := SelfCallers(cm);
    var cm' := DropSelf(cm, loops);
    var ce' := DropSelf(ce, loops);
    forall g | g in cm
      ensures NoDup(cm'[g]) && forall y :: y in cm'[g] <==> y in cm[g] && y != g
    {
      if g in loops { RemoveFirstNoDup(cm[g], g); }
    }
    forall g | g in ce
      ensures NoDup(ce'[g]) && forall y :: y in ce'[g] <==> y in ce[g] && y != g
    {
      if g in loops {
        RemoveFirstNoDup(ce[g], g);
      }
    }
    SelfFreeHalf(cm, ce, cm', ce');
    SelfFreeHalf(ce, cm, ce', cm');
  }

  lemma SelfFreeHalf(a: map<string, seq<string>>, b: map<string, seq<string>>,
                     a': map<string, seq<string>>, b': map<string, seq<string>>)
    requires HalfLinked(a, b) && a'.Keys == a.Keys && b'.Keys == b.Keys
    requires forall g, y :: g in a ==> (y in a'[g] <==> y in a[g] && y != g)
    requires forall g, y :: g in b ==> (y in b'[g] <==> y in b[g] && y != g)
    ensures HalfLinked(a', b')
  {
    forall g, y | g in a' && y in a'[g]
      ensures y in b' && g in b'[y]
    {
      assert y in a[g] && y != g;
      assert y in b && g in b[y];
    }
  }

  /** The state of the loop of `_break_simple_recursion` once the
      self-callers in `done` are handled. */
  ghost predicate BreakState(byCaller: map<string, seq<string>>, byCallee: map<string, seq<string>>,
                             done: set<string>, cm: map<string, seq<string>>,
                             ce: map<string, seq<string>>, rec: seq<string>)
  {
    && (forall g :: g in done ==> g in byCaller && g in byCaller[g] && g in byCallee && g in byCallee[g])
    && cm == DropSelf(byCaller, done)
    && ce == DropSelf(byCallee, done)
    && NoDup(rec) && (forall g :: g in rec <==> g in done)
  }

  /** The loop of `_break_simple_recursion` on the two maps: the new maps,
      the self-callers found, or the error the source raises part-way
      (with the caller map as far as it got). */
  method BreakLoops(byCaller: map<string, seq<string>>, byCallee: map<string, seq<string>>)
    returns (err: Option<Error>, cm: map<string, seq<string>>, ce: map<string, seq<string>>, rec: seq<string>)
    ensures err.None? <==>
      forall f :: f in SelfCallers(byCaller) ==> f in byCallee && f in byCallee[f]
    ensures err.Some? ==> err == Some(KeyMissing(125)) || err == Some(ValueMissing(126))
    ensures err.None? ==> BreakState(byCaller, byCallee, SelfCallers(byCaller), cm, ce, rec)
  {
    cm, ce, rec := byCaller, byCallee, [];
    ghost var done: set<string> := {};
    var todo := byCaller.Keys;
    while todo != {}
      invariant todo <= byCaller.Keys
      invariant forall g :: g in SelfCallers(byCaller) ==> (g in done <==> g !in todo)
      invariant BreakState(byCaller, byCallee, done, cm, ce, rec)
      decreases |todo|
    {
      var f :| f in todo;
      err, cm, ce, rec, done := BreakOne(byCaller, byCallee, done, f, cm, ce, rec);
      if err.Some? {
        return;
      }
      todo := todo - {f};
    }
    assert done == SelfCallers(byCaller);
    err := None;
  }

  /** One visit of the loop of `_break_simple_recursion`, to key `f`. */
  method BreakOne(byCaller: map<string, seq<string>>, byCallee: map<string, seq<string>>,
                  ghost done: set<string>, f: string,
                  cm: map<string, seq<string>>, ce: map<string, seq<string>>, rec: seq<string>)
    returns (err: Option<Error>, cm': map<string, seq<string>>, ce': map<string, seq<string>>,
             rec': seq<string>, ghost done': set<string>)
    requires BreakState(byCaller, byCallee, done, cm, ce, rec)
    requires f in byCaller && f !in done
    ensures err.Some? ==> f in SelfCallers(byCaller) && !(f in byCallee && f in byCallee[f])
    ensures err.Some? ==> err == Some(KeyMissing(125)) || err == Some(ValueMissing(126))
    ensures err.None? ==> done' == if f in byCaller[f] then done + {f} else done
    ensures err.None? ==> BreakState(byCaller, byCallee, done', cm', ce', rec')
  {
    cm', ce', rec', done' := cm, ce, rec, done;
    if f in cm[f] {
      AddNewNoDup(rec, f);
      rec' := rec + [f];
      DropSelfStep(byCaller, done, f);
      cm' := cm[f := RemoveFirst(cm[f], f)];
      if f !in ce {
        return Some(KeyMissing(125)), cm', ce', rec', done';
      }
      if f !in ce[f] {
        return Some(ValueMissing(126)), cm', ce', rec', done';
      }
      DropSelfStep(byCallee, done, f);
      ce' := ce[f := RemoveFirst(ce[f], f)];
      done' := done + {f};
    }
    err := None;
  }

  class Callgraph {
    var byCaller: map<string, seq<string>>
    var byCallee: map<string, seq<string>>
    var recursive: seq<string>

    /** The empty maps `_build_call_graphs` starts from. */
    constructor ()
      ensures byCaller == map[] && byCallee == map[] && recursive == []
    {
      byCaller := map[];
      byCallee := map[];
      recursive := [];
    }

    predicate NoDupLists()
      reads this
    {
      ListsNoDup(byCaller) && ListsNoDup(byCallee)
    }

    predicate SameKeys()
      reads this
    {
      byCaller.Keys == byCallee.Keys
    }

    predicate AllSorted()
      reads this
    {
      && (forall f :: f in byCaller ==> Sorted(byCaller[f]))
      && (forall f :: f in byCallee ==> Sorted(byCallee[f]))
    }

    /** The body of the loop of `_analyze` for one function
        (callgraph.py:22-48): the function gets a key in both maps, and
        each name it references, or is referenced by, is appended to its
        list unless already there. */
    method Merge(p: Parsed) returns (err: Option<Error>)
      modifies this
      ensures FuncKey(p.sig).Err? ==>
        err == Some(FuncKey(p.sig).error) && byCaller == old(byCaller) && byCallee == old(byCallee)
      ensures FuncKey(p.sig).Ok? ==> var f := FuncKey(p.sig).value;
        && err.None?
        && byCaller == old(byCaller)[f := AppendNew(Lookup(old(byCaller), f), Links(p.refs))]
        && byCallee == old(byCallee)[f := AppendNew(Lookup(old(byCallee), f), Links(p.refBy))]
      ensures recursive == old(recursive)
      ensures old(NoDupLists()) ==> NoDupLists()
      ensures old(SameKeys()) ==> SameKeys()
    {
      var key := FuncKey(p.sig);
      if key.Err? {
        return Some(key.error);
      }
      var f := key.value;
      var calls := AppendLinks(Lookup(byCaller, f), Links(p.refs));
      var callers := AppendLinks(Lookup(byCallee, f), Links(p.refBy));
      MergeBothKeeps(byCaller, byCallee, f, Links(p.refs), Links(p.refBy));
      byCaller, byCallee := byCaller[f := calls], byCallee[f := callers];
      return None;
    }

    /** The sorting loops of `_build_call_graphs` (callgraph.py:92-95). */
    method SortAll()
      modifies this
      ensures byCaller == SortValues(old(byCaller)) && byCallee == SortValues(old(byCallee))
      ensures byCaller.Keys == old(byCaller).Keys && byCallee.Keys == old(byCallee).Keys
      ensures recursive == old(recursive)
      ensures AllSorted()
      ensures old(NoDupLists()) ==> NoDupLists()
      ensures old(SameKeys()) ==> SameKeys()
    {
      byCaller := SortEach(byCaller);
      byCallee := SortEach(byCallee);
      forall f | f in byCaller && old(NoDupLists()) ensures NoDup(byCaller[f]) {
        NoDupPermutation(old(byCaller)[f], byCaller[f]);
      }
      forall f | f in byCallee && old(NoDupLists()) ensures NoDup(byCallee[f]) {
        NoDupPermutation(old(byCallee)[f], byCallee[f]);
      }
    }

    /** The loop of `_analyze` over every parsed function
        (callgraph.py:18-48), stopping at the first failure. */
    method MergeAll(parsed: seq<Parsed>) returns (err: Option<Error>)
      requires SameKeys() && NoDupLists()
      modifies this
      ensures err == KeyError(parsed)
      ensures byCaller == MergeFold(old(byCaller), parsed, false)
      ensures byCallee == MergeFold(old(byCallee), parsed, true)
      ensures recursive == old(recursive)
      ensures SameKeys() && NoDupLists()
    {
      MergeFoldKeeps(byCaller, byCallee, parsed);
      var k := 0;
      while k < |parsed|
        invariant k <= |parsed|
        invariant MergeFold(byCaller, parsed[k..], false) == MergeFold(old(byCaller), parsed, false)
        invariant MergeFold(byCallee, parsed[k..], true) == MergeFold(old(byCallee), parsed, true)
        invariant KeyError(parsed[k..]) == KeyError(parsed)
        invariant recursive == old(recursive)
        invariant SameKeys() && NoDupLists()
      {
        assert parsed[k..][1..] == parsed[k + 1..];
        err := Merge(parsed[k]);
        if err.Some? {
          return;
        }
        k := k + 1;
      }
      return None;
    }

    /** `_build_call_graphs` from the functions already parsed from the
        documentation pages: merge them all into empty maps, sort every
        list, then break direct recursion. A bad signature fails first;
        otherwise the source's `_break_simple_recursion` fails exactly when
        some function calls itself. */
    method Build(parsed: seq<Parsed>) returns (err: Option<Error>)
      modifies this
      ensures KeyError(parsed).Some? ==> err == KeyError(parsed)
      ensures KeyError(parsed).None? ==>
        (err.Some? <==> SelfCalls(MergeFold(map[], parsed, false)))
      ensures err.Some? ==> err == KeyError(parsed) || err == Some(NotSubscriptable(123))
      ensures err.None? ==>
        && byCaller == SortValues(MergeFold(map[], parsed, false))
        && byCallee == SortValues(MergeFold(map[], parsed, true))
        && recursive == [] && !HasSelfCaller()
        && SameKeys() && NoDupLists() && AllSorted()
    {
      byCaller := map[];
      byCallee := map[];
      err := MergeAll(parsed);
      if err.Some? {
        return;
      }
      SortAll();
      SortValuesMembers(MergeFold(map[], parsed, false));
      err := BreakSimpleRecursion();
    }

    /** `remove(f)` (callgraph.py:107-111): the key `f` of `by_callee`
        goes, and each of its callers' lists loses one `f`. The key `f` of
        `by_caller`, and `f` in the lists of the functions it calls, stay. */
    method Remove(f: string) returns (err: Option<Error>)
      modifies this
      ensures f !in old(byCallee) ==>
        err == Some(KeyMissing(108)) && byCaller == old(byCaller) && byCallee == old(byCallee)
      ensures f in old(byCallee) ==> var d := DropCallee(old(byCaller), f, old(byCallee)[f]);
        byCallee == old(byCallee) - {f} && byCaller == d.lists && err == d.err
      ensures byCaller.Keys == old(byCaller).Keys
      ensures recursive == old(recursive)
    {
      if f !in byCallee {
        return Some(KeyMissing(108));
      }
      var callers := byCallee[f];
      DropKeeps(byCaller, f, callers);
      byCallee := byCallee - {f};
      var k := 0;
      while k < |callers|
        invariant k <= |callers|
        invariant DropCallee(byCaller, f, callers[k..]) == DropCallee(old(byCaller), f, callers)
        invariant byCallee == old(byCallee) - {f} && recursive == old(recursive)
      {
        assert callers[k..][1..] == callers[k + 1..];
        var c := callers[k];
        if c !in byCaller {
          return Some(KeyMissing(111));
        }
        if f !in byCaller[c] {
          return Some(ValueMissing(111));
        }
        byCaller := byCaller[c := RemoveFirst(byCaller[c], f)];
        k := k + 1;
      }
      return None;
    }

    /** `remove(f)` as its callers need it: `f` leaves both maps, and each
        list that names it, on either side, loses it. */
    method RemoveFully(f: string) returns (err: Option<Error>)
      modifies this
      ensures f !in old(byCallee) || f !in old(byCaller) ==>
        err == Some(KeyMissing(108)) && byCaller == old(byCaller) && byCallee == old(byCallee)
      ensures f in old(byCallee) && f in old(byCaller) ==>
        var d1 := DropCallee(old(byCaller), f, old(byCallee)[f]);
        var d2 := DropCallee(old(byCallee), f, old(byCaller)[f]);
        && (err.None? <==> d1.err.None? && d2.err.None?)
        && (err.None? ==> (byCaller, byCallee) == Detached(old(byCaller), old(byCallee), f))
      ensures recursive == old(recursive)
    {
      if f !in byCallee || f !in byCaller {
        return Some(KeyMissing(108));
      }
      var d1 := DropAll(byCaller, f, byCallee[f]);
      if d1.err.Some? {
        return d1.err;
      }
      var d2 := DropAll(byCallee, f, byCaller[f]);
      if d2.err.Some? {
        return d2.err;
      }
      byCaller, byCallee := d1.lists - {f}, d2.lists - {f};
      return None;
    }

    /** The list `get_leaves` builds: the functions that call nothing. */
    method LeavesBuilt() returns (leaves: seq<string>)
      ensures NoDup(leaves)
      ensures forall f :: f in leaves <==> f in byCaller && byCaller[f] == []
    {
      leaves := KeysWithEmptyList(byCaller);
    }

    /** The list `get_orphans` builds: the functions nothing calls. */
    method OrphansBuilt() returns (orphans: seq<string>)
      ensures NoDup(orphans)
      ensures forall f :: f in orphans <==> f in byCallee && byCallee[f] == []
    {
      orphans := KeysWithEmptyList(byCallee);
    }

    /** `is_empty`: neither map has a key left. */
    function IsEmpty(): (r: bool)
      reads this
      ensures r <==> |byCallee| == 0 && |byCaller| == 0
    {
      byCallee == map[] && byCaller == map[]
    }

    predicate HasSelfCaller()
      reads this
    {
      SelfCalls(byCaller)
    }

    /** `_break_simple_recursion` as its docstring describes it, with
        `recursive.append(func)`: every function that calls itself is
        recorded, and loses itself from its own list in both maps. Its
        caller list lacking it fails as the source would
        (callgraph.py:125-126). */
    method DropSelfCalls() returns (err: Option<Error>)
      modifies this
      ensures err.None? <==>
        forall f :: f in SelfCallers(old(byCaller)) ==> f in old(byCallee) && f in old(byCallee)[f]
      ensures err.Some? ==> err == Some(KeyMissing(125)) || err == Some(ValueMissing(126))
      ensures err.None? ==>
        && byCaller == DropSelf(old(byCaller), SelfCallers(old(byCaller)))
        && byCallee == DropSelf(old(byCallee), SelfCallers(old(byCaller)))
        && NoDup(recursive) && (forall f :: f in recursive <==> f in SelfCallers(old(byCaller)))
    {
      var cm, ce, rec;
      err, cm, ce, rec := BreakLoops(byCaller, byCallee);
      byCaller := cm;
      if err.None? {
        byCallee, recursive := ce, rec;
      }
    }

    /** `_break_simple_recursion` as written: at the first function that
        calls itself, `recursive.append[func]` subscripts a method and
        raises before anything is removed; without one, `recursive` is
        set to the empty list. */
    method BreakSimpleRecursion() returns (err: Option<Error>)
      modifies this
      ensures byCaller == old(byCaller) && byCallee == old(byCallee)
      ensures err.Some? <==> old(HasSelfCaller())
      ensures err.Some? ==> err.value == NotSubscriptable(123) && recursive == old(recursive)
      ensures err.None? ==> recursive == []
    {
      var todo := byCaller.Keys;
      while todo != {}
        invariant todo <= byCaller.Keys
        invariant byCaller == old(byCaller) && byCallee == old(byCallee) && recursive == old(recursive)
        invariant forall f :: f in byCaller && f !in todo ==> f !in byCaller[f]
        decreases |todo|
      {
        var f :| f in todo;
        if f in byCaller[f] {
          return Some(NotSubscriptable(123));
        }
        todo := todo - {f};
      }
      recursive := [];
      return None;
    }
  }

  /** The loop of `remove` over a list of names, each of whose lists loses
      its first `f`, stopping at the first name that has no list or whose
      list lacks `f`. */
  method DropAll(m: map<string, seq<string>>, f: string, names: seq<string>) returns (d: Drop)
    ensures d == DropCallee(m, f, names)
  {
    var lists := m;
    var k := 0;
    while k < |names|
      invariant k <= |names|
      invariant DropCallee(lists, f, names[k..]) == DropCallee(m, f, names)
    {
      assert names[k..][1..] == names[k + 1..];
      var c := names[k];
      if c !in lists {
        return Drop(lists, Some(KeyMissing(111)));
      }
      if f !in lists[c] {
        return Drop(lists, Some(ValueMissing(111)));
      }
      lists := lists[c := RemoveFirst(lists[c], f)];
      k := k + 1;
    }
    return Drop(lists, None);
  }

  method SortEach(m: map<string, seq<string>>) returns (r: map<string, seq<string>>)
    ensures r == SortValues(m)
  {
    r := m;
    var todo := m.Keys;
    while todo != {}
      invariant todo <= m.Keys && r.Keys == m.Keys
      invariant forall f :: f in m ==> r[f] == if f in todo then m[f] else SortNames(m[f])
      decreases |todo|
    {
      var f :| f in todo;
      r := r[f := SortNames(m[f])];
      todo := todo - {f};
    }
  }
}
