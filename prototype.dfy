/** Prototypes of one function as `find_prototypes_in_file` finds them, the
    per-prototype queries of class `Prototype`, and the queries of
    `PrototypeMap`, the collection of prototypes of one function keyed by
    file path (prototype.py:138-384). */
module Prototypes {
  import opened Wrappers
  import opened Text
  import opened Params
  import opened Scanners
  import opened ParamSplit

  // ---------------------------------------------------------------------
  // Building a prototype (prototype.py:138-162)

  /** A match of `_prototype_pat_template` (prototype.py:8): where it
      starts, its group 1 (the text before the name), its group 2 (the
      name) and its end, just after the `(` of the parameter list. */
  datatype Candidate = Candidate(start: nat, returnText: string, name: string, open: nat)

  /** A prototype or definition found in file `path` with contents `txt`.
      The parameters lie in `txt[open..close]`; `term` is the `{` or `;`
      after the closing `)`. */
  datatype Prototype = Prototype(
    path: string,
    txt: string,
    name: string,
    returnType: string,
    open: nat,
    close: nat,
    term: nat,
    startOfBody: Option<nat>,
    endOfBody: Option<nat>,
    params: seq<Param>,
    dirty: bool)

  /** What the constructor guarantees of a prototype: the offsets lie in
      the text in order, a body is recorded exactly when the prototype ends
      in `{`, its end (when found) is a `}` after its start, and the
      parameters are parsed from the text between the parentheses. */
  predicate WellFormed(p: Prototype) {
    && p.open <= p.close < p.term < |p.txt|
    && p.txt[p.close] == ')'
    && (p.txt[p.term] == '{' || p.txt[p.term] == ';')
    && (p.startOfBody.Some? <==> p.txt[p.term] == '{')
    && (p.startOfBody.Some? ==> p.startOfBody.value == p.term + 1)
    && (p.endOfBody.Some? ==>
          p.startOfBody.Some? && p.startOfBody.value <= p.endOfBody.value < |p.txt|
          && p.txt[p.endOfBody.value] == '}')
    && PlacedInOrder(p.txt, p.open, p.params)
    && AllParsed(p.params)
  }

  /** The body offsets the constructor records: an `IndexError` while
      looking for the end of the body is caught by the `try` around it
      (prototype.py:154-160), which leaves the start set and the end
      unset; any other failure propagates. */
  function BodyOffsets(txt: string, term: nat): (r: Result<(Option<nat>, Option<nat>)>)
    requires term < |txt|
    ensures txt[term] != '{' ==> r == Ok((None, None))
    ensures txt[term] == '{' && BodyEnd(txt, term + 1).Ok? ==>
      r == Ok((Some(term + 1), Some(BodyEnd(txt, term + 1).value)))
    ensures txt[term] == '{' && BodyEnd(txt, term + 1).Err? && BodyEnd(txt, term + 1).error.IndexOutOfRange? ==>
      r == Ok((Some(term + 1), None))
    ensures r.Err? <==> txt[term] == '{' && BodyEnd(txt, term + 1).Err? && !BodyEnd(txt, term + 1).error.IndexOutOfRange?
  {
    if txt[term] != '{' then Ok((None, None))
    else match BodyEnd(txt, term + 1)
      case Ok(e) => Ok((Some(term + 1), Some(e)))
      case Err(IndexOutOfRange(_)) => Ok((Some(term + 1), None))
      case Err(e) => Err(e)
  }

  /** `Prototype(fpath, txt, m)` for the match `c`, once the scan of
      `adjust_match_if_true_prototype` has found the end `pe` of the
      prototype. The return type is group 1 stripped; the parameters are
      split after the body is looked at, outside the `try`. */
  function MakePrototype(path: string, txt: string, c: Candidate, pe: ProtoEnd): (r: Result<Prototype>)
    requires c.open <= pe.close && Accepted(txt, pe.close, pe.term)
    ensures r.Ok? <==> BodyOffsets(txt, pe.term).Ok? && SplitParams(txt, c.open, pe.close).Ok?
    ensures r.Ok? ==>
      && r.value.path == path && r.value.txt == txt && r.value.name == c.name
      && r.value.returnType == Strip(c.returnText)
      && r.value.open == c.open && r.value.close == pe.close && r.value.term == pe.term
      && !r.value.dirty
  {
    match BodyOffsets(txt, pe.term)
    case Err(e) => Err(e)
    case Ok((sob, eob)) =>
      match SplitParams(txt, c.open, pe.close)
      case Err(e) => Err(e)
      case Ok(ps) =>
        Ok(Prototype(path, txt, c.name, Strip(c.returnText), c.open, pe.close, pe.term, sob, eob, ps, false))
  }

  lemma MakePrototypeWellFormed(path: string, txt: string, c: Candidate, pe: ProtoEnd)
    requires c.open <= pe.close && Accepted(txt, pe.close, pe.term)
    ensures MakePrototype(path, txt, c, pe).Ok? ==> WellFormed(MakePrototype(path, txt, c, pe).value)
  {
    SplitParamsPlaced(txt, c.open, pe.close);
  }

  // ---------------------------------------------------------------------
  // `find_prototypes_in_file` (prototype.py:277-300)

  /** `:[ \t\r]*\n` matches from `k` on. */
  predicate BlanksToNewline(s: string, k: nat)
    decreases |s| - k
  {
    k < |s| && (s[k] == '\n' || ((s[k] == ' ' || s[k] == '\t' || s[k] == '\r') && BlanksToNewline(s, k + 1)))
  }

  /** `_label_not_proto_pat.search(s)`: a colon followed by blanks and a
      line break, the mark of a label such as `done:` before a call. */
  predicate LabelLike(s: string) {
    exists k :: 0 <= k < |s| && s[k] == ':' && BlanksToNewline(s, k + 1)
  }

  /** The filter of prototype.py:290: a label or an `else` before the name
      means the match is a call, not a prototype. */
  predicate Kept(c: Candidate) {
    !LabelLike(c.returnText) && !StartsWith(c.returnText, "else")
  }

  predicate CandidatesIn(txt: string, cands: seq<Candidate>) {
    forall k :: 0 <= k < |cands| ==> cands[k].open <= |txt|
  }

  /** What the loop of `find_prototypes_in_file` makes of one match:
      nothing for a match the filter drops or whose scan finds no true
      prototype, else the prototype built from it. */
  function Consider(path: string, txt: string, c: Candidate): (r: Result<Option<Prototype>>)
    requires c.open <= |txt|
    ensures !Kept(c) ==> r == Ok(None)
  {
    if !Kept(c) then Ok(None)
    else match ParenClose(txt, c.open)
      case Err(e) => Err(e)
      case Ok(None) => Ok(None)
      case Ok(Some(pe)) =>
        ParenCloseAccepted(txt, c.open, false, 1);
        match MakePrototype(path, txt, c, pe)
        case Err(e) => Err(e)
        case Ok(p) => Ok(Some(p))
  }

  function Found(o: Option<Prototype>): seq<Prototype> {
    if o.Some? then [o.value] else []
  }

  /** `ps` found before a search that goes on to `r`. */
  function Prepend(ps: seq<Prototype>, r: Result<seq<Prototype>>): Result<seq<Prototype>> {
    match r
    case Ok(qs) => Ok(ps + qs)
    case Err(e) => Err(e)
  }

  /** The prototypes made from the candidates, in order; the first failure
      of a scan or a constructor ends the whole search. */
  function ProtosFrom(path: string, txt: string, cands: seq<Candidate>): (r: Result<seq<Prototype>>)
    requires CandidatesIn(txt, cands)
    ensures r.Ok? ==> |r.value| <= |cands|
    decreases |cands|
  {
    if cands == [] then Ok([])
    else match Consider(path, txt, cands[0])
      case Err(e) => Err(e)
      case Ok(o) => Prepend(Found(o), ProtosFrom(path, txt, cands[1..]))
  }

  /** The name the source searches for: the function's name up to its
      first `(`. */
  function Stem(func: string): (r: string)
    ensures r <= func && '(' !in r
    ensures '(' in func ==> |r| < |func| && func[|r|] == '('
  {
    var i := IndexOf(func, '(');
    if i > -1 then func[..i] else func
  }

  /** `find_prototypes_in_file(func, fpath)` on the text `txt` of the file,
      given the matches `cands` of the prototype pattern for `func`:
      `None` when the name does not occur in the text at all. */
  function PrototypesInFile(path: string, txt: string, func: string, cands: seq<Candidate>): (r: Result<Option<seq<Prototype>>>)
    requires CandidatesIn(txt, cands)
    ensures !Contains(txt, Stem(func)) ==> r == Ok(None)
    ensures Contains(txt, Stem(func)) ==> r.Err? || r.value.Some?
  {
    if !Contains(txt, Stem(func)) then Ok(None)
    else match ProtosFrom(path, txt, cands)
      case Err(e) => Err(e)
      case Ok(ps) => Ok(Some(ps))
  }

  /** Some candidate that passed the filter carries the name. */
  predicate FromKept(cands: seq<Candidate>, name: string) {
    exists j :: 0 <= j < |cands| && Kept(cands[j]) && cands[j].name == name
  }

  /** A prototype found in `txt` at `path` from one of `cands`. */
  predicate FoundIn(path: string, txt: string, cands: seq<Candidate>, p: Prototype) {
    WellFormed(p) && p.path == path && p.txt == txt && FromKept(cands, p.name)
  }

  lemma ConsiderFound(path: string, txt: string, c: Candidate)
    requires c.open <= |txt|
    ensures var r := Consider(path, txt, c);
      r.Ok? && r.value.Some? ==>
        WellFormed(r.value.value) && r.value.value.path == path && r.value.value.txt == txt
        && r.value.value.name == c.name && Kept(c)
  {
    if Kept(c) {
      var pc := ParenClose(txt, c.open);
      if pc.Ok? && pc.value.Some? {
        ParenCloseAccepted(txt, c.open, false, 1);
        MakePrototypeWellFormed(path, txt, c, pc.value.value);
      }
    }
  }

  /** Every prototype found is well formed, lies in the file searched, and
      comes from a candidate that passed the label/`else` filter. */
  lemma {:induction false} ProtosFromFound(path: string, txt: string, cands: seq<Candidate>)
    requires CandidatesIn(txt, cands)
    ensures var r := ProtosFrom(path, txt, cands);
      r.Ok? ==> forall k :: 0 <= k < |r.value| ==> FoundIn(path, txt, cands, r.value[k])
    decreases |cands|
  {
    if cands != [] {
      var rest := cands[1..];
      assert CandidatesIn(txt, rest);
      ProtosFromFound(path, txt, rest);
      ConsiderFound(path, txt, cands[0]);
      var head := Consider(path, txt, cands[0]);
      var tail := ProtosFrom(path, txt, rest);
      if head.Ok? && tail.Ok? {
        FoundCons(path, txt, cands, head.value, tail.value);
      }
    }
  }

  /** What the first candidate gives and what the rest give are found
      from all of them. */
  lemma FoundCons(path: string, txt: string, cands: seq<Candidate>, o: Option<Prototype>, qs: seq<Prototype>)
    requires cands != []
    requires o.Some? ==>
      WellFormed(o.value) && o.value.path == path && o.value.txt == txt && o.value.name == cands[0].name && Kept(cands[0])
    requires forall k :: 0 <= k < |qs| ==> FoundIn(path, txt, cands[1..], qs[k])
    ensures forall k :: 0 <= k < |Found(o) + qs| ==> FoundIn(path, txt, cands, (Found(o) + qs)[k])
  {
    var all := Found(o) + qs;
    var rest := cands[1..];
    forall k | 0 <= k < |all| ensures FoundIn(path, txt, cands, all[k]) {
      if k < |Found(o)| {
        assert all[k] == o.value;
        assert FromKept(cands, all[k].name) by { assert cands[0].name == all[k].name; }
      } else {
        var t := qs[k - |Found(o)|];
        assert all[k] == t;
        assert FoundIn(path, txt, rest, t);
        var j :| 0 <= j < |rest| && Kept(rest[j]) && rest[j].name == t.name;
        assert cands[j + 1] == rest[j];
      }
    }
  }

  lemma ProtosFoundInFile(path: string, txt: string, func: string, cands: seq<Candidate>)
    requires CandidatesIn(txt, cands)
    ensures var r := PrototypesInFile(path, txt, func, cands);
      r.Ok? && r.value.Some? ==> forall k :: 0 <= k < |r.value.value| ==> FoundIn(path, txt, cands, r.value.value[k])
  {
    ProtosFromFound(path, txt, cands);
  }

  /** One match, as the loop body of `find_prototypes_in_file` takes it. */
  method ConsiderMatch(path: string, txt: string, c: Candidate) returns (r: Result<Option<Prototype>>)
    requires c.open <= |txt|
    ensures r == Consider(path, txt, c)
  {
    if !Kept(c) {
      return Ok(None);
    }
    var pc := AdjustScan(txt, c.open);
    if pc.Err? {
      return Err(pc.error);
    }
    if pc.value.None? {
      return Ok(None);
    }
    ParenCloseAccepted(txt, c.open, false, 1);
    var p := MakePrototype(path, txt, c, pc.value.value);
    if p.Err? {
      return Err(p.error);
    }
    return Ok(Some(p.value));
  }

  /** The loop of `find_prototypes_in_file` over the matches. */
  method FindPrototypesInFile(path: string, txt: string, func: string, cands: seq<Candidate>)
    returns (r: Result<Option<seq<Prototype>>>)
    requires CandidatesIn(txt, cands)
    ensures r == PrototypesInFile(path, txt, func, cands)
  {
    if !Contains(txt, Stem(func)) {
      return Ok(None);
    }
    var protos: seq<Prototype> := [];
    var k := 0;
    assert cands[0..] == cands;
    PrependNone(ProtosFrom(path, txt, cands));
    while k < |cands|
      invariant k <= |cands|
      invariant ProtosFrom(path, txt, cands) == Prepend(protos, ProtosFrom(path, txt, cands[k..]))
    {
      assert cands[k..][1..] == cands[k + 1..];
      var o := ConsiderMatch(path, txt, cands[k]);
      if o.Err? {
        return Err(o.error);
      }
      PrependTwice(protos, Found(o.value), ProtosFrom(path, txt, cands[k + 1..]));
      protos := protos + Found(o.value);
      k := k + 1;
    }
    assert cands[k..] == [] && protos + [] == protos;
    return Ok(Some(protos));
  }

  lemma PrependNone(r: Result<seq<Prototype>>)
    ensures Prepend([], r) == r
  {
    if r.Ok? {
      assert [] + r.value == r.value;
    }
  }

  lemma PrependTwice(ps: seq<Prototype>, qs: seq<Prototype>, r: Result<seq<Prototype>>)
    ensures Prepend(ps, Prepend(qs, r)) == Prepend(ps + qs, r)
  {
    if r.Ok? {
      assert ps + (qs + r.value) == (ps + qs) + r.value;
    }
  }

  // ---------------------------------------------------------------------
  // Queries on one prototype (prototype.py:164-224)

  /** `if self.start_of_body:` -- an offset of 0 counts as no body. */
  predicate HasBody(p: Prototype) {
    p.startOfBody.Some? && p.startOfBody.value != 0
  }

  predicate IsInTests(p: Prototype) { Contains(p.path, "test/") }

  predicate IsInHeader(p: Prototype) { EndsWith(p.path, ".h") }

  predicate IsInImpl(p: Prototype) { EndsWith(p.path, ".c") }

  /** `', '.join([str(p) for p in params])` */
  function JoinRendered(ps: seq<Param>): (r: string)
    ensures ps == [] ==> r == ""
    ensures |ps| == 1 ==> r == Render(ps[0])
    ensures |ps| > 1 ==> r == JoinRendered(ps[..|ps| - 1]) + ", " + Render(ps[|ps| - 1])
  {
    if ps == [] then ""
    else if |ps| == 1 then Render(ps[0])
    else JoinRendered(ps[..|ps| - 1]) + ", " + Render(ps[|ps| - 1])
  }

  /** `get_ideal`: the return type, the name and the rendered parameters
      between parentheses. */
  function Ideal(p: Prototype): (r: string)
    ensures StartsWith(r, p.returnType + " " + p.name + "(") && EndsWith(r, ")")
    ensures |r| == |p.returnType| + |p.name| + |JoinRendered(p.params)| + 3
  {
    var r := p.returnType + " " + p.name + "(" + JoinRendered(p.params) + ")";
    assert (p.returnType + " " + p.name + "(") <= r;
    r
  }

  /** `is_const_candidate`: some parameter is a candidate. */
  function HasConstCandidate(ps: seq<Param>): (r: bool)
    ensures r <==> exists k :: 0 <= k < |ps| && IsConstCandidate(ps[k])
  {
    if ps == [] then false
    else if IsConstCandidate(ps[0]) then true
    else
      var r := HasConstCandidate(ps[1..]);
      assert r <==> exists k :: 1 <= k < |ps| && IsConstCandidate(ps[k]) by {
        if r {
          var k :| 0 <= k < |ps[1..]| && IsConstCandidate(ps[1..][k]);
          assert ps[k + 1] == ps[1..][k];
        }
        if exists k :: 1 <= k < |ps| && IsConstCandidate(ps[k]) {
          var k :| 1 <= k < |ps| && IsConstCandidate(ps[k]);
          assert ps[1..][k - 1] == ps[k];
        }
      }
      r
  }

  function TypesAgree(xs: seq<Param>, ys: seq<Param>): (r: bool)
    requires |xs| == |ys|
    ensures r <==> forall i :: 0 <= i < |xs| ==> xs[i].dataType == ys[i].dataType
  {
    if xs == [] then true
    else if xs[0].dataType != ys[0].dataType then false
    else
      var r := TypesAgree(xs[1..], ys[1..]);
      assert r <==> forall i :: 1 <= i < |xs| ==> xs[i].dataType == ys[i].dataType by {
        if r {
          forall i | 1 <= i < |xs| ensures xs[i].dataType == ys[i].dataType {
            assert xs[1..][i - 1] == xs[i] && ys[1..][i - 1] == ys[i];
          }
        }
      }
      r
  }

  /** `matches`: same number of parameters, and the same normalised type
      at every position. */
  function Matches(a: Prototype, b: Prototype): (r: bool)
    ensures r <==> (|a.params| == |b.params| &&
      forall i :: 0 <= i < |a.params| ==> a.params[i].dataType == b.params[i].dataType)
  {
    |a.params| == |b.params| && TypesAgree(a.params, b.params)
  }

  /** `matches` is an equivalence. */
  lemma MatchesEquivalence(a: Prototype, b: Prototype, c: Prototype)
    ensures Matches(a, a)
    ensures Matches(a, b) == Matches(b, a)
    ensures Matches(a, b) && Matches(b, c) ==> Matches(a, c)
  {
  }

  // `prove_param_cant_be_const` (prototype.py:197-224). A search with
  // `pos` and `endpos` and no lookbehind sees exactly the text between
  // them, so the patterns are matched against the body text alone.

  /** The length of the run of word characters from `k`. */
  function WordsFrom(t: string, k: nat): (n: nat)
    ensures k + n <= |t| || n == 0
    ensures forall j :: k <= j < k + n ==> IsWordChar(t[j])
    ensures k + n < |t| ==> !IsWordChar(t[k + n])
    decreases |t| - k
  {
    if k < |t| && IsWordChar(t[k]) then 1 + WordsFrom(t, k + 1) else 0
  }

  /** The length of the run of whitespace from `k`. */
  function SpacesFrom(t: string, k: nat): (n: nat)
    ensures k + n <= |t| || n == 0
    ensures forall j :: k <= j < k + n ==> IsSpace(t[j])
    ensures k + n < |t| ==> !IsSpace(t[k + n])
    decreases |t| - k
  {
    if k < |t| && IsSpace(t[k]) then 1 + SpacesFrom(t, k + 1) else 0
  }

  /** `\+[+=]|-[-=]|=(?!=)` at `k`: an increment, a decrement or an
      assignment, but not a comparison `==`. */
  predicate WriteOpAt(t: string, k: nat) {
    k < |t| &&
    ( (t[k] == '+' && k + 1 < |t| && (t[k + 1] == '+' || t[k + 1] == '='))
    || (t[k] == '-' && k + 1 < |t| && (t[k + 1] == '-' || t[k + 1] == '='))
    || (t[k] == '=' && !(k + 1 < |t| && t[k + 1] == '=')))
  }

  /** `\s*` then a write operator, from `k`. */
  predicate OpAfterSpaces(t: string, k: nat) {
    WriteOpAt(t, k + SpacesFrom(t, k))
  }

  predicate TextAt(t: string, k: nat, s: string) {
    k + |s| <= |t| && t[k..k + |s|] == s
  }

  /** A name made of word characters only: pasted into a pattern it
      matches exactly itself. */
  predicate PlainName(s: string) {
    forall i :: 0 <= i < |s| ==> IsWordChar(s[i])
  }

  /** What a parameter name means once it is pasted into the patterns:
      itself, a word followed by one character of a class (`list[10]`
      reads as `list` then one of `1` and `0`), or a pattern `re.compile`
      refuses at prototype.py:213. */
  datatype NamePat = Literal(text: string) | Subscript(word: string, chars: string) | Broken

  /** How `re.compile` reads `name` at prototype.py:213 when the pivot is
      `pivot`. A leading `(*` leaves `*` with nothing to repeat; `w[]`
      before `->` opens the class `[]->[a-zA-Z0-9_]`, whose range `]->[`
      runs backwards. */
  function NamePatOf(name: string, pivot: char): NamePat {
    var j := WordsFrom(name, 0);
    if j == |name| then Literal(name)
    else if |name| >= 2 && name[0] == '(' && name[1] == '*' then Broken
    else if pivot == '*' && j + 2 == |name| && name[j] == '[' && name[j + 1] == ']' then Broken
    else if 0 < j && j + 2 < |name| && name[j] == '[' && name[|name| - 1] == ']'
      && j + 1 + WordsFrom(name, j + 1) == |name| - 1 then
      Subscript(name[..j], name[j + 1..|name| - 1])
    else Literal(name)
  }

  /** A word-character name reads as itself; exactly a leading `(*`, or
      `[]` after a run of word characters under a `*` pivot, cannot be
      compiled; a class suffix is one of word characters after a word. */
  lemma NamePatOfMeaning(name: string, pivot: char)
    ensures var np := NamePatOf(name, pivot);
      && (PlainName(name) ==> np == Literal(name))
      && (np.Broken? <==>
            (|name| >= 2 && name[0] == '(' && name[1] == '*')
            || (pivot == '*' && |name| >= 2 && name[|name| - 2..] == "[]" && PlainName(name[..|name| - 2])))
      && (np.Subscript? ==>
            np.word != "" && PlainName(np.word) && np.chars != "" && PlainName(np.chars)
            && name == np.word + "[" + np.chars + "]")
  {
    NamePatBroken(name, pivot);
    NamePatSubscript(name, pivot);
  }

  lemma NamePatBroken(name: string, pivot: char)
    ensures NamePatOf(name, pivot).Broken? <==>
      (|name| >= 2 && name[0] == '(' && name[1] == '*')
      || (pivot == '*' && |name| >= 2 && name[|name| - 2..] == "[]" && PlainName(name[..|name| - 2]))
  {
    var j := WordsFrom(name, 0);
    if |name| >= 2 && name[0] == '(' {
      assert j == 0;
    }
    if |name| >= 2 && name[|name| - 2..] == "[]" && PlainName(name[..|name| - 2]) {
      assert name[|name| - 2] == '[';
      WordsFromStops(name, 0, |name| - 2);
    }
    if j + 2 == |name| && name[j] == '[' && name[j + 1] == ']' {
      assert name[|name| - 2..] == "[]";
      assert PlainName(name[..|name| - 2]);
    }
  }

  lemma NamePatSubscript(name: string, pivot: char)
    ensures var np := NamePatOf(name, pivot);
      np.Subscript? ==>
        np.word != "" && PlainName(np.word) && np.chars != "" && PlainName(np.chars)
        && name == np.word + "[" + np.chars + "]"
  {
    var j := WordsFrom(name, 0);
    if NamePatOf(name, pivot).Subscript? {
      assert name == name[..j] + "[" + name[j + 1..|name| - 1] + "]";
      assert PlainName(name[j + 1..|name| - 1]);
    }
  }

  /** A run of word characters from `k` ends at the first character
      that is not one. */
  lemma {:induction false} WordsFromStops(t: string, k: nat, n: nat)
    requires k <= n < |t| && !IsWordChar(t[n])
    requires forall j :: k <= j < n ==> IsWordChar(t[j])
    ensures WordsFrom(t, k) == n - k
    decreases n - k
  {
    if k < n {
      WordsFromStops(t, k + 1, n);
    }
  }

  /** Where the name's pattern matches at `k`. */
  predicate NameAt(t: string, k: nat, np: NamePat) {
    match np
    case Literal(s) => TextAt(t, k, s)
    case Subscript(w, d) => TextAt(t, k, w) && k + |w| < |t| && t[k + |w|] in d
    case Broken => false
  }

  /** The length of text the name's pattern matches. */
  function NameLen(np: NamePat): (n: nat)
    ensures np.Literal? ==> n == |np.text|
  {
    match np
    case Literal(s) => |s|
    case Subscript(w, _) => |w| + 1
    case Broken => 0
  }

  /** `[^a-zA-Z0-9_]NAME(->|\.)[a-zA-Z0-9_]+\s*op` matching at `k`, with
      `sel` the member selector: a write to a member through the
      parameter. */
  predicate MemberWriteAt(t: string, k: nat, np: NamePat, sel: string) {
    && k < |t| && !IsWordChar(t[k])
    && NameAt(t, k + 1, np) && TextAt(t, k + 1 + NameLen(np), sel)
    && var w := k + 1 + NameLen(np) + |sel|;
       WordsFrom(t, w) > 0 && OpAfterSpaces(t, w + WordsFrom(t, w))
  }

  /** `\*NAME\s*op` matching at `k`: a write through the pointer. */
  predicate DerefWriteAt(t: string, k: nat, np: NamePat) {
    k < |t| && t[k] == '*' && NameAt(t, k + 1, np) && OpAfterSpaces(t, k + 1 + NameLen(np))
  }

  /** `[^a-zA-Z0-9_]NAME\s*op` matching at `k`: a write to the reference. */
  predicate DirectWriteAt(t: string, k: nat, np: NamePat) {
    k < |t| && !IsWordChar(t[k]) && NameAt(t, k + 1, np) && OpAfterSpaces(t, k + 1 + NameLen(np))
  }

  /** The three searches of the source. */
  predicate MemberWrite(t: string, np: NamePat, sel: string) {
    exists k :: 0 <= k < |t| && MemberWriteAt(t, k, np, sel)
  }

  predicate DerefWrite(t: string, np: NamePat) {
    exists k :: 0 <= k < |t| && DerefWriteAt(t, k, np)
  }

  predicate DirectWrite(t: string, np: NamePat) {
    exists k :: 0 <= k < |t| && DirectWriteAt(t, k, np)
  }

  /** The name `prove_param_cant_be_const` searches for: the new name if
      there is one, else the parsed name; empty when there is neither. */
  function WriteName(q: Param): string {
    if q.newName != "" then q.newName else if q.name.Some? then q.name.value else ""
  }

  /** The pattern of parameter `q`'s name under its pivot. */
  function WritePat(q: Param): NamePat
    requires Pivot(q).Some?
  {
    NamePatOf(WriteName(q), q.dataType[Pivot(q).value])
  }

  /** The text a search from `start_of_body` to `end_of_body` sees. */
  function BodyText(p: Prototype): (b: string)
    requires p.startOfBody.Some? && p.endOfBody.Some?
    ensures p.startOfBody.value <= p.endOfBody.value <= |p.txt| ==>
      b == p.txt[p.startOfBody.value..p.endOfBody.value]
  {
    Slice(p.txt, p.startOfBody.value, p.endOfBody.value)
  }

  /** Whether the body writes through parameter `idx`: then it certainly
      cannot be made `const`. A pivot `*` looks for `name->f op` and
      `*name op`, a pivot `&` for `name.f op` and `name op`, in the body
      only. A name the first pattern cannot be compiled with fails at
      line 213; otherwise, without a body end, the search gets `None` as
      its end and fails at line 214. */
  function ProveParamCantBeConst(p: Prototype, idx: nat): (r: Result<bool>)
    ensures !HasBody(p) || idx >= |p.params| ==> r == Ok(false)
    ensures idx < |p.params| && (WriteName(p.params[idx]) == "" || Pivot(p.params[idx]).None?) ==> r == Ok(false)
    ensures r.Err? <==>
      HasBody(p) && idx < |p.params| && WriteName(p.params[idx]) != "" && Pivot(p.params[idx]).Some?
      && (WritePat(p.params[idx]).Broken? || p.endOfBody.None?)
    ensures r.Err? ==> r.error == if WritePat(p.params[idx]).Broken? then RegexError(213) else TypeMismatch(214)
    ensures r.Ok? && r.value ==> p.endOfBody.Some? && idx < |p.params| && Pivot(p.params[idx]).Some?
    ensures r.Ok? && r.value ==> var q := p.params[idx]; var b := BodyText(p); var np := WritePat(q);
      if q.dataType[Pivot(q).value] == '*' then MemberWrite(b, np, "->") || DerefWrite(b, np)
      else MemberWrite(b, np, ".") || DirectWrite(b, np)
  {
    if !HasBody(p) || idx >= |p.params| then Ok(false)
    else
      var q := p.params[idx];
      var name := WriteName(q);
      if name == "" then Ok(false)
      else match Pivot(q)
        case None => Ok(false)
        case Some(i) =>
          var np := NamePatOf(name, q.dataType[i]);
          if np.Broken? then Err(RegexError(213))
          else if p.endOfBody.None? then Err(TypeMismatch(214))
          else
            var b := BodyText(p);
            if q.dataType[i] == '*' then Ok(MemberWrite(b, np, "->") || DerefWrite(b, np))
            else Ok(MemberWrite(b, np, ".") || DirectWrite(b, np))
  }

  /** The converse: on a named pointer or reference parameter of a
      function whose body end was found, the answer is an error exactly
      when the name cannot be compiled, and otherwise `True` exactly when
      a write through the parameter is seen. */
  lemma ProveParamCantBeConstComplete(p: Prototype, idx: nat)
    requires HasBody(p) && idx < |p.params| && WriteName(p.params[idx]) != "" && Pivot(p.params[idx]).Some?
    requires p.endOfBody.Some?
    ensures var q := p.params[idx]; var b := BodyText(p); var r := ProveParamCantBeConst(p, idx);
      var np := WritePat(q);
      (r.Err? <==> np.Broken?)
      && (r.Ok? ==> (r.value <==>
        if q.dataType[Pivot(q).value] == '*' then MemberWrite(b, np, "->") || DerefWrite(b, np)
        else MemberWrite(b, np, ".") || DirectWrite(b, np)))
  {
  }

  /** `char * argv[]`: the first pattern holds the class `[]->[a-zA-Z0-9_]`
      with a backwards range, so the search raises before any text is
      looked at. */
  lemma EmptySubscriptRaises(p: Prototype, q: Param)
    requires HasBody(p) && |p.params| == 1 && p.params[0] == q
    requires q.dataType == "char *" && q.newName == "argv[]"
    ensures ProveParamCantBeConst(p, 0) == Err(RegexError(213))
  {
    assert Pivot(q) == Some(5);
    ArgvBroken();
  }

  lemma ArgvBroken()
    ensures NamePatOf("argv[]", '*') == Broken
  {
    var name := "argv[]";
    WordsFromStops(name, 0, 4);
  }

  /** `int * list[10]`: the name reads as `list` then `1` or `0`, so a
      write to `list1->n` counts as a write through `list`. */
  lemma SubscriptIsClass(t: string)
    requires t == " list1->n = 0;"
    ensures NamePatOf("list[10]", '*') == Subscript("list", "10")
    ensures MemberWriteAt(t, 0, Subscript("list", "10"), "->")
  {
    SubscriptPattern();
    MemberWriteThroughList1(t);
  }

  lemma SubscriptPattern()
    ensures NamePatOf("list[10]", '*') == Subscript("list", "10")
  {
    var name := "list[10]";
    WordsFromStops(name, 0, 4);
    WordsFromStops(name, 5, 7);
    assert name[..4] == "list" && name[5..7] == "10";
  }

  lemma MemberWriteThroughList1(t: string)
    requires t == " list1->n = 0;"
    ensures MemberWriteAt(t, 0, Subscript("list", "10"), "->")
  {
    List1Name(t);
    List1Write(t);
  }

  lemma List1Name(t: string)
    requires t == " list1->n = 0;"
    ensures !IsWordChar(t[0]) && NameAt(t, 1, Subscript("list", "10")) && TextAt(t, 6, "->")
  {
    assert t[1..5] == "list";
    assert t[5] == "10"[0];
    assert t[6..8] == "->";
  }

  lemma List1Write(t: string)
    requires t == " list1->n = 0;"
    ensures WordsFrom(t, 8) == 1 && OpAfterSpaces(t, 9)
  {
    WordsFromStops(t, 8, 9);
    assert SpacesFrom(t, 10) == 0;
    assert WriteOpAt(t, 10);
  }

  /** A write seen by one of the searches puts the name's pattern right
      after a character that is not part of a word. */
  lemma WriteSeenHasName(b: string, np: NamePat, sel: string, deref: bool)
    requires MemberWrite(b, np, sel) || (if deref then DerefWrite(b, np) else DirectWrite(b, np))
    ensures exists k :: 0 <= k < |b| && !IsWordChar(b[k]) && NameAt(b, k + 1, np)
  {
    if MemberWrite(b, np, sel) {
      var k :| 0 <= k < |b| && MemberWriteAt(b, k, np, sel);
      NameAfterBreak(b, k, np);
    } else if deref {
      var k :| 0 <= k < |b| && DerefWriteAt(b, k, np);
      NameAfterBreak(b, k, np);
    } else {
      var k :| 0 <= k < |b| && DirectWriteAt(b, k, np);
      NameAfterBreak(b, k, np);
    }
  }

  lemma NameAfterBreak(b: string, k: nat, np: NamePat)
    requires k < |b| && !IsWordChar(b[k]) && NameAt(b, k + 1, np)
    ensures exists k :: 0 <= k < |b| && !IsWordChar(b[k]) && NameAt(b, k + 1, np)
  {
  }

  /** A proof that the parameter is written needs its name's pattern in
      the body, right after a character that is not part of a word; for a
      plain name, that is the name itself. */
  lemma ProofNeedsName(p: Prototype, idx: nat)
    requires ProveParamCantBeConst(p, idx) == Ok(true)
    ensures idx < |p.params| && p.startOfBody.Some? && p.endOfBody.Some? && Pivot(p.params[idx]).Some?
    ensures var name := WriteName(p.params[idx]); var b := BodyText(p); var np := WritePat(p.params[idx]);
      name != "" && exists k :: 0 <= k < |b| && !IsWordChar(b[k]) && NameAt(b, k + 1, np)
    ensures var name := WriteName(p.params[idx]); var b := BodyText(p);
      PlainName(name) ==> exists k :: 0 <= k < |b| && !IsWordChar(b[k]) && TextAt(b, k + 1, name)
  {
    var q := p.params[idx];
    var deref := q.dataType[Pivot(q).value] == '*';
    WriteSeenHasName(BodyText(p), WritePat(q), if deref then "->" else ".", deref);
  }

  /** A comparison is not a write: `name == x` and `*name == x` prove
      nothing. */
  lemma ComparisonIsNoWrite(t: string, k: nat, np: NamePat)
    requires k + 1 + NameLen(np) + 1 < |t| && t[k + 1 + NameLen(np)] == '=' && t[k + 2 + NameLen(np)] == '='
    ensures !DerefWriteAt(t, k, np) && !DirectWriteAt(t, k, np)
  {
    assert SpacesFrom(t, k + 1 + NameLen(np)) == 0;
  }

  // ---------------------------------------------------------------------
  // `PrototypeMap` (prototype.py:323-384)

  /** One key of the map: a file and the prototypes found in it. The map
      is a sequence so that the order of iteration is explicit. */
  datatype Entry = Entry(path: string, protos: seq<Prototype>)

  type PrototypeMap = seq<Entry>

  predicate DistinctPaths(m: PrototypeMap) {
    forall i, j :: 0 <= i < j < |m| ==> m[i].path != m[j].path
  }

  /** The files `find_best` looks at in each of its passes. */
  datatype Kind = Impl | Header | Any

  predicate Selected(path: string, kind: Kind) {
    match kind
    case Impl => EndsWith(path, ".c") && !Contains(path, "test/")
    case Header => EndsWith(path, ".h") && !Contains(path, "test/")
    case Any => true
  }

  function Chunk(e: Entry, kind: Kind): seq<Prototype> {
    if Selected(e.path, kind) then e.protos else []
  }

  /** The prototypes of the selected files, in iteration order. */
  function ProtosIn(m: PrototypeMap, kind: Kind): seq<Prototype>
    decreases |m|
  {
    if m == [] then [] else ProtosIn(m[..|m| - 1], kind) + Chunk(m[|m| - 1], kind)
  }

  lemma {:induction false} ProtosInAppend(a: PrototypeMap, b: PrototypeMap, kind: Kind)
    ensures ProtosIn(a + b, kind) == ProtosIn(a, kind) + ProtosIn(b, kind)
    decreases |b|
  {
    if b == [] {
      assert a + b == a;
    } else {
      var b' := b[..|b| - 1];
      assert (a + b)[..|a + b| - 1] == a + b';
      assert (a + b)[|a + b| - 1] == b[|b| - 1];
      ProtosInAppend(a, b', kind);
    }
  }

  lemma ProtosInCons(e: Entry, m: PrototypeMap, kind: Kind)
    ensures ProtosIn([e] + m, kind) == Chunk(e, kind) + ProtosIn(m, kind)
  {
    ProtosInAppend([e], m, kind);
    assert [e][..0] == [];
  }

  /** Every selected prototype is a prototype of the map. */
  lemma {:induction false} ProtosInAny(m: PrototypeMap, kind: Kind)
    ensures forall p :: p in ProtosIn(m, kind) ==> p in ProtosIn(m, Any)
    decreases |m|
  {
    if m != [] {
      ProtosInAny(m[..|m| - 1], kind);
    }
  }

  /** The first prototype of the map, head first. */
  function FirstProto(m: PrototypeMap): (r: Option<Prototype>)
    decreases |m|
  {
    if m == [] then None
    else if m[0].protos != [] then Some(m[0].protos[0])
    else FirstProto(m[1..])
  }

  lemma {:induction false} FirstProtoIsFirst(m: PrototypeMap)
    ensures FirstProto(m) == if ProtosIn(m, Any) == [] then None else Some(ProtosIn(m, Any)[0])
    decreases |m|
  {
    if m != [] {
      assert m == [m[0]] + m[1..];
      ProtosInCons(m[0], m[1..], Any);
      FirstProtoIsFirst(m[1..]);
    }
  }

  /** `function_name`: the name of the first prototype, if any. */
  function FunctionName(m: PrototypeMap): (r: Option<string>)
    ensures r.None? <==> ProtosIn(m, Any) == []
    ensures r.Some? ==> r.value == ProtosIn(m, Any)[0].name
  {
    FirstProtoIsFirst(m);
    match FirstProto(m)
    case None => None
    case Some(p) => Some(p.name)
  }

  /** `non_test_fpaths`: the paths without `test/`, in map order. */
  function NonTestPaths(m: PrototypeMap): (r: seq<string>)
    ensures |r| <= |m|
    ensures forall x :: x in r <==> exists i :: 0 <= i < |m| && m[i].path == x && !Contains(x, "test/")
    decreases |m|
  {
    if m == [] then []
    else
      var rest := NonTestPaths(m[1..]);
      assert forall x :: (exists i :: 1 <= i < |m| && m[i].path == x && !Contains(x, "test/")) ==> x in rest by {
        forall x | exists i :: 1 <= i < |m| && m[i].path == x && !Contains(x, "test/") ensures x in rest {
          var i :| 1 <= i < |m| && m[i].path == x && !Contains(x, "test/");
          assert m[1..][i - 1] == m[i];
        }
      }
      if !Contains(m[0].path, "test/") then [m[0].path] + rest else rest
  }

  predicate AnyDirty(ps: seq<Prototype>) {
    exists k :: 0 <= k < |ps| && ps[k].dirty
  }

  /** `dirty_fpaths`: the paths with at least one dirty prototype, in map
      order. */
  function DirtyPaths(m: PrototypeMap): (r: seq<string>)
    ensures |r| <= |m|
    ensures forall x :: x in r <==> exists i :: 0 <= i < |m| && m[i].path == x && AnyDirty(m[i].protos)
    decreases |m|
  {
    if m == [] then []
    else
      var rest := DirtyPaths(m[1..]);
      assert forall x :: (exists i :: 1 <= i < |m| && m[i].path == x && AnyDirty(m[i].protos)) ==> x in rest by {
        forall x | exists i :: 1 <= i < |m| && m[i].path == x && AnyDirty(m[i].protos) ensures x in rest {
          var i :| 1 <= i < |m| && m[i].path == x && AnyDirty(m[i].protos);
          assert m[1..][i - 1] == m[i];
        }
      }
      if AnyDirty(m[0].protos) then [m[0].path] + rest else rest
  }

  /** A map with no dirty prototype has no file to back up. */
  lemma {:induction false} NoDirtyPaths(m: PrototypeMap)
    requires forall i, k :: 0 <= i < |m| && 0 <= k < |m[i].protos| ==> !m[i].protos[k].dirty
    ensures DirtyPaths(m) == []
    decreases |m|
  {
    if m != [] {
      assert forall i :: 0 <= i < |m[1..]| ==> m[1..][i] == m[i + 1];
      NoDirtyPaths(m[1..]);
    }
  }

  // `find_best` (prototype.py:350-384)

  predicate NoBody(ps: seq<Prototype>) {
    forall k :: 0 <= k < |ps| ==> !HasBody(ps[k])
  }

  /** The first prototype with a body. */
  function FirstWithBody(ps: seq<Prototype>): (r: Option<Prototype>)
    ensures r.None? <==> NoBody(ps)
    ensures r.Some? ==> HasBody(r.value) && r.value in ps
  {
    if ps == [] then None
    else if HasBody(ps[0]) then Some(ps[0])
    else
      assert NoBody(ps[1..]) ==> NoBody(ps) by {
        if NoBody(ps[1..]) {
          forall k | 1 <= k < |ps| ensures !HasBody(ps[k]) { assert ps[k] == ps[1..][k - 1]; }
        }
      }
      FirstWithBody(ps[1..])
  }

  /** Nothing before the prototype `FirstWithBody` picks has a body. */
  lemma {:induction false} FirstWithBodyFirst(ps: seq<Prototype>)
    requires FirstWithBody(ps).Some?
    ensures exists k :: 0 <= k < |ps| && ps[k] == FirstWithBody(ps).value && NoBody(ps[..k])
  {
    if HasBody(ps[0]) {
      assert ps[..0] == [];
    } else {
      FirstWithBodyFirst(ps[1..]);
      var k :| 0 <= k < |ps[1..]| && ps[1..][k] == FirstWithBody(ps).value && NoBody(ps[1..][..k]);
      assert ps[k + 1] == ps[1..][k];
      forall j | 0 <= j < k + 1 ensures !HasBody(ps[j]) {
        if j > 0 { assert ps[j] == ps[1..][..k][j - 1]; }
      }
      assert forall j :: 0 <= j < k + 1 ==> ps[..k + 1][j] == ps[j];
    }
  }

  lemma {:induction false} FirstWithBodySkips(xs: seq<Prototype>, ys: seq<Prototype>)
    requires NoBody(xs)
    ensures FirstWithBody(xs + ys) == FirstWithBody(ys)
    decreases |xs|
  {
    if xs != [] {
      assert (xs + ys)[0] == xs[0] && !HasBody(xs[0]);
      assert (xs + ys)[1..] == xs[1..] + ys;
      assert NoBody(xs[1..]) by {
        forall k | 0 <= k < |xs[1..]| ensures !HasBody(xs[1..][k]) { assert xs[1..][k] == xs[k + 1]; }
      }
      FirstWithBodySkips(xs[1..], ys);
    } else {
      assert xs + ys == ys;
    }
  }

  function Last(ps: seq<Prototype>): Option<Prototype> {
    if ps == [] then None else Some(ps[|ps| - 1])
  }

  /** One pass of `find_best`: the first prototype with a body, else the
      last one seen. */
  function Pick(ps: seq<Prototype>): (r: Option<Prototype>)
    ensures r.None? <==> ps == []
    ensures r.Some? ==> r.value in ps
  {
    var b := FirstWithBody(ps);
    if b.Some? then b else Last(ps)
  }

  /** The preference order of `find_best`: a non-test `.c` file, then a
      non-test `.h` file, then the first prototype anywhere. */
  function Best(m: PrototypeMap): Option<Prototype> {
    var c := Pick(ProtosIn(m, Impl));
    if c.Some? then c
    else
      var h := Pick(ProtosIn(m, Header));
      if h.Some? then h else FirstProto(m)
  }

  lemma ProtosInSplit(m: PrototypeMap, e: nat, kind: Kind)
    requires e < |m|
    ensures ProtosIn(m, kind) == ProtosIn(m[..e], kind) + (Chunk(m[e], kind) + ProtosIn(m[e + 1..], kind))
  {
    assert m == m[..e] + m[e..];
    ProtosInAppend(m[..e], m[e..], kind);
    assert m[e..] == [m[e]] + m[e + 1..];
    ProtosInCons(m[e], m[e + 1..], kind);
  }

  lemma ProtosInStep(m: PrototypeMap, e: nat, kind: Kind)
    requires e < |m|
    ensures ProtosIn(m[..e + 1], kind) == ProtosIn(m[..e], kind) + Chunk(m[e], kind)
  {
    assert m[..e + 1][..e] == m[..e];
  }

  lemma {:induction false} FirstWithBodyHit(xs: seq<Prototype>, ys: seq<Prototype>, k: nat)
    requires k < |xs| && HasBody(xs[k])
    requires forall j :: 0 <= j < k ==> !HasBody(xs[j])
    ensures FirstWithBody(xs + ys) == Some(xs[k])
    decreases k
  {
    assert (xs + ys)[0] == xs[0];
    if k > 0 {
      assert (xs + ys)[1..] == xs[1..] + ys;
      assert forall j :: 0 <= j < k - 1 ==> xs[1..][j] == xs[j + 1];
      FirstWithBodyHit(xs[1..], ys, k - 1);
    }
  }

  lemma FirstWithBodyPrefix(xs: seq<Prototype>, ys: seq<Prototype>)
    requires FirstWithBody(xs).Some?
    ensures FirstWithBody(xs + ys) == FirstWithBody(xs)
  {
    FirstWithBodyFirst(xs);
    var k :| 0 <= k < |xs| && xs[k] == FirstWithBody(xs).value && NoBody(xs[..k]);
    assert forall j :: 0 <= j < k ==> xs[j] == xs[..k][j];
    FirstWithBodyHit(xs, ys, k);
  }

  lemma NoBodyConcat(xs: seq<Prototype>, ys: seq<Prototype>)
    requires NoBody(xs) && NoBody(ys)
    ensures NoBody(xs + ys) && Last(xs + ys) == if ys == [] then Last(xs) else Last(ys)
  {
    if ys == [] {
      assert xs + ys == xs;
    }
  }

  lemma PickHit(m: PrototypeMap, kind: Kind, e: nat)
    requires e < |m| && Selected(m[e].path, kind)
    requires NoBody(ProtosIn(m[..e], kind)) && FirstWithBody(m[e].protos).Some?
    ensures Pick(ProtosIn(m, kind)) == FirstWithBody(m[e].protos)
  {
    ProtosInSplit(m, e, kind);
    var rest := ProtosIn(m[e + 1..], kind);
    FirstWithBodyPrefix(m[e].protos, rest);
    FirstWithBodySkips(ProtosIn(m[..e], kind), m[e].protos + rest);
  }

  /** The inner loop of a pass of `find_best` over the prototypes of one
      file: the first with a body, or else the last one seen. */
  method PickInFile(ps: seq<Prototype>, second0: Option<Prototype>) returns (hit: Option<Prototype>, second: Option<Prototype>)
    ensures hit == FirstWithBody(ps)
    ensures hit.None? ==> second == if ps == [] then second0 else Last(ps)
  {
    second := second0;
    var k := 0;
    while k < |ps|
      invariant k <= |ps|
      invariant NoBody(ps[..k])
      invariant second == if k == 0 then second0 else Some(ps[k - 1])
    {
      if HasBody(ps[k]) {
        assert forall j :: 0 <= j < k ==> ps[j] == ps[..k][j];
        FirstWithBodyHit(ps, [], k);
        assert ps + [] == ps;
        return Some(ps[k]), second;
      }
      assert ps[..k + 1] == ps[..k] + [ps[k]];
      second := Some(ps[k]);
      k := k + 1;
    }
    assert ps[..k] == ps;
    return None, second;
  }

  /** One pass of `find_best` over the files of one kind, with the loop
      that overwrites `second_best`. */
  method PickIn(m: PrototypeMap, kind: Kind) returns (r: Option<Prototype>)
    ensures r == Pick(ProtosIn(m, kind))
  {
    var second: Option<Prototype> := None;
    var e := 0;
    while e < |m|
      invariant e <= |m|
      invariant NoBody(ProtosIn(m[..e], kind))
      invariant second == Last(ProtosIn(m[..e], kind))
    {
      ProtosInStep(m, e, kind);
      if Selected(m[e].path, kind) {
        var hit;
        hit, second := PickInFile(m[e].protos, second);
        if hit.Some? {
          PickHit(m, kind, e);
          return hit;
        }
        NoBodyConcat(ProtosIn(m[..e], kind), m[e].protos);
      } else {
        NoBodyConcat(ProtosIn(m[..e], kind), []);
      }
      e := e + 1;
    }
    assert m[..e] == m;
    return second;
  }

  /** `find_best`. */
  method FindBest(m: PrototypeMap) returns (r: Option<Prototype>)
    ensures r == Best(m)
  {
    r := PickIn(m, Impl);
    if r.Some? {
      return;
    }
    r := PickIn(m, Header);
    if r.Some? {
      return;
    }
    var e := 0;
    while e < |m|
      invariant e <= |m|
      invariant FirstProto(m) == FirstProto(m[e..])
    {
      assert m[e..][1..] == m[e + 1..];
      if m[e].protos != [] {
        return Some(m[e].protos[0]);
      }
      e := e + 1;
    }
    return None;
  }

  /** `find_best` picks a prototype of the map, and picks one whenever the
      map has any. */
  lemma BestFromMap(m: PrototypeMap)
    ensures Best(m).None? <==> ProtosIn(m, Any) == []
    ensures Best(m).Some? ==> Best(m).value in ProtosIn(m, Any)
  {
    ProtosInAny(m, Impl);
    ProtosInAny(m, Header);
    FirstProtoIsFirst(m);
  }

  /** Any prototype in a non-test `.c` file beats every header, even a
      header with an inline body; among them the first with a body wins,
      and without one the last seen. */
  lemma BestPrefersImpl(m: PrototypeMap)
    ensures ProtosIn(m, Impl) != [] ==> Best(m).Some? && Best(m).value in ProtosIn(m, Impl)
    ensures FirstWithBody(ProtosIn(m, Impl)).Some? ==> Best(m) == FirstWithBody(ProtosIn(m, Impl))
    ensures ProtosIn(m, Impl) != [] && NoBody(ProtosIn(m, Impl)) ==> Best(m) == Last(ProtosIn(m, Impl))
  {
  }

  /** Without any `.c` prototype, a non-test header wins over the rest. */
  lemma BestThenHeader(m: PrototypeMap)
    requires ProtosIn(m, Impl) == []
    ensures ProtosIn(m, Header) != [] ==> Best(m).Some? && Best(m).value in ProtosIn(m, Header)
    ensures ProtosIn(m, Header) == [] ==> Best(m) == FirstProto(m)
  {
  }

  lemma {:induction false} NoneSelected(m: PrototypeMap, kind: Kind)
    requires forall i :: 0 <= i < |m| ==> !Selected(m[i].path, kind)
    ensures ProtosIn(m, kind) == []
    decreases |m|
  {
    if m != [] {
      NoneSelected(m[..|m| - 1], kind);
    }
  }

  /** `.cpp` files are never preferred: in a map of `.cpp` files only,
      `find_best` takes the first prototype, even over one with a body. */
  lemma CppIgnored(m: PrototypeMap)
    requires forall i :: 0 <= i < |m| ==> EndsWith(m[i].path, ".cpp")
    ensures Best(m) == FirstProto(m)
  {
    forall i | 0 <= i < |m| ensures !Selected(m[i].path, Impl) && !Selected(m[i].path, Header) {
      var s := m[i].path;
      assert s[|s| - 1] == 'p';
    }
    NoneSelected(m, Impl);
    NoneSelected(m, Header);
  }
}
