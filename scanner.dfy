/** The cursor scanners of prototype.py: the one that finds the brace closing
    a function body, the one that finds the parenthesis closing a parameter
    list, and the one that cuts a parameter list into parameters. Each is a
    method with the loops of the source, proved equal to a recursive
    function that takes one step per character. */
module Scanners {
  import opened Wrappers
  import opened Text
  import opened Params

  // ---------------------------------------------------------------------
  // `_find_end_of_body` (prototype.py:103-136)

  /** The scan of `_find_end_of_body` from position `i`, with `curly` braces
      still open. A backslash skips the next character, in or out of a
      string; `{` and `}` count only outside strings and comments. */
  function BodyEndFrom(txt: string, i: nat, inQuote: bool, curly: int): (r: Result<nat>)
    ensures r.Ok? ==> i <= r.value < |txt| && txt[r.value] == '}'
    decreases |txt| + 2 - i
  {
    if i >= |txt| then Err(AssertionFailed(136))
    else
      var c := txt[i];
      if c == '\\' then BodyEndFrom(txt, i + 2, inQuote, curly)
      else if inQuote then BodyEndFrom(txt, i + 1, c != '"', curly)
      else if c == '{' then BodyEndFrom(txt, i + 1, false, curly + 1)
      else if c == '}' then
        if curly - 1 == 0 then Ok(i) else BodyEndFrom(txt, i + 1, false, curly - 1)
      else if c == '/' then
        if i + 1 >= |txt| then Err(IndexOutOfRange(127))
        else if txt[i + 1] == '*' then
          var j := FindFrom(txt, "*/", i + 2);
          if j + 1 <= 0 then Err(AssertionFailed(129)) else BodyEndFrom(txt, j + 2, false, curly)
        else if txt[i + 1] == '/' then
          var j := FindFrom(txt, "\n", i);
          if j <= 0 then Err(AssertionFailed(132)) else BodyEndFrom(txt, j + 1, false, curly)
        else BodyEndFrom(txt, i + 1, false, curly)
      else BodyEndFrom(txt, i + 1, c == '"', curly)
  }

  /** `_find_end_of_body(txt, first)`: the index of the `}` that closes the
      body whose `{` ends just before `first`. */
  function BodyEnd(txt: string, first: nat): (r: Result<nat>)
    ensures r.Ok? ==> first <= r.value < |txt| && txt[r.value] == '}'
  {
    BodyEndFrom(txt, first, false, 1)
  }

  method FindEndOfBody(txt: string, first: nat) returns (r: Result<nat>)
    ensures r == BodyEnd(txt, first)
  {
    var inQuote := false;
    var curly := 1;
    var i := first;
    while i < |txt|
      invariant BodyEndFrom(txt, i, inQuote, curly) == BodyEnd(txt, first)
      decreases |txt| + 2 - i
    {
      var c := txt[i];
      if c == '\\' {
        i := i + 2;
        continue;
      }
      if inQuote {
        if c == '"' {
          inQuote := false;
        }
      } else {
        if c == '{' {
          curly := curly + 1;
        } else if c == '}' {
          curly := curly - 1;
          if curly == 0 {
            return Ok(i);
          }
        } else if c == '/' {
          if i + 1 >= |txt| {
            return Err(IndexOutOfRange(127));
          }
          if txt[i + 1] == '*' {
            var j := FindFrom(txt, "*/", i + 2);
            if j + 1 <= 0 {
              return Err(AssertionFailed(129));
            }
            i := j + 1;
          } else if txt[i + 1] == '/' {
            var j := FindFrom(txt, "\n", i);
            if j <= 0 {
              return Err(AssertionFailed(132));
            }
            i := j;
          }
        } else if c == '"' {
          inQuote := true;
        }
      }
      i := i + 1;
    }
    return Err(AssertionFailed(136));
  }

  /** The contribution of one character to the depth of `open`/`close`
      pairs. */
  function Delta(c: char, open: char, close: char): int {
    if c == open then 1 else if c == close then -1 else 0
  }

  /** Openers minus closers in `s`. */
  function Balance(s: string, open: char, close: char): int {
    if s == [] then 0 else Delta(s[0], open, close) + Balance(s[1..], open, close)
  }

  /** Text with nothing that `_find_end_of_body` treats specially besides
      braces: no backslash, no double quote, no slash. */
  predicate Plain(s: string) {
    forall k :: 0 <= k < |s| ==> s[k] != '\\' && s[k] != '"' && s[k] != '/'
  }

  /** The brace depth just after position `k`, when it is `curly` at `i`. */
  function DepthAfter(txt: string, i: nat, curly: int, k: nat): int
    requires i <= k < |txt|
  {
    curly + Balance(txt[i..k + 1], '{', '}')
  }

  /** Position `r` is where the depth, starting at `curly` at `i`, first
      drops to zero. */
  predicate ClosesAt(txt: string, i: nat, curly: int, r: nat) {
    && i <= r < |txt|
    && DepthAfter(txt, i, curly, r) == 0
    && forall k :: i <= k < r ==> DepthAfter(txt, i, curly, k) > 0
  }

  lemma BalanceCons(txt: string, i: nat, k: nat, open: char, close: char)
    requires i < k < |txt|
    ensures Balance(txt[i..k + 1], open, close) == Delta(txt[i], open, close) + Balance(txt[i + 1..k + 1], open, close)
  {
    assert txt[i..k + 1][1..] == txt[i + 1..k + 1];
  }

  lemma BalanceOne(txt: string, i: nat, open: char, close: char)
    requires i < |txt|
    ensures Balance(txt[i..i + 1], open, close) == Delta(txt[i], open, close)
  {
    var one := txt[i..i + 1];
    assert one[0] == txt[i] && one[1..] == [];
  }

  lemma BalanceStep(txt: string, i: nat, curly: int, k: nat)
    requires i < k < |txt|
    ensures DepthAfter(txt, i, curly, k) == DepthAfter(txt, i + 1, curly + Delta(txt[i], '{', '}'), k)
  {
    BalanceCons(txt, i, k, '{', '}');
  }

  /** On plain text `_find_end_of_body` is brace counting: it returns the
      first position where the depth reaches zero, and fails its final
      assertion when there is none. */
  lemma {:induction false} PlainBodyEnd(txt: string, i: nat, curly: int)
    requires curly > 0 && i <= |txt| && Plain(txt[i..])
    ensures forall r :: BodyEndFrom(txt, i, false, curly) == Ok(r) ==> ClosesAt(txt, i, curly, r)
    ensures BodyEndFrom(txt, i, false, curly).Err? ==>
      BodyEndFrom(txt, i, false, curly) == Err(AssertionFailed(136)) &&
      forall r :: !ClosesAt(txt, i, curly, r)
    decreases |txt| - i
  {
    if i < |txt| {
      var c := txt[i];
      assert c == txt[i..][0];
      var d := curly + Delta(c, '{', '}');
      BalanceOne(txt, i, '{', '}');
      if c == '}' && curly - 1 == 0 {
        assert ClosesAt(txt, i, curly, i);
      } else {
        assert txt[i + 1..] == txt[i..][1..];
        assert d > 0;
        PlainBodyEnd(txt, i + 1, d);
        forall r | i <= r < |txt|
          ensures ClosesAt(txt, i, curly, r) <==> r > i && ClosesAt(txt, i + 1, d, r)
        {
          if r > i {
            BalanceStep(txt, i, curly, r);
            forall k | i + 1 <= k < r
              ensures DepthAfter(txt, i, curly, k) == DepthAfter(txt, i + 1, d, k)
            {
              BalanceStep(txt, i, curly, k);
            }
            if ClosesAt(txt, i + 1, d, r) {
              forall k | i <= k < r ensures DepthAfter(txt, i, curly, k) > 0 {
                if k > i { assert DepthAfter(txt, i + 1, d, k) > 0; }
              }
            }
            if ClosesAt(txt, i, curly, r) {
              var i' := i + 1;
              forall k | i' <= k < r ensures DepthAfter(txt, i', d, k) > 0 {
                assert DepthAfter(txt, i, curly, k) > 0;
              }
            }
          }
        }
      }
    }
  }

  /** Braces inside a string literal are not counted: the scan resumes after
      the closing quote as if the string were not there. */
  lemma {:induction false} QuotedBracesIgnored(txt: string, i: nat, j: nat, curly: int)
    requires i < j < |txt| && txt[i] == '"' && txt[j] == '"'
    requires forall k :: i < k < j ==> txt[k] != '"' && txt[k] != '\\'
    ensures BodyEndFrom(txt, i, false, curly) == BodyEndFrom(txt, j + 1, false, curly)
  {
    InQuoteRun(txt, i + 1, j, curly);
  }

  lemma {:induction false} InQuoteRun(txt: string, k: nat, j: nat, curly: int)
    requires k <= j < |txt| && txt[j] == '"'
    requires forall m :: k <= m < j ==> txt[m] != '"' && txt[m] != '\\'
    ensures BodyEndFrom(txt, k, true, curly) == BodyEndFrom(txt, j + 1, false, curly)
    decreases j - k
  {
    if k < j {
      InQuoteRun(txt, k + 1, j, curly);
    }
  }

  /** A block comment is skipped whole, braces and all. */
  lemma BlockCommentIgnored(txt: string, i: nat, curly: int)
    requires OccursAt(txt, "/*", i) && FindFrom(txt, "*/", i + 2) >= 0
    ensures BodyEndFrom(txt, i, false, curly) ==
      BodyEndFrom(txt, FindFrom(txt, "*/", i + 2) + 2, false, curly)
  {
    assert txt[i] == "/*"[0] && txt[i + 1] == "/*"[1];
  }

  /** A line comment is skipped up to and including its newline. */
  lemma LineCommentIgnored(txt: string, i: nat, curly: int)
    requires OccursAt(txt, "//", i) && FindFrom(txt, "\n", i) >= 0
    ensures BodyEndFrom(txt, i, false, curly) ==
      BodyEndFrom(txt, FindFrom(txt, "\n", i) + 1, false, curly)
  {
    assert txt[i] == "//"[0] && txt[i + 1] == "//"[1];
    assert txt[i] != '\n';
  }

  /** A backslash hides the character after it, even a quote or a brace. */
  lemma BackslashSkips(txt: string, i: nat, inQuote: bool, curly: int)
    requires i < |txt| && txt[i] == '\\'
    ensures BodyEndFrom(txt, i, inQuote, curly) == BodyEndFrom(txt, i + 2, inQuote, curly)
  {
  }

  // ---------------------------------------------------------------------
  // `_end_of_proto_pat` (prototype.py:9): `\)(\s*const)?\s*(?:/\*.*?\*/\s*)?([{;])`

  /** `\s*([{;])` from position `p`: the offset of the terminator. */
  function TerminatorAfter(s: string, p: nat): (r: Option<nat>)
    requires p <= |s|
    ensures r.Some? ==> p <= r.value < |s| && (s[r.value] == '{' || s[r.value] == ';')
  {
    var e := p + SpaceRun(s[p..]);
    if e < |s| && (s[e] == '{' || s[e] == ';') then Some(e) else None
  }

  // The lazy `.*?\*/\s*([{;])` of a comment whose body starts at `k`: the
  // body may not contain a newline (no DOTALL), and it grows one character
  // at a time until what follows it matches.
  function CommentTail(s: string, k: nat): (r: Option<nat>)
    requires k <= |s|
    ensures r.Some? ==> k + 2 <= r.value < |s| && (s[r.value] == '{' || s[r.value] == ';')
    decreases |s| - k
  {
    if k + 2 > |s| then None
    else if OccursAt(s, "*/", k) && TerminatorAfter(s, k + 2).Some? then TerminatorAfter(s, k + 2)
    else if s[k] == '\n' then None
    else CommentTail(s, k + 1)
  }

  /** `_end_of_proto_pat.match(s)`: the offset of the `{` or `;` that ends
      a prototype whose parameter list closes at `s[0]`. After the
      optional `const`, the only way on is a comment or the terminator, so
      the regex never needs to backtrack into the `const` group. */
  function ProtoTail(s: string): (r: Option<nat>)
    ensures r.Some? ==> 0 < r.value < |s| && s[0] == ')' && (s[r.value] == '{' || s[r.value] == ';')
  {
    if s == [] || s[0] != ')' then None
    else
      var a := 1 + SpaceRun(s[1..]);
      var q := if OccursAt(s, "const", a) then a + 5 else a;
      var t := TerminatorAfter(s, q);
      if t.Some? then t
      else
        var q2 := q + SpaceRun(s[q..]);
        if OccursAt(s, "/*", q2) then CommentTail(s, q2 + 2) else None
  }

  // ---------------------------------------------------------------------
  // The scan of `adjust_match_if_true_prototype` (prototype.py:226-275)

  /** The 200 characters of `txt[k:k+200]` that the source hands to
      `_end_of_proto_pat`. */
  function Window(txt: string, k: nat): (w: string)
    requires k < |txt|
    ensures 0 < |w| <= 200 && k + |w| <= |txt|
  {
    Slice(txt, k, k + 200)
  }

  lemma WindowAt(txt: string, k: nat, j: nat)
    requires k < |txt| && j < |Window(txt, k)|
    ensures Window(txt, k)[j] == txt[k + j]
  {
  }

  /** A `)` at `k` whose prototype ends with the `{` or `;` at `t`. */
  predicate Accepted(txt: string, k: nat, t: nat) {
    && k < t < |txt| && txt[k] == ')' && (txt[t] == '{' || txt[t] == ';')
    && ProtoTail(Window(txt, k)) == Some(t - k)
  }

  lemma TailAccepted(txt: string, k: nat)
    requires k < |txt|
    ensures var tail := ProtoTail(Window(txt, k));
      tail.Some? ==> Accepted(txt, k, k + tail.value)
  {
    var w := Window(txt, k);
    var tail := ProtoTail(w);
    if tail.Some? {
      WindowAt(txt, k, 0);
      WindowAt(txt, k, tail.value);
    }
  }

  /** Where a true prototype's parameter list closes, and where the `{` or
      `;` after it is. */
  datatype ProtoEnd = ProtoEnd(close: nat, term: nat)

  /** One step of a cursor scan: stop with a result, or go on from a later
      position with a new quote flag and depth. */
  datatype ScanStep<T> = Stop(result: Result<T>) | Go(next: nat, inQuote: bool, depth: int)

  /** One character of the scan of `adjust_match_if_true_prototype`.
      Outside strings, a `)` that brings the depth to zero is accepted only
      if `_end_of_proto_pat` matches the 200 characters from it; otherwise
      the scan goes on. Inside a string a backslash hides the next
      character. */
  function ParenStep(txt: string, i: nat, inQuote: bool, paren: int): (s: ScanStep<Option<ProtoEnd>>)
    requires i < |txt|
    ensures s.Go? ==> i < s.next <= |txt| + 1
  {
    var c := txt[i];
    if inQuote then
      if c == '"' then Go(i + 1, false, paren)
      else if c == '\\' then Go(i + 2, true, paren)
      else Go(i + 1, true, paren)
    else if c == ')' then
      if paren - 1 == 0 then
        var tail := ProtoTail(Window(txt, i));
        if tail.Some? then Stop(Ok(Some(ProtoEnd(i, i + tail.value)))) else Go(i + 1, false, 0)
      else Go(i + 1, false, paren - 1)
    else if c == '(' then Go(i + 1, false, paren + 1)
    else if c == '/' then
      if i + 1 >= |txt| then Stop(Err(IndexOutOfRange(267)))
      else if txt[i + 1] == '/' then
        var j := FindFrom(txt, "\n", i);
        if j <= -1 then Stop(Err(AssertionFailed(269))) else Go(j + 1, false, paren)
      else if txt[i + 1] == '*' then
        var j := FindFrom(txt, "*/", i + 2);
        if j + 1 <= 0 then Stop(Err(AssertionFailed(272))) else Go(j + 2, false, paren)
      else Go(i + 1, false, paren)
    else Go(i + 1, c == '"', paren)
  }

  /** The scan from position `i`, with `paren` parentheses open: the
      position of the `)` that closes the parameter list of a true
      prototype, paired with the position of the `{` or `;` after it, or
      `None` at the end of the text. */
  function ParenCloseFrom(txt: string, i: nat, inQuote: bool, paren: int): (r: Result<Option<ProtoEnd>>)
    decreases |txt| + 2 - i
  {
    if i >= |txt| then Ok(None)
    else match ParenStep(txt, i, inQuote, paren)
      case Stop(r) => r
      case Go(j, q, p) => ParenCloseFrom(txt, j, q, p)
  }

  /** The scan accepts only a `)` after its starting point that is followed
      by the end of a prototype. */
  lemma ParenStepAccepted(txt: string, i: nat, inQuote: bool, paren: int)
    requires i < |txt|
    ensures var s := ParenStep(txt, i, inQuote, paren);
      s.Stop? && s.result.Ok? && s.result.value.Some? ==>
        s.result.value.value.close == i && Accepted(txt, i, s.result.value.value.term)
  {
    TailAccepted(txt, i);
  }

  lemma {:induction false} ParenCloseAccepted(txt: string, i: nat, inQuote: bool, paren: int)
    ensures var r := ParenCloseFrom(txt, i, inQuote, paren);
      r.Ok? && r.value.Some? ==> i <= r.value.value.close && Accepted(txt, r.value.value.close, r.value.value.term)
    decreases |txt| + 2 - i
  {
    if i < |txt| {
      var s := ParenStep(txt, i, inQuote, paren);
      ParenStepAccepted(txt, i, inQuote, paren);
      if s.Go? {
        ParenCloseAccepted(txt, s.next, s.inQuote, s.depth);
      }
    }
  }

  /** `j` is the closing quote of a string literal whose text starts at
      `k`; a backslash hides the character after it. */
  ghost predicate QuoteClosesAt(txt: string, k: nat, j: nat)
    decreases |txt| - k
  {
    k <= j < |txt| &&
    if txt[k] == '"' then k == j
    else if txt[k] == '\\' then QuoteClosesAt(txt, k + 2, j)
    else QuoteClosesAt(txt, k + 1, j)
  }

  lemma {:induction false} InQuoteParens(txt: string, k: nat, j: nat, paren: int)
    requires QuoteClosesAt(txt, k, j)
    ensures ParenCloseFrom(txt, k, true, paren) == ParenCloseFrom(txt, j + 1, false, paren)
    decreases |txt| - k
  {
    if txt[k] == '\\' {
      InQuoteParens(txt, k + 2, j, paren);
    } else if txt[k] != '"' {
      InQuoteParens(txt, k + 1, j, paren);
    }
  }

  /** Parentheses inside a string literal, escapes and all, are not
      counted: the scan resumes after the closing quote. */
  lemma QuotedParensIgnored(txt: string, i: nat, j: nat, paren: int)
    requires i < |txt| && txt[i] == '"' && QuoteClosesAt(txt, i + 1, j)
    ensures ParenCloseFrom(txt, i, false, paren) == ParenCloseFrom(txt, j + 1, false, paren)
  {
    InQuoteParens(txt, i + 1, j, paren);
  }

  /** A block comment is passed over whole, parentheses and all. */
  lemma BlockCommentParensIgnored(txt: string, i: nat, paren: int)
    requires OccursAt(txt, "/*", i) && FindFrom(txt, "*/", i + 2) >= 0
    ensures ParenCloseFrom(txt, i, false, paren) ==
      ParenCloseFrom(txt, FindFrom(txt, "*/", i + 2) + 2, false, paren)
  {
    assert txt[i] == '/' && txt[i + 1] == '*';
    assert ParenStep(txt, i, false, paren) == Go(FindFrom(txt, "*/", i + 2) + 2, false, paren);
  }

  /** A line comment is passed over up to and including its newline. */
  lemma LineCommentParensIgnored(txt: string, i: nat, paren: int)
    requires OccursAt(txt, "//", i) && FindFrom(txt, "\n", i) >= 0
    ensures ParenCloseFrom(txt, i, false, paren) ==
      ParenCloseFrom(txt, FindFrom(txt, "\n", i) + 1, false, paren)
  {
    LineCommentStep(txt, i, paren);
  }

  lemma LineCommentStep(txt: string, i: nat, paren: int)
    requires OccursAt(txt, "//", i) && FindFrom(txt, "\n", i) >= 0
    ensures i < |txt| && ParenStep(txt, i, false, paren) == Go(FindFrom(txt, "\n", i) + 1, false, paren)
  {
    assert txt[i] == txt[i..i + 2][0] == '/';
    assert txt[i + 1] == txt[i..i + 2][1] == '/';
  }

  /** The scan of `adjust_match_if_true_prototype` for a match that ends
      just after the `(` at `begin - 1`. */
  function ParenClose(txt: string, begin: nat): (r: Result<Option<ProtoEnd>>)
  {
    ParenCloseFrom(txt, begin, false, 1)
  }

  /** One character of the scan, as the loop body of
      `adjust_match_if_true_prototype` takes it. */
  method AdjustStep(txt: string, i: nat, inQuote: bool, paren: int) returns (s: ScanStep<Option<ProtoEnd>>)
    requires i < |txt|
    ensures s == ParenStep(txt, i, inQuote, paren)
  {
    var c := txt[i];
    if inQuote {
      if c == '"' {
        return Go(i + 1, false, paren);
      } else if c == '\\' {
        return Go(i + 2, true, paren);
      }
      return Go(i + 1, true, paren);
    }
    if c == ')' {
      s := AdjustClose(txt, i, paren);
    } else if c == '(' {
      return Go(i + 1, false, paren + 1);
    } else if c == '/' {
      s := AdjustSlash(txt, i, paren);
    } else {
      return Go(i + 1, c == '"', paren);
    }
  }

  /** A `)` outside a string literal. */
  method AdjustClose(txt: string, i: nat, paren: int) returns (s: ScanStep<Option<ProtoEnd>>)
    requires i < |txt| && txt[i] == ')'
    ensures s == ParenStep(txt, i, false, paren)
  {
    var depth := paren - 1;
    if depth == 0 {
      var next := Window(txt, i);
      var tail := ProtoTail(next);
      if tail.Some? {
        return Stop(Ok(Some(ProtoEnd(i, i + tail.value))));
      }
    }
    return Go(i + 1, false, depth);
  }

  /** A `/` outside a string literal: a comment is skipped whole. */
  method AdjustSlash(txt: string, i: nat, paren: int) returns (s: ScanStep<Option<ProtoEnd>>)
    requires i < |txt| && txt[i] == '/'
    ensures s == ParenStep(txt, i, false, paren)
  {
    if i + 1 >= |txt| {
      return Stop(Err(IndexOutOfRange(267)));
    }
    if txt[i + 1] == '/' {
      var j := FindFrom(txt, "\n", i);
      if j <= -1 {
        return Stop(Err(AssertionFailed(269)));
      }
      return Go(j + 1, false, paren);
    } else if txt[i + 1] == '*' {
      var j := FindFrom(txt, "*/", i + 2);
      if j + 1 <= 0 {
        return Stop(Err(AssertionFailed(272)));
      }
      return Go(j + 2, false, paren);
    }
    return Go(i + 1, false, paren);
  }

  /** The scan of `adjust_match_if_true_prototype` from just after the `(`
      at `begin - 1`. */
  method AdjustScan(txt: string, begin: nat) returns (r: Result<Option<ProtoEnd>>)
    ensures r == ParenClose(txt, begin)
  {
    var inQuote := false;
    var paren := 1;
    var i := begin;
    while i < |txt|
      invariant ParenCloseFrom(txt, i, inQuote, paren) == ParenClose(txt, begin)
      decreases |txt| + 2 - i
    {
      var s := AdjustStep(txt, i, inQuote, paren);
      if s.Stop? {
        return s.result;
      }
      i, inQuote, paren := s.next, s.inQuote, s.depth;
    }
    return Ok(None);
  }

  /** The parenthesis depth just after position `k`, when it is `paren` at
      `i`. */
  function ParenDepthAfter(txt: string, i: nat, paren: int, k: nat): int
    requires i <= k < |txt|
  {
    paren + Balance(txt[i..k + 1], '(', ')')
  }

  /** What `_end_of_proto_pat` finds after a `)` at each position of
      `txt`. */
  function TailTable(txt: string): (tails: seq<Option<nat>>)
    ensures |tails| == |txt|
  {
    seq(|txt|, k requires 0 <= k < |txt| => ProtoTail(Window(txt, k)))
  }

  /** A `)` at `k` that brings the depth back to zero and is followed by
      the end of a prototype, `tails[k]` being what the regex finds there
      (an argument, so that the regex stays out of the counting proofs). */
  predicate AcceptsAt(txt: string, tails: seq<Option<nat>>, i: nat, paren: int, k: nat) {
    && i <= k < |txt| && k < |tails| && txt[k] == ')'
    && ParenDepthAfter(txt, i, paren, k) == 0
    && tails[k].Some?
  }

  /** Text without string literals or comments. */
  predicate NoQuotesOrSlashes(s: string) {
    forall k :: 0 <= k < |s| ==> s[k] != '"' && s[k] != '/'
  }

  lemma AcceptsStep(txt: string, tails: seq<Option<nat>>, i: nat, paren: int, k: nat)
    requires i < k < |txt|
    ensures AcceptsAt(txt, tails, i, paren, k) <==> AcceptsAt(txt, tails, i + 1, paren + Delta(txt[i], '(', ')'), k)
  {
    BalanceCons(txt, i, k, '(', ')');
  }

  /** `e` is the first position from `i` on where the scan may stop. */
  predicate FirstAccept(txt: string, tails: seq<Option<nat>>, i: nat, paren: int, e: nat) {
    AcceptsAt(txt, tails, i, paren, e) && forall k :: i <= k < e ==> !AcceptsAt(txt, tails, i, paren, k)
  }

  /** The scan may stop nowhere from `i` on. */
  predicate NoAccept(txt: string, tails: seq<Option<nat>>, i: nat, paren: int) {
    forall k :: i <= k < |txt| ==> !AcceptsAt(txt, tails, i, paren, k)
  }

  lemma FirstAcceptStep(txt: string, tails: seq<Option<nat>>, i: nat, paren: int, e: nat)
    requires i < |txt| && !AcceptsAt(txt, tails, i, paren, i)
    requires FirstAccept(txt, tails, i + 1, paren + Delta(txt[i], '(', ')'), e)
    ensures FirstAccept(txt, tails, i, paren, e)
  {
    AcceptsStep(txt, tails, i, paren, e);
    forall k: nat | i < k < e ensures !AcceptsAt(txt, tails, i, paren, k) {
      AcceptsStep(txt, tails, i, paren, k);
    }
  }

  lemma NoAcceptStep(txt: string, tails: seq<Option<nat>>, i: nat, paren: int)
    requires i < |txt| && !AcceptsAt(txt, tails, i, paren, i)
    requires NoAccept(txt, tails, i + 1, paren + Delta(txt[i], '(', ')'))
    ensures NoAccept(txt, tails, i, paren)
  {
    forall k: nat | i <= k < |txt| ensures !AcceptsAt(txt, tails, i, paren, k) {
      if i < k { AcceptsStep(txt, tails, i, paren, k); }
    }
  }

  /** The scan stops at a `)` that closes the list before a prototype's
      end. */
  lemma ParenStops(txt: string, i: nat, paren: int)
    requires i < |txt| && txt[i] == ')' && paren - 1 == 0 && ProtoTail(Window(txt, i)).Some?
    ensures ParenCloseFrom(txt, i, false, paren) == Ok(Some(ProtoEnd(i, i + ProtoTail(Window(txt, i)).value)))
  {
    assert ParenStep(txt, i, false, paren) == Stop(Ok(Some(ProtoEnd(i, i + ProtoTail(Window(txt, i)).value))));
  }

  /** Any other character that is neither a quote nor a slash only moves
      the depth. */
  lemma PlainParenGoes(txt: string, i: nat, paren: int, d: int)
    requires i < |txt| && txt[i] != '"' && txt[i] != '/' && d == paren + Delta(txt[i], '(', ')')
    requires !(txt[i] == ')' && paren - 1 == 0 && ProtoTail(Window(txt, i)).Some?)
    ensures ParenCloseFrom(txt, i, false, paren) == ParenCloseFrom(txt, i + 1, false, d)
  {
    assert ParenStep(txt, i, false, paren) == Go(i + 1, false, d);
  }

  /** Parenthesis counting alone: the scan of text without strings or
      comments, `tails` giving the regex's verdicts. */
  function PlainClose(txt: string, tails: seq<Option<nat>>, i: nat, paren: int): (r: Option<ProtoEnd>)
    requires |tails| == |txt|
    decreases |txt| - i
  {
    if i >= |txt| then None
    else
      var d := paren + Delta(txt[i], '(', ')');
      if txt[i] == ')' && d == 0 && tails[i].Some? then Some(ProtoEnd(i, i + tails[i].value))
      else PlainClose(txt, tails, i + 1, d)
  }

  lemma PlainCloseStops(txt: string, tails: seq<Option<nat>>, i: nat, paren: int)
    requires i < |txt| && |tails| == |txt| && txt[i] == ')' && paren - 1 == 0 && tails[i].Some?
    ensures PlainClose(txt, tails, i, paren) == Some(ProtoEnd(i, i + tails[i].value))
  {
  }

  lemma PlainCloseGoes(txt: string, tails: seq<Option<nat>>, i: nat, paren: int, d: int)
    requires i < |txt| && |tails| == |txt| && d == paren + Delta(txt[i], '(', ')')
    requires !(txt[i] == ')' && d == 0 && tails[i].Some?)
    ensures PlainClose(txt, tails, i, paren) == PlainClose(txt, tails, i + 1, d)
  {
  }

  lemma PlainAgreeStep(txt: string, tails: seq<Option<nat>>, i: nat, paren: int, d: int)
    requires i < |txt| && |tails| == |txt| && txt[i] != '"' && txt[i] != '/'
    requires tails[i] == ProtoTail(Window(txt, i)) && d == paren + Delta(txt[i], '(', ')')
    requires !(txt[i] == ')' && d == 0 && tails[i].Some?) ==>
      ParenCloseFrom(txt, i + 1, false, d) == Ok(PlainClose(txt, tails, i + 1, d))
    ensures ParenCloseFrom(txt, i, false, paren) == Ok(PlainClose(txt, tails, i, paren))
  {
    if txt[i] == ')' && d == 0 && tails[i].Some? {
      assert paren - 1 == 0;
      ParenStops(txt, i, paren);
      PlainCloseStops(txt, tails, i, paren);
    } else {
      assert !(txt[i] == ')' && paren - 1 == 0 && ProtoTail(Window(txt, i)).Some?);
      PlainParenGoes(txt, i, paren, d);
      PlainCloseGoes(txt, tails, i, paren, d);
    }
  }

  /** `tails` holds the regex's verdict at every position from `i` on. */
  predicate TailsFrom(txt: string, tails: seq<Option<nat>>, i: nat)
    requires |tails| == |txt|
  {
    forall k :: i <= k < |txt| ==> tails[k] == ProtoTail(Window(txt, k))
  }

  lemma {:induction false} PlainCloseAgrees(txt: string, tails: seq<Option<nat>>, i: nat, paren: int)
    requires i <= |txt| && |tails| == |txt| && TailsFrom(txt, tails, i)
    requires NoQuotesOrSlashes(txt[i..])
    ensures ParenCloseFrom(txt, i, false, paren) == Ok(PlainClose(txt, tails, i, paren))
    decreases |txt| - i
  {
    if i < |txt| {
      PlainRest(txt, tails, i);
      var d := paren + Delta(txt[i], '(', ')');
      if txt[i] == ')' && d == 0 && tails[i].Some? {
        PlainAgreeStep(txt, tails, i, paren, d);
      } else {
        PlainCloseAgrees(txt, tails, i + 1, d);
        PlainAgreeStep(txt, tails, i, paren, d);
      }
    }
  }

  lemma PlainRest(txt: string, tails: seq<Option<nat>>, i: nat)
    requires i < |txt| && |tails| == |txt| && TailsFrom(txt, tails, i)
    requires NoQuotesOrSlashes(txt[i..])
    ensures txt[i] != '"' && txt[i] != '/' && tails[i] == ProtoTail(Window(txt, i))
    ensures TailsFrom(txt, tails, i + 1) && NoQuotesOrSlashes(txt[i + 1..])
  {
    assert txt[i] == txt[i..][0];
    assert txt[i + 1..] == txt[i..][1..];
  }

  lemma {:induction false} PlainCloseFirst(txt: string, tails: seq<Option<nat>>, i: nat, paren: int)
    requires i <= |txt| && |tails| == |txt|
    ensures var r := PlainClose(txt, tails, i, paren);
      && (r.Some? ==> FirstAccept(txt, tails, i, paren, r.value.close))
      && (r.None? ==> NoAccept(txt, tails, i, paren))
    decreases |txt| - i
  {
    if i < |txt| {
      var d := paren + Delta(txt[i], '(', ')');
      BalanceOne(txt, i, '(', ')');
      assert ParenDepthAfter(txt, i, paren, i) == d;
      if txt[i] == ')' && d == 0 && tails[i].Some? {
        assert AcceptsAt(txt, tails, i, paren, i);
      } else {
        assert !AcceptsAt(txt, tails, i, paren, i);
        PlainCloseFirst(txt, tails, i + 1, d);
        var r := PlainClose(txt, tails, i + 1, d);
        if r.Some? {
          FirstAcceptStep(txt, tails, i, paren, r.value.close);
        } else {
          NoAcceptStep(txt, tails, i, paren);
        }
      }
    }
  }

  /** Without strings and comments, the scan is parenthesis counting: it
      returns the first `)` where the depth is back to zero and a prototype
      ends, and nothing when there is none. It never fails. */
  lemma PlainParenClose(txt: string, i: nat, paren: int)
    requires i <= |txt| && NoQuotesOrSlashes(txt[i..])
    ensures var r := ParenCloseFrom(txt, i, false, paren);
      && r.Ok?
      && (r.value.Some? ==> FirstAccept(txt, TailTable(txt), i, paren, r.value.value.close))
      && (r.value.None? ==> NoAccept(txt, TailTable(txt), i, paren))
  {
    var tails := TailTable(txt);
    assert TailsFrom(txt, tails, i);
    PlainCloseAgrees(txt, tails, i, paren);
    PlainCloseFirst(txt, tails, i, paren);
  }
}
