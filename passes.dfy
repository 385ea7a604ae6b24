/** The passes of const_fix.py over the call graph: cutting the functions
    an earlier run analysed and those where `const` cannot matter
    (`cut_noise`), pruning when no function is a leaf (`prune`), and the
    main loop of `fix_prototypes`, which works leaf first. */
module Passes {
  import opened Wrappers
  import opened Text
  import opened Prototypes
  import opened Callgraphs
  import opened SafeChange
  import opened ConstFix
  import opened Outcomes

  /** `cg.get_params(func)`: the texts of a function's parameters, if it
      has any. callgraph.py does not define it; it is a parameter here. */
  type ParamsOf = string -> Option<seq<string>>

  lemma {:induction false} SubsetSize(a: set<string>, b: set<string>)
    requires a <= b
    ensures |a| <= |b|
    ensures a < b ==> |a| < |b|
    decreases |b|
  {
    if b != {} {
      var x :| x in b;
      if x in a {
        SubsetSize(a - {x}, b - {x});
        if a < b {
          var y :| y in b && y !in a;
          assert y in b - {x} && y !in a - {x};
        }
      } else {
        SubsetSize(a, b - {x});
      }
    }
  }

  lemma TakeOne(fs: seq<string>, i: nat)
    requires i < |fs|
    ensures fs[..i + 1] == fs[..i] + [fs[i]] && fs[..i + 1][..i] == fs[..i]
  {
  }

  /** The keys of a map for which `keep` holds, each once, in some order:
      the iteration order of a Python 2 dict is not modelled. */
  method Select(keys: set<string>, keep: string -> bool) returns (fs: seq<string>)
    ensures NoDup(fs)
    ensures forall f :: f in fs <==> f in keys && keep(f)
  {
    fs := [];
    var todo := keys;
    while todo != {}
      invariant todo <= keys && NoDup(fs)
      invariant forall f :: f in fs <==> f in keys - todo && keep(f)
      decreases |todo|
    {
      var f :| f in todo;
      if keep(f) {
        fs := fs + [f];
      }
      todo := todo - {f};
    }
  }

  /** `cg.remove` on each function in turn, stopping at the first error.
      Each removal needs the function still a key of `by_callee`, so a name
      met twice fails. */
  method RemoveAll(cg: Callgraph, fs: seq<string>) returns (err: Option<Error>)
    modifies cg
    ensures cg.byCaller.Keys == old(cg.byCaller).Keys
    ensures cg.byCallee.Keys <= old(cg.byCallee).Keys
    ensures err.None? ==> NoDup(fs) && (forall f :: f in fs ==> f in old(cg.byCallee))
    ensures err.None? ==> cg.byCallee == old(cg.byCallee) - (set f | f in fs)
    ensures (exists f :: f in fs && f !in old(cg.byCallee)) ==> err.Some?
    ensures fs == [] ==> err.None?
  {
    var i := 0;
    while i < |fs|
      invariant i <= |fs|
      invariant cg.byCaller.Keys == old(cg.byCaller).Keys
      invariant NoDup(fs[..i]) && forall t :: 0 <= t < i ==> fs[t] in old(cg.byCallee)
      invariant cg.byCallee == old(cg.byCallee) - (set f | f in fs[..i])
    {
      var f := fs[i];
      if f !in cg.byCallee {
        return Some(KeyMissing(108));
      }
      err := cg.Remove(f);
      TakeOne(fs, i);
      if err.Some? {
        return;
      }
      i := i + 1;
    }
    assert fs[..i] == fs;
    return None;
  }

  /** What `prune` writes for the functions it prunes: each with the label
      of its class. */
  function PruneRecords(fs: seq<string>, getParams: ParamsOf): string
    decreases |fs|
  {
    if fs == [] then ""
    else
      var f := fs[|fs| - 1];
      PruneRecords(fs[..|fs| - 1], getParams) + Record(TabName(f), Label(Classify(getParams(f))))
  }

  /** The first loop of `prune`: `tabulate` for each function pruned. */
  method TabulateClasses(disk: Disk, logPath: string, fs: seq<string>, getParams: ParamsOf)
    modifies disk
    ensures disk.files == Written(old(disk.files), logPath, PruneRecords(fs, getParams))
  {
    var i := 0;
    assert PruneRecords(fs[..0], getParams) == "";
    while i < |fs|
      invariant i <= |fs|
      invariant disk.files == Written(old(disk.files), logPath, PruneRecords(fs[..i], getParams))
    {
      var f := fs[i];
      var rec := Record(TabName(f), Label(Classify(getParams(f))));
      TakeOne(fs, i);
      WrittenTwice(old(disk.files), logPath, PruneRecords(fs[..i], getParams), rec);
      Tabulate(disk, logPath, f, Label(Classify(getParams(f))));
      i := i + 1;
    }
    assert fs[..i] == fs;
  }

  /** `prune(cg)` (const_fix.py:352-365): every function of `by_caller`
      whose `const` does not matter is tabulated with its class, then all
      of them are removed. Their keys of `by_caller` stay, so a function
      pruned before is met again and its removal fails. */
  method Prune(cg: Callgraph, disk: Disk, logPath: string, getParams: ParamsOf)
    returns (r: Result<nat>, pruned: seq<string>)
    modifies cg, disk
    ensures NoDup(pruned)
    ensures forall f :: f in pruned <==> f in old(cg.byCaller) && Classify(getParams(f)) != ConstMatters
    ensures disk.files == Written(old(disk.files), logPath, PruneRecords(pruned, getParams))
    ensures cg.byCaller.Keys == old(cg.byCaller).Keys && cg.byCallee.Keys <= old(cg.byCallee).Keys
    ensures r.Ok? ==> r.value == |pruned| && cg.byCallee == old(cg.byCallee) - (set f | f in pruned)
    ensures (exists f :: f in pruned && f !in old(cg.byCallee)) ==> r.Err?
  {
    pruned := Select(cg.byCaller.Keys, f => Classify(getParams(f)) != ConstMatters);
    TabulateClasses(disk, logPath, pruned, getParams);
    var err := RemoveAll(cg, pruned);
    if err.Some? {
      return Err(err.value), pruned;
    }
    return Ok(|pruned|), pruned;
  }

  /** What `cut_noise` writes for the functions it cuts: the name as it
      is. Every key of the graph already ends in `()` (`FuncKey`), so this
      is the name `tabulate` would write. */
  function CutRecords(fs: seq<string>): string
    decreases |fs|
  {
    if fs == [] then "" else CutRecords(fs[..|fs| - 1]) + Record(fs[|fs| - 1], Label(ConstIrrelevant))
  }

  /** One more function cut: one more record, one more key gone. */
  lemma CutStep(m: map<string, seq<string>>, fs: seq<string>, i: nat)
    requires i < |fs|
    ensures fs[..i + 1] == fs[..i] + [fs[i]]
    ensures CutRecords(fs[..i + 1]) == CutRecords(fs[..i]) + Record(fs[i], Label(ConstIrrelevant))
    ensures m - (set f | f in fs[..i] + [fs[i]]) == (m - (set f | f in fs[..i])) - {fs[i]}
  {
    TakeOne(fs, i);
    DropOneMore(m, fs[..i], fs[i]);
  }

  lemma DropOneMore(m: map<string, seq<string>>, pre: seq<string>, g: string)
    ensures m - (set f | f in pre + [g]) == (m - (set f | f in pre)) - {g}
  {
    assert (set f | f in pre + [g]) == (set f | f in pre) + {g};
  }

  /** One function cut: its record written, then `cg.remove`. */
  method CutOne(cg: Callgraph, disk: Disk, logPath: string, f: string) returns (err: Option<Error>)
    modifies cg, disk
    ensures disk.files == Appended(old(disk.files), logPath, Record(f, Label(ConstIrrelevant)))
    ensures cg.byCaller.Keys == old(cg.byCaller).Keys
    ensures f !in old(cg.byCallee) ==> err.Some? && cg.byCallee == old(cg.byCallee)
    ensures f in old(cg.byCallee) ==> cg.byCallee == old(cg.byCallee) - {f}
  {
    disk.files := Appended(disk.files, logPath, Record(f, Label(ConstIrrelevant)));
    err := cg.Remove(f);
  }

  /** The loop of the second half of `cut_noise` (const_fix.py:342-348):
      each function is written to the log, then removed. */
  method CutAll(cg: Callgraph, disk: Disk, logPath: string, fs: seq<string>) returns (err: Option<Error>)
    requires NoDup(fs)
    modifies cg, disk
    ensures cg.byCaller.Keys == old(cg.byCaller).Keys && cg.byCallee.Keys <= old(cg.byCallee).Keys
    ensures err.None? ==> cg.byCallee == old(cg.byCallee) - (set f | f in fs)
    ensures err.None? ==> disk.files == Written(old(disk.files), logPath, CutRecords(fs))
    ensures (exists f :: f in fs && f !in old(cg.byCallee)) ==> err.Some?
    ensures fs == [] ==> err.None?
  {
    err := None;
    var i := 0;
    assert CutRecords(fs[..0]) == "";
    while i < |fs|
      invariant i <= |fs| && err.None?
      invariant cg.byCaller.Keys == old(cg.byCaller).Keys
      invariant forall t :: 0 <= t < i ==> fs[t] in old(cg.byCallee)
      invariant cg.byCallee == old(cg.byCallee) - (set f | f in fs[..i])
      invariant disk.files == Written(old(disk.files), logPath, CutRecords(fs[..i]))
    {
      var f := fs[i];
      CutStep(old(cg.byCallee), fs, i);
      WrittenTwice(old(disk.files), logPath, CutRecords(fs[..i]), Record(f, Label(ConstIrrelevant)));
      err := CutOne(cg, disk, logPath, f);
      if err.Some? {
        return;
      }
      i := i + 1;
    }
    assert fs[..i] == fs;
    forall f | f in fs ensures f in old(cg.byCallee) {
      var t :| 0 <= t < |fs| && fs[t] == f;
    }
  }

  /** `cut_noise(cg, previously_analyzed)` (const_fix.py:326-350): the
      functions named in the log are removed, then the ones whose `const`
      is irrelevant are cut. A function analysed before whose `const` is
      irrelevant is still a key of `by_caller`, is cut again, and its
      second removal fails. */
  method CutNoise(cg: Callgraph, disk: Disk, logPath: string, previous: seq<string>, getParams: ParamsOf)
    returns (r: Result<nat>, cut: seq<string>)
    modifies cg, disk
    ensures cg.byCaller.Keys == old(cg.byCaller).Keys && cg.byCallee.Keys <= old(cg.byCallee).Keys
    ensures r.Ok? ==> NoDup(previous) && forall f :: f in previous ==> f in old(cg.byCallee)
    ensures r.Ok? ==>
      && NoDup(cut)
      && (forall f :: f in cut <==> f in old(cg.byCaller) && Classify(getParams(f)) == ConstIrrelevant)
      && r.value == |previous| + |cut|
      && cg.byCallee == old(cg.byCallee) - (set f | f in previous) - (set f | f in cut)
      && disk.files == Written(old(disk.files), logPath, CutRecords(cut))
    ensures (exists f :: f in previous && f !in old(cg.byCallee)) ==> r.Err?
    ensures (exists f :: f in previous && f in old(cg.byCaller) && Classify(getParams(f)) == ConstIrrelevant) ==> r.Err?
    ensures previous == [] && old(cg.byCaller) == map[] ==> r == Ok(0)
  {
    var err := RemoveAll(cg, previous);
    if err.Some? {
      return Err(err.value), [];
    }
    ghost var between := cg.byCallee;
    cut := Select(cg.byCaller.Keys, f => Classify(getParams(f)) == ConstIrrelevant);
    err := CutAll(cg, disk, logPath, cut);
    if cut != [] {
      assert cut[0] in cut;
    }
    if err.Some? {
      return Err(err.value), cut;
    }
    forall f | f in previous && f in old(cg.byCaller) ensures Classify(getParams(f)) != ConstIrrelevant {
      assert f !in between;
    }
    return Ok(|previous| + |cut|), cut;
  }

  /** The tags the main loop gives one function (const_fix.py:424-450) as
      a function of the store, with the prototypes `fix_func` would find
      and its oracles given per function: the tags, or the `sys.exit` that
      escapes, and the store after processing. Any other error of
      `fix_func` is caught and tagged. */
  function Tagged(byCallee: map<string, seq<string>>, func: string, count: int, startCount: int,
                  getParams: ParamsOf, protos: string -> PrototypeMap, oracles: string -> Oracle, files: Files)
    : (r: (Result<string>, Files))
    requires Best(protos(func)).Some? ==> ArityKept(oracles(func), |Best(protos(func)).value.params|)
    ensures r.0.Err? ==> r.0.error.Exit? && !Rechecks(oracles(func))
  {
    var orphan := if func !in byCallee || byCallee[func] == [] then "ORPHAN " else "";
    match Classify(getParams(func))
    case ConstMatters =>
      if startCount > 0 && count > startCount then (Ok(orphan + "SKIPPED "), files)
      else
        var out := FuncFixed(func, protos(func), orphan, files, oracles(func));
        FuncFixedExits(func, protos(func), orphan, files, oracles(func));
        (if out.0.Err? && !out.0.error.Exit? then Ok(orphan + "EXCEPTION ") else out.0, out.1)
    case ObnoxiousConst => (Ok(orphan + "OBNOXIOUS_CONST "), files)
    case ConstIrrelevant => (Ok(orphan + "CONST_IRRELEVANT "), files)
  }

  /** `Tagged` as the main loop computes it. Only a `sys.exit` out of
      `fix_func` escapes, and only after a re-check that is not clean. */
  method Process(cg: Callgraph, disk: Disk, func: string, count: int, startCount: int, getParams: ParamsOf,
                 protos: string -> PrototypeMap, oracles: string -> Oracle)
    returns (r: Result<string>)
    requires Best(protos(func)).Some? ==> ArityKept(oracles(func), |Best(protos(func)).value.params|)
    modifies disk
    ensures r.Err? ==> r.error.Exit?
    ensures Rechecks(oracles(func)) ==> r.Ok?
    ensures var orphan := if func !in cg.byCallee || cg.byCallee[func] == [] then "ORPHAN " else "";
      var cls := Classify(getParams(func));
      && (r.Ok? ==> StartsWith(r.value, orphan))
      && (cls == ObnoxiousConst ==> r == Ok(orphan + "OBNOXIOUS_CONST ") && disk.files == old(disk.files))
      && (cls == ConstIrrelevant ==> r == Ok(orphan + "CONST_IRRELEVANT ") && disk.files == old(disk.files))
      && (cls == ConstMatters && startCount > 0 && count > startCount ==>
            r == Ok(orphan + "SKIPPED ") && disk.files == old(disk.files))
    ensures Classify(getParams(func)) == ConstMatters && !(startCount > 0 && count > startCount) ==>
      var orphan := if func !in cg.byCallee || cg.byCallee[func] == [] then "ORPHAN " else "";
      var m := protos(func);
      && (EndsWith(Lower(func), "printf") ==> r == Ok(orphan + "SKIPPED") && disk.files == old(disk.files))
      && (!EndsWith(Lower(func), "printf") && Best(m).None? ==>
            r == Ok(orphan + "EXCEPTION ") && disk.files == old(disk.files))
      && (!EndsWith(Lower(func), "printf") && Best(m).Some? ==> var impl := Best(m).value;
            && (!Consistent(m, impl) ==> r == Ok(orphan + "INCONSISTENT_PROTOTYPES "))
            && (Consistent(m, impl) && !HasBody(impl) ==> r == Ok(orphan + "NO_IMPL "))
            && (Consistent(m, impl) && HasBody(impl) && !HasConstCandidate(impl.params) ==>
                  r == Ok(orphan + "CANT_MODIFY")))
    ensures Classify(getParams(func)) == ConstMatters && !(startCount > 0 && count > startCount) &&
            !EndsWith(Lower(func), "printf") && Best(protos(func)).Some? ==>
      var orphan := if func !in cg.byCallee || cg.byCallee[func] == [] then "ORPHAN " else "";
      var m := protos(func); var impl := Best(m).value;
      var run := LoopFrom(old(disk.files), Progress(m, impl, [], 0, ""), 0, oracles(func));
      Consistent(m, impl) && HasBody(impl) && HasConstCandidate(impl.params) ==>
        && disk.files == run.2
        && (run.0.Ok? ==> r == Ok(orphan + ChangeTags(run.0.value)))
        && (run.0.Err? && run.0.error.Exit? ==> r == Err(run.0.error))
        && (run.0.Err? && !run.0.error.Exit? ==> r == Ok(orphan + "EXCEPTION "))
    ensures (r, disk.files) ==
      Tagged(cg.byCallee, func, count, startCount, getParams, protos, oracles, old(disk.files))
  {
    var tags := if func !in cg.byCallee || cg.byCallee[func] == [] then "ORPHAN " else "";
    var cls := Classify(getParams(func));
    match cls {
      case ConstMatters =>
        if startCount > 0 && count > startCount {
          return Ok(tags + "SKIPPED ");
        }
        var out, _, _, _, _ := FixFunc(func, protos(func), tags, disk, oracles(func));
        FuncFixedExits(func, protos(func), tags, old(disk.files), oracles(func));
        if out.Err? {
          if out.error.Exit? {
            return out;
          }
          return Ok(tags + "EXCEPTION ");
        }
        return out;
      case ObnoxiousConst =>
        return Ok(tags + "OBNOXIOUS_CONST ");
      case ConstIrrelevant =>
        return Ok(tags + "CONST_IRRELEVANT ");
    }
  }

  /** Whether every function has what `fix_func` needs of its oracles. */
  ghost predicate Coherent(protos: string -> PrototypeMap, oracles: string -> Oracle) {
    forall f :: Best(protos(f)).Some? ==> ArityKept(oracles(f), |Best(protos(f)).value.params|)
  }

  /** One leaf of a pass (const_fix.py:424-452): processed, its tags
      appended to the log as `name()<TAB>tags`, then removed from the
      call graph. */
  method Handle(cg: Callgraph, disk: Disk, logPath: string, func: string, count: int, startCount: int,
                getParams: ParamsOf, protos: string -> PrototypeMap, oracles: string -> Oracle)
    returns (err: Option<Error>)
    requires Coherent(protos, oracles)
    modifies cg, disk
    ensures cg.byCaller.Keys == old(cg.byCaller).Keys && cg.byCallee.Keys <= old(cg.byCallee).Keys
    ensures var t := Tagged(old(cg.byCallee), func, count, startCount, getParams, protos, oracles, old(disk.files));
      && (t.0.Err? ==> err == Some(t.0.error) && disk.files == t.1 && cg.byCallee == old(cg.byCallee))
      && (t.0.Ok? ==> disk.files == Appended(t.1, logPath, Record(TabName(func), t.0.value)))
      && (t.0.Ok? && func !in old(cg.byCallee) ==> err == Some(KeyMissing(108)))
    ensures err.None? ==> func in old(cg.byCallee) && cg.byCallee == old(cg.byCallee) - {func}
  {
    var out := Process(cg, disk, func, count, startCount, getParams, protos, oracles);
    if out.Err? {
      return Some(out.error);
    }
    Tabulate(disk, logPath, func, out.value);
    if func !in cg.byCallee {
      return Some(KeyMissing(108));
    }
    err := cg.Remove(func);
  }

  /** The `for func in leaves` loop of one pass (const_fix.py:421-455):
      each function is handled in turn and counted; the pass ends early
      once `end_count` is reached. `done` are the leaves handled: on
      success each of them was a key of `by_callee` and no longer is, and
      either every leaf was handled or the count reached `end_count`. */
  method RunPass(cg: Callgraph, disk: Disk, logPath: string, leaves: seq<string>, count0: int,
                 startCount: int, endCount: int, getParams: ParamsOf,
                 protos: string -> PrototypeMap, oracles: string -> Oracle)
    returns (err: Option<Error>, count: int, ghost done: seq<string>)
    requires Coherent(protos, oracles)
    modifies cg, disk
    ensures cg.byCaller.Keys == old(cg.byCaller).Keys && cg.byCallee.Keys <= old(cg.byCallee).Keys
    ensures done <= leaves
    ensures err.None? ==>
      && count == count0 - |done|
      && (forall f :: f in done ==> f in old(cg.byCallee))
      && cg.byCallee == old(cg.byCallee) - (set f | f in done)
      && (done == leaves || (endCount > 0 && count <= endCount))
    ensures err.None? && leaves != [] ==> cg.byCallee.Keys < old(cg.byCallee).Keys
  {
    count := count0;
    done := [];
    var i := 0;
    while i < |leaves|
      invariant i <= |leaves| && done == leaves[..i] && count == count0 - i
      invariant cg.byCaller.Keys == old(cg.byCaller).Keys
      invariant forall f :: f in done ==> f in old(cg.byCallee)
      invariant cg.byCallee == old(cg.byCallee) - (set f | f in done)
    {
      var func := leaves[i];
      var e := Handle(cg, disk, logPath, func, count, startCount, getParams, protos, oracles);
      err := e;
      if err.Some? {
        return err, count, done;
      }
      assert leaves[..i + 1] == done + [func];
      done := leaves[..i + 1];
      count := count - 1;
      if endCount > 0 && count <= endCount {
        assert func in done && func in old(cg.byCallee) && func !in cg.byCallee;
        return None, count, done;
      }
      i := i + 1;
    }
    assert done == leaves;
    if leaves != [] {
      assert leaves[0] in done && leaves[0] in old(cg.byCallee) && leaves[0] !in cg.byCallee;
    }
    return None, count, done;
  }

  /** The main loop of `fix_prototypes` (const_fix.py:385-456) over the
      call graph `_build_call_graphs` makes, with the log at `logPath`:
      the functions analysed before and those where `const` is irrelevant
      are cut, then each pass processes the leaves, or prunes once when no
      function is a leaf, or else takes every function of `by_caller`. The
      loop ends with the graph empty, but `remove` never deletes a key of
      `by_caller`: the run ends without an error exactly when the graph and
      the log start empty. */
  method FixPrototypes(cg: Callgraph, disk: Disk, logPath: string, startCount: int, endCount: int,
                       getParams: ParamsOf, protos: string -> PrototypeMap, oracles: string -> Oracle)
    returns (err: Option<Error>)
    requires cg.byCallee.Keys <= cg.byCaller.Keys
    requires Coherent(protos, oracles)
    modifies cg, disk
    ensures err.None? <==> old(cg.byCaller) == map[] && PreviousNames(old(disk.files), logPath) == []
  {
    var count := |cg.byCallee|;
    var previous := PreviousNames(disk.files, logPath);
    var cutCount, cut := CutNoise(cg, disk, logPath, previous, getParams);
    if cutCount.Err? {
      return Some(cutCount.error);
    }
    if previous != [] {
      assert previous[0] in previous;
    }
    count := count - cutCount.value;
    err := PassLoop(cg, disk, logPath, count, startCount, endCount, getParams, protos, oracles);
  }

  /** The `while not cg.is_empty()` loop of `fix_prototypes`
      (const_fix.py:398-456). Since `remove` keeps every key of
      `by_caller`, the loop only ends without an error on a graph with no
      functions. */
  method PassLoop(cg: Callgraph, disk: Disk, logPath: string, count0: int, startCount: int, endCount: int,
                  getParams: ParamsOf, protos: string -> PrototypeMap, oracles: string -> Oracle)
    returns (err: Option<Error>)
    requires cg.byCallee.Keys <= cg.byCaller.Keys
    requires Coherent(protos, oracles)
    modifies cg, disk
    ensures err.None? <==> old(cg.byCaller) == map[]
  {
    ghost var keys := cg.byCaller.Keys;
    var count := count0;
    var tried := false;
    while !cg.IsEmpty()
      invariant cg.byCaller.Keys == keys && cg.byCallee.Keys <= keys
      decreases 2 * |cg.byCallee.Keys| + (if tried then 0 else 1)
    {
      var leaves := cg.LeavesBuilt();
      if leaves == [] {
        if tried {
          leaves := Select(cg.byCaller.Keys, f => true);
          assert |cg.byCaller| > 0;
          var f :| f in cg.byCaller;
          assert f in leaves;
        } else {
          tried := true;
          ghost var before := cg.byCallee.Keys;
          var pruned, names := Prune(cg, disk, logPath, getParams);
          if pruned.Err? {
            return Some(pruned.error);
          }
          SubsetSize(cg.byCallee.Keys, before);
          count := count - pruned.value;
          continue;
        }
      } else {
        tried := false;
      }
      ghost var before := cg.byCallee.Keys;
      var e, c, _ := RunPass(cg, disk, logPath, leaves, count, startCount, endCount, getParams, protos, oracles);
      err, count := e, c;
      if err.Some? {
        return;
      }
      SubsetSize(cg.byCallee.Keys, before);
    }
    return None;
  }

  // ---------------------------------------------------------------------
  // The passes with `remove` deleting a function from both maps

  lemma KeysOneMore(keys: set<string>, pre: seq<string>, g: string)
    ensures keys - (set f | f in pre + [g]) == (keys - (set f | f in pre)) - {g}
  {
    assert (set f | f in pre + [g]) == (set f | f in pre) + {g};
  }

  /** The removals of `prune` with `remove_fully`: on a graph whose maps
      agree, no removal fails, each name leaves both maps, and the maps
      still agree. */
  method RemoveAllFully(cg: Callgraph, fs: seq<string>)
    requires Linked(cg.byCaller, cg.byCallee)
    requires NoDup(fs) && forall f :: f in fs ==> f in cg.byCaller
    modifies cg
    ensures Linked(cg.byCaller, cg.byCallee)
    ensures cg.byCaller.Keys == old(cg.byCaller).Keys - (set f | f in fs)
  {
    var i := 0;
    while i < |fs|
      invariant i <= |fs|
      invariant Linked(cg.byCaller, cg.byCallee)
      invariant cg.byCaller.Keys == old(cg.byCaller).Keys - (set f | f in fs[..i])
    {
      var f := fs[i];
      assert f !in fs[..i];
      DetachLinked(cg.byCaller, cg.byCallee, f);
      var e := cg.RemoveFully(f);
      assert e.None?;
      TakeOne(fs, i);
      KeysOneMore(old(cg.byCaller).Keys, fs[..i], f);
      i := i + 1;
    }
    assert fs[..i] == fs;
  }

  /** `prune(cg)` with `remove_fully`: the same functions tabulated the
      same way, and every one of them gone from both maps. */
  method PruneFully(cg: Callgraph, disk: Disk, logPath: string, getParams: ParamsOf)
    returns (count: nat, pruned: seq<string>)
    requires Linked(cg.byCaller, cg.byCallee)
    modifies cg, disk
    ensures NoDup(pruned) && count == |pruned|
    ensures forall f :: f in pruned <==> f in old(cg.byCaller) && Classify(getParams(f)) != ConstMatters
    ensures disk.files == Written(old(disk.files), logPath, PruneRecords(pruned, getParams))
    ensures Linked(cg.byCaller, cg.byCallee)
    ensures cg.byCaller.Keys == old(cg.byCaller).Keys - (set f | f in pruned)
  {
    pruned := Select(cg.byCaller.Keys, f => Classify(getParams(f)) != ConstMatters);
    TabulateClasses(disk, logPath, pruned, getParams);
    RemoveAllFully(cg, pruned);
    count := |pruned|;
  }

  /** One leaf of a pass with `remove_fully`: only a `sys.exit` out of
      `fix_func` fails it, and only after a re-check that is not clean;
      otherwise its record is appended and the function is detached from
      both maps. */
  method HandleFully(cg: Callgraph, disk: Disk, logPath: string, func: string, count: int, startCount: int,
                     getParams: ParamsOf, protos: string -> PrototypeMap, oracles: string -> Oracle)
    returns (err: Option<Error>)
    requires Coherent(protos, oracles)
    requires Linked(cg.byCaller, cg.byCallee) && func in cg.byCaller
    modifies cg, disk
    ensures Linked(cg.byCaller, cg.byCallee)
    ensures err.Some? ==> err.value.Exit? && cg.byCaller == old(cg.byCaller) && cg.byCallee == old(cg.byCallee)
    ensures Rechecks(oracles(func)) ==> err.None?
    ensures var t := Tagged(old(cg.byCallee), func, count, startCount, getParams, protos, oracles, old(disk.files));
      && (t.0.Err? ==> err == Some(t.0.error) && disk.files == t.1)
      && (t.0.Ok? ==> err.None? && disk.files == Appended(t.1, logPath, Record(TabName(func), t.0.value)))
    ensures err.None? ==> cg.byCaller.Keys == old(cg.byCaller).Keys - {func}
  {
    var out := Process(cg, disk, func, count, startCount, getParams, protos, oracles);
    if out.Err? {
      return Some(out.error);
    }
    Tabulate(disk, logPath, func, out.value);
    DetachLinked(cg.byCaller, cg.byCallee, func);
    err := cg.RemoveFully(func);
  }

  /** The `for func in leaves` loop with `remove_fully`: the leaves handled
      are gone from both maps, the maps still agree, and only a
      `sys.exit` ends the pass with an error. */
  method RunPassFully(cg: Callgraph, disk: Disk, logPath: string, leaves: seq<string>, count0: int,
                      startCount: int, endCount: int, getParams: ParamsOf,
                      protos: string -> PrototypeMap, oracles: string -> Oracle)
    returns (err: Option<Error>, count: int, ghost done: seq<string>)
    requires Coherent(protos, oracles)
    requires Linked(cg.byCaller, cg.byCallee)
    requires NoDup(leaves) && forall f :: f in leaves ==> f in cg.byCaller
    modifies cg, disk
    ensures Linked(cg.byCaller, cg.byCallee)
    ensures done <= leaves && cg.byCaller.Keys == old(cg.byCaller).Keys - (set f | f in done)
    ensures err.Some? ==> err.value.Exit?
    ensures (forall f :: Rechecks(oracles(f))) ==> err.None?
    ensures err.None? ==>
      && count == count0 - |done|
      && (done == leaves || (endCount > 0 && count <= endCount))
      && (leaves != [] ==> done != [])
  {
    count := count0;
    done := [];
    var i := 0;
    while i < |leaves|
      invariant i <= |leaves| && done == leaves[..i] && count == count0 - i
      invariant Linked(cg.byCaller, cg.byCallee)
      invariant cg.byCaller.Keys == old(cg.byCaller).Keys - (set f | f in done)
    {
      var func := leaves[i];
      assert func !in done;
      var e := HandleFully(cg, disk, logPath, func, count, startCount, getParams, protos, oracles);
      err := e;
      if err.Some? {
        return err, count, done;
      }
      TakeOne(leaves, i);
      KeysOneMore(old(cg.byCaller).Keys, done, func);
      done := leaves[..i + 1];
      count := count - 1;
      if endCount > 0 && count <= endCount {
        return None, count, done;
      }
      i := i + 1;
    }
    assert done == leaves;
    return None, count, done;
  }

  /** The `while not cg.is_empty()` loop with `remove_fully`: on a graph
      whose maps agree, every pass either handles a leaf or prunes, so the
      loop ends, and it ends with an error only when `fix_func` calls
      `sys.exit`. */
  method PassLoopFully(cg: Callgraph, disk: Disk, logPath: string, count0: int, startCount: int, endCount: int,
                       getParams: ParamsOf, protos: string -> PrototypeMap, oracles: string -> Oracle)
    returns (err: Option<Error>)
    requires Linked(cg.byCaller, cg.byCallee)
    requires Coherent(protos, oracles)
    modifies cg, disk
    ensures err.None? || err.value.Exit?
    ensures (forall f :: Rechecks(oracles(f))) ==> err.None?
    ensures err.None? ==> cg.byCaller == map[] && cg.byCallee == map[]
  {
    var count := count0;
    var tried := false;
    while !cg.IsEmpty()
      invariant Linked(cg.byCaller, cg.byCallee)
      decreases 2 * |cg.byCaller.Keys| + (if tried then 0 else 1)
    {
      var leaves := cg.LeavesBuilt();
      if leaves == [] {
        if tried {
          leaves := Select(cg.byCaller.Keys, f => true);
          assert |cg.byCaller| > 0;
          var f :| f in cg.byCaller;
          assert f in leaves;
        } else {
          tried := true;
          ghost var before := cg.byCaller.Keys;
          var pruned, names := PruneFully(cg, disk, logPath, getParams);
          SubsetSize(cg.byCaller.Keys, before);
          count := count - pruned;
          continue;
        }
      } else {
        tried := false;
      }
      ghost var before := cg.byCaller.Keys;
      var e, c, done := RunPassFully(cg, disk, logPath, leaves, count, startCount, endCount, getParams, protos, oracles);
      err, count := e, c;
      if err.Some? {
        return;
      }
      assert done[0] in before && done[0] !in cg.byCaller.Keys;
      SubsetSize(cg.byCaller.Keys, before);
    }
    return None;
  }
}
