/** The outcomes log of const_fix.py: one line per analysed function, its
    name, a tab and its tags, appended by `tabulate` and `cut_noise`, read
    back by `load_previous_results` so that a later run skips what an
    earlier one analysed. */
module Outcomes {
  import opened Wrappers
  import opened Text
  import opened SafeChange

  /** The function name `tabulate` writes: with `()` at the end. */
  function TabName(func: string): (r: string)
    ensures EndsWith(r, "()") && StartsWith(r, func)
    ensures EndsWith(func, "()") ==> r == func
    ensures !EndsWith(func, "()") ==> r == func + "()"
  {
    if EndsWith(func, "()") then func else func + "()"
  }

  /** Adding the parentheses twice adds them once. */
  lemma TabNameIdempotent(func: string)
    ensures TabName(TabName(func)) == TabName(func)
  {
  }

  /** One line of the log: `'%s\t%s\n' % (name, tags)`. */
  function Record(name: string, tags: string): (r: string)
    ensures |r| == |name| + |tags| + 2 && r[|name|] == '\t' && r[|r| - 1] == '\n'
    ensures StartsWith(r, name)
  {
    name + "\t" + tags + "\n"
  }

  /** The log's text; a missing file reads as empty. */
  function Log(files: Files, path: string): string {
    if path in files then files[path] else ""
  }

  /** The files after opening `path` in mode `'a'` and writing `text`: the
      file is created if missing, and no other file changes. */
  function Appended(files: Files, path: string, text: string): Files {
    files[path := Log(files, path) + text]
  }

  /** Appending creates the log if missing, puts the text at its end, and
      changes no other file. */
  lemma AppendedEffect(files: Files, path: string, text: string)
    ensures var r := Appended(files, path, text);
      && r.Keys == files.Keys + {path}
      && Log(r, path) == Log(files, path) + text
      && forall q :: q in files && q != path ==> r[q] == files[q]
  {
  }

  /** The files after opening `path` for appending and writing `text`, or
      as they were when nothing is written. */
  function Written(files: Files, path: string, text: string): Files {
    if text == "" then files else Appended(files, path, text)
  }

  lemma WrittenTwice(files: Files, path: string, a: string, b: string)
    ensures Written(Written(files, path, a), path, b) == Written(files, path, a + b)
  {
    if a == "" {
      assert a + b == b;
    } else if b == "" {
      assert a + b == a;
    } else {
      assert Log(files, path) + a + b == Log(files, path) + (a + b);
    }
  }

  /** `tabulate(func, tags)` (const_fix.py:367-374) with the log at
      `logPath`. Tags are always text, so the branch that formats a list of
      tags is not taken. */
  method Tabulate(disk: Disk, logPath: string, func: string, tags: string)
    modifies disk
    ensures disk.files == Appended(old(disk.files), logPath, Record(TabName(func), tags))
  {
    disk.files := Appended(disk.files, logPath, Record(TabName(func), tags));
  }

  // `load_previous_results` (const_fix.py:376-383)

  /** The length of the first line of `s`, its newline included, as
      `readlines` splits. */
  function LineLength(s: string): (n: nat)
    requires s != []
    ensures 0 < n <= |s|
    ensures '\n' !in s[..n - 1]
    ensures n < |s| ==> s[n - 1] == '\n'
    decreases |s|
  {
    if s[0] == '\n' || |s| == 1 then 1
    else
      var k := LineLength(s[1..]);
      assert s[..k] == [s[0]] + s[1..][..k - 1];
      k + 1
  }

  /** `f.readlines()`: the lines of `s`, each with its newline. */
  function Lines(s: string): (r: seq<string>)
    decreases |s|
  {
    if s == [] then [] else [s[..LineLength(s)]] + Lines(s[LineLength(s)..])
  }

  /** `[x[:x.find('\t')] for x in lines if x.find('\t') > -1]` */
  function NamesOf(lines: seq<string>): (r: seq<string>)
    ensures |r| <= |lines|
  {
    if lines == [] then []
    else
      var x := lines[0];
      var k := IndexOf(x, '\t');
      (if k > -1 then [x[..k]] else []) + NamesOf(lines[1..])
  }

  /** The names `load_previous_results` returns: those of every line of
      the log that holds a tab, in order; none if there is no log. */
  function PreviousNames(files: Files, path: string): seq<string> {
    if path in files then NamesOf(Lines(files[path])) else []
  }

  /** A log whose last line is complete. */
  predicate Complete(s: string) {
    s == [] || s[|s| - 1] == '\n'
  }

  lemma {:induction false} LineLengthAppend(a: string, b: string)
    requires a != [] && a[|a| - 1] == '\n'
    ensures LineLength(a + b) == LineLength(a)
    decreases |a|
  {
    if a[0] != '\n' && |a| > 1 {
      assert (a + b)[1..] == a[1..] + b;
      LineLengthAppend(a[1..], b);
    }
  }

  /** Lines read from a log with a complete last line and text appended to
      it are the lines of each. */
  lemma {:induction false} LinesAppend(a: string, b: string)
    requires Complete(a)
    ensures Lines(a + b) == Lines(a) + Lines(b)
    decreases |a|
  {
    if a == [] {
      assert a + b == b;
    } else {
      var n := LineLength(a);
      LineLengthAppend(a, b);
      assert n == |a| || a[n - 1] == '\n';
      assert (a + b)[..n] == a[..n];
      assert (a + b)[n..] == a[n..] + b;
      LinesAppend(a[n..], b);
    }
  }

  lemma {:induction false} NamesOfAppend(a: seq<string>, b: seq<string>)
    ensures NamesOf(a + b) == NamesOf(a) + NamesOf(b)
    decreases |a|
  {
    if a == [] {
      assert a + b == b;
    } else {
      assert (a + b)[1..] == a[1..] + b;
      NamesOfAppend(a[1..], b);
    }
  }

  /** A record whose name holds no tab or newline and whose tags hold no
      newline is one line, read back as its name. */
  lemma RecordReadBack(name: string, tags: string)
    requires '\t' !in name && '\n' !in name && '\n' !in tags
    ensures Lines(Record(name, tags)) == [Record(name, tags)]
    ensures NamesOf(Lines(Record(name, tags))) == [name]
  {
    var r := Record(name, tags);
    assert r[..|r| - 1] == name + "\t" + tags;
    assert LineLength(r) == |r|;
    assert r[..|r|] == r && r[|r|..] == [];
    assert Lines(r) == [r] + Lines([]);
    assert r[..|name|] == name;
    assert IndexOf(r, '\t') == |name|;
    assert NamesOf([r]) == [name] + NamesOf([]);
  }

  /** What `tabulate` writes, `load_previous_results` reads back: the
      previous names with the new one at the end, and the log stays
      complete. */
  lemma TabulateThenLoad(files: Files, path: string, func: string, tags: string)
    requires Complete(Log(files, path))
    requires '\t' !in func && '\n' !in func && '\n' !in tags
    ensures var after := Appended(files, path, Record(TabName(func), tags));
      PreviousNames(after, path) == PreviousNames(files, path) + [TabName(func)]
      && Complete(Log(after, path))
  {
    var name := TabName(func);
    assert name == func || name == func + "()";
    assert '\t' !in name && '\n' !in name;
    var a := Log(files, path);
    var rec := Record(name, tags);
    var after := Appended(files, path, rec);
    AppendedEffect(files, path, rec);
    assert PreviousNames(files, path) == NamesOf(Lines(a));
    assert PreviousNames(after, path) == NamesOf(Lines(a + rec));
    LinesAppend(a, rec);
    RecordReadBack(name, tags);
    NamesOfAppend(Lines(a), Lines(rec));
  }
}
