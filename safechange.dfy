/** Undoing a change (safechange.py): every rewritten file is first copied
    to a hidden sibling (`dir/.name.bak`) that can be copied back, and the
    in-memory prototypes are put back by one of two rollback callables. */
module SafeChange {
  import opened Wrappers
  import opened Text
  import opened Params
  import opened Prototypes

  // ---------------------------------------------------------------------
  // Shadow names (safechange.py:22-28)

  /** `_name_to_backup_name`: a hidden name; a name that is already hidden
      fails the assertion at safechange.py:23. */
  function BackupName(fname: string): (r: Result<string>)
    ensures r.Err? <==> StartsWith(fname, ".")
    ensures r.Err? ==> r.error == AssertionFailed(23)
    ensures r.Ok? ==> |r.value| == |fname| + 5 && StartsWith(r.value, ".") && EndsWith(r.value, ".bak")
    ensures r.Ok? ==> r.value[1..|fname| + 1] == fname
  {
    if StartsWith(fname, ".") then Err(AssertionFailed(23))
    else
      var b := "." + fname + ".bak";
      assert b[1..|fname| + 1] == fname;
      Ok(b)
  }

  /** `_backup_name_to_name`: drop the leading `.` and every `.bak`; a name
      that is not hidden fails the assertion at safechange.py:27. */
  function NameOfBackup(bname: string): (r: Result<string>)
    ensures r.Err? <==> !StartsWith(bname, ".")
    ensures r.Err? ==> r.error == AssertionFailed(27)
  {
    if !StartsWith(bname, ".") then Err(AssertionFailed(27))
    else Ok(ReplaceAll(bname[1..], ".bak", ""))
  }

  /** Deleting every occurrence of a nonempty pattern from `s + pat`, when
      none starts inside `s`, leaves `s`. */
  lemma {:induction false} ReplaceTail(s: string, pat: string)
    requires pat != []
    requires forall k :: 0 <= k < |s| ==> !(pat <= (s + pat)[k..])
    ensures ReplaceAll(s + pat, pat, "") == s
    decreases |s|
  {
    if s == [] {
      assert (s + pat)[|pat|..] == [];
      assert pat <= s + pat;
    } else {
      assert !(pat <= (s + pat)[0..]);
      assert (s + pat)[1..] == s[1..] + pat;
      forall k | 0 <= k < |s[1..]| ensures !(pat <= (s[1..] + pat)[k..]) {
        assert (s[1..] + pat)[k..] == (s + pat)[k + 1..];
      }
      ReplaceTail(s[1..], pat);
    }
  }

  /** The round trip of the shadow name: a visible name without `.bak` in
      it comes back unchanged. */
  lemma BackupNameRoundTrip(n: string)
    requires !StartsWith(n, ".") && !Contains(n, ".bak")
    ensures BackupName(n).Ok? && NameOfBackup(BackupName(n).value) == Ok(n)
  {
    var b := "." + n + ".bak";
    assert b[1..] == n + ".bak";
    forall k | 0 <= k < |n| ensures !(".bak" <= (n + ".bak")[k..]) {
      if k + 4 <= |n| {
        if ".bak" <= (n + ".bak")[k..] {
          assert (n + ".bak")[k..k + 4] == n[k..k + 4];
          ContainsAt(n, ".bak", k);
        }
      } else {
        var d := |n| - k;
        var t := (n + ".bak")[k..];
        assert t[d] == '.';
        assert ".bak"[d] != '.';
      }
    }
    ReplaceTail(n, ".bak");
  }

  /** `replace` keeps a character where the pattern does not start. */
  lemma ReplaceKeeps(c: char, t: string, pat: string)
    requires pat != [] && !(pat <= [c] + t)
    ensures ReplaceAll([c] + t, pat, "") == [c] + ReplaceAll(t, pat, "")
  {
    assert ([c] + t)[1..] == t;
  }

  /** `replace` drops the pattern where it starts. */
  lemma ReplaceDrops(pat: string, t: string)
    requires pat != []
    ensures ReplaceAll(pat + t, pat, "") == ReplaceAll(t, pat, "")
  {
    assert (pat + t)[|pat|..] == t;
  }

  /** The `replace` steps on `a.bak.c.bak`. */
  lemma ReplaceInnerBak(bak: string)
    requires bak == ".bak"
    ensures ReplaceAll(['a'] + (bak + (['.'] + (['c'] + bak))), bak, "") == ['a', '.', 'c']
  {
    var t := ['c'] + bak;
    var t2 := ['.'] + t;
    var u := bak + t2;
    ReplaceDrops(bak, []);
    assert bak + [] == bak;
    assert bak[0] == '.' && bak[1] == 'b';
    assert t[0] == 'c';
    ReplaceKeeps('c', bak, bak);
    assert t2[1] == 'c';
    ReplaceKeeps('.', t, bak);
    ReplaceDrops(bak, t2);
    assert (['a'] + u)[0] == 'a';
    ReplaceKeeps('a', u, bak);
  }

  /** A name with `.bak` in the middle does not come back: the shadow of
      `a.bak.c` is `.a.bak.c.bak`, which maps back to `a.c`. */
  lemma BackupNameLosesInnerBak()
    ensures var n := ['a'] + ".bak" + ['.', 'c'];
      BackupName(n).Ok? && NameOfBackup(BackupName(n).value) == Ok(['a', '.', 'c'])
  {
    var bak := ".bak";
    var n := ['a'] + bak + ['.', 'c'];
    assert n[0] == 'a';
    var v := ['a'] + (bak + (['.'] + (['c'] + bak)));
    assert n + bak == v;
    var b := BackupName(n).value;
    assert b[1..] == n + bak;
    ReplaceInnerBak(bak);
  }

  /** `_backup_name_to_name` as its round trip needs it: the leading `.`
      and one trailing `.bak` go, and any `.bak` inside the name stays. */
  function NameOfBackupSuffix(bname: string): (r: Result<string>)
    ensures r.Err? <==> !StartsWith(bname, ".")
    ensures r.Err? ==> r.error == AssertionFailed(27)
  {
    if !StartsWith(bname, ".") then Err(AssertionFailed(27))
    else if |bname| >= 5 && EndsWith(bname, ".bak") then Ok(bname[1..|bname| - 4])
    else Ok(bname[1..])
  }

  /** With the suffix stripped, every visible name comes back from its
      shadow name, `.bak` inside it or not. */
  lemma BackupNameSuffixRoundTrip(n: string)
    requires !StartsWith(n, ".")
    ensures BackupName(n).Ok? && NameOfBackupSuffix(BackupName(n).value) == Ok(n)
  {
    var b := BackupName(n).value;
    assert b[|b| - 4..] == ".bak";
  }

  // ---------------------------------------------------------------------
  // Paths

  /** The directory part of a path, with its final `/` (Python's
      `os.path.split` and `os.path.join` put it back). Paths are taken to
      have no doubled slashes: `os.path.split` strips every `/` ending
      the folder, so the two differ on `a//b.c`. */
  function Folder(p: string): (r: string)
    ensures r <= p && (r == [] || r[|r| - 1] == '/')
    ensures '/' !in p[|r|..]
  {
    var i := LastIndexOf(p, '/');
    var r := p[..i + 1];
    assert p[|r|..] == p[i + 1..];
    r
  }

  function FileName(p: string): (r: string)
    ensures Folder(p) + r == p && '/' !in r
  {
    var f := Folder(p);
    assert f + p[|f|..] == p;
    p[|f|..]
  }

  /** `os.path.join(folder, name)` for the folder of `p`. */
  function Sibling(p: string, name: string): (r: string)
    ensures Folder(p) <= r && r[|Folder(p)|..] == name
  {
    Folder(p) + name
  }

  lemma SiblingParts(p: string, name: string)
    requires '/' !in name
    ensures Folder(Sibling(p, name)) == Folder(p) && FileName(Sibling(p, name)) == name
  {
    var f := Folder(p);
    var s := f + name;
    var i := LastIndexOf(s, '/');
    assert forall k :: |f| <= k < |s| ==> s[k] == name[k - |f|];
    if f == [] {
      assert s == name;
      assert i == -1;
    } else {
      assert s[|f| - 1] == '/';
      assert i == |f| - 1;
    }
    assert Folder(s) == s[..i + 1] == f;
  }

  // ---------------------------------------------------------------------
  // Backup and restore over a map from paths to contents

  type Files = map<string, string>

  /** `_backup_or_restore_file` once the target name is known: read `from`
      (an `IOError` at safechange.py:33 when it does not exist) and write
      its text to `to`, replacing any older file. */
  function Copy(files: Files, from: string, to: string): (r: Result<Files>)
    ensures r.Err? <==> from !in files
    ensures r.Err? ==> r.error == FileMissing(33)
    ensures r.Ok? ==> r.value.Keys == files.Keys + {to} && r.value[to] == files[from]
    ensures r.Ok? ==> forall q :: q in files && q != to ==> r.value[q] == files[q]
  {
    if from !in files then Err(FileMissing(33)) else Ok(files[to := files[from]])
  }

  /** The shadow of `p`: the hidden `.bak` sibling. */
  function ShadowOf(p: string): (r: Result<string>)
    ensures r.Err? <==> StartsWith(FileName(p), ".")
    ensures r.Ok? ==> Folder(r.value) == Folder(p) && FileName(r.value) != FileName(p)
  {
    var b := BackupName(FileName(p));
    if b.Err? then Err(b.error)
    else
      ShadowSibling(p);
      Ok(Sibling(p, b.value))
  }

  /** The shadow is in the same folder as the file, under a longer name. */
  lemma ShadowSibling(p: string)
    requires BackupName(FileName(p)).Ok?
    ensures var s := Sibling(p, BackupName(FileName(p)).value);
      Folder(s) == Folder(p) && FileName(s) == BackupName(FileName(p)).value && FileName(s) != FileName(p)
  {
    var n := FileName(p);
    var b := BackupName(n).value;
    assert b == "." + n + ".bak";
    assert '/' !in b;
    SiblingParts(p, b);
  }

  /** The shadow has a hidden name, so it is never a file that can be
      backed up itself. */
  lemma ShadowHidden(p: string)
    requires ShadowOf(p).Ok?
    ensures StartsWith(FileName(ShadowOf(p).value), ".")
  {
    ShadowSibling(p);
  }

  /** Two files with the same shadow are the same file. */
  lemma ShadowInjective(p: string, q: string)
    requires ShadowOf(p).Ok? && ShadowOf(q).Ok? && ShadowOf(p).value == ShadowOf(q).value
    ensures p == q
  {
    ShadowSibling(p);
    ShadowSibling(q);
    var np, nq := FileName(p), FileName(q);
    var b := BackupName(np).value;
    assert b == BackupName(nq).value;
    assert |np| == |nq|;
    assert np == b[1..|np| + 1] == nq;
  }

  /** Two files have two shadows. */
  lemma ShadowDistinct(p: string, q: string)
    requires ShadowOf(p).Ok? && ShadowOf(q).Ok? && p != q
    ensures ShadowOf(p).value != ShadowOf(q).value
  {
    if ShadowOf(p).value == ShadowOf(q).value {
      ShadowInjective(p, q);
    }
  }

  /** A second file that can be backed up is neither `p`, nor its shadow,
      and does not have either as its own shadow. */
  lemma OtherFile(q: string, p: string)
    requires ShadowOf(q).Ok? && ShadowOf(p).Ok? && q != p
    ensures q != ShadowOf(p).value && ShadowOf(q) != Ok(ShadowOf(p).value) && ShadowOf(q) != Ok(p)
  {
    VisibleIsNoShadow(q, p);
    ShadowDistinct(q, p);
  }

  /** A file that can be backed up is nobody's shadow. */
  lemma VisibleIsNoShadow(q: string, p: string)
    requires ShadowOf(q).Ok? && ShadowOf(p).Ok?
    ensures q != ShadowOf(p).value && p != ShadowOf(q).value
  {
    ShadowHidden(p);
    ShadowHidden(q);
  }

  /** `backup_file(p)`. */
  function BackedUp(files: Files, p: string): (r: Result<Files>) {
    var s := ShadowOf(p);
    if s.Err? then Err(s.error) else Copy(files, p, s.value)
  }

  /** A successful backup of `p` is the store with `p`'s text copied to
      its shadow. */
  lemma BackedUpIs(files: Files, p: string)
    requires BackedUp(files, p).Ok?
    ensures ShadowOf(p).Ok? && p in files && ShadowOf(p).value != p
    ensures BackedUp(files, p).value == files[ShadowOf(p).value := files[p]]
  {
    BackupEffect(files, p);
  }

  /** The file `restore_file(p)` writes: the shadow's name mapped back. */
  function RestoreTarget(shadow: string): (r: Result<string>) {
    var n := NameOfBackup(FileName(shadow));
    if n.Err? then Err(n.error) else Ok(Sibling(shadow, n.value))
  }

  /** `restore_file(p)`: copy the shadow of `p` to the name it maps back to. */
  function Restored(files: Files, p: string): (r: Result<Files>) {
    var s := ShadowOf(p);
    if s.Err? then Err(s.error)
    else
      var t := RestoreTarget(s.value);
      if t.Err? then Err(t.error) else Copy(files, s.value, t.value)
  }

  /** A visible file name without `.bak` is restored to itself. */
  lemma RestoreTargetIsFile(p: string)
    requires !StartsWith(FileName(p), ".") && !Contains(FileName(p), ".bak")
    ensures ShadowOf(p).Ok? && RestoreTarget(ShadowOf(p).value) == Ok(p)
  {
    var n := FileName(p);
    BackupNameRoundTrip(n);
    ShadowSibling(p);
    var s := ShadowOf(p).value;
    assert RestoreTarget(s) == Ok(Folder(s) + n);
  }

  /** `backup_file(p)` copies `p` to its shadow and changes nothing else;
      it fails on a hidden file name or a missing file. */
  lemma BackupEffect(files: Files, p: string)
    ensures BackedUp(files, p).Err? <==> StartsWith(FileName(p), ".") || p !in files
    ensures BackedUp(files, p).Ok? ==>
      var r := BackedUp(files, p).value; var s := ShadowOf(p).value;
      && s != p && r.Keys == files.Keys + {s} && r[s] == files[p] && r[p] == files[p]
      && forall q :: q in files && q != s ==> r[q] == files[q]
  {
    if ShadowOf(p).Ok? {
      var s := ShadowOf(p).value;
      assert FileName(s) != FileName(p);
    }
  }

  /** `restore_file(p)` puts the backed-up text into `p` and keeps the
      shadow. */
  lemma RestoreEffect(files: Files, p: string)
    requires !StartsWith(FileName(p), ".") && !Contains(FileName(p), ".bak")
    ensures Restored(files, p).Err? <==> ShadowOf(p).value !in files
    ensures Restored(files, p).Ok? ==>
      var r := Restored(files, p).value; var s := ShadowOf(p).value;
      && r.Keys == files.Keys + {p} && r[p] == files[s] && s in r && r[s] == files[s]
      && forall q :: q in files && q != p ==> r[q] == files[q]
  {
    RestoreTargetIsFile(p);
    var s := ShadowOf(p).value;
    assert FileName(s) != FileName(p);
    assert s != p;
    assert Restored(files, p) == Copy(files, s, p);
  }

  /** Copying back an identical copy undoes any write to `p`. */
  lemma CopyBack(b: Files, p: string, s: string, txt: string)
    requires s != p && s in b && p in b && b[s] == b[p]
    ensures Copy(b[p := txt], s, p) == Ok(b)
  {
    assert b[p := txt][p := b[s]] == b;
  }

  /** Backing up `p`, writing anything to it, then restoring it gives back
      the files as they were after the backup. */
  lemma BackupWriteRestore(files: Files, p: string, txt: string)
    requires p in files && !StartsWith(FileName(p), ".") && !Contains(FileName(p), ".bak")
    ensures BackedUp(files, p).Ok?
    ensures Restored(BackedUp(files, p).value[p := txt], p) == BackedUp(files, p)
  {
    BackupEffect(files, p);
    RestoreTargetIsFile(p);
    var b := BackedUp(files, p).value;
    var s := ShadowOf(p).value;
    assert Restored(b[p := txt], p) == Copy(b[p := txt], s, p);
    CopyBack(b, p, s, txt);
  }

  /** A file whose name has `.bak` inside is restored to another file:
      `dir/a.bak.c` comes back as `dir/a.c`. */
  lemma RestoreGoesElsewhere(p: string)
    requires FileName(p) == ['a'] + ".bak" + ['.', 'c']
    ensures ShadowOf(p).Ok?
    ensures RestoreTarget(ShadowOf(p).value) == Ok(Folder(p) + ['a', '.', 'c'])
    ensures RestoreTarget(ShadowOf(p).value) != Ok(p)
  {
    BackupNameLosesInnerBak();
    ShadowSibling(p);
    var s := ShadowOf(p).value;
    assert RestoreTarget(s) == Ok(Folder(s) + ['a', '.', 'c']);
    assert |Folder(p) + ['a', '.', 'c']| < |Folder(p) + FileName(p)|;
  }

  /** The files on disk. */
  class Disk {
    var files: Files

    constructor (files0: Files)
      ensures files == files0
    {
      files := files0;
    }

    /** `_backup_or_restore_file` with the target already named: an older
        target is removed, then written afresh. */
    method CopyFile(from: string, to: string) returns (err: Option<Error>)
      modifies this
      ensures Copy(old(files), from, to).Err? ==> err == Some(FileMissing(33)) && files == old(files)
      ensures Copy(old(files), from, to).Ok? ==> err.None? && files == Copy(old(files), from, to).value
    {
      if from !in files {
        return Some(FileMissing(33));
      }
      var txt := files[from];
      if to in files {
        files := map q | q in files && q != to :: files[q];
      }
      files := files[to := txt];
      return None;
    }

    /** `backup_file(p)` (safechange.py:40-41). */
    method BackupFile(p: string) returns (err: Option<Error>)
      modifies this
      ensures BackedUp(old(files), p).Err? ==> err == Some(BackedUp(old(files), p).error) && files == old(files)
      ensures BackedUp(old(files), p).Ok? ==> err.None? && files == BackedUp(old(files), p).value
    {
      var folder := Folder(p);
      var shadow := BackupName(FileName(p));
      if shadow.Err? {
        return Some(shadow.error);
      }
      err := CopyFile(p, folder + shadow.value);
    }

    /** `restore_file(p)` (safechange.py:43-46). */
    method RestoreFile(p: string) returns (err: Option<Error>)
      modifies this
      ensures Restored(old(files), p).Err? ==> err == Some(Restored(old(files), p).error) && files == old(files)
      ensures Restored(old(files), p).Ok? ==> err.None? && files == Restored(old(files), p).value
    {
      var shadow := BackupName(FileName(p));
      if shadow.Err? {
        return Some(shadow.error);
      }
      var s := Folder(p) + shadow.value;
      var n := NameOfBackup(FileName(s));
      if n.Err? {
        return Some(n.error);
      }
      err := CopyFile(s, Folder(s) + n.value);
    }
  }

  // ---------------------------------------------------------------------
  // The rollback callables (safechange.py:3-20)

  /** The prototypes of the map, file by file and in order. */
  predicate Covers(m: PrototypeMap, idx: nat) {
    forall i, j :: 0 <= i < |m| && 0 <= j < |m[i].protos| ==> idx < |m[i].protos[j].params|
  }

  /** One prototype with the type of parameter `idx` set and its dirty flag
      set to `dirty`. */
  function Retyped(pr: Prototype, idx: nat, dt: string, dirty: bool): Prototype
    requires idx < |pr.params|
  {
    pr.(params := pr.params[idx := pr.params[idx].(dataType := dt)], dirty := dirty)
  }

  function RetypedEntry(e: Entry, idx: nat, dt: string, dirty: bool): Entry
    requires forall j :: 0 <= j < |e.protos| ==> idx < |e.protos[j].params|
  {
    Entry(e.path, seq(|e.protos|, j requires 0 <= j < |e.protos| => Retyped(e.protos[j], idx, dt, dirty)))
  }

  function RetypedMap(m: PrototypeMap, idx: nat, dt: string, dirty: bool): (r: PrototypeMap)
    requires Covers(m, idx)
    ensures Covers(r, idx)
  {
    seq(|m|, i requires 0 <= i < |m| => RetypedEntry(m[i], idx, dt, dirty))
  }

  /** Setting parameter `idx` of every prototype: the same files and
      prototypes, that one type replaced, every other parameter and field
      as it was. */
  predicate RetypedFrom(a: Prototype, b: Prototype, idx: nat, dt: string, dirty: bool) {
    && b.dirty == dirty && |b.params| == |a.params| && idx < |a.params|
    && b == a.(params := b.params, dirty := dirty)
    && b.params[idx] == a.params[idx].(dataType := dt)
    && (forall k :: 0 <= k < |a.params| && k != idx ==> b.params[k] == a.params[k])
  }

  lemma RetypedMapEffect(m: PrototypeMap, idx: nat, dt: string, dirty: bool)
    requires Covers(m, idx)
    ensures var r := RetypedMap(m, idx, dt, dirty);
      && |r| == |m|
      && (forall i :: 0 <= i < |m| ==> r[i].path == m[i].path && |r[i].protos| == |m[i].protos|)
      && (forall i, j :: 0 <= i < |m| && 0 <= j < |m[i].protos| ==>
            RetypedFrom(m[i].protos[j], r[i].protos[j], idx, dt, dirty))
  {
  }

  /** The loop `for proto in prototypes[fpath]: proto.params[idx].data_type = dt;
      proto.dirty = dirty` over one file. A prototype with too few
      parameters raises `IndexError` at line `line`. */
  method RetypeFile(ps: seq<Prototype>, idx: nat, dt: string, dirty: bool, line: nat) returns (r: Result<seq<Prototype>>)
    ensures r.Err? <==> exists j :: 0 <= j < |ps| && idx >= |ps[j].params|
    ensures r.Err? ==> r.error == IndexOutOfRange(line)
    ensures r.Ok? ==> (forall j :: 0 <= j < |ps| ==> idx < |ps[j].params|)
    ensures r.Ok? ==> r.value == RetypedEntry(Entry("", ps), idx, dt, dirty).protos
  {
    var out: seq<Prototype> := [];
    var j := 0;
    while j < |ps|
      invariant j <= |ps| && |out| == j
      invariant forall q :: 0 <= q < j ==> idx < |ps[q].params| && out[q] == Retyped(ps[q], idx, dt, dirty)
    {
      if idx >= |ps[j].params| {
        return Err(IndexOutOfRange(line));
      }
      out := out + [Retyped(ps[j], idx, dt, dirty)];
      j := j + 1;
    }
    return Ok(out);
  }

  /** The nested loop over every file and prototype. */
  method RetypeAll(m: PrototypeMap, idx: nat, dt: string, dirty: bool, line: nat) returns (r: Result<PrototypeMap>)
    ensures r.Err? <==> !Covers(m, idx)
    ensures r.Err? ==> r.error == IndexOutOfRange(line)
    ensures r.Ok? ==> Covers(m, idx) && r.value == RetypedMap(m, idx, dt, dirty)
  {
    var out: PrototypeMap := [];
    var i := 0;
    while i < |m|
      invariant i <= |m| && |out| == i
      invariant Covers(m[..i], idx)
      invariant forall q :: 0 <= q < i ==> out[q] == RetypedEntry(m[q], idx, dt, dirty)
    {
      var ps := RetypeFile(m[i].protos, idx, dt, dirty, line);
      if ps.Err? {
        return Err(ps.error);
      }
      out := out + [Entry(m[i].path, ps.value)];
      assert m[..i + 1] == m[..i] + [m[i]];
      i := i + 1;
    }
    assert m[..i] == m;
    return Ok(out);
  }

  /** `const_rollback`: the type and position it will restore. */
  datatype ConstRollback = ConstRollback(dataType: string, idx: nat)

  /** `const_rollback(param, idx, state)` (safechange.py:12-15): the
      parameter is first set to `state`, then its type is captured. */
  function NewConstRollback(p: Param, idx: nat, state: bool): (r: (Param, ConstRollback))
    ensures r.1.idx == idx && r.1.dataType == r.0.dataType
    ensures IsConst(r.0) == IsConst(p) && r.0.decl == p.decl
  {
    var q := SetConst(p, state);
    (q, ConstRollback(q.dataType, idx))
  }

  /** The rollback `fix_func` builds after trying `const` on a parameter
      (const_fix.py:278) captures the `const`-qualified type it was meant
      to undo: `set_const(False)` leaves a declaration without `const`
      alone. */
  lemma ConstRollbackCapturesTrial(p: Param, idx: nat)
    requires !IsConst(p)
    ensures var trial := SetConst(p, true);
      NewConstRollback(trial, idx, false) == (trial, ConstRollback(trial.dataType, idx))
  {
  }

  /** `const_rollback` as the caller at const_fix.py:278 means it: the
      type is captured before `const` is tried, and the trial is the
      parameter with `const` set. */
  function TrialWithRollback(p: Param, idx: nat): (r: (Param, ConstRollback))
    ensures r.0 == SetConst(p, true) && r.1.idx == idx
    ensures r.1.dataType == p.dataType
  {
    (SetConst(p, true), ConstRollback(p.dataType, idx))
  }

  /** Rolling back with the type captured before the trial puts back the
      type every prototype had in slot `idx`; rolling back as written
      leaves the trial's type there. */
  lemma {:induction false} RollbackAfterTrial(m: PrototypeMap, p: Param, idx: nat)
    requires Covers(m, idx) && !IsConst(p)
    requires forall i, j :: 0 <= i < |m| && 0 <= j < |m[i].protos| ==> m[i].protos[j].params[idx].dataType == p.dataType
    ensures var trial := SetConst(p, true);
      var tried := RetypedMap(m, idx, trial.dataType, true);
      && Covers(tried, idx)
      && (forall i, j :: 0 <= i < |m| && 0 <= j < |m[i].protos| ==>
            RetypedMap(tried, idx, TrialWithRollback(p, idx).1.dataType, false)[i].protos[j]
              == m[i].protos[j].(dirty := false))
      && (forall i, j :: 0 <= i < |m| && 0 <= j < |m[i].protos| ==>
            RetypedMap(tried, idx, NewConstRollback(trial, idx, false).1.dataType, false)[i].protos[j].params[idx].dataType
              == trial.dataType)
  {
    var trial := SetConst(p, true);
    var tried := RetypedMap(m, idx, trial.dataType, true);
    RetypedMapEffect(m, idx, trial.dataType, true);
    assert Covers(tried, idx);
    var back := RetypedMap(tried, idx, p.dataType, false);
    RetypedMapEffect(tried, idx, p.dataType, false);
    forall i, j | 0 <= i < |m| && 0 <= j < |m[i].protos|
      ensures back[i].protos[j] == m[i].protos[j].(dirty := false)
    {
      var a := m[i].protos[j];
      var c := back[i].protos[j];
      assert c.params == a.params;
    }
    var asWritten := NewConstRollback(trial, idx, false).1.dataType;
    RetypedMapEffect(tried, idx, asWritten, false);
  }

  /** Calling a `const_rollback`: the captured type goes back into slot
      `idx` of every prototype, every dirty flag is cleared. */
  method ApplyConstRollback(m: PrototypeMap, rb: ConstRollback) returns (r: Result<PrototypeMap>)
    ensures r.Err? <==> !Covers(m, rb.idx)
    ensures r.Err? ==> r.error == IndexOutOfRange(19)
    ensures r.Ok? ==> Covers(m, rb.idx) && r.value == RetypedMap(m, rb.idx, rb.dataType, false)
  {
    r := RetypeAll(m, rb.idx, rb.dataType, false, 19);
  }

  /** `param_name_rollback` on one prototype. */
  function NamesCleared(pr: Prototype): Prototype {
    pr.(params := seq(|pr.params|, k requires 0 <= k < |pr.params| => pr.params[k].(newName := "")), dirty := false)
  }

  function NamesClearedEntry(e: Entry): Entry {
    Entry(e.path, seq(|e.protos|, j requires 0 <= j < |e.protos| => NamesCleared(e.protos[j])))
  }

  /** After `param_name_rollback` no parameter has a new name and no
      prototype is dirty; nothing else differs. */
  predicate NamesClearedFrom(a: Prototype, b: Prototype) {
    && !b.dirty && |b.params| == |a.params|
    && b == a.(params := b.params, dirty := false)
    && forall k :: 0 <= k < |a.params| ==> b.params[k].newName == "" && b.params[k] == a.params[k].(newName := "")
  }

  lemma NamesClearedEffect(m: PrototypeMap)
    ensures forall i, j :: 0 <= i < |m| && 0 <= j < |m[i].protos| ==>
      NamesClearedFrom(m[i].protos[j], NamesClearedEntry(m[i]).protos[j])
    ensures forall i :: 0 <= i < |m| ==>
      NamesClearedEntry(m[i]).path == m[i].path && |NamesClearedEntry(m[i]).protos| == |m[i].protos|
  {
  }

  /** `param_name_rollback()(prototypes)` (safechange.py:3-9). */
  method ParamNameRollback(m: PrototypeMap) returns (r: PrototypeMap)
    ensures |r| == |m| && forall i :: 0 <= i < |m| ==> r[i] == NamesClearedEntry(m[i])
  {
    r := [];
    var i := 0;
    while i < |m|
      invariant i <= |m| && |r| == i
      invariant forall q :: 0 <= q < i ==> r[q] == NamesClearedEntry(m[q])
    {
      var ps: seq<Prototype> := [];
      var j := 0;
      while j < |m[i].protos|
        invariant j <= |m[i].protos| && |ps| == j
        invariant forall q :: 0 <= q < j ==> ps[q] == NamesCleared(m[i].protos[q])
      {
        ps := ps + [NamesCleared(m[i].protos[j])];
        j := j + 1;
      }
      r := r + [Entry(m[i].path, ps)];
      i := i + 1;
    }
  }
}
