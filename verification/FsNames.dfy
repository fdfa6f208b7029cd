// The file system: which names survive a creation when the scans of the directory are cut short.

module FsNames {
  import opened Options
  import opened BitRuns
  import opened FsModel
  import opened FsInvariant
  import opened FsRuns

  predicate NamesApart(dir: seq<Entry>) {
    forall i, j | 0 <= i < |dir| && 0 <= j < |dir| && i != j && dir[i].inUse && dir[j].inUse ::
      dir[i].name != dir[j].name
  }

  // Lookup was cut before the entry for NAME, and the slot written is another one.
  predicate Doubles(dir: seq<Entry>, name: string, io: DirIo) {
    var i := Lookup(dir, name);
    i.Some? && io.lookupCut <= i.value && i.value != Slot(dir, io.slotCut)
  }

  // The search for a slot was cut at the entry of another file.
  predicate Clobbers(dir: seq<Entry>, name: string, io: DirIo) {
    io.slotCut < FreeSlotFrom(dir, 0) && dir[io.slotCut].name != name
  }

  // Every other name that was found is still found at its place.
  ghost predicate OthersKept(dir: seq<Entry>, dir1: seq<Entry>, name: string) {
    forall m | m != name && Lookup(dir, m).Some? :: Lookup(dir1, m) == Lookup(dir, m)
  }

  lemma InUseBefore(dir: seq<Entry>, i: int, k: int)
    requires 0 <= i <= |dir| && i <= k < FreeSlotFrom(dir, i)
    ensures k < |dir| && dir[k].inUse
    decreases |dir| - i
  {
    if i < k { InUseBefore(dir, i + 1, k); }
  }

  // ---------- one slot written ----------

  lemma WrittenApart(dir: seq<Entry>, k: int, name: string, s: int)
    requires NamesApart(dir) && 0 <= k < |dir|
    ensures NamesApart(dir[k := Entry(s, name, true)]) <==> Lookup(dir, name) == None || Lookup(dir, name) == Some(k)
  {
    var i, dir1 := Lookup(dir, name), dir[k := Entry(s, name, true)];
    LookupInside(dir, name, 0);
    if i.Some? && i.value != k {
      assert dir1[i.value].inUse && dir1[k].inUse && dir1[i.value].name == dir1[k].name;
    }
  }

  // In a directory without doubles, an entry is what its name finds.
  lemma FoundThere(dir: seq<Entry>, i: int)
    requires NamesApart(dir) && 0 <= i < |dir| && dir[i].inUse
    ensures Lookup(dir, dir[i].name) == Some(i)
  {
    LookupInside(dir, dir[i].name, 0);
  }

  lemma WrittenKeeps(dir: seq<Entry>, k: int, name: string, s: int)
    requires NamesApart(dir) && 0 <= k < |dir|
    ensures OthersKept(dir, dir[k := Entry(s, name, true)], name) <==> !dir[k].inUse || dir[k].name == name
  {
    var dir1 := dir[k := Entry(s, name, true)];
    if dir[k].inUse && dir[k].name != name {
      var m := dir[k].name;
      FoundThere(dir, k);
      LookupInside(dir1, m, 0);
      assert Lookup(dir1, m) != Lookup(dir, m);
    } else {
      forall m | m != name && Lookup(dir, m).Some? ensures Lookup(dir1, m) == Lookup(dir, m) {
        LookupInside(dir, m, 0);
        LookupElsewhere(dir, k, name, s, m, 0);
      }
    }
  }

  lemma {:induction false} LookupElsewhere(dir: seq<Entry>, k: int, name: string, s: int, m: string, i: int)
    requires 0 <= i && 0 <= k < |dir| && m != name && (!dir[k].inUse || dir[k].name == name)
    ensures LookupFrom(dir[k := Entry(s, name, true)], m, i) == LookupFrom(dir, m, i)
    decreases |dir| - i
  {
    if i < |dir| { LookupElsewhere(dir, k, name, s, m, i + 1); }
  }

  // ---------- filesys_create ----------

  lemma CreatedDir(fs: Fs, name: string, size: int, env: Env)
    requires 0 <= size
    ensures var fs1 := Create(fs, name, size, env).0;
      if ReachesDirectory(fs, size, env) && Takes(fs.dir, name, env.io)
      then 0 <= Slot(fs.dir, env.io.slotCut) < |fs.dir|
           && fs1.dir == fs.dir[Slot(fs.dir, env.io.slotCut) := Entry(Search(fs.used, 0, 1, false).value, name, true)]
      else fs1.dir == fs.dir
  {
    FailedCreateLeaks(fs, name, size, env);
    SlotWhere(fs.dir, env.io.slotCut);
    if Search(fs.used, 0, 1, false).Some? { CreateFinds(fs.used, size); }
  }

  // The names stay unique, exactly when the creation does not double one.
  lemma CreateNamesExact(fs: Fs, name: string, size: int, env: Env)
    requires 0 <= size && NamesApart(fs.dir)
    ensures NamesApart(Create(fs, name, size, env).0.dir)
            <==> !(ReachesDirectory(fs, size, env) && Takes(fs.dir, name, env.io) && Doubles(fs.dir, name, env.io))
  {
    CreatedDir(fs, name, size, env);
    if ReachesDirectory(fs, size, env) && Takes(fs.dir, name, env.io) {
      WrittenApart(fs.dir, Slot(fs.dir, env.io.slotCut), name, Search(fs.used, 0, 1, false).value);
    }
  }

  lemma ClobberedSlot(dir: seq<Entry>, name: string, io: DirIo)
    requires 0 <= Slot(dir, io.slotCut) < |dir|
    ensures var k := Slot(dir, io.slotCut); Clobbers(dir, name, io) <==> dir[k].inUse && dir[k].name != name
  {
    SlotWhere(dir, io.slotCut);
    if io.slotCut < FreeSlotFrom(dir, 0) { InUseBefore(dir, 0, io.slotCut); }
  }

  // The other files keep their names, exactly when the creation does not write over one of them.
  lemma CreateKeepsExact(fs: Fs, name: string, size: int, env: Env)
    requires 0 <= size && NamesApart(fs.dir)
    ensures OthersKept(fs.dir, Create(fs, name, size, env).0.dir, name)
            <==> !(ReachesDirectory(fs, size, env) && Takes(fs.dir, name, env.io) && Clobbers(fs.dir, name, env.io))
  {
    CreatedDir(fs, name, size, env);
    if ReachesDirectory(fs, size, env) && Takes(fs.dir, name, env.io) {
      WrittenKeeps(fs.dir, Slot(fs.dir, env.io.slotCut), name, Search(fs.used, 0, 1, false).value);
      ClobberedSlot(fs.dir, name, env.io);
    }
  }

  // Scans that are not cut double and clobber nothing.
  lemma WholeScansSafe(dir: seq<Entry>, name: string, io: DirIo)
    requires |dir| <= io.lookupCut && |dir| <= io.slotCut
    ensures !Doubles(dir, name, io) && !Clobbers(dir, name, io)
  {
    LookupInside(dir, name, 0);
  }

  // ---------- runs ----------

  // Taking the action in this state doubles no name.
  predicate Harmless(fs: Fs, act: Action) {
    match act
    case CreateFile(name, size, env) =>
      !(ReachesDirectory(fs, size, env) && Takes(fs.dir, name, env.io) && Doubles(fs.dir, name, env.io))
    case _ => true
  }

  predicate AllHarmless(fs: Fs, acts: seq<Action>)
    requires Legal(fs, acts)
    decreases |acts|
  {
    acts == [] || (Harmless(fs, acts[0]) && AllHarmless(Step(fs, acts[0]), acts[1..]))
  }

  // A step keeps the names unique exactly when it is harmless.
  lemma StepNames(fs: Fs, act: Action)
    requires NamesApart(fs.dir) && Enabled(fs, act)
    ensures NamesApart(Step(fs, act).dir) <==> Harmless(fs, act)
  {
    match act
    case CreateFile(name, size, env) => CreateNamesExact(fs, name, size, env);
    case OpenFile(name, h, rootOk, cut, memOk, fileOk) => OpenKeepsDir(fs, name, h, rootOk, cut, memOk, fileOk);
    case ReopenFile(h, h1, fileOk) =>
    case RemoveFile(name, rootOk, cut, memOk, writeOk) => RemoveNames(fs, name, rootOk, cut, memOk, writeOk);
    case CloseFile(h) =>
    case WriteFile(h) =>
  }

  lemma RemoveNames(fs: Fs, name: string, rootOk: bool, cut: nat, memOk: bool, writeOk: bool)
    requires NamesApart(fs.dir)
    ensures NamesApart(Remove(fs, name, rootOk, cut, memOk, writeOk).0.dir)
  {
    RemovedDir(fs, name, rootOk, cut, memOk, writeOk);
  }

  lemma {:induction false} NamesRun(fs: Fs, acts: seq<Action>)
    requires NamesApart(fs.dir) && Legal(fs, acts) && AllHarmless(fs, acts)
    ensures NamesApart(After(fs, acts).dir)
    decreases |acts|
  {
    if acts != [] {
      StepNames(fs, acts[0]);
      NamesRun(Step(fs, acts[0]), acts[1..]);
    }
  }

  // From formatting on, names are unique as long as every creation is harmless.
  lemma NamesUnique(n: int, acts: seq<Action>)
    requires 2 <= n && Format(n).Some? && Legal(Format(n).value, acts) && AllHarmless(Format(n).value, acts)
    ensures NamesApart(After(Format(n).value, acts).dir)
  {
    FormatInv(n);
    NamesRun(Format(n).value, acts);
  }

  // No scan of a creation is cut short.
  predicate Uncut(fs: Fs, act: Action) {
    act.CreateFile? ==> |fs.dir| <= act.env.io.lookupCut && |fs.dir| <= act.env.io.slotCut
  }

  predicate AllUncut(fs: Fs, acts: seq<Action>)
    requires Legal(fs, acts)
    decreases |acts|
  {
    acts == [] || (Uncut(fs, acts[0]) && AllUncut(Step(fs, acts[0]), acts[1..]))
  }

  lemma {:induction false} UncutHarmless(fs: Fs, acts: seq<Action>)
    requires Legal(fs, acts) && AllUncut(fs, acts)
    ensures AllHarmless(fs, acts)
    decreases |acts|
  {
    if acts != [] {
      if acts[0].CreateFile? { WholeScansSafe(fs.dir, acts[0].name, acts[0].env.io); }
      UncutHarmless(Step(fs, acts[0]), acts[1..]);
    }
  }

  // So with enough memory for the scans, whatever else fails, names are unique on every run and no
  // creation takes another file's name away.
  lemma WholeScansUnique(n: int, acts: seq<Action>, name: string, size: int, env: Env)
    requires 2 <= n && Format(n).Some? && Legal(Format(n).value, acts) && AllUncut(Format(n).value, acts) && 0 <= size
    ensures var fs := After(Format(n).value, acts);
      && NamesApart(fs.dir)
      && (Uncut(fs, CreateFile(name, size, env)) ==> OthersKept(fs.dir, Create(fs, name, size, env).0.dir, name))
  {
    UncutHarmless(Format(n).value, acts);
    NamesUnique(n, acts);
    var fs := After(Format(n).value, acts);
    if Uncut(fs, CreateFile(name, size, env)) {
      WholeScansSafe(fs.dir, name, env.io);
      CreateKeepsExact(fs, name, size, env);
    }
  }

  // ---------- inputs for which they are not ----------

  // File "a" on a new device.
  lemma FirstFile(n: int)
    requires 6 <= n <= 4096
    ensures Format(n).Some?
    ensures var fs := Create(Format(n).value, "a", 0, ALL_OK).0;
      && Lookup(fs.dir, "a") == Some(0) && FreeSlotFrom(fs.dir, 0) == 1 && |fs.dir| == 16 && NamesApart(fs.dir)
      && Lookup(fs.dir, "b") == None && exists k :: 0 <= k < |fs.used| && !fs.used[k]
  {
    FormatRoom(n);
    FormatInv(n);
    var fs := Format(n).value;
    TwoEnough(fs, 0, ALL_OK, 4);
    FirstEntry(fs);
    FirstSector(fs);
  }

  lemma FirstEntry(fs: Fs)
    requires |fs.dir| == 16 && (forall i | 0 <= i < 16 :: !fs.dir[i].inUse) && ReachesDirectory(fs, 0, ALL_OK)
    ensures var dir := Create(fs, "a", 0, ALL_OK).0.dir;
      && Lookup(dir, "a") == Some(0) && FreeSlotFrom(dir, 0) == 1 && |dir| == 16 && NamesApart(dir)
      && Lookup(dir, "b") == None
  {
    LookupInside(fs.dir, "a", 0);
    CreatedDir(fs, "a", 0, ALL_OK);
    CreateNamesExact(fs, "a", 0, ALL_OK);
    var dir := Create(fs, "a", 0, ALL_OK).0.dir;
    assert dir[0].inUse && dir[0].name == "a" && !dir[1].inUse;
    LookupInside(dir, "b", 0);
  }

  lemma FirstSector(fs: Fs)
    requires 6 <= |fs.used| && !fs.used[4] && !fs.used[5] && ReachesDirectory(fs, 0, ALL_OK)
    ensures exists k ::
      0 <= k < |fs.used| == |Create(fs, "a", 0, ALL_OK).0.used| && !Create(fs, "a", 0, ALL_OK).0.used[k]
  {
    CreateFinds(fs.used, 0);
    var s := Search(fs.used, 0, 1, false).value;
    var used1 := Create(fs, "a", 0, ALL_OK).0.used;
    assert |used1| == |fs.used| && !used1[if s == 4 then 5 else 4];
  }

  lemma OneMore(fs: Fs, name: string, env: Env)
    requires env.rootOk && env.mapOk && env.memOk && env.dataMapOk && exists k :: 0 <= k < |fs.used| && !fs.used[k]
    ensures ReachesDirectory(fs, 0, env)
  {
    var k :| 0 <= k < |fs.used| && !fs.used[k];
    SearchFinds(fs.used, 0, 1, false);
    assert RunAt(fs.used, k, 1, false);
    var used1 := Filled(fs.used, Search(fs.used, 0, 1, false).value, 1, true);
    SearchFinds(used1, 0, 0, false);
    assert RunAt(used1, 0, 0, false);
  }

  lemma TwoSteps(fs: Fs, a: Action, b: Action)
    requires Enabled(fs, a) && Enabled(Step(fs, a), b)
    ensures Legal(fs, [a, b]) && After(fs, [a, b]) == Step(Step(fs, a), b)
  {
    assert [a, b][1..] == [b] && [b][1..] == [];
    assert Legal(Step(Step(fs, a), b), []) && Legal(Step(fs, a), [b]);
    assert After(Step(fs, a), [b]) == Step(Step(fs, a), b);
  }

  // With only lookup's bounce buffer missing, "a" is created a second time.
  lemma SameNameTwice(n: int)
    requires 6 <= n <= 4096
    ensures Format(n).Some?
    ensures var again := ALL_OK.(io := DirIo(0, 16, true));
      var acts := [CreateFile("a", 0, ALL_OK), CreateFile("a", 0, again)];
      Legal(Format(n).value, acts) && !NamesApart(After(Format(n).value, acts).dir)
  {
    var again := ALL_OK.(io := DirIo(0, 16, true));
    FirstFile(n);
    var fs := Format(n).value;
    var fs1 := Create(fs, "a", 0, ALL_OK).0;
    OneMore(fs1, "a", again);
    CreateNamesExact(fs1, "a", 0, again);
    TwoSteps(fs, CreateFile("a", 0, ALL_OK), CreateFile("a", 0, again));
  }

  // "b" goes over the only entry, which is the one for "a".
  lemma OverFirst(fs: Fs, env: Env)
    requires Lookup(fs.dir, "a") == Some(0) && FreeSlotFrom(fs.dir, 0) == 1 && NamesApart(fs.dir)
    requires env.io == DirIo(16, 0, true) && ReachesDirectory(fs, 0, env)
    requires |fs.dir| == 16 && Lookup(fs.dir, "b") == None
    ensures Lookup(Create(fs, "b", 0, env).0.dir, "a") == None
  {
    CreatedDir(fs, "b", 0, env);
    var dir1 := Create(fs, "b", 0, env).0.dir;
    LookupInside(fs.dir, "a", 0);
    LookupInside(dir1, "a", 0);
  }

  // With a buffer missing in the search for a slot, creating "b" takes the name "a" away.
  lemma NameLost(n: int)
    requires 6 <= n <= 4096
    ensures Format(n).Some?
    ensures var cut := ALL_OK.(io := DirIo(16, 0, true));
      var acts := [CreateFile("a", 0, ALL_OK), CreateFile("b", 0, cut)];
      Legal(Format(n).value, acts) && Lookup(After(Format(n).value, acts).dir, "a") == None
  {
    var cut := ALL_OK.(io := DirIo(16, 0, true));
    FirstFile(n);
    var fs := Format(n).value;
    var fs1 := Create(fs, "a", 0, ALL_OK).0;
    OneMore(fs1, "b", cut);
    OverFirst(fs1, cut);
    TwoSteps(fs, CreateFile("a", 0, ALL_OK), CreateFile("b", 0, cut));
  }
}
