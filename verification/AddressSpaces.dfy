/** Whole runs of the kernel over one physical memory: every process has a page
    directory made by create_page_dir, and mappings come and go through
    whichever directory is loaded. */
module AddressSpaces {
  import opened Words
  import opened PhysicalMemory
  import opened Paging
  import opened PageTables
  import opened KernelMap
  import opened PageTableOps
  import opened FramePool
  import opened Cpu

  /** Memory; the frames in use, among them all that palloc has handed out; the
      frames that hold directories, and the one in CR3; for each table allocated
      for a user address the directory entry it serves; and for each frame that
      page_table_add mapped the table entry it was last mapped at. */
  datatype Kernel = Kernel(m: Ram, taken: set<Frame>, dirs: set<Frame>, cr3: Frame,
                           owner: map<Frame, (Frame, nat)>, pages: map<Frame, (Frame, nat)>)

  // ----- The invariant -----

  /** Frames from the pool: mem_pool_init starts it where the boot page
      structures end. */
  predicate InPool(pd: nat, f: Frame) { f >= pd + 256 }

  ghost predicate KernelEntries(m: Ram, pd: nat, d: Frame)
    requires Placed(pd)
  {
    && (forall i: nat :: 768 <= i < 1023 ==> Entry(m, d, i) == DirEntry(pd, i))
    && Entry(m, d, 1023) == 4096 * d + 7
  }

  /** The boot directory's entry 0 names the first kernel table for ever. Any
      other user entry is absent, or names a table allocated for it alone. */
  ghost predicate UserEntry(k: Kernel, pd: nat, d: Frame, i: nat)
    requires i < 768
  {
    var e := Entry(k.m, d, i);
    if d == pd && i == 0 then Present(e) && FrameOf(e) == pd + 1
    else Present(e) ==> FrameOf(e) in k.owner && k.owner[FrameOf(e)] == (d, i)
  }

  ghost predicate Frames(k: Kernel, pd: nat)
  {
    && pd in k.dirs && k.cr3 in k.dirs
    && (forall d :: d in k.dirs ==> d == pd || (InPool(pd, d) && d in k.taken))
    && (forall t :: t in k.owner ==> InPool(pd, t) && t in k.taken && t !in k.dirs)
  }

  ghost predicate Inv(k: Kernel, pd: nat)
  {
    && Placed(pd) && Frames(k, pd)
    && (forall d :: d in k.dirs ==> KernelEntries(k.m, pd, d))
    && (forall d, i: nat :: d in k.dirs && i < 768 ==> UserEntry(k, pd, d, i))
  }

  /** The state the loader hands over: one directory, no user tables. */
  function AtBoot(m: Ram, pd: nat): Kernel
    requires Placed(pd)
  {
    Kernel(m, {}, {pd}, pd, map[], map[])
  }

  lemma BootInv(m: Ram, pd: nat)
    requires Mapped(m, pd)
    ensures Inv(AtBoot(m, pd), pd)
  {
    hide Entry;
    var k := AtBoot(m, pd);
    assert Entry(m, pd, 1023) == DirEntry(pd, 1023);
    forall i: nat | i < 768
      ensures UserEntry(k, pd, pd, i)
    {
      BuiltPde(m, pd, i);
    }
  }

  lemma InvSelfMapped(k: Kernel, pd: nat, d: Frame)
    requires Inv(k, pd) && d in k.dirs
    ensures SelfMapped(k.m, d)
  {
    hide Entry;
    assert KernelEntries(k.m, pd, d);
    FrameOfEntry(d);
  }

  /** The table behind a present entry: never a directory; a kernel table, an
      owned one, or the first kernel table through the boot directory. */
  lemma TableBehind(k: Kernel, pd: nat, d: Frame, i: nat)
    requires Inv(k, pd) && d in k.dirs && i < 1023
    ensures 768 <= i ==> Present(Entry(k.m, d, i)) && FrameOf(Entry(k.m, d, i)) == pd + (i - 767)
    ensures Present(Entry(k.m, d, i)) ==>
              var t := FrameOf(Entry(k.m, d, i));
              && t !in k.dirs
              && (i < 768 ==> (t in k.owner && k.owner[t] == (d, i)) || (d == pd && i == 0 && t == pd + 1))
  {
    hide Entry;
    if i < 768 {
      assert UserEntry(k, pd, d, i);
    } else {
      assert KernelEntries(k.m, pd, d);
      assert Entry(k.m, d, i) == DirEntry(pd, i);
      FrameOfEntry(pd + (i - 767));
    }
  }

  lemma BootEntryPresent(k: Kernel, pd: nat)
    requires Inv(k, pd)
    ensures Present(Entry(k.m, pd, 0)) && FrameOf(Entry(k.m, pd, 0)) == pd + 1
  {
    hide Entry;
    assert UserEntry(k, pd, pd, 0);
  }

  // ----- The steps of a run -----

  datatype Step =
    | Map(va: u32, frame: Frame, table: Frame)  // page_table_add, palloc answering table
    | Unmap(va: u32)                            // page_table_pte_remove
    | NewDir(dva: u32, frame: Frame)            // create_page_dir
    | Switch(d: Frame)                          // page_dir_activate
    | Take(f: Frame)                            // palloc for a data page
    | Write(at: u32, b: u8)                     // any store outside directories and user tables

  /** A frame that palloc may hand out: FramePool.Pool.Palloc answers a frame
      that is not among those it handed out before. */
  predicate Fresh(k: Kernel, pd: nat, f: Frame)
  {
    InPool(pd, f) && f !in k.taken
  }

  ghost predicate Enabled(k: Kernel, pd: nat, s: Step)
  {
    match s
    case Map(va, frame, table) =>
      && va < WINDOW && Unmapped(k.m, k.cr3, va)
      && (HasTable(k.m, k.cr3, va) || Fresh(k, pd, table))
    case Unmap(va) => va < WINDOW && HasTable(k.m, k.cr3, va)
    case NewDir(dva, frame) =>
      && HIGHER_HALF <= dva < WINDOW && dva % 0x1000 == 0
      && Fresh(k, pd, frame) && Unmapped(k.m, k.cr3, dva)
    case Switch(d) => d in k.dirs
    case Take(f) => Fresh(k, pd, f)
    case Write(at, b) => at / 0x1000 !in k.dirs && at / 0x1000 !in k.owner
  }

  ghost function Apply(k: Kernel, pd: nat, s: Step): Kernel
    requires Enabled(k, pd, s)
  {
    match s
    case Map(va, frame, table) =>
      var n := k.(m := AddMapping(k.m, k.cr3, va, frame, table).value);
      if HasTable(k.m, k.cr3, va) then
        var t := FrameOf(Entry(k.m, k.cr3, PdIndex(va)));
        n.(taken := k.taken + {frame}, pages := k.pages[frame := (t, PtIndex(va))])
      else
        n.(taken := k.taken + {frame, table}, owner := k.owner[table := (k.cr3, PdIndex(va))],
           pages := k.pages[frame := (table, PtIndex(va))])
    case Unmap(va) => k.(m := RemoveMapping(k.m, k.cr3, va).value)
    case NewDir(dva, frame) =>
      k.(m := NewDirectory(k.m, k.cr3, dva, frame, frame).value, taken := k.taken + {frame}, dirs := k.dirs + {frame})
    case Switch(d) => k.(cr3 := d)
    case Take(f) => k.(taken := k.taken + {f})
    case Write(at, b) => k.(m := k.m[at := b])
  }

  ghost predicate Run(k: Kernel, pd: nat, steps: seq<Step>, last: Kernel)
    decreases |steps|
  {
    if steps == [] then last == k
    else Enabled(k, pd, steps[0]) && Run(Apply(k, pd, steps[0]), pd, steps[1..], last)
  }

  // ----- Which entries a step changes -----

  /** page_table_add leaves every directory entry alone but, for a user address
      without a table, the one it links. */
  lemma MapEntries(k: Kernel, pd: nat, va: u32, frame: Frame, table: Frame, g: Frame, j: nat)
    requires Inv(k, pd) && Enabled(k, pd, Map(va, frame, table)) && j < 1024
    ensures var n := Apply(k, pd, Map(va, frame, table)).m;
            var pde := Entry(k.m, k.cr3, PdIndex(va));
            Entry(n, g, j) ==
            if Present(pde) then (if g == FrameOf(pde) && j == PtIndex(va) then 4096 * frame + 7 else Entry(k.m, g, j))
            else if g == table then (if j == PtIndex(va) then 4096 * frame + 7 else 0)
            else if g == k.cr3 && j == PdIndex(va) then 4096 * table + 7
            else Entry(k.m, g, j)
  {
    hide Entry, AddMapping;
    if HasTable(k.m, k.cr3, va) {
      AddWithTable(k.m, k.cr3, va, frame, table, g, j);
    } else {
      AddNewTable(k.m, k.cr3, va, frame, table, g, j);
    }
  }

  lemma MapKeepsInv(k: Kernel, pd: nat, va: u32, frame: Frame, table: Frame)
    requires Inv(k, pd) && Enabled(k, pd, Map(va, frame, table))
    ensures Inv(Apply(k, pd, Map(va, frame, table)), pd)
  {
    hide Entry, AddMapping;
    var n := Apply(k, pd, Map(va, frame, table));
    TableBehind(k, pd, k.cr3, PdIndex(va));
    forall d | d in k.dirs
      ensures KernelEntries(n.m, pd, d)
    {
      assert KernelEntries(k.m, pd, d);
      forall i: nat | 768 <= i < 1024
        ensures Entry(n.m, d, i) == Entry(k.m, d, i)
      {
        MapEntries(k, pd, va, frame, table, d, i);
      }
    }
    forall d, i: nat | d in k.dirs && i < 768
      ensures UserEntry(n, pd, d, i)
    {
      assert UserEntry(k, pd, d, i);
      MapEntries(k, pd, va, frame, table, d, i);
      FrameOfEntry(table);
    }
  }

  lemma SameDirectoriesKeepInv(k: Kernel, n: Kernel, pd: nat)
    requires Inv(k, pd) && n.dirs == k.dirs && n.owner == k.owner && k.taken <= n.taken && n.cr3 in k.dirs
    requires forall d, i: nat :: d in k.dirs && i < 1024 ==> Entry(n.m, d, i) == Entry(k.m, d, i)
    ensures Inv(n, pd)
  {
    hide Entry;
    forall d | d in k.dirs
      ensures KernelEntries(n.m, pd, d)
    {
      assert KernelEntries(k.m, pd, d);
    }
    forall d, i: nat | d in k.dirs && i < 768
      ensures UserEntry(n, pd, d, i)
    {
      assert UserEntry(k, pd, d, i);
    }
  }

  lemma UnmapKeepsInv(k: Kernel, pd: nat, va: u32)
    requires Inv(k, pd) && Enabled(k, pd, Unmap(va))
    ensures Inv(Apply(k, pd, Unmap(va)), pd)
  {
    hide Entry, SetEntry;
    var n := Apply(k, pd, Unmap(va));
    TableBehind(k, pd, k.cr3, PdIndex(va));
    SameDirectoriesKeepInv(k, n, pd) by {
      forall d, i: nat | d in k.dirs && i < 1024
        ensures Entry(n.m, d, i) == Entry(k.m, d, i)
      {
        RemoveWithTable(k.m, k.cr3, va, d, i);
      }
    }
  }

  /** create_page_dir: the new frame becomes a directory with an empty user
      half; elsewhere only the entry that maps dva changes. */
  lemma NewDirEntries(k: Kernel, pd: nat, dva: u32, frame: Frame, g: Frame, j: nat)
    requires Inv(k, pd) && Enabled(k, pd, NewDir(dva, frame)) && j < 1024
    ensures var n := Apply(k, pd, NewDir(dva, frame)).m;
            Entry(n, g, j) ==
            if g == frame then
              (if j < 768 then 0 else if j < 1023 then Entry(k.m, k.cr3, j) else 4096 * frame + 7)
            else if g == pd + (PdIndex(dva) - 767) && j == PtIndex(dva) then 4096 * frame + 7
            else Entry(k.m, g, j)
  {
    hide Entry, AddMapping, FilledDirectory;
    TableBehind(k, pd, k.cr3, PdIndex(dva));
    WhenDefined(k.m, k.cr3, dva, frame, frame);
    var m1 := AddMapping(k.m, k.cr3, dva, frame, frame).value;
    FilledEntries(m1, k.cr3, frame, g, j);
    AddWithTable(k.m, k.cr3, dva, frame, frame, g, j);
    AddWithTable(k.m, k.cr3, dva, frame, frame, k.cr3, j);
  }

  lemma NewDirKeepsInv(k: Kernel, pd: nat, dva: u32, frame: Frame)
    requires Inv(k, pd) && Enabled(k, pd, NewDir(dva, frame))
    ensures Inv(Apply(k, pd, NewDir(dva, frame)), pd)
  {
    hide Entry, NewDirectory;
    var n := Apply(k, pd, NewDir(dva, frame));
    assert KernelEntries(k.m, pd, k.cr3);
    forall d | d in n.dirs
      ensures KernelEntries(n.m, pd, d)
    {
      assert d in k.dirs ==> KernelEntries(k.m, pd, d);
      NewDirEntries(k, pd, dva, frame, d, 1023);
      forall i: nat | 768 <= i < 1023
        ensures Entry(n.m, d, i) == DirEntry(pd, i)
      {
        NewDirEntries(k, pd, dva, frame, d, i);
      }
    }
    forall d, i: nat | d in n.dirs && i < 768
      ensures UserEntry(n, pd, d, i)
    {
      assert d in k.dirs ==> UserEntry(k, pd, d, i);
      NewDirEntries(k, pd, dva, frame, d, i);
    }
  }

  lemma WriteEntries(k: Kernel, pd: nat, at: u32, b: u8, g: Frame, j: nat)
    requires Enabled(k, pd, Write(at, b)) && j < 1024 && g != at / 0x1000
    ensures Entry(k.m[at := b], g, j) == Entry(k.m, g, j)
  {
  }

  lemma WriteKeepsInv(k: Kernel, pd: nat, at: u32, b: u8)
    requires Inv(k, pd) && Enabled(k, pd, Write(at, b))
    ensures Inv(Apply(k, pd, Write(at, b)), pd)
  {
    hide Entry;
    var n := Apply(k, pd, Write(at, b));
    forall d, i: nat | d in k.dirs && i < 1024
      ensures Entry(n.m, d, i) == Entry(k.m, d, i)
    {
      WriteEntries(k, pd, at, b, d, i);
    }
    SameDirectoriesKeepInv(k, n, pd);
  }

  lemma SwitchKeepsInv(k: Kernel, pd: nat, d: Frame)
    requires Inv(k, pd) && Enabled(k, pd, Switch(d))
    ensures Inv(Apply(k, pd, Switch(d)), pd)
  {
    hide Entry;
    SameDirectoriesKeepInv(k, Apply(k, pd, Switch(d)), pd);
  }

  lemma TakeKeepsInv(k: Kernel, pd: nat, f: Frame)
    requires Inv(k, pd) && Enabled(k, pd, Take(f))
    ensures Inv(Apply(k, pd, Take(f)), pd)
  {
    hide Entry;
    SameDirectoriesKeepInv(k, Apply(k, pd, Take(f)), pd);
  }

  lemma StepKeepsInv(k: Kernel, pd: nat, s: Step)
    requires Inv(k, pd) && Enabled(k, pd, s)
    ensures Inv(Apply(k, pd, s), pd)
  {
    hide Entry, Inv, Apply, Enabled;
    match s
    case Map(va, frame, table) => MapKeepsInv(k, pd, va, frame, table);
    case Unmap(va) => UnmapKeepsInv(k, pd, va);
    case NewDir(dva, frame) => NewDirKeepsInv(k, pd, dva, frame);
    case Switch(d) => SwitchKeepsInv(k, pd, d);
    case Take(f) => TakeKeepsInv(k, pd, f);
    case Write(at, b) => WriteKeepsInv(k, pd, at, b);
  }

  lemma {:induction false} RunKeepsInv(k: Kernel, pd: nat, steps: seq<Step>, last: Kernel)
    requires Inv(k, pd) && Run(k, pd, steps, last)
    ensures Inv(last, pd)
    decreases |steps|
  {
    hide Inv, Apply, Enabled;
    if steps != [] {
      StepKeepsInv(k, pd, steps[0]);
      RunKeepsInv(Apply(k, pd, steps[0]), pd, steps[1..], last);
    }
  }

  // ----- Sharing -----

  /** Every directory translates the kernel's addresses alike. */
  ghost predicate KernelShared(m: Ram, dirs: set<Frame>)
  {
    forall d, e, va: u32 :: d in dirs && e in dirs && HIGHER_HALF <= va < WINDOW ==>
      Translate(m, d, va) == Translate(m, e, va)
  }

  lemma InvShares(k: Kernel, pd: nat)
    requires Inv(k, pd)
    ensures KernelShared(k.m, k.dirs)
  {
    hide Entry, Inv;
    forall d, e, va: u32 | d in k.dirs && e in k.dirs && HIGHER_HALF <= va < WINDOW
      ensures Translate(k.m, d, va) == Translate(k.m, e, va)
    {
      TableBehind(k, pd, d, PdIndex(va));
      TableBehind(k, pd, e, PdIndex(va));
    }
  }

  /** After any run from the state the loader leaves, all processes share the
      kernel's half, because its directory entries were filled in up front. */
  lemma RunShares(m: Ram, pd: nat, steps: seq<Step>, last: Kernel)
    requires Mapped(m, pd) && Run(AtBoot(m, pd), pd, steps, last)
    ensures forall d, e, va: u32 :: d in last.dirs && e in last.dirs && 0xC000_0000 <= va < 0xFFC0_0000 ==>
              Translate(last.m, d, va) == Translate(last.m, e, va)
  {
    hide Run, Inv, Translate;
    BootInv(m, pd);
    RunKeepsInv(AtBoot(m, pd), pd, steps, last);
    InvShares(last, pd);
  }

  lemma InvFrames(k: Kernel, pd: nat)
    requires Inv(k, pd)
    ensures Frames(k, pd)
  {
  }

  /** Mapping a kernel address never asks palloc for a table: whatever it would
      answer, the result is the same. */
  lemma KernelMapsNeedNoTable(k: Kernel, pd: nat, va: u32, frame: Frame, t1: Frame, t2: Frame)
    requires Inv(k, pd) && HIGHER_HALF <= va < WINDOW
    ensures AddMapping(k.m, k.cr3, va, frame, t1) == AddMapping(k.m, k.cr3, va, frame, t2)
  {
    hide Entry, Inv;
    InvFrames(k, pd);
    TableBehind(k, pd, k.cr3, PdIndex(va));
  }

  // ----- Exact effect on every address space -----

  /** The walks for va under d and for vb under e end at the same table entry. */
  ghost predicate SameSlot(m: Ram, d: Frame, va: u32, e: Frame, vb: u32)
  {
    var p, q := Entry(m, d, PdIndex(va)), Entry(m, e, PdIndex(vb));
    Present(p) && Present(q) && FrameOf(p) == FrameOf(q) && PtIndex(va) == PtIndex(vb)
  }

  /** vb lies in the page of the window that shows va's table. */
  predicate ShowsTableOf(vb: u32, va: u32) { vb / 0x1000 == PteWindow(va) / 0x1000 }

  lemma IndexBounds(va: u32)
    ensures PdIndex(va) < 1024 && PtIndex(va) < 1024 && (va < WINDOW <==> PdIndex(va) < 1023)
  {
  }

  lemma MapExactBelow(k: Kernel, pd: nat, va: u32, frame: Frame, table: Frame, d: Frame, vb: u32)
    requires Inv(k, pd) && Enabled(k, pd, Map(va, frame, table)) && d in k.dirs && vb < WINDOW
    ensures var n := Apply(k, pd, Map(va, frame, table)).m;
            Translate(n, d, vb) ==
            if SameSlot(n, d, vb, k.cr3, va) then Some(4096 * frame + vb % 0x1000) else Translate(k.m, d, vb)
    ensures !ShowsTableOf(vb, va)
  {
    hide Entry, AddMapping, Inv, PdIndex, PtIndex, Present, FrameOf;
    IndexBounds(va);
    IndexBounds(vb);
    InvFrames(k, pd);
    TableBehind(k, pd, k.cr3, PdIndex(va));
    TableBehind(k, pd, d, PdIndex(vb));
    FrameOfEntry(frame);
    FrameOfEntry(table);
    AbsentZero();
    var n := Apply(k, pd, Map(va, frame, table)).m;
    MapEntries(k, pd, va, frame, table, k.cr3, PdIndex(va));
    MapEntries(k, pd, va, frame, table, d, PdIndex(vb));
    MapEntries(k, pd, va, frame, table, FrameOf(Entry(n, d, PdIndex(vb))), PtIndex(vb));
  }

  lemma WindowWalk(k: Kernel, pd: nat, d: Frame, vb: u32)
    requires Inv(k, pd) && d in k.dirs && vb >= WINDOW
    ensures PdIndex(vb) == 1023 && Present(Entry(k.m, d, 1023)) && FrameOf(Entry(k.m, d, 1023)) == d
    ensures var e := Entry(k.m, d, PtIndex(vb));
            Translate(k.m, d, vb) == if Present(e) then Some(4096 * FrameOf(e) + vb % 0x1000) else None
  {
    hide Entry;
    assert KernelEntries(k.m, pd, d);
    FrameOfEntry(d);
    assert PdIndex(vb) == 1023;
  }

  lemma PageOfIndices(va: u32)
    ensures va / 0x1000 == 1024 * PdIndex(va) + PtIndex(va)
  {
  }

  lemma WindowPage(va: u32, vb: u32)
    requires vb >= WINDOW
    ensures ShowsTableOf(vb, va) <==> PtIndex(vb) == PdIndex(va)
  {
    WindowSplit(va);
    PageOfIndices(vb);
    PageOfIndices(PteWindow(va));
    assert PdIndex(vb) == 1023;
  }

  /** In the window a directory is its own table. */
  lemma MapExactWindow(k: Kernel, pd: nat, va: u32, frame: Frame, table: Frame, d: Frame, vb: u32)
    requires Inv(k, pd) && Enabled(k, pd, Map(va, frame, table)) && d in k.dirs && vb >= WINDOW
    ensures var n := Apply(k, pd, Map(va, frame, table)).m;
            && !SameSlot(n, d, vb, k.cr3, va)
            && Translate(n, d, vb) ==
               if d == k.cr3 && !HasTable(k.m, k.cr3, va) && ShowsTableOf(vb, va) then Some(4096 * table + vb % 0x1000)
               else Translate(k.m, d, vb)
  {
    hide Entry, AddMapping, Inv, PdIndex, PtIndex, Present, FrameOf;
    var s := Map(va, frame, table);
    IndexBounds(va);
    IndexBounds(vb);
    InvFrames(k, pd);
    MapKeepsInv(k, pd, va, frame, table);
    TableBehind(k, pd, k.cr3, PdIndex(va));
    TableBehind(Apply(k, pd, s), pd, k.cr3, PdIndex(va));
    WindowWalk(k, pd, d, vb);
    WindowWalk(Apply(k, pd, s), pd, d, vb);
    FrameOfEntry(table);
    MapEntries(k, pd, va, frame, table, d, PtIndex(vb));
    WindowPage(va, vb);
  }

  /** page_table_add changes the translation of exactly the addresses whose
      walk ends at the entry it fills in, in every address space: those now go
      to the given frame. When it links a new table, the window of the loaded
      directory shows that table, too. All other addresses go where they went
      before. */
  lemma MapExact(k: Kernel, pd: nat, va: u32, frame: Frame, table: Frame, d: Frame, vb: u32)
    requires Inv(k, pd) && Enabled(k, pd, Map(va, frame, table)) && d in k.dirs
    ensures var n := Apply(k, pd, Map(va, frame, table)).m;
            Translate(n, d, vb) ==
            if SameSlot(n, d, vb, k.cr3, va) then Some(4096 * frame + vb % 0x1000)
            else if d == k.cr3 && !HasTable(k.m, k.cr3, va) && ShowsTableOf(vb, va) then
              Some(4096 * table + vb % 0x1000)
            else Translate(k.m, d, vb)
  {
    hide Entry, AddMapping, Inv, PdIndex, PtIndex, Present, FrameOf;
    IndexBounds(vb);
    if vb < WINDOW {
      MapExactBelow(k, pd, va, frame, table, d, vb);
    } else {
      MapExactWindow(k, pd, va, frame, table, d, vb);
    }
  }

  lemma UnmapNeedsTable(k: Kernel, pd: nat, va: u32)
    requires Enabled(k, pd, Unmap(va))
    ensures Present(Entry(k.m, k.cr3, PdIndex(va)))
  {
  }

  /** The window never shows a changed entry: a table is not a directory. */
  lemma UnmapExactWindow(k: Kernel, pd: nat, va: u32, d: Frame, vb: u32)
    requires Inv(k, pd) && Enabled(k, pd, Unmap(va)) && d in k.dirs && vb >= WINDOW
    ensures !SameSlot(k.m, d, vb, k.cr3, va)
    ensures Translate(Apply(k, pd, Unmap(va)).m, d, vb) == Translate(k.m, d, vb)
  {
    hide Entry, SetEntry, RemoveMapping, Inv, PdIndex, PtIndex, FrameOf, Present;
    IndexBounds(va);
    IndexBounds(vb);
    InvFrames(k, pd);
    UnmapKeepsInv(k, pd, va);
    TableBehind(k, pd, k.cr3, PdIndex(va));
    WindowWalk(k, pd, d, vb);
    WindowWalk(Apply(k, pd, Unmap(va)), pd, d, vb);
    UnmapNeedsTable(k, pd, va);
    RemoveWithTable(k.m, k.cr3, va, d, PtIndex(vb));
  }

  lemma NeverPresent(e: u32)
    ensures !Present(WithoutPresent(e))
  {
  }

  lemma UnmapExactBelow(k: Kernel, pd: nat, va: u32, d: Frame, vb: u32)
    requires Inv(k, pd) && Enabled(k, pd, Unmap(va)) && d in k.dirs && vb < WINDOW
    ensures var n := Apply(k, pd, Unmap(va)).m;
            Translate(n, d, vb) == if SameSlot(k.m, d, vb, k.cr3, va) then None else Translate(k.m, d, vb)
  {
    hide Entry, SetEntry, RemoveMapping, Inv, PdIndex, PtIndex, FrameOf;
    IndexBounds(va);
    IndexBounds(vb);
    InvFrames(k, pd);
    TableBehind(k, pd, k.cr3, PdIndex(va));
    TableBehind(k, pd, d, PdIndex(vb));
    UnmapNeedsTable(k, pd, va);
    RemoveWithTable(k.m, k.cr3, va, d, PdIndex(vb));
    RemoveWithTable(k.m, k.cr3, va, FrameOf(Entry(k.m, d, PdIndex(vb))), PtIndex(vb));
    NeverPresent(Entry(k.m, FrameOf(Entry(k.m, d, PdIndex(vb))), PtIndex(vb)));
  }

  /** page_table_pte_remove makes exactly those addresses fault. */
  lemma UnmapExact(k: Kernel, pd: nat, va: u32, d: Frame, vb: u32)
    requires Inv(k, pd) && Enabled(k, pd, Unmap(va)) && d in k.dirs
    ensures var n := Apply(k, pd, Unmap(va)).m;
            Translate(n, d, vb) == if SameSlot(k.m, d, vb, k.cr3, va) then None else Translate(k.m, d, vb)
  {
    hide Entry, SetEntry, RemoveMapping, Inv, PdIndex, PtIndex, FrameOf;
    IndexBounds(vb);
    if vb < WINDOW {
      UnmapExactBelow(k, pd, va, d, vb);
    } else {
      UnmapExactWindow(k, pd, va, d, vb);
    }
  }

  lemma UserIndices(va: u32, vb: u32)
    requires va < HIGHER_HALF
    ensures PdIndex(va) < 768 && (va < 0x40_0000 <==> PdIndex(va) == 0)
    ensures vb / 0x1000 == va / 0x1000 <==> PdIndex(vb) == PdIndex(va) && PtIndex(vb) == PtIndex(va)
    ensures va < 0x40_0000 ==>
              (vb / 0x1000 == va / 0x1000 + 0xC_0000 <==> PdIndex(vb) == 768 && PtIndex(vb) == PtIndex(va))
  {
    PageOfIndices(va);
    PageOfIndices(vb);
  }

  /** The slot of a user address belongs to one page of one address space, with
      one exception: the boot directory's low 4 MB show the first kernel table,
      which every address space shows from 3 GB on. */
  lemma UserSlotsApart(k: Kernel, pd: nat, c: Frame, va: u32, d: Frame, vb: u32)
    requires Inv(k, pd) && c in k.dirs && d in k.dirs && va < HIGHER_HALF
    ensures SameSlot(k.m, d, vb, c, va) <==>
            && HasTable(k.m, c, va)
            && (|| (d == c && vb / 0x1000 == va / 0x1000)
                || (c == pd && va < 0x40_0000 && vb / 0x1000 == va / 0x1000 + 0xC_0000))
  {
    hide Entry, Inv, Present, FrameOf, PdIndex, PtIndex;
    IndexBounds(va);
    IndexBounds(vb);
    InvFrames(k, pd);
    BootEntryPresent(k, pd);
    UserIndices(va, vb);
    TableBehind(k, pd, c, PdIndex(va));
    if vb < WINDOW {
      TableBehind(k, pd, d, PdIndex(vb));
    } else {
      WindowWalk(k, pd, d, vb);
    }
  }

  /** Slots of kernel addresses are shared by all directories, page by page. */
  lemma KernelSlotsShared(k: Kernel, pd: nat, c: Frame, va: u32, d: Frame, vb: u32)
    requires Inv(k, pd) && c in k.dirs && d in k.dirs
    requires HIGHER_HALF <= va < WINDOW && HIGHER_HALF <= vb < WINDOW
    ensures SameSlot(k.m, d, vb, c, va) <==> vb / 0x1000 == va / 0x1000
  {
    hide Entry, Inv, Present, FrameOf;
    TableBehind(k, pd, c, PdIndex(va));
    TableBehind(k, pd, d, PdIndex(vb));
    PageOfIndices(va);
    PageOfIndices(vb);
  }

  lemma MappedSlot(k: Kernel, pd: nat, va: u32, frame: Frame, table: Frame, vb: u32)
    requires Inv(k, pd) && Enabled(k, pd, Map(va, frame, table))
    requires vb / 0x1000 == va / 0x1000
    ensures SameSlot(Apply(k, pd, Map(va, frame, table)).m, k.cr3, vb, k.cr3, va)
  {
    hide Entry, AddMapping, Inv;
    PageOfIndices(va);
    PageOfIndices(vb);
    InvFrames(k, pd);
    TableBehind(k, pd, k.cr3, PdIndex(va));
    FrameOfEntry(table);
    MapEntries(k, pd, va, frame, table, k.cr3, PdIndex(va));
  }

  /** Process isolation: what one process maps or unmaps below 3 GB, no other
      address space sees. */
  lemma UserMapIsolated(k: Kernel, pd: nat, va: u32, frame: Frame, table: Frame, d: Frame, vb: u32)
    requires Inv(k, pd) && Enabled(k, pd, Map(va, frame, table)) && d in k.dirs
    requires va < HIGHER_HALF && (k.cr3 == pd ==> va >= 0x40_0000)
    ensures var n := Apply(k, pd, Map(va, frame, table)).m;
            Translate(n, d, vb) ==
            if d == k.cr3 && vb / 0x1000 == va / 0x1000 then Some(4096 * frame + vb % 0x1000)
            else if d == k.cr3 && !HasTable(k.m, k.cr3, va) && ShowsTableOf(vb, va) then
              Some(4096 * table + vb % 0x1000)
            else Translate(k.m, d, vb)
  {
    hide Entry, AddMapping, Inv, Translate;
    var s := Map(va, frame, table);
    InvFrames(k, pd);
    StepKeepsInv(k, pd, s);
    MapExact(k, pd, va, frame, table, d, vb);
    UserSlotsApart(Apply(k, pd, s), pd, k.cr3, va, d, vb);
    if d == k.cr3 && vb / 0x1000 == va / 0x1000 {
      MappedSlot(k, pd, va, frame, table, vb);
    }
  }

  lemma UserUnmapIsolated(k: Kernel, pd: nat, va: u32, d: Frame, vb: u32)
    requires Inv(k, pd) && Enabled(k, pd, Unmap(va)) && d in k.dirs
    requires va < HIGHER_HALF && (k.cr3 == pd ==> va >= 0x40_0000)
    ensures var n := Apply(k, pd, Unmap(va)).m;
            Translate(n, d, vb) ==
            if d == k.cr3 && vb / 0x1000 == va / 0x1000 then None else Translate(k.m, d, vb)
  {
    hide Entry, RemoveMapping, Inv, Translate;
    InvFrames(k, pd);
    UnmapExact(k, pd, va, d, vb);
    UserSlotsApart(k, pd, k.cr3, va, d, vb);
    if d == k.cr3 && vb / 0x1000 == va / 0x1000 {
      UnmapNeedsTable(k, pd, va);
      PageOfIndices(va);
      PageOfIndices(vb);
    }
  }

  /** A page the kernel maps in one process appears in every process, and
      nothing else of the kernel's half moves. */
  lemma KernelMapSeenByAll(k: Kernel, pd: nat, va: u32, frame: Frame, table: Frame, d: Frame, vb: u32)
    requires Inv(k, pd) && Enabled(k, pd, Map(va, frame, table)) && d in k.dirs
    requires HIGHER_HALF <= va < WINDOW && HIGHER_HALF <= vb < WINDOW
    ensures var n := Apply(k, pd, Map(va, frame, table)).m;
            Translate(n, d, vb) ==
            if vb / 0x1000 == va / 0x1000 then Some(4096 * frame + vb % 0x1000) else Translate(k.m, d, vb)
  {
    hide Entry, AddMapping, Inv, Translate;
    var s := Map(va, frame, table);
    InvFrames(k, pd);
    StepKeepsInv(k, pd, s);
    MapExact(k, pd, va, frame, table, d, vb);
    KernelSlotsShared(Apply(k, pd, s), pd, k.cr3, va, d, vb);
  }

  /** A new process starts with an empty user half and the kernel's half as all
      others see it; they see one new kernel page, its directory. */
  lemma NewAddressSpace(k: Kernel, pd: nat, dva: u32, frame: Frame, d: Frame, vb: u32)
    requires Inv(k, pd) && Enabled(k, pd, NewDir(dva, frame)) && d in k.dirs && vb < WINDOW
    ensures var n := Apply(k, pd, NewDir(dva, frame)).m;
            && (vb < HIGHER_HALF ==> Translate(n, frame, vb) == None)
            && (vb >= HIGHER_HALF ==>
                  Translate(n, frame, vb) == Translate(n, d, vb) ==
                  if vb / 0x1000 == dva / 0x1000 then Some(4096 * frame + vb % 0x1000) else Translate(k.m, d, vb))
            && (0x40_0000 <= vb < HIGHER_HALF ==> Translate(n, d, vb) == Translate(k.m, d, vb))
  {
    hide Entry, NewDirectory, Inv, Present, FrameOf;
    var n := Apply(k, pd, NewDir(dva, frame)).m;
    AbsentZero();
    FrameOfEntry(frame);
    InvFrames(k, pd);
    PageOfIndices(vb);
    PageOfIndices(dva);
    TableBehind(k, pd, d, PdIndex(vb));
    TableBehind(k, pd, k.cr3, PdIndex(vb));
    NewDirEntries(k, pd, dva, frame, frame, PdIndex(vb));
    NewDirEntries(k, pd, dva, frame, d, PdIndex(vb));
    NewDirEntries(k, pd, dva, frame, FrameOf(Entry(k.m, d, PdIndex(vb))), PtIndex(vb));
  }

  /** A store outside the page structures moves no address anywhere; a store
      to a kernel table may, but then in all address spaces at once. */
  lemma WriteMovesNothing(k: Kernel, pd: nat, at: u32, b: u8, d: Frame, va: u32)
    requires Inv(k, pd) && Enabled(k, pd, Write(at, b)) && d in k.dirs && va < WINDOW
    requires !(pd < at / 0x1000 < pd + 256)
    ensures Translate(Apply(k, pd, Write(at, b)).m, d, va) == Translate(k.m, d, va)
  {
    hide Entry, Inv, FrameOf;
    IndexBounds(va);
    InvFrames(k, pd);
    TableBehind(k, pd, d, PdIndex(va));
    WriteEntries(k, pd, at, b, d, PdIndex(va));
    if Present(Entry(k.m, d, PdIndex(va))) {
      WriteEntries(k, pd, at, b, FrameOf(Entry(k.m, d, PdIndex(va))), PtIndex(va));
    }
  }

  /** page_dir_activate reads a process's CR3 value with addr_v2p through the
      directory that happens to be loaded; the answer is the same in every
      address space. */
  lemma SamePhysicalEverywhere(k: Kernel, pd: nat, d: Frame, e: Frame, va: u32, p: u32)
    requires Inv(k, pd) && d in k.dirs && e in k.dirs && HIGHER_HALF <= va < WINDOW
    requires Translate(k.m, d, va) == Some(p)
    ensures AddrV2P(k.m, e, va) == Some(p)
  {
    hide Inv, Translate, AddrV2P, Entry, SelfMapped;
    InvShares(k, pd);
    InvSelfMapped(k, pd, e);
    AddrV2PIsTranslate(k.m, e, va);
  }

  // ----- Private memory -----

  /** In the runs of the kernel every frame that is mapped comes from palloc,
      first the data frame and then, if need be, the one for the table. */
  ghost predicate Palloced(k: Kernel, pd: nat, s: Step)
  {
    Enabled(k, pd, s) &&
    match s
    case Map(va, frame, table) => Fresh(k, pd, frame) && (HasTable(k.m, k.cr3, va) || table != frame)
    case _ => true
  }

  ghost predicate PallocRun(k: Kernel, pd: nat, steps: seq<Step>, last: Kernel)
    decreases |steps|
  {
    if steps == [] then last == k
    else Palloced(k, pd, steps[0]) && PallocRun(Apply(k, pd, steps[0]), pd, steps[1..], last)
  }

  ghost predicate MapsItsPage(k: Kernel, t: Frame, j: nat)
    requires j < 1024
  {
    var e := Entry(k.m, t, j);
    Present(e) ==> FrameOf(e) in k.pages && k.pages[FrameOf(e)] == (t, j)
  }

  /** Every frame that an owned table maps was mapped at that entry last, and
      it is a frame of the pools, neither a directory nor a table. */
  ghost predicate Private(k: Kernel, pd: nat)
  {
    && (forall t, j: nat :: t in k.owner && j < 1024 ==> MapsItsPage(k, t, j))
    && (forall f :: f in k.pages ==> InPool(pd, f) && f in k.taken && f !in k.dirs && f !in k.owner)
  }

  lemma BootPrivate(m: Ram, pd: nat)
    requires Placed(pd)
    ensures Private(AtBoot(m, pd), pd)
  {
  }

  lemma MapKeepsPrivate(k: Kernel, pd: nat, va: u32, frame: Frame, table: Frame)
    requires Inv(k, pd) && Private(k, pd) && Palloced(k, pd, Map(va, frame, table))
    ensures Private(Apply(k, pd, Map(va, frame, table)), pd)
  {
    hide Entry, AddMapping, Inv, PdIndex, PtIndex, Present, FrameOf;
    var n := Apply(k, pd, Map(va, frame, table));
    IndexBounds(va);
    InvFrames(k, pd);
    FrameOfEntry(frame);
    AbsentZero();
    TableBehind(k, pd, k.cr3, PdIndex(va));
    forall t, j: nat | t in n.owner && j < 1024
      ensures MapsItsPage(n, t, j)
    {
      assert t in k.owner ==> MapsItsPage(k, t, j);
      MapEntries(k, pd, va, frame, table, t, j);
    }
  }

  lemma UnmapKeepsPrivate(k: Kernel, pd: nat, va: u32)
    requires Inv(k, pd) && Private(k, pd) && Enabled(k, pd, Unmap(va))
    ensures Private(Apply(k, pd, Unmap(va)), pd)
  {
    hide Entry, RemoveMapping, Inv, PdIndex, PtIndex, FrameOf, Present, WithoutPresent;
    var n := Apply(k, pd, Unmap(va));
    IndexBounds(va);
    UnmapNeedsTable(k, pd, va);
    forall t, j: nat | t in n.owner && j < 1024
      ensures MapsItsPage(n, t, j)
    {
      assert MapsItsPage(k, t, j);
      RemoveWithTable(k.m, k.cr3, va, t, j);
      NeverPresent(Entry(k.m, t, j));
    }
  }

  lemma NewDirKeepsPrivate(k: Kernel, pd: nat, dva: u32, frame: Frame)
    requires Inv(k, pd) && Private(k, pd) && Enabled(k, pd, NewDir(dva, frame))
    ensures Private(Apply(k, pd, NewDir(dva, frame)), pd)
  {
    hide Entry, NewDirectory, Inv, PtIndex, Present, FrameOf;
    var n := Apply(k, pd, NewDir(dva, frame));
    InvFrames(k, pd);
    forall t, j: nat | t in n.owner && j < 1024
      ensures MapsItsPage(n, t, j)
    {
      assert MapsItsPage(k, t, j);
      NewDirEntries(k, pd, dva, frame, t, j);
    }
  }

  lemma WriteKeepsPrivate(k: Kernel, pd: nat, at: u32, b: u8)
    requires Private(k, pd) && Enabled(k, pd, Write(at, b))
    ensures Private(Apply(k, pd, Write(at, b)), pd)
  {
    hide Entry, Present, FrameOf;
    var n := Apply(k, pd, Write(at, b));
    forall t, j: nat | t in n.owner && j < 1024
      ensures MapsItsPage(n, t, j)
    {
      assert MapsItsPage(k, t, j);
      WriteEntries(k, pd, at, b, t, j);
    }
  }

  lemma LooseKeepsPrivate(k: Kernel, pd: nat, s: Step)
    requires Private(k, pd) && Enabled(k, pd, s) && (s.Switch? || s.Take?)
    ensures Private(Apply(k, pd, s), pd)
  {
    hide Entry;
    var n := Apply(k, pd, s);
    forall t, j: nat | t in n.owner && j < 1024
      ensures MapsItsPage(n, t, j)
    {
      assert MapsItsPage(k, t, j);
    }
  }

  lemma StepKeepsPrivate(k: Kernel, pd: nat, s: Step)
    requires Inv(k, pd) && Private(k, pd) && Palloced(k, pd, s)
    ensures Private(Apply(k, pd, s), pd)
  {
    match s
    case Map(va, frame, table) => MapKeepsPrivate(k, pd, va, frame, table);
    case Unmap(va) => UnmapKeepsPrivate(k, pd, va);
    case NewDir(dva, frame) => NewDirKeepsPrivate(k, pd, dva, frame);
    case Write(at, b) => WriteKeepsPrivate(k, pd, at, b);
    case _ => LooseKeepsPrivate(k, pd, s);
  }

  /** After any such run from the booted state the user memory is private. */
  lemma {:induction false} RunKeepsPrivate(k: Kernel, pd: nat, steps: seq<Step>, last: Kernel)
    requires Inv(k, pd) && Private(k, pd) && PallocRun(k, pd, steps, last)
    ensures Inv(last, pd) && Private(last, pd) && Run(k, pd, steps, last)
    decreases |steps|
  {
    hide Inv, Apply, Private, Enabled;
    if steps != [] {
      StepKeepsInv(k, pd, steps[0]);
      StepKeepsPrivate(k, pd, steps[0]);
      RunKeepsPrivate(Apply(k, pd, steps[0]), pd, steps[1..], last);
    }
  }

  lemma RunsFromBootArePrivate(m: Ram, pd: nat, steps: seq<Step>, last: Kernel)
    requires Mapped(m, pd) && PallocRun(AtBoot(m, pd), pd, steps, last)
    ensures Inv(last, pd) && Private(last, pd)
  {
    hide Inv, Private, PallocRun, Run;
    BootInv(m, pd);
    BootPrivate(m, pd);
    RunKeepsPrivate(AtBoot(m, pd), pd, steps, last);
  }

  lemma ThreeSteps(k: Kernel, pd: nat, a: Step, b: Step, c: Step)
    requires Enabled(k, pd, a) && Enabled(Apply(k, pd, a), pd, b)
    requires Enabled(Apply(Apply(k, pd, a), pd, b), pd, c)
    ensures var k1 := Apply(k, pd, a);
            var k2 := Apply(k1, pd, b);
            && Run(k, pd, [a, b, c], Apply(k2, pd, c))
            && (Palloced(k, pd, a) && Palloced(k1, pd, b) && Palloced(k2, pd, c) ==>
                  PallocRun(k, pd, [a, b, c], Apply(k2, pd, c)))
  {
    hide Enabled, Apply, Fresh, HasTable;
    var k1 := Apply(k, pd, a);
    var k2 := Apply(k1, pd, b);
    var k3 := Apply(k2, pd, c);
    assert [c][1..] == [] && Run(k2, pd, [c], k3);
    assert [b, c][1..] == [c] && Run(k1, pd, [b, c], k3);
    assert [a, b, c][1..] == [b, c];
    if Palloced(k, pd, a) && Palloced(k1, pd, b) && Palloced(k2, pd, c) {
      assert PallocRun(k2, pd, [c], k3);
      assert PallocRun(k1, pd, [b, c], k3);
    }
  }

  /** Such runs exist: wherever the loader left a kernel page unmapped, a
      process can be created there, loaded, and given its first user page. */
  lemma FirstProcess(m: Ram, pd: nat, dva: u32, va: u32, data: Frame) returns (last: Kernel)
    requires Mapped(m, pd) && pd + 258 < FRAMES
    requires HIGHER_HALF <= dva < WINDOW && dva % 0x1000 == 0 && Unmapped(m, pd, dva)
    requires va < HIGHER_HALF
    ensures var steps := [NewDir(dva, pd + 256), Switch(pd + 256), Map(va, data, pd + 257)];
            && Run(AtBoot(m, pd), pd, steps, last)
            && (data > pd + 257 ==> PallocRun(AtBoot(m, pd), pd, steps, last))
    ensures Inv(last, pd) && last.cr3 == pd + 256
    ensures Translate(last.m, pd + 256, va) == Some(4096 * data + va % 0x1000)
  {
    hide Entry, NewDirectory, AddMapping, Inv, Translate;
    var dir, table: Frame := pd + 256, pd + 257;
    var k0 := AtBoot(m, pd);
    BootInv(m, pd);
    var k1 := Apply(k0, pd, NewDir(dva, dir));
    NewDirKeepsInv(k0, pd, dva, dir);
    var k2 := Apply(k1, pd, Switch(dir));
    SwitchKeepsInv(k1, pd, dir);
    NewDirEntries(k0, pd, dva, dir, dir, PdIndex(va));
    AbsentZero();
    assert Enabled(k2, pd, Map(va, data, table));
    last := Apply(k2, pd, Map(va, data, table));
    MapKeepsInv(k2, pd, va, data, table);
    UserMapIsolated(k2, pd, va, data, table, dir, va);
    ThreeSteps(k0, pd, NewDir(dva, dir), Switch(dir), Map(va, data, table));
  }

  /** A user address of a process: anything below 3 GB, but for the boot
      directory's view of the first kernel table. */
  predicate UserAddress(pd: nat, d: Frame, va: u32) { va < HIGHER_HALF && (d == pd ==> va >= 0x40_0000) }

  /** The frame behind a mapped user address, and the entry it is mapped at. */
  lemma UserFrame(k: Kernel, pd: nat, d: Frame, va: u32)
    requires Inv(k, pd) && Private(k, pd) && d in k.dirs && UserAddress(pd, d, va) && Translate(k.m, d, va).Some?
    ensures var f: Frame := Translate(k.m, d, va).value / 0x1000;
            && InPool(pd, f) && f in k.taken && f !in k.dirs && f !in k.owner
            && f in k.pages && k.pages[f].0 in k.owner
            && k.owner[k.pages[f].0] == (d, PdIndex(va)) && k.pages[f].1 == PtIndex(va)
  {
    hide Entry, Inv, Present, FrameOf, PdIndex, PtIndex;
    IndexBounds(va);
    UserIndices(va, va);
    TableBehind(k, pd, d, PdIndex(va));
    var t := FrameOf(Entry(k.m, d, PdIndex(va)));
    assert MapsItsPage(k, t, PtIndex(va));
  }

  lemma SameOffset(m: Ram, d: Frame, va: u32)
    requires Translate(m, d, va).Some?
    ensures Translate(m, d, va).value % 0x1000 == va % 0x1000
  {
    hide Entry;
  }

  lemma SamePageFrame(m: Ram, d: Frame, va: u32, vb: u32)
    requires va / 0x1000 == vb / 0x1000 && Translate(m, d, va).Some? && Translate(m, d, vb).Some?
    ensures Translate(m, d, va).value / 0x1000 == Translate(m, d, vb).value / 0x1000
  {
    hide Entry;
  }

  /** No two user pages share a frame, whether in one address space or in two,
      and none shows a directory, a table, or a frame the loader used. */
  lemma UserFramesPrivate(k: Kernel, pd: nat, d: Frame, va: u32, e: Frame, vb: u32)
    requires Inv(k, pd) && Private(k, pd) && d in k.dirs && e in k.dirs
    requires va < 0xC000_0000 && (d == pd ==> va >= 0x40_0000) && vb < 0xC000_0000 && (e == pd ==> vb >= 0x40_0000)
    requires Translate(k.m, d, va).Some? && Translate(k.m, e, vb).Some?
    ensures var p, q := Translate(k.m, d, va).value, Translate(k.m, e, vb).value;
            && (p / 0x1000 == q / 0x1000 <==> d == e && va / 0x1000 == vb / 0x1000)
            && (p == q <==> d == e && va == vb)
            && p / 0x1000 >= pd + 256 && p / 0x1000 !in k.dirs && p / 0x1000 !in k.owner
  {
    hide Entry, Inv, Private, Present, FrameOf, PdIndex, PtIndex;
    UserFrame(k, pd, d, va);
    UserFrame(k, pd, e, vb);
    UserIndices(va, vb);
    SameOffset(k.m, d, va);
    SameOffset(k.m, e, vb);
    if d == e && va / 0x1000 == vb / 0x1000 {
      SamePageFrame(k.m, d, va, vb);
    }
  }

  /** Process isolation of memory: a store to a user address is a Write step,
      moves no address below the window in any address space, and is seen at no
      other user address of any process. */
  lemma UserStorePrivate(k: Kernel, pd: nat, d: Frame, va: u32, b: u8, e: Frame, vb: u32)
    requires Inv(k, pd) && Private(k, pd) && d in k.dirs && e in k.dirs && Translate(k.m, d, va).Some?
    requires va < 0xC000_0000 && (d == pd ==> va >= 0x40_0000) && vb < 0xC000_0000 && (e == pd ==> vb >= 0x40_0000)
    ensures var s := Write(Translate(k.m, d, va).value, b);
            && Enabled(k, pd, s)
            && Store8(k.m, Mmu(true, d), va, b) == Some(Apply(k, pd, s).m)
            && Translate(Apply(k, pd, s).m, e, vb) == Translate(k.m, e, vb)
            && Load8(Apply(k, pd, s).m, Mmu(true, e), vb) ==
               if d == e && va == vb then Some(b) else Load8(k.m, Mmu(true, e), vb)
  {
    hide Entry, Inv, Private, Present, FrameOf, PdIndex, PtIndex, Translate;
    var p := Translate(k.m, d, va).value;
    UserFrame(k, pd, d, va);
    WriteMovesNothing(k, pd, p, b, e, vb);
    if Translate(k.m, e, vb).Some? {
      UserFramesPrivate(k, pd, d, va, e, vb);
    }
  }

  // ----- The machine and the pools take these steps -----

  /** kernel_pool and user_pool. */
  datatype Allocators = Allocators(kernel: Pool, user: Pool) {
    /** The pool for data frames. */
    function Data(isUser: bool): Pool { if isUser then user else kernel }
  }

  /** The machine is in kernel state k. */
  ghost predicate InState(cpu: Machine, k: Kernel)
    requires cpu.Valid()
    reads cpu, cpu.mem
  {
    cpu.Ram() == k.m && cpu.mmu == Mmu(true, k.cr3)
  }

  ghost predicate Knows(pool: Pool, issued: set<Frame>, taken: set<Frame>)
  {
    forall f :: f in taken && pool.Manages(f) ==> f in issued
  }

  /** The frames of the pool that are in use count as handed out. */
  ghost predicate Tracks(k: Kernel, pd: nat, pool: Pool)
    reads pool.bitmap.bits
  {
    pool.Valid() && InPool(pd, pool.start) && Knows(pool, pool.Issued(), k.taken)
  }

  lemma KnowsMore(pool: Pool, issued: set<Frame>, taken: set<Frame>, f: Frame)
    requires Knows(pool, issued, taken)
    ensures Knows(pool, issued + {f}, taken) && Knows(pool, issued + {f}, taken + {f})
    ensures !pool.Manages(f) ==> Knows(pool, issued, taken + {f})
  {
  }

  /** The machine and both pools agree with k: a frame of a pool counts as
      handed out exactly when it is in use. */
  ghost predicate Ready(cpu: Machine, k: Kernel, pd: nat, a: Allocators)
    reads cpu, cpu.mem, a.kernel.bitmap.bits, a.user.bitmap.bits
  {
    && cpu.Valid() && InState(cpu, k) && Inv(k, pd) && Private(k, pd)
    && Tracks(k, pd, a.kernel) && Tracks(k, pd, a.user)
    && a.kernel.Issued() <= k.taken && a.user.Issued() <= k.taken
    && a.kernel.start + 8 * a.kernel.bitmap.len <= a.user.start
    && a.kernel.bitmap.bits != a.user.bitmap.bits
    && cpu.mem != a.kernel.bitmap.bits && cpu.mem != a.user.bitmap.bits
  }

  lemma ReadyMeans(cpu: Machine, k: Kernel, pd: nat, a: Allocators)
    requires Ready(cpu, k, pd, a)
    ensures cpu.Ram() == k.m && cpu.mmu == Mmu(true, k.cr3) && a.kernel.Valid() && a.user.Valid()
  {
    hide Inv, Private, Knows, IssuedFrames;
  }

  /** So the state fixes what the pools can still hand out. */
  lemma PoolsAreTaken(cpu: Machine, k: Kernel, pd: nat, a: Allocators, isUser: bool)
    requires Ready(cpu, k, pd, a)
    ensures var pool := a.Data(isUser);
            && (forall f: Frame :: pool.Available(f) <==> pool.Manages(f) && f !in k.taken)
            && (pool.Full() <==> forall f: Frame :: pool.Manages(f) ==> f in k.taken)
  {
    hide Inv, Private, IssuedFrames, InState;
  }

  /** The frames a step may take into use. */
  function TakenBy(s: Step): set<Frame>
  {
    match s
    case Map(_, frame, table) => {frame, table}
    case NewDir(_, frame) => {frame}
    case Take(f) => {f}
    case _ => {}
  }

  ghost function TakenByAll(steps: seq<Step>): set<Frame>
  {
    if steps == [] then {} else TakenBy(steps[0]) + TakenByAll(steps[1..])
  }

  lemma StepTakes(k: Kernel, pd: nat, s: Step)
    requires Enabled(k, pd, s)
    ensures k.taken <= Apply(k, pd, s).taken <= k.taken + TakenBy(s)
  {
  }

  /** A run takes no other frames than its steps name, and gives none back. */
  lemma {:induction false} RunTakes(k: Kernel, pd: nat, steps: seq<Step>, last: Kernel)
    requires PallocRun(k, pd, steps, last)
    ensures k.taken <= last.taken <= k.taken + TakenByAll(steps)
    decreases |steps|
  {
    hide Enabled, Fresh, HasTable;
    if steps != [] {
      StepTakes(k, pd, steps[0]);
      RunTakes(Apply(k, pd, steps[0]), pd, steps[1..], last);
    }
  }

  /** The state the loader leaves is one in which the kernel's operations may
      start, for any two pools behind the page structures that have handed out
      nothing yet. */
  lemma BootReady(cpu: Machine, pd: nat, a: Allocators)
    requires cpu.Valid() && KernelPaging(cpu.Ram(), cpu.mmu, pd) && a.kernel.Valid() && a.user.Valid()
    requires InPool(pd, a.kernel.start) && a.kernel.start + 8 * a.kernel.bitmap.len <= a.user.start
    requires a.kernel.bitmap.bits != a.user.bitmap.bits
    requires cpu.mem != a.kernel.bitmap.bits && cpu.mem != a.user.bitmap.bits
    requires a.kernel.Issued() == {} && a.user.Issued() == {}
    ensures Ready(cpu, AtBoot(cpu.Ram(), pd), pd, a)
  {
    hide Mapped, Inv, Private, IssuedFrames;
    BootInv(cpu.Ram(), pd);
    BootPrivate(cpu.Ram(), pd);
  }

  /** mem_pool_init in that state, with the directory at 1 MB where the loader
      puts it, whatever the memory size: the pools are ready, lie where the
      layout puts them, and have all their frames to hand out. */
  method StartPools(cpu: Machine, allMem: u32, heapStart: u32, kernelBits: array<u8>, userBits: array<u8>,
                    heapBits: array<u8>)
    returns (a: Allocators, heap: VirtualAddr)
    requires cpu.Valid() && KernelPaging(cpu.Ram(), cpu.mmu, 0x100)
    requires kernelBits.Length > 0x1000 && userBits.Length > 0x1000 && heapBits.Length > 0x1000
    requires kernelBits != userBits && userBits != heapBits && kernelBits != heapBits
    requires cpu.mem !in {kernelBits, userBits, heapBits}
    modifies kernelBits, userBits, heapBits
    ensures Ready(cpu, AtBoot(cpu.Ram(), 0x100), 0x100, a) && a.kernel.Issued() == {} && a.user.Issued() == {}
    ensures a.kernel.bitmap.bits == kernelBits && a.user.bitmap.bits == userBits
    ensures var p := MemPoolInit(allMem);
            && PG_SIZE * a.kernel.start == p.kernelStart && PG_SIZE * a.user.start == p.userStart
            && a.kernel.bitmap.len == heap.bitmap.len == p.kernelPages / 8 && a.user.bitmap.len == p.userPages / 8
    ensures heap.Valid() && heap.start == heapStart && heap.bitmap.bits == heapBits
    ensures forall i :: 0 <= i < heap.bitmap.len ==> heapBits[i] == 0
  {
    hide Mapped, Ready, IssuedFrames;
    PoolLayout(allMem);
    var kernel, user;
    kernel, user, heap := InitPools(allMem, heapStart, kernelBits, userBits, heapBits);
    a := Allocators(kernel, user);
    BootReady(cpu, 0x100, a);
  }

  lemma UnknownIsFresh(k: Kernel, pd: nat, pool: Pool, issued: set<Frame>, f: Frame)
    requires InPool(pd, pool.start) && Knows(pool, issued, k.taken) && pool.Manages(f) && f !in issued
    ensures Fresh(k, pd, f)
  {
  }

  /** No directory and no kernel table is ever handed out. */
  lemma StructuresHeld(k: Kernel, pd: nat, pool: Pool)
    requires Inv(k, pd) && Tracks(k, pd, pool)
    ensures KernelTablesHeld(k.m, k.cr3, pool)
  {
    hide Entry, Inv, Present, FrameOf, SelfMapped, IssuedFrames;
    InvFrames(k, pd);
    InvSelfMapped(k, pd, k.cr3);
    forall i: nat | 768 <= i < 1023
      ensures Present(Entry(k.m, k.cr3, i)) && FrameOf(Entry(k.m, k.cr3, i)) != k.cr3
      ensures !pool.Available(FrameOf(Entry(k.m, k.cr3, i)))
    {
      TableBehind(k, pd, k.cr3, i);
    }
  }

  lemma OneStep(k: Kernel, pd: nat, s: Step)
    requires Inv(k, pd) && Private(k, pd) && Palloced(k, pd, s)
    ensures PallocRun(k, pd, [s], Apply(k, pd, s))
    ensures Inv(Apply(k, pd, s), pd) && Private(Apply(k, pd, s), pd)
  {
    hide Inv, Private, Apply, Enabled;
    StepKeepsInv(k, pd, s);
    StepKeepsPrivate(k, pd, s);
    assert [s][1..] == [];
  }

  lemma {:induction false} RunsCompose(k: Kernel, pd: nat, first: seq<Step>, mid: Kernel,
                                       second: seq<Step>, last: Kernel)
    requires PallocRun(k, pd, first, mid) && PallocRun(mid, pd, second, last)
    ensures PallocRun(k, pd, first + second, last)
    decreases |first|
  {
    hide Apply, Enabled, Fresh, HasTable;
    if first == [] {
      assert first + second == second;
    } else {
      assert (first + second)[1..] == first[1..] + second;
      RunsCompose(Apply(k, pd, first[0]), pd, first[1..], mid, second, last);
    }
  }

  lemma MapOutcome(k: Kernel, pd: nat, va: u32, frame: Frame, table: Frame)
    requires va < WINDOW && AddMapping(k.m, k.cr3, va, frame, table).Some? && Fresh(k, pd, frame)
    requires HasTable(k.m, k.cr3, va) || (Fresh(k, pd, table) && table != frame)
    ensures Palloced(k, pd, Map(va, frame, table))
    ensures var n := Apply(k, pd, Map(va, frame, table));
            && n.m == AddMapping(k.m, k.cr3, va, frame, table).value && n.cr3 == k.cr3
            && n.taken == if HasTable(k.m, k.cr3, va) then k.taken + {frame} else k.taken + {frame} + {table}
  {
    hide AddMapping, Unmapped;
    WhenDefined(k.m, k.cr3, va, frame, table);
  }

  lemma TakeOutcome(k: Kernel, pd: nat, frame: Frame)
    requires Fresh(k, pd, frame)
    ensures Palloced(k, pd, Take(frame)) && Apply(k, pd, Take(frame)) == k.(taken := k.taken + {frame})
  {
  }

  lemma NoSteps(k: Kernel, pd: nat)
    ensures PallocRun(k, pd, [], k)
  {
  }

  ghost predicate Free(pool: Pool, issued: set<Frame>, f: Frame) { pool.Manages(f) && f !in issued }

  /** The pools have a frame for the page and, if need be, one more for its
      table. */
  ghost predicate FramesLeft(data: Pool, dataIssued: set<Frame>, kernel: Pool, kernelIssued: set<Frame>, forTable: bool)
  {
    exists f :: Free(data, dataIssued, f) && (forTable ==> exists g :: Free(kernel, kernelIssued, g) && g != f)
  }

  ghost predicate CanMap(k: Kernel, a: Allocators, isUser: bool, va: u32)
    requires a.kernel.Valid() && a.user.Valid()
    reads a.kernel.bitmap.bits, a.user.bitmap.bits
  {
    && Unmapped(k.m, k.cr3, va)
    && FramesLeft(a.Data(isUser), a.Data(isUser).Issued(), a.kernel, a.kernel.Issued(), !HasTable(k.m, k.cr3, va))
  }

  /** CanMap in terms of translation and of the pools. */
  lemma CanMapInWords(k: Kernel, a: Allocators, isUser: bool, va: u32)
    requires a.kernel.Valid() && a.user.Valid() && SelfMapped(k.m, k.cr3)
    ensures CanMap(k, a, isUser, va) <==>
            && Translate(k.m, k.cr3, va) == None
            && exists f: Frame :: (if isUser then a.user.Available(f) else a.kernel.Available(f))
                 && (Translate(k.m, k.cr3, PteWindow(va)).Some? || exists g: Frame :: a.kernel.Available(g) && g != f)
  {
    hide Translate, HasTable, Unmapped, IssuedFrames, SelfMapped, PteWindow;
    UnmappedFaults(k.m, k.cr3, va);
    assert forall f: Frame :: a.kernel.Available(f) <==> Free(a.kernel, a.kernel.Issued(), f);
    assert forall f: Frame :: a.user.Available(f) <==> Free(a.user, a.user.Issued(), f);
  }

  /** Why page va is not mapped after a stop, without a data frame or with one
      taken for nothing. */
  ghost predicate Stopped(k: Kernel, a: Allocators, isUser: bool, va: u32, noFrame: bool)
    requires a.kernel.Valid() && a.user.Valid()
    reads a.kernel.bitmap.bits, a.user.bitmap.bits
  {
    || !Unmapped(k.m, k.cr3, va)
    || (noFrame && a.Data(isUser).Full())
    || (!noFrame && !HasTable(k.m, k.cr3, va) && a.kernel.Full())
  }

  /** Once frame f0 is taken, the pools had frames for both exactly if the
      kernel pool has one left. */
  lemma SecondFrame(a: Allocators, isUser: bool, dataIssued: set<Frame>, kernelIssued: set<Frame>, f0: Frame,
                    after: set<Frame>)
    requires Free(a.Data(isUser), dataIssued, f0) && (!isUser ==> kernelIssued == dataIssued)
    requires a.kernel.start + 8 * a.kernel.bitmap.len <= a.user.start
    requires after == if isUser then kernelIssued else kernelIssued + {f0}
    ensures FramesLeft(a.Data(isUser), dataIssued, a.kernel, kernelIssued, false)
    ensures FramesLeft(a.Data(isUser), dataIssued, a.kernel, kernelIssued, true) <==>
            exists g :: Free(a.kernel, after, g)
  {
    if g :| Free(a.kernel, after, g) {
      assert Free(a.kernel, kernelIssued, g) && g != f0;
    }
    if f, g :| Free(a.Data(isUser), dataIssued, f) && Free(a.kernel, kernelIssued, g) && g != f {
      assert Free(a.kernel, after, g) || Free(a.kernel, after, f);
    }
  }

  lemma FullMeans(pool: Pool)
    requires pool.Valid()
    ensures pool.Full() <==> !exists g :: Free(pool, pool.Issued(), g)
  {
    hide IssuedFrames;
    if !pool.Full() {
      var g :| pool.Manages(g) && g !in pool.Issued();
      assert Free(pool, pool.Issued(), g);
    }
  }

  lemma FreeMeans(pool: Pool, issued: set<Frame>, f: Frame)
    ensures Free(pool, issued, f) <==> pool.Manages(f) && f !in issued
  {
  }

  lemma NoFrames(a: Allocators, isUser: bool, forTable: bool)
    requires a.kernel.Valid() && a.user.Valid()
    ensures a.Data(isUser).Full() ==>
              !FramesLeft(a.Data(isUser), a.Data(isUser).Issued(), a.kernel, a.kernel.Issued(), forTable)
  {
    hide IssuedFrames;
  }

  lemma UnmappedWithoutTable(m: Ram, d: Frame, va: u32)
    ensures !HasTable(m, d, va) ==> Unmapped(m, d, va)
  {
    hide Entry;
  }

  /** The data frames and the table frames of a run of pages. */
  ghost function DataFrames(steps: seq<Step>): set<Frame>
  {
    set s | s in steps && (s.Map? || s.Take?) :: if s.Map? then s.frame else s.f
  }

  ghost function TableFrames(steps: seq<Step>): set<Frame>
  {
    set s | s in steps && s.Map? :: s.table
  }

  lemma FramesAppend(x: seq<Step>, y: seq<Step>)
    ensures DataFrames(x + y) == DataFrames(x) + DataFrames(y)
    ensures TableFrames(x + y) == TableFrames(x) + TableFrames(y)
  {
  }

  lemma FramesOfOne(s: Step)
    ensures DataFrames([s]) == if s.Map? then {s.frame} else if s.Take? then {s.f} else {}
    ensures TableFrames([s]) == if s.Map? then {s.table} else {}
    ensures DataFrames([]) == {} && TableFrames([]) == {}
  {
  }

  lemma MappedThere(k: Kernel, pd: nat, va: u32, frame: Frame, table: Frame)
    requires Inv(k, pd) && Enabled(k, pd, Map(va, frame, table))
    ensures Translate(Apply(k, pd, Map(va, frame, table)).m, k.cr3, va) == Some(4096 * frame + va % 0x1000)
  {
    hide Inv, Entry, AddMapping, Translate;
    InvFrames(k, pd);
    MapExact(k, pd, va, frame, table, k.cr3, va);
    MappedSlot(k, pd, va, frame, table, va);
  }

  /** How the pools have grown over a run of pages: user pages come from the
      user pool and kernel pages from the kernel pool, as do all tables. */
  ghost predicate Grown(a: Allocators, isUser: bool, k0: set<Frame>, u0: set<Frame>, k1: set<Frame>, u1: set<Frame>,
                        steps: seq<Step>)
  {
    && (forall f :: f in DataFrames(steps) ==> a.Data(isUser).Manages(f))
    && if isUser then u1 == u0 + DataFrames(steps) && k0 <= k1 <= k0 + TableFrames(steps)
       else u1 == u0 && k0 + DataFrames(steps) <= k1 <= k0 + DataFrames(steps) + TableFrames(steps)
  }

  /** The first data frame is the lowest that was left. */
  ghost predicate LowestFirst(pool: Pool, used: set<Frame>, steps: seq<Step>)
  {
    steps != [] ==> forall f: Frame, g: Frame :: f in DataFrames(steps[..1]) && Free(pool, used, g) ==> f <= g
  }

  lemma GrownMeans(a: Allocators, isUser: bool, k0: set<Frame>, u0: set<Frame>, k1: set<Frame>, u1: set<Frame>,
                   steps: seq<Step>)
    requires Grown(a, isUser, k0, u0, k1, u1, steps) && LowestFirst(a.Data(isUser), if isUser then u0 else k0, steps)
    ensures isUser ==> u1 == u0 + DataFrames(steps) && k0 <= k1 <= k0 + TableFrames(steps)
    ensures !isUser ==>
              u1 == u0 && k0 + DataFrames(steps) <= k1 && k1 <= k0 + DataFrames(steps) + TableFrames(steps)
    ensures forall f :: f in DataFrames(steps) ==> if isUser then a.user.Manages(f) else a.kernel.Manages(f)
    ensures steps != [] && isUser ==>
              forall f: Frame, g: Frame :: f in DataFrames(steps[..1]) && a.user.Manages(g) && g !in u0 ==> f <= g
    ensures steps != [] && !isUser ==>
              forall f: Frame, g: Frame :: f in DataFrames(steps[..1]) && a.kernel.Manages(g) && g !in k0 ==> f <= g
  {
    hide DataFrames, TableFrames, Free;
    forall g: Frame
      ensures Free(a.Data(isUser), if isUser then u0 else k0, g) <==>
              if isUser then a.user.Manages(g) && g !in u0 else a.kernel.Manages(g) && g !in k0
    {
      FreeMeans(a.Data(isUser), if isUser then u0 else k0, g);
    }
  }

  lemma NothingGrown(a: Allocators, isUser: bool, k0: set<Frame>, u0: set<Frame>)
    ensures Grown(a, isUser, k0, u0, k0, u0, []) && LowestFirst(a.Data(isUser), if isUser then u0 else k0, [])
  {
  }

  lemma GrownOnce(a: Allocators, isUser: bool, k0: set<Frame>, u0: set<Frame>, k1: set<Frame>, u1: set<Frame>,
                  frame: Frame, s: Step)
    requires (s.Map? && s.frame == frame) || (s.Take? && s.f == frame)
    requires a.Data(isUser).Manages(frame)
    requires isUser ==> forall g: Frame :: a.user.start <= g < frame ==> g in u0
    requires !isUser ==> forall g: Frame :: a.kernel.start <= g < frame ==> g in k0
    requires u1 == if isUser then u0 + {frame} else u0
    requires var k := if isUser then k0 else k0 + {frame};
             k1 == k || (s.Map? && k1 == k + {s.table})
    ensures Grown(a, isUser, k0, u0, k1, u1, [s]) && LowestFirst(a.Data(isUser), if isUser then u0 else k0, [s])
  {
    hide DataFrames, TableFrames;
    FramesOfOne(s);
    assert [s][..1] == [s];
  }

  lemma GrownMore(a: Allocators, isUser: bool, k0: set<Frame>, u0: set<Frame>, k1: set<Frame>, u1: set<Frame>,
                  k2: set<Frame>, u2: set<Frame>, steps: seq<Step>, more: seq<Step>)
    requires Grown(a, isUser, k0, u0, k1, u1, steps) && LowestFirst(a.Data(isUser), if isUser then u0 else k0, steps)
    requires Grown(a, isUser, k1, u1, k2, u2, more) && LowestFirst(a.Data(isUser), if isUser then u1 else k1, more)
    ensures Grown(a, isUser, k0, u0, k2, u2, steps + more)
    ensures LowestFirst(a.Data(isUser), if isUser then u0 else k0, steps + more)
  {
    hide DataFrames, TableFrames, Free;
    FramesAppend(steps, more);
    FramesOfOne(Take(0));
    if steps != [] {
      assert (steps + more)[..1] == steps[..1];
    } else {
      assert steps + more == more && k1 == k0 && u1 == u0;
    }
  }

  /** A frame from palloc for a page, and page_table_add, as malloc_page and
      get_a_page call them. Exactly when the page is not mapped and the pools
      have the frames, it takes the Map step; otherwise it stops, with memory
      unchanged, and with the data frame taken if there was one. */
  method MapPage(cpu: Machine, pd: nat, ghost k: Kernel, a: Allocators, isUser: bool, va: u32)
    returns (mapped: bool, ghost k': Kernel, ghost steps: seq<Step>)
    requires Ready(cpu, k, pd, a) && va < WINDOW
    modifies cpu.mem, a.kernel.bitmap.bits, a.user.bitmap.bits
    ensures Ready(cpu, k', pd, a) && PallocRun(k, pd, steps, k')
    ensures mapped <==> old(CanMap(k, a, isUser, va))
    ensures mapped ==>
              && |steps| == 1 && steps[0].Map? && steps[0].va == va
              && old(a.Data(isUser).Available(steps[0].frame))
              && Palloced(k, pd, steps[0]) && k' == Apply(k, pd, steps[0])
    ensures k'.cr3 == k.cr3 && (!mapped ==> k'.m == k.m && cpu.Ram() == old(cpu.Ram()))
    ensures !mapped ==>
              if old(a.Data(isUser).Full()) then steps == []
              else |steps| == 1 && steps[0].Take? && old(a.Data(isUser).Available(steps[0].f))
    ensures !mapped ==> Stopped(k', a, isUser, va, |steps| == 0)
    ensures mapped ==> Translate(cpu.Ram(), cpu.mmu.cr3, va) == Some(4096 * steps[0].frame + va % 0x1000)
    ensures Grown(a, isUser, old(a.kernel.Issued()), old(a.user.Issued()), a.kernel.Issued(), a.user.Issued(), steps)
    ensures LowestFirst(a.Data(isUser), old(a.Data(isUser).Issued()), steps)
  {
    hide AddMapping, Inv, Private, SelfMapped, Machine.Ram, IssuedFrames, Knows, HasTable, Unmapped, Apply, Enabled;
    hide PallocRun, FramesLeft, Free, Grown, LowestFirst, Translate;
    mapped, k', steps := false, k, [];
    NoSteps(k, pd);
    NothingGrown(a, isUser, a.kernel.Issued(), a.user.Issued());
    StructuresHeld(k, pd, a.kernel);
    FullMeans(a.Data(isUser));
    NoFrames(a, isUser, !HasTable(k.m, k.cr3, va));
    ghost var issued, kernelIssued, userIssued := a.Data(isUser).Issued(), a.kernel.Issued(), a.user.Issued();
    var panic, frame := a.Data(isUser).Palloc();
    if panic { return; }
    UnknownIsFresh(k, pd, a.Data(isUser), issued, frame);
    FreeMeans(a.Data(isUser), issued, frame);
    SecondFrame(a, isUser, issued, kernelIssued, frame, a.kernel.Issued());
    FullMeans(a.kernel);
    KnowsMore(a.kernel, kernelIssued, k.taken, frame);
    KnowsMore(a.user, userIssued, k.taken, frame);
    StructuresHeld(k, pd, a.kernel);
    UnmappedWithoutTable(k.m, k.cr3, va);
    ghost var table;
    ghost var before := a.kernel.Issued();
    mapped, table := PageTableAdd(cpu, a.kernel, va, frame);
    if mapped && !HasTable(k.m, k.cr3, va) {
      KnowsMore(a.kernel, before, k.taken + {frame}, table);
      KnowsMore(a.user, a.user.Issued(), k.taken + {frame}, table);
      UnknownIsFresh(k, pd, a.kernel, before, table);
    }
    if mapped { MapOutcome(k, pd, va, frame, table); }
    TakeOutcome(k, pd, frame);
    ghost var s := if mapped then Map(va, frame, table) else Take(frame);
    OneStep(k, pd, s);
    if mapped { MappedThere(k, pd, va, frame, table); }
    k', steps := Apply(k, pd, s), [s];
    GrownOnce(a, isUser, kernelIssued, userIssued, a.kernel.Issued(), a.user.Issued(), frame, s);
  }

  // ----- malloc_page -----

  /** Pages n of them from base on are mapped under the loaded directory, each
      to the frame of its Map step. */
  ghost predicate PagesMapped(k: Kernel, base: nat, steps: seq<Step>)
  {
    forall i: nat :: i < |steps| ==>
      && steps[i].Map? && steps[i].va == base + PG_SIZE * i
      && Translate(k.m, k.cr3, steps[i].va) == Some(4096 * steps[i].frame)
      && steps[i].frame in k.taken
  }

  ghost predicate FramesDiffer(steps: seq<Step>)
  {
    forall i, j :: 0 <= i < j < |steps| && steps[i].Map? && steps[j].Map? ==> steps[i].frame != steps[j].frame
  }

  lemma SlotsSymmetric(m: Ram, d: Frame, va: u32, vb: u32)
    ensures SameSlot(m, d, va, d, vb) <==> SameSlot(m, d, vb, d, va)
  {
    hide Entry;
  }

  /** Two pages of one address space, less than 3 GB apart, have their own
      entries. */
  lemma PagesApart(k: Kernel, pd: nat, d: Frame, va: u32, vb: u32)
    requires Inv(k, pd) && d in k.dirs && va < WINDOW && vb < WINDOW
    requires va / 0x1000 < vb / 0x1000 < va / 0x1000 + 0xC_0000
    ensures !SameSlot(k.m, d, va, d, vb)
  {
    hide Inv, Entry, SameSlot, HasTable;
    if vb < HIGHER_HALF {
      UserSlotsApart(k, pd, d, vb, d, va);
    } else if va >= HIGHER_HALF {
      KernelSlotsShared(k, pd, d, vb, d, va);
    } else {
      UserSlotsApart(k, pd, d, va, d, vb);
      SlotsSymmetric(k.m, d, va, vb);
    }
  }

  lemma PageNumbers(base: nat, i: nat, j: nat)
    requires base % 0x1000 == 0 && i < j < 0x1000
    ensures (base + PG_SIZE * i) / 0x1000 < (base + PG_SIZE * j) / 0x1000 < (base + PG_SIZE * i) / 0x1000 + 0xC_0000
    ensures (base + PG_SIZE * i) % 0x1000 == 0
  {
  }

  /** One more page leaves the earlier ones where they are. */
  lemma PageAfterPages(k: Kernel, pd: nat, base: nat, steps: seq<Step>, s: Step)
    requires Inv(k, pd) && PagesMapped(k, base, steps) && s.Map? && Palloced(k, pd, s)
    requires base % 0x1000 == 0 && |steps| < 0x1000
    requires s.va == base + PG_SIZE * |steps| && s.va < WINDOW
    requires FramesDiffer(steps)
    ensures PagesMapped(Apply(k, pd, s), base, steps + [s])
    ensures FramesDiffer(steps + [s])
  {
    hide Inv, Entry, AddMapping, Translate, SameSlot, HasTable;
    var n := Apply(k, pd, s);
    InvFrames(k, pd);
    MapKeepsInv(k, pd, s.va, s.frame, s.table);
    forall i: nat | i < |steps|
      ensures Translate(n.m, n.cr3, steps[i].va) == Some(4096 * steps[i].frame)
    {
      PageNumbers(base, i, |steps|);
      MapExactBelow(k, pd, s.va, s.frame, s.table, k.cr3, steps[i].va);
      PagesApart(n, pd, k.cr3, steps[i].va, s.va);
    }
    MapExactBelow(k, pd, s.va, s.frame, s.table, k.cr3, s.va);
    MappedSlot(k, pd, s.va, s.frame, s.table, s.va);
  }

  /** Whole pages below the window, the spilled one included. */
  predicate PageRange(vaddrs: VirtualAddr)
  {
    vaddrs.Valid() && vaddrs.start % 0x1000 == 0 && vaddrs.start + PG_SIZE * (8 * vaddrs.bitmap.len + 1) <= WINDOW
  }

  /** What a call of malloc_page has done when it stops at page number done:
      one Map step for each page before, in order and each to a frame of its
      own, and perhaps a data frame taken for nothing. */
  ghost predicate PagesDone(k: Kernel, base: nat, steps: seq<Step>, done: nat)
  {
    && done <= |steps| <= done + 1
    && PagesMapped(k, base, steps[..done]) && FramesDiffer(steps[..done])
    && (|steps| == done + 1 ==> steps[done].Take?)
  }

  lemma AllDone(k: Kernel, base: nat, steps: seq<Step>)
    requires PagesMapped(k, base, steps) && FramesDiffer(steps)
    ensures PagesDone(k, base, steps, |steps|)
  {
    assert steps[..|steps|] == steps;
  }

  lemma TakeKeepsPages(k: Kernel, pd: nat, base: nat, steps: seq<Step>, more: seq<Step>, k': Kernel)
    requires PagesMapped(k, base, steps) && FramesDiffer(steps) && k'.m == k.m && k'.cr3 == k.cr3
    requires PallocRun(k, pd, more, k') && (more == [] || (|more| == 1 && more[0].Take?))
    ensures PagesDone(k', base, steps + more, |steps|)
  {
    hide Translate, Entry;
    assert (steps + more)[..|steps|] == steps;
    if more != [] { assert more[1..] == []; }
  }

  lemma NoPages(k: Kernel, base: nat)
    ensures PagesMapped(k, base, []) && FramesDiffer([]) && PagesDone(k, base, [], 0)
  {
  }

  lemma FoundRange(vaddrs: VirtualAddr, before: seq<u8>, after: seq<u8>, cnt: nat, r: Scan)
    requires PageRange(vaddrs) && |before| == |after| == vaddrs.bitmap.bits.Length && cnt > 0 && r.At?
    requires Answered(before, after, vaddrs.bitmap.len, cnt, r)
    ensures var base := (vaddrs.start + PG_SIZE * r.start) % 0x1_0000_0000;
            base == vaddrs.start + PG_SIZE * r.start && base + PG_SIZE * cnt <= WINDOW && base % 0x1000 == 0
  {
    hide Taken, AllTaken;
  }

  lemma AllMapped(k: Kernel, base: nat, steps: seq<Step>)
    requires PagesMapped(k, base, steps) && FramesDiffer(steps)
    ensures forall i: nat :: i < |steps| ==>
              && steps[i].Map? && steps[i].va == base + 0x1000 * i
              && Translate(k.m, k.cr3, steps[i].va) == Some(0x1000 * steps[i].frame)
    ensures forall i: nat, j: nat :: i < j < |steps| ==> steps[i].frame != steps[j].frame
  {
    hide Translate;
  }

  /** malloc_page. The addresses are the scan's answer, marked as taken. The
      pages from there on are mapped one by one, to frames all different, until
      all are done or one cannot be mapped: it is mapped already, or the pools
      lack the frames. The call answers the first address exactly when the
      count is in range, the scan found a run, the process's assertion holds
      and all pages were mapped. */
  method MallocPage(cpu: Machine, pd: nat, ghost k: Kernel, a: Allocators, vaddrs: VirtualAddr, isUser: bool, cnt: nat)
    returns (r: Option<u32>, scan: Scan, ghost k': Kernel, ghost steps: seq<Step>, ghost done: nat)
    requires Ready(cpu, k, pd, a) && PageRange(vaddrs)
    requires vaddrs.bitmap.bits !in {cpu.mem, a.kernel.bitmap.bits, a.user.bitmap.bits}
    modifies cpu.mem, a.kernel.bitmap.bits, a.user.bitmap.bits, vaddrs.bitmap.bits
    ensures Ready(cpu, k', pd, a) && PallocRun(k, pd, steps, k') && k'.cr3 == k.cr3
    ensures if 0 < cnt < 3840 then
              Answered(old(vaddrs.bitmap.bits[..]), vaddrs.bitmap.bits[..], vaddrs.bitmap.len, cnt, scan)
            else vaddrs.bitmap.bits[..] == old(vaddrs.bitmap.bits[..]) && scan == NotFound
    ensures var base := if scan.At? then vaddrs.start + PG_SIZE * scan.start else 0;
            && PagesDone(k', base, steps, done) && done <= cnt
            && r == (if scan.At? && done == cnt then Some(base) else None)
            && (r.Some? ==> |steps| == cnt)
            && (!scan.At? || (isUser && base >= HIGHER_HALF - PG_SIZE) ==> steps == [] && done == 0)
            && (scan.At? && !(isUser && base >= HIGHER_HALF - PG_SIZE) && done < cnt ==>
                  base + PG_SIZE * done < WINDOW && Stopped(k', a, isUser, base + PG_SIZE * done, |steps| == done))
    ensures r.Some? ==> forall i: nat :: i < cnt ==>
              && steps[i].Map? && steps[i].va == r.value + 0x1000 * i
              && Translate(cpu.Ram(), cpu.mmu.cr3, steps[i].va) == Some(0x1000 * steps[i].frame)
    ensures r.Some? ==> forall i: nat, j: nat :: i < j < cnt ==> steps[i].frame != steps[j].frame
    ensures Grown(a, isUser, old(a.kernel.Issued()), old(a.user.Issued()), a.kernel.Issued(), a.user.Issued(), steps)
    ensures LowestFirst(a.Data(isUser), old(a.Data(isUser).Issued()), steps)
  {
    hide PallocRun, PagesMapped, FramesDiffer, Inv, Private, InState, Tracks, Answered, CanMap, Taken, IssuedFrames;
    hide Stopped, PagesDone, Apply, Palloced, Translate, Grown, LowestFirst;
    ReadyMeans(cpu, k, pd, a);
    ghost var kernel0, user0 := a.kernel.Issued(), a.user.Issued();
    NothingGrown(a, isUser, kernel0, user0);
    r, scan, k', steps, done := None, NotFound, k, [], 0;
    NoSteps(k, pd);
    if !(0 < cnt < 3840) {
      NoPages(k, 0);
      return;
    }
    ghost var bits := vaddrs.bitmap.bits[..];
    var base, failed;
    scan, base, failed := vaddrs.Get(cnt, isUser);
    NoPages(k, if scan.At? then vaddrs.start + PG_SIZE * scan.start else 0);
    if !scan.At? { return; }
    ghost var after := vaddrs.bitmap.bits[..];
    FoundRange(vaddrs, bits, after, cnt, scan);
    if failed { return; }
    var va, left := base, cnt;
    while left > 0
      invariant left <= cnt && done == |steps| == cnt - left && va == base + PG_SIZE * done
      invariant Ready(cpu, k', pd, a) && PallocRun(k, pd, steps, k') && k'.cr3 == k.cr3
      invariant PagesMapped(k', base, steps) && FramesDiffer(steps)
      invariant vaddrs.bitmap.bits[..] == after
      invariant Grown(a, isUser, kernel0, user0, a.kernel.Issued(), a.user.Issued(), steps)
      invariant LowestFirst(a.Data(isUser), if isUser then user0 else kernel0, steps)
      invariant a.kernel.Valid() && a.user.Valid()
    {
      ghost var mid, steps0, kernel1, user1 := k', steps, a.kernel.Issued(), a.user.Issued();
      var mapped;
      mapped, k', steps := MapPage(cpu, pd, mid, a, isUser, va);
      ReadyMeans(cpu, k', pd, a);
      GrownMore(a, isUser, kernel0, user0, kernel1, user1, a.kernel.Issued(), a.user.Issued(), steps0, steps);
      RunsCompose(k, pd, steps0, mid, steps, k');
      if !mapped {
        TakeKeepsPages(mid, pd, base, steps0, steps, k');
        steps := steps0 + steps;
        return;
      }
      PageAfterPages(mid, pd, base, steps0, steps[0]);
      assert steps == [steps[0]];
      steps := steps0 + steps;
      va, left, done := va + PG_SIZE, left - 1, done + 1;
    }
    r := Some(base);
    AllDone(k', base, steps);
    AllMapped(k', base, steps);
    ReadyMeans(cpu, k', pd, a);
  }

  // ----- The other steps -----

  /** page_table_pte_remove, for any address: the present bit of the governing
      entry goes, or there is no table. Below the window that is the Unmap step
      of the run. */
  method UnmapPage(cpu: Machine, pd: nat, ghost k: Kernel, a: Allocators, va: u32) returns (s: Status, ghost k': Kernel)
    requires Ready(cpu, k, pd, a)
    modifies cpu.mem
    ensures match RemoveMapping(k.m, k.cr3, va)
            case None => s.PageFault? && cpu.Ram() == k.m
            case Some(m) => s.Running? && cpu.Ram() == m
    ensures va < WINDOW ==>
              && Ready(cpu, k', pd, a)
              && (s.Running? <==> Enabled(k, pd, Unmap(va)))
              && k' == if s.Running? then Apply(k, pd, Unmap(va)) else k
    ensures va < WINDOW && s.Running? ==> Translate(cpu.Ram(), cpu.mmu.cr3, va) == None
  {
    hide Entry, RemoveMapping, Inv, Private, SelfMapped, IssuedFrames, Knows;
    InvFrames(k, pd);
    InvSelfMapped(k, pd, k.cr3);
    WhenDefined(k.m, k.cr3, va, 0, 0);
    s := PageTablePteRemove(cpu, va);
    k' := k;
    if s.Running? && va < WINDOW {
      k' := Apply(k, pd, Unmap(va));
      OneStep(k, pd, Unmap(va));
      UnmapExact(k, pd, va, k.cr3, va);
      UnmapNeedsTable(k, pd, va);
    }
  }

  /** In the window it must not be used: for a page that shows a kernel table or
      the directory itself it takes an entry away that all processes share, or
      the self-map. */
  lemma WindowUnmapBreaks(k: Kernel, pd: nat, va: u32)
    requires Inv(k, pd) && va >= WINDOW && PtIndex(va) >= 768
    ensures RemoveMapping(k.m, k.cr3, va).Some?
    ensures !KernelEntries(RemoveMapping(k.m, k.cr3, va).value, pd, k.cr3)
  {
    hide Entry, SetEntry, PdIndex, PtIndex;
    InvFrames(k, pd);
    IndexBounds(va);
    WindowWalk(k, pd, k.cr3, va);
    assert KernelEntries(k.m, pd, k.cr3);
    RemoveWithTable(k.m, k.cr3, va, k.cr3, PtIndex(va));
    var e := Entry(k.m, k.cr3, PtIndex(va));
    assert e % 2 == 1 && WithoutPresent(e) != e;
  }

  lemma NewDirOutcome(k: Kernel, pd: nat, dva: u32, frame: Frame)
    requires HIGHER_HALF <= dva < WINDOW && dva % 0x1000 == 0 && Fresh(k, pd, frame) && Unmapped(k.m, k.cr3, dva)
    ensures Palloced(k, pd, NewDir(dva, frame))
    ensures NewDirectory(k.m, k.cr3, dva, frame, frame).Some?
    ensures var n := Apply(k, pd, NewDir(dva, frame));
            && n.m == NewDirectory(k.m, k.cr3, dva, frame, frame).value && n.cr3 == k.cr3
            && n.taken == k.taken + {frame}
  {
    hide NewDirectory, Unmapped;
    WhenDefined(k.m, k.cr3, dva, frame, frame);
  }

  lemma NewHalves(k: Kernel, pd: nat, dva: u32, frame: Frame)
    requires Inv(k, pd) && Enabled(k, pd, NewDir(dva, frame)) && k.cr3 in k.dirs
    ensures var n := Apply(k, pd, NewDir(dva, frame)).m;
            && Translate(n, k.cr3, dva) == Some(4096 * frame)
            && (forall vb: u32 :: vb < 0xC000_0000 ==> Translate(n, frame, vb) == None)
            && (forall vb: u32 :: 0xC000_0000 <= vb < 0xFFC0_0000 ==>
                  Translate(n, frame, vb) == Translate(n, k.cr3, vb))
  {
    hide Inv, Translate, NewDirectory;
    NewAddressSpace(k, pd, dva, frame, k.cr3, dva);
    forall vb: u32 | vb < 0xFFC0_0000
      ensures vb < 0xC000_0000 ==> Translate(Apply(k, pd, NewDir(dva, frame)).m, frame, vb) == None
      ensures vb >= 0xC000_0000 ==>
                Translate(Apply(k, pd, NewDir(dva, frame)).m, frame, vb) ==
                Translate(Apply(k, pd, NewDir(dva, frame)).m, k.cr3, vb)
    {
      NewAddressSpace(k, pd, dva, frame, k.cr3, vb);
    }
  }

  /** create_page_dir takes the new-directory step exactly when there is an
      address, given by vaddr_get, and a frame, given by palloc, and the address
      is not mapped; otherwise it stops with memory unchanged, and with the frame
      taken if there was one. */
  method NewProcessDirectory(cpu: Machine, pd: nat, ghost k: Kernel, a: Allocators, vaddrs: VirtualAddr)
    returns (created: bool, dva: u32, scan: Scan, ghost k': Kernel, ghost steps: seq<Step>)
    requires Ready(cpu, k, pd, a) && KernelRange(vaddrs)
    requires vaddrs.bitmap.bits !in {cpu.mem, a.kernel.bitmap.bits, a.user.bitmap.bits}
    modifies cpu.mem, a.kernel.bitmap.bits, vaddrs.bitmap.bits
    ensures Ready(cpu, k', pd, a) && PallocRun(k, pd, steps, k')
    ensures Answered(old(vaddrs.bitmap.bits[..]), vaddrs.bitmap.bits[..], vaddrs.bitmap.len, 1, scan)
    ensures scan.At? ==> dva == vaddrs.start + PG_SIZE * scan.start
    ensures created <==> scan.At? && !old(a.kernel.Full()) && Unmapped(k.m, k.cr3, dva)
    ensures created ==>
              && |steps| == 1 && steps[0].NewDir? && steps[0].dva == dva
              && old(a.kernel.Available(steps[0].frame)) && k' == Apply(k, pd, steps[0])
    ensures created ==>
              && Translate(cpu.Ram(), cpu.mmu.cr3, dva) == Some(4096 * steps[0].frame)
              && (forall vb: u32 :: vb < 0xC000_0000 ==> Translate(cpu.Ram(), steps[0].frame, vb) == None)
              && (forall vb: u32 :: 0xC000_0000 <= vb < 0xFFC0_0000 ==>
                    Translate(cpu.Ram(), steps[0].frame, vb) == Translate(cpu.Ram(), cpu.mmu.cr3, vb))
    ensures !created ==> cpu.Ram() == old(cpu.Ram())
    ensures !created ==>
              if scan.At? && !old(a.kernel.Full()) then
                |steps| == 1 && steps[0].Take? && old(a.kernel.Available(steps[0].f))
              else steps == []
  {
    hide NewDirectory, Inv, Private, SelfMapped, Machine.Ram, IssuedFrames, Knows, Unmapped, Apply, Enabled;
    hide PallocRun, Answered, KernelTablesHeld, Translate;
    k', steps := k, [];
    NoSteps(k, pd);
    StructuresHeld(k, pd, a.kernel);
    ghost var kernelIssued, userIssued := a.kernel.Issued(), a.user.Issued();
    ghost var got;
    created, dva, scan, got := CreatePageDir(cpu, a.kernel, vaddrs);
    if got.Some? {
      ghost var frame := got.value;
      UnknownIsFresh(k, pd, a.kernel, kernelIssued, frame);
      KnowsMore(a.kernel, kernelIssued, k.taken, frame);
      KnowsMore(a.user, userIssued, k.taken, frame);
      TakeOutcome(k, pd, frame);
      if created {
        NewDirOutcome(k, pd, dva, frame);
        InvFrames(k, pd);
        NewHalves(k, pd, dva, frame);
      }
      ghost var s := if created then NewDir(dva, frame) else Take(frame);
      OneStep(k, pd, s);
      k', steps := Apply(k, pd, s), [s];
    }
  }

  /** page_dir_activate: the address of the loaded process's directory, or of
      the boot directory for a kernel thread, goes to CR3. */
  method PageDirActivate(cpu: Machine, pd: nat, ghost k: Kernel, a: Allocators, pgdir: Option<u32>, ghost d: Frame)
    returns (ghost k': Kernel)
    requires Ready(cpu, k, pd, a) && d in k.dirs
    requires match pgdir
             case None => d == pd
             case Some(va) => HIGHER_HALF <= va < WINDOW && Translate(k.m, d, va) == Some(4096 * d)
    modifies cpu`mmu
    ensures Ready(cpu, k', pd, a) && k' == Apply(k, pd, Switch(d)) && Enabled(k, pd, Switch(d))
    ensures cpu.mmu == Mmu(true, d) && cpu.Ram() == old(cpu.Ram())
  {
    hide Entry, Translate, AddrV2P, Inv, Private, IssuedFrames, Knows;
    InvFrames(k, pd);
    var phys := 4096 * pd;
    if pgdir.Some? {
      SamePhysicalEverywhere(k, pd, d, k.cr3, pgdir.value, 4096 * d);
      var _, p := AddressV2P(cpu, pgdir.value);
      phys := p;
    }
    cpu.mmu := Mmu(true, FrameOf(phys));
    k' := Apply(k, pd, Switch(d));
    OneStep(k, pd, Switch(d));
  }

  /** A store by the running process to one of its own pages, or a fault. */
  method StoreUser(cpu: Machine, pd: nat, ghost k: Kernel, a: Allocators, va: u32, b: u8)
    returns (s: Status, ghost k': Kernel)
    requires Ready(cpu, k, pd, a) && UserAddress(pd, k.cr3, va)
    modifies cpu.mem
    ensures Ready(cpu, k', pd, a)
    ensures match Translate(k.m, k.cr3, va)
            case None => s.PageFault? && k' == k
            case Some(p) => s.Running? && Enabled(k, pd, Write(p, b)) && k' == Apply(k, pd, Write(p, b))
    ensures match Translate(old(cpu.Ram()), cpu.mmu.cr3, va)
            case None => s.PageFault? && cpu.Ram() == old(cpu.Ram())
            case Some(p) => s.Running? && cpu.Ram() == old(cpu.Ram())[p := b]
  {
    hide Entry, Translate, Inv, Private, IssuedFrames, Knows;
    InvFrames(k, pd);
    s := cpu.Put8(va, b);
    k' := k;
    if s.Running? {
      ghost var step := Write(Translate(k.m, k.cr3, va).value, b);
      UserStorePrivate(k, pd, k.cr3, va, b, k.cr3, va);
      OneStep(k, pd, step);
      k' := Apply(k, pd, step);
    }
  }
}
