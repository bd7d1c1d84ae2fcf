/** kernel_init: walking the program header table of the kernel image and
    copying its segments to their higher-half addresses, for any image. */
module ElfLoader {
  import opened Words
  import opened PhysicalMemory
  import opened Paging
  import opened Cpu
  import opened PageTables
  import opened KernelMap
  import opened ElfImage
  import opened MemoryCopy

  // ----- Memory during a pass -----

  /** What kernel_init promises of memory: below the cutoff only the 24 bytes
      under the stack pointer differ, and above the low megabyte none. */
  ghost predicate Preserved(m: Ram, n: Ram, s: int)
  {
    forall a {:trigger m[a]} {:trigger n[a]} ::
      0 <= a < RAM_SIZE && !(s - 24 <= a < s) && !(LOW <= a < MB) ==> m[a] == n[a]
  }

  lemma PreservedSteps(k: Ram, m: Ram, n: Ram, s: int)
    requires Preserved(k, m, s) && Preserved(m, n, s)
    ensures Preserved(k, n, s)
  {
  }

  lemma PreservedOutside(m: Ram, n: Ram, lo: int, hi: int, s: int)
    requires SameOutside(m, n, lo, hi) && (lo >= hi || (s - 24 <= lo && hi <= s) || (LOW <= lo && hi <= MB))
    ensures Preserved(m, n, s)
  {
  }

  lemma PreservedMapped(m: Ram, n: Ram, pd: nat, s: nat)
    requires 256 <= pd && Mapped(m, pd) && Preserved(m, n, s) && s <= LOW
    ensures Mapped(n, pd)
  {
    hide DirectoryBuilt, FirstTableBuilt;
    MappedBelow(m, n, pd, MB);
  }

  /** The dword at linear address va has a byte in physical lo..hi-1. */
  predicate Hits(p: Option<u32>, lo: int, hi: int) { p.Some? && lo <= p.value < hi }

  predicate Overlaps(m: Ram, mmu: Mmu, va: u32, lo: int, hi: int)
  {
    || Hits(Lin(m, mmu, va), lo, hi) || Hits(Lin(m, mmu, Add32(va, 1)), lo, hi)
    || Hits(Lin(m, mmu, Add32(va, 2)), lo, hi) || Hits(Lin(m, mmu, Add32(va, 3)), lo, hi)
  }

  /** Changes in the low megabyte let no load fault that did not before, and
      change no value loaded from elsewhere. */
  lemma LoadElsewhere(m: Ram, n: Ram, pd: nat, lo: int, hi: int, va: u32)
    requires 256 <= pd && Mapped(m, pd) && SameOutside(m, n, lo, hi) && 0 <= lo && hi <= MB
    ensures Load32(n, Mmu(true, pd), va).None? <==> Load32(m, Mmu(true, pd), va).None?
    ensures !Overlaps(m, Mmu(true, pd), va, lo, hi) ==> Load32(n, Mmu(true, pd), va) == Load32(m, Mmu(true, pd), va)
  {
    hide Mapped, Translate, FromBytes;
    TranslateAbove(m, n, pd, va);
    TranslateAbove(m, n, pd, Add32(va, 1));
    TranslateAbove(m, n, pd, Add32(va, 2));
    TranslateAbove(m, n, pd, Add32(va, 3));
  }

  lemma LowLoad(m: Ram, pd: nat, a: u32, lo: int, hi: int)
    requires Mapped(m, pd) && hi <= a && a + 4 <= MB
    ensures Load32(m, Mmu(true, pd), a) == Some(Dword(m, a))
    ensures !Overlaps(m, Mmu(true, pd), a, lo, hi)
  {
    hide DirectoryBuilt, FirstTableBuilt, Translate, FromBytes, Load32;
    LowMegDenoted(m, pd);
    LoadDenoted(m, Mmu(true, pd), 0, 0, MB, a);
    AddExact(a, 1);
    AddExact(a, 2);
    AddExact(a, 3);
  }

  /** Memory after the three arguments and the return address were pushed. */
  ghost function Pushed(m: Ram, s: nat, count: u32, src: u32, dst: u32, site: u32): Ram
    requires 24 <= s && s + 4 <= LOW
  {
    PutDword(PutDword(PutDword(PutDword(m, s - 4, count), s - 8, src), s - 12, dst), s - 16, site)
  }

  lemma PushedWords(m: Ram, s: nat, count: u32, src: u32, dst: u32, site: u32)
    requires 24 <= s && s + 4 <= LOW
    ensures var n := Pushed(m, s, count, src, dst, site);
            && Dword(n, s - 4) == count && Dword(n, s - 8) == src
            && Dword(n, s - 12) == dst && Dword(n, s - 16) == site
            && SameOutside(m, n, s - 16, s)
  {
    hide PutDword, FromBytes;
    var m1 := PutDword(m, s - 4, count);
    var m2 := PutDword(m1, s - 8, src);
    var m3 := PutDword(m2, s - 12, dst);
    DwordAfterPut(m, s - 4, count);
    DwordAfterPut(m1, s - 8, src);
    DwordAfterPut(m2, s - 12, dst);
    DwordAfterPut(m3, s - 16, site);
  }

  lemma TwoPushes(m: Ram, s: nat, count: u32, src: u32)
    requires 24 <= s && s + 4 <= LOW
    ensures SameOutside(m, PutDword(m, s - 4, count), s - 4, s)
    ensures SameOutside(m, PutDword(PutDword(m, s - 4, count), s - 8, src), s - 8, s)
  {
    hide PutDword, FromBytes;
    DwordAfterPut(m, s - 4, count);
    DwordAfterPut(PutDword(m, s - 4, count), s - 8, src);
  }

  // ----- One pass of the loop, as a function of the state before it -----

  /** Constants of one call of kernel_init: the image base, the return address
      mem_cpy gets, the physical stack pointer and ebp. */
  datatype Invocation = Invocation(image: u32, site: u32, s: nat, ebp: u32) {
    predicate Valid() { 24 <= s && s + 4 <= LOW }
  }

  /** Where the description of a run ends: back at the caller; stopped by a page
      fault on a header or a source; or at a copy whose destination leaves the
      mapped megabyte above the cutoff, which the code makes all the same. */
  datatype Outcome = Returned | Faulted | Strayed

  /** And memory at that point. */
  datatype End = End(outcome: Outcome, m: Ram)

  predicate InReach(target: u32, count: u32)
  {
    count == 0 || (CUTOFF <= target && target + count <= HIGHER_HALF + MB)
  }

  /** The copy path: count, source and destination are pushed one by one, each
      read from the header as the earlier pushes have left it. */
  ghost function CopyPass(m: Ram, mmu: Mmu, ph: u32, c: Invocation, ecx: u32): End
    requires c.Valid()
  {
    match Load32(m, mmu, Add32(ph, 16))
    case None => End(Faulted, m)
    case Some(count) =>
      var m1 := PutDword(m, c.s - 4, count);
      match Load32(m1, mmu, Add32(ph, 4))
      case None => End(Faulted, m1)
      case Some(offset) =>
        var source := Add32(offset, c.image);
        var m2 := PutDword(m1, c.s - 8, source);
        match Load32(m2, mmu, Add32(ph, 8))
        case None => End(Faulted, m2)
        case Some(target) =>
          var pushed := Pushed(m, c.s, count, source, target, c.site);
          if !InReach(target, count) then End(Strayed, pushed)
          else
            var r := CopiedThrough(Saved(pushed, c.s - 16, c.ebp, ecx), mmu, source, target, count);
            End(if r.1 then Returned else Faulted, r.0)
  }

  /** From .get_each_segment to .PTNULL. */
  ghost function HeaderPass(m: Ram, mmu: Mmu, ph: u32, c: Invocation, ecx: u32): End
    requires c.Valid()
  {
    match Load32(m, mmu, ph)
    case None => End(Faulted, m)
    case Some(kind) =>
      if kind == PT_NULL then End(Returned, m)
      else
        match Load32(m, mmu, Add32(ph, 8))
        case None => End(Faulted, m)
        case Some(vaddr) => if vaddr < CUTOFF then End(Returned, m) else CopyPass(m, mmu, ph, c, ecx)
  }

  /** ecx with left passes to go. */
  function Counter(left: nat): u32 { left % 0x1_0000_0000 }

  ghost function TableRun(m: Ram, mmu: Mmu, ph: u32, stride: u32, c: Invocation, left: nat): End
    requires c.Valid()
    decreases left
  {
    if left == 0 then End(Returned, m)
    else
      var e := HeaderPass(m, mmu, ph, c, Counter(left));
      if e.outcome.Returned? then TableRun(e.m, mmu, Add32(ph, stride), stride, c, left - 1) else e
  }

  /** The whole run of kernel_init, for any image and any table. */
  ghost function KernelRun(m: Ram, mmu: Mmu, c: Invocation): End
    requires c.Valid() && c.image + 46 <= MB
  {
    TableRun(m, mmu, Add32(Dword(m, c.image + 28), c.image), Word(m, c.image + 42), c,
             LoopCount(Word(m, c.image + 44), RAM_SIZE))
  }

  // ----- What a pass preserves -----

  lemma PreservedAbove(m: Ram, n: Ram, s: nat)
    requires Preserved(m, n, s) && s <= LOW
    ensures forall a: nat :: MB <= a < RAM_SIZE ==> n[a] == m[a]
  {
  }

  lemma SavedOutside(m: Ram, q: nat, ebp: u32, ecx: u32)
    requires 8 <= q && q + 4 <= LOW
    ensures SameOutside(m, Saved(m, q, ebp, ecx), q - 8, q)
  {
    hide PutDword, FromBytes;
    DwordAfterPut(m, q - 4, ebp);
    DwordAfterPut(PutDword(m, q - 4, ebp), q - 8, ecx);
  }

  lemma SavedEffect(m: Ram, pd: nat, c: Invocation, count: u32, source: u32, target: u32, ecx: u32)
    requires 256 <= pd && Mapped(m, pd) && c.Valid()
    ensures var saved := Saved(Pushed(m, c.s, count, source, target, c.site), c.s - 16, c.ebp, ecx);
            && SameOutside(m, saved, c.s - 24, c.s) && Mapped(saved, pd)
            && Dword(saved, c.s - 24) == ecx && Dword(saved, c.s - 20) == c.ebp && Dword(saved, c.s - 16) == c.site
  {
    hide DirectoryBuilt, FirstTableBuilt, PutDword, FromBytes, Dword, SameOutside, Pushed;
    var pushed := Pushed(m, c.s, count, source, target, c.site);
    PushedWords(m, c.s, count, source, target, c.site);
    SavedWords(pushed, c.s - 16, c.ebp, ecx, c.s - 16);
    SavedOutside(pushed, c.s - 16, c.ebp, ecx);
    var saved := Saved(pushed, c.s - 16, c.ebp, ecx);
    SameOutsideItself(m, c.s - 24, c.s);
    SameOutsideTransitive(m, m, pushed, c.s - 24, c.s, c.s - 16, c.s);
    SameOutsideTransitive(m, pushed, saved, c.s - 24, c.s, c.s - 24, c.s - 16);
    PreservedOutside(m, saved, c.s - 24, c.s, c.s);
    PreservedMapped(m, saved, pd, c.s);
  }

  lemma FrameFound(m: Ram, n: Ram, pd: nat, q: nat, lo: nat, hi: nat)
    requires Mapped(n, pd) && 8 <= q && q + 4 <= LOW <= lo && SameOutside(m, n, lo, hi)
    ensures StackFrame(n, Mmu(true, pd), q) == Some((Dword(m, q - 8), Dword(m, q - 4), Dword(m, q)))
  {
    hide DirectoryBuilt, FirstTableBuilt, Dword, Load32, Lin, SameOutside;
    LowMegDenoted(n, pd);
    LoadDenoted(n, Mmu(true, pd), HIGHER_HALF, 0, MB, HIGHER_HALF + (q - 8));
    LoadDenoted(n, Mmu(true, pd), HIGHER_HALF, 0, MB, HIGHER_HALF + (q - 4));
    LoadDenoted(n, Mmu(true, pd), HIGHER_HALF, 0, MB, HIGHER_HALF + q);
    DwordElsewhere(m, n, lo, hi, q - 8);
    DwordElsewhere(m, n, lo, hi, q - 4);
    DwordElsewhere(m, n, lo, hi, q);
  }

  /** mem_cpy for a destination in reach: nothing changes that must not, and
      the saved registers and the return address are found again. */
  lemma CallEffect(m: Ram, pd: nat, c: Invocation, count: u32, source: u32, target: u32, ecx: u32)
    requires 256 <= pd && Mapped(m, pd) && c.Valid() && InReach(target, count)
    ensures var saved := Saved(Pushed(m, c.s, count, source, target, c.site), c.s - 16, c.ebp, ecx);
            var r := CopiedThrough(saved, Mmu(true, pd), source, target, count);
            && Preserved(m, r.0, c.s) && Mapped(r.0, pd)
            && StackFrame(r.0, Mmu(true, pd), c.s - 16) == Some((ecx, c.ebp, c.site))
            && (r.1 <==> !Unreadable(m, Mmu(true, pd), source, count))
  {
    hide DirectoryBuilt, FirstTableBuilt, Dword, Saved, Pushed, CopiedThrough, CopiedFrom, SameOutside, Preserved;
    hide StackFrame, Unreadable;
    var saved := Saved(Pushed(m, c.s, count, source, target, c.site), c.s - 16, c.ebp, ecx);
    SavedEffect(m, pd, c, count, source, target, ecx);
    PreservedOutside(m, saved, c.s - 24, c.s, c.s);
    PreservedAbove(m, saved, c.s);
    UnreadableStays(m, saved, pd, source, count);
    if count == 0 {
      CopiedThroughNothing(saved, Mmu(true, pd), source, target);
      NothingUnreadable(m, Mmu(true, pd), source);
      SameOutsideItself(saved, MB, MB);
      FrameFound(saved, saved, pd, c.s - 16, MB, MB);
      return;
    }
    var dst := target - HIGHER_HALF;
    CopiedToAlias(saved, pd, source, HIGHER_HALF, dst, count);
    var n := CopiedFrom(saved, Mmu(true, pd), source, dst, count).0;
    CopiedFromFrame(saved, Mmu(true, pd), source, dst, count);
    CopiedFromFaults(saved, pd, source, dst, count);
    PreservedOutside(saved, n, dst, dst + count, c.s);
    PreservedSteps(m, saved, n, c.s);
    PreservedMapped(m, n, pd, c.s);
    FrameFound(saved, n, pd, c.s - 16, dst, dst + count);
  }

  lemma CopyPassPreserves(m: Ram, pd: nat, ph: u32, c: Invocation, ecx: u32)
    requires 256 <= pd && Mapped(m, pd) && c.Valid()
    ensures Preserved(m, CopyPass(m, Mmu(true, pd), ph, c, ecx).m, c.s)
    ensures Mapped(CopyPass(m, Mmu(true, pd), ph, c, ecx).m, pd)
  {
    hide DirectoryBuilt, FirstTableBuilt, Preserved, SameOutside, Load32, Add32, PutDword, Pushed, Saved;
    hide CopiedThrough, InReach, StackFrame, Unreadable, Dword;
    var mmu := Mmu(true, pd);
    SameOutsideItself(m, c.s, c.s);
    PreservedOutside(m, m, c.s, c.s, c.s);
    var count := Load32(m, mmu, Add32(ph, 16));
    if count.Some? {
      var m1 := PutDword(m, c.s - 4, count.value);
      TwoPushes(m, c.s, count.value, 0);
      PreservedOutside(m, m1, c.s - 4, c.s, c.s);
      var offset := Load32(m1, mmu, Add32(ph, 4));
      if offset.Some? {
        var source := Add32(offset.value, c.image);
        var m2 := PutDword(m1, c.s - 8, source);
        TwoPushes(m, c.s, count.value, source);
        PreservedOutside(m, m2, c.s - 8, c.s, c.s);
        var target := Load32(m2, mmu, Add32(ph, 8));
        if target.Some? {
          PushedWords(m, c.s, count.value, source, target.value, c.site);
          var pushed := Pushed(m, c.s, count.value, source, target.value, c.site);
          PreservedOutside(m, pushed, c.s - 16, c.s, c.s);
          if InReach(target.value, count.value) {
            CallEffect(m, pd, c, count.value, source, target.value, ecx);
          }
        }
      }
    }
    PreservedMapped(m, CopyPass(m, mmu, ph, c, ecx).m, pd, c.s);
  }

  lemma PassPreserves(m: Ram, pd: nat, ph: u32, c: Invocation, ecx: u32)
    requires 256 <= pd && Mapped(m, pd) && c.Valid()
    ensures Preserved(m, HeaderPass(m, Mmu(true, pd), ph, c, ecx).m, c.s)
    ensures Mapped(HeaderPass(m, Mmu(true, pd), ph, c, ecx).m, pd)
  {
    hide DirectoryBuilt, FirstTableBuilt, CopyPass, Preserved, SameOutside, Load32;
    SameOutsideItself(m, c.s, c.s);
    PreservedOutside(m, m, c.s, c.s, c.s);
    CopyPassPreserves(m, pd, ph, c, ecx);
  }

  /** Loader self-preservation, for every table and wherever its run ends. */
  lemma {:induction false} TablePreserves(m: Ram, pd: nat, ph: u32, stride: u32, c: Invocation, left: nat)
    requires 256 <= pd && Mapped(m, pd) && c.Valid()
    ensures Preserved(m, TableRun(m, Mmu(true, pd), ph, stride, c, left).m, c.s)
    ensures Mapped(TableRun(m, Mmu(true, pd), ph, stride, c, left).m, pd)
    decreases left
  {
    hide DirectoryBuilt, FirstTableBuilt, HeaderPass, Preserved, SameOutside, Counter;
    SameOutsideItself(m, c.s, c.s);
    PreservedOutside(m, m, c.s, c.s, c.s);
    if left > 0 {
      var e := HeaderPass(m, Mmu(true, pd), ph, c, Counter(left));
      PassPreserves(m, pd, ph, c, Counter(left));
      if e.outcome.Returned? {
        TablePreserves(e.m, pd, Add32(ph, stride), stride, c, left - 1);
        PreservedSteps(m, e.m, TableRun(m, Mmu(true, pd), ph, stride, c, left).m, c.s);
      }
    }
  }

  // ----- When a pass strays or faults -----

  /** The source that is pushed, and the destination that is read again after
      that, as functions of the state before the pushes. */
  ghost function SourceOf(m: Ram, mmu: Mmu, ph: u32, c: Invocation): Option<u32>
    requires c.Valid()
  {
    match Load32(m, mmu, Add32(ph, 16))
    case None => None
    case Some(count) =>
      match Load32(PutDword(m, c.s - 4, count), mmu, Add32(ph, 4))
      case None => None
      case Some(offset) => Some(Add32(offset, c.image))
  }

  ghost function TargetOf(m: Ram, mmu: Mmu, ph: u32, c: Invocation): Option<u32>
    requires c.Valid()
  {
    match (Load32(m, mmu, Add32(ph, 16)), SourceOf(m, mmu, ph, c))
    case (Some(count), Some(source)) =>
      Load32(PutDword(PutDword(m, c.s - 4, count), c.s - 8, source), mmu, Add32(ph, 8))
    case _ => None
  }

  /** The header passes the comparisons. */
  predicate Accepts(m: Ram, mmu: Mmu, ph: u32)
  {
    match (Load32(m, mmu, ph), Load32(m, mmu, Add32(ph, 8)))
    case (Some(kind), Some(vaddr)) => kind != PT_NULL && vaddr >= CUTOFF
    case _ => false
  }

  ghost predicate StrayHeader(m: Ram, mmu: Mmu, ph: u32, c: Invocation)
    requires c.Valid()
  {
    && Accepts(m, mmu, ph)
    && match (Load32(m, mmu, Add32(ph, 16)), TargetOf(m, mmu, ph, c))
       case (Some(count), Some(target)) => !InReach(target, count)
       case _ => false
  }

  /** A field that is needed is not mapped, or a byte of the source is not. */
  ghost predicate FaultHeader(m: Ram, mmu: Mmu, ph: u32, c: Invocation)
    requires c.Valid()
  {
    || Load32(m, mmu, ph).None?
    || (Load32(m, mmu, ph) != Some(PT_NULL) && Load32(m, mmu, Add32(ph, 8)).None?)
    || (Accepts(m, mmu, ph) &&
        match (Load32(m, mmu, Add32(ph, 16)), SourceOf(m, mmu, ph, c), TargetOf(m, mmu, ph, c))
        case (Some(count), Some(source), Some(target)) =>
          InReach(target, count) && Unreadable(m, mmu, source, count)
        case _ => true)
  }

  /** Exactly these headers end the run, in the one way or the other. */
  lemma PassDecides(m: Ram, pd: nat, ph: u32, c: Invocation, ecx: u32)
    requires 256 <= pd && Mapped(m, pd) && c.Valid()
    ensures var o := HeaderPass(m, Mmu(true, pd), ph, c, ecx).outcome;
            && (o.Strayed? <==> StrayHeader(m, Mmu(true, pd), ph, c))
            && (o.Faulted? <==> FaultHeader(m, Mmu(true, pd), ph, c))
  {
    hide DirectoryBuilt, FirstTableBuilt, Preserved, SameOutside, Load32, Add32, PutDword, Pushed, Saved;
    hide CopiedThrough, InReach, StackFrame, Unreadable, Dword;
    var mmu := Mmu(true, pd);
    match (Load32(m, mmu, Add32(ph, 16)), SourceOf(m, mmu, ph, c), TargetOf(m, mmu, ph, c)) {
      case (Some(count), Some(source), Some(target)) =>
        if InReach(target, count) { CallEffect(m, pd, c, count, source, target, ecx); }
      case _ =>
    }
  }

  /** The dword at linear address ph + 8 lies in the two words pushed before it
      is read again, or the one at ph + 4 in the word pushed before that. */
  predicate OverlaysStack(m: Ram, mmu: Mmu, ph: u32, s: nat)
  {
    Overlaps(m, mmu, Add32(ph, 8), s - 8, s)
  }

  predicate OverlaysCount(m: Ram, mmu: Mmu, ph: u32, s: nat)
  {
    Overlaps(m, mmu, Add32(ph, 4), s - 4, s)
  }

  lemma LoadAfterPushes(m: Ram, pd: nat, ph: u32, s: nat, count: u32, source: u32)
    requires 256 <= pd && Mapped(m, pd) && 24 <= s && s + 4 <= LOW
    ensures var mmu := Mmu(true, pd);
            var m1 := PutDword(m, s - 4, count);
            var m2 := PutDword(m1, s - 8, source);
            && (Load32(m1, mmu, Add32(ph, 4)).None? <==> Load32(m, mmu, Add32(ph, 4)).None?)
            && (!OverlaysCount(m, mmu, ph, s) ==> Load32(m1, mmu, Add32(ph, 4)) == Load32(m, mmu, Add32(ph, 4)))
            && (Load32(m2, mmu, Add32(ph, 8)).None? <==> Load32(m, mmu, Add32(ph, 8)).None?)
            && (!OverlaysStack(m, mmu, ph, s) ==> Load32(m2, mmu, Add32(ph, 8)) == Load32(m, mmu, Add32(ph, 8)))
  {
    hide DirectoryBuilt, FirstTableBuilt, PutDword, Load32, Overlaps, Add32, SameOutside;
    var m1 := PutDword(m, s - 4, count);
    TwoPushes(m, s, count, source);
    LoadElsewhere(m, m1, pd, s - 4, s, Add32(ph, 4));
    LoadElsewhere(m, PutDword(m1, s - 8, source), pd, s - 8, s, Add32(ph, 8));
  }

  lemma OffStackAccepts(m: Ram, pd: nat, ph: u32, c: Invocation)
    requires 256 <= pd && Mapped(m, pd) && c.Valid()
    requires !OverlaysStack(m, Mmu(true, pd), ph, c.s)
    ensures StrayHeader(m, Mmu(true, pd), ph, c) <==>
            && Accepts(m, Mmu(true, pd), ph) && Load32(m, Mmu(true, pd), Add32(ph, 4)).Some?
            && match (Load32(m, Mmu(true, pd), Add32(ph, 8)), Load32(m, Mmu(true, pd), Add32(ph, 16)))
               case (Some(vaddr), Some(filesz)) => filesz > 0 && vaddr + filesz > HIGHER_HALF + MB
               case _ => false
  {
    hide DirectoryBuilt, FirstTableBuilt, PutDword, Load32, Overlaps, Add32;
    var mmu := Mmu(true, pd);
    var count := Load32(m, mmu, Add32(ph, 16));
    if count.Some? {
      LoadAfterPushes(m, pd, ph, c.s, count.value, 0);
      var source := SourceOf(m, mmu, ph, c);
      if source.Some? { LoadAfterPushes(m, pd, ph, c.s, count.value, source.value); }
    }
  }

  /** For a header off the pushed words the comparison decides: it strays
      exactly when it is accepted, its fields can be read and its segment is not
      empty and ends behind 0xC0100000. */
  lemma OffStackHeader(m: Ram, pd: nat, ph: u32, c: Invocation)
    requires 256 <= pd && Mapped(m, pd) && c.Valid()
    requires !OverlaysStack(m, Mmu(true, pd), ph, c.s)
    ensures var mmu := Mmu(true, pd);
            var kind, offset := Load32(m, mmu, ph), Load32(m, mmu, Add32(ph, 4));
            var vaddr, filesz := Load32(m, mmu, Add32(ph, 8)), Load32(m, mmu, Add32(ph, 16));
            StrayHeader(m, mmu, ph, c) <==>
            && kind.Some? && offset.Some? && vaddr.Some? && filesz.Some?
            && kind.value != 0 && vaddr.value >= 0xC000_1500
            && filesz.value > 0 && vaddr.value + filesz.value > 0xC010_0000
  {
    hide StrayHeader, Load32, Overlaps, Add32, Mapped, TargetOf;
    OffStackAccepts(m, pd, ph, c);
  }

  // ----- The headers a run meets -----

  /** The state before a pass: memory and ebx. */
  datatype Pass = Pass(m: Ram, ph: u32)

  ghost function Trace(m: Ram, mmu: Mmu, ph: u32, stride: u32, c: Invocation, left: nat): seq<Pass>
    requires c.Valid()
    decreases left
  {
    if left == 0 then []
    else
      var e := HeaderPass(m, mmu, ph, c, Counter(left));
      [Pass(m, ph)] + if e.outcome.Returned? then Trace(e.m, mmu, Add32(ph, stride), stride, c, left - 1) else []
  }

  ghost function KernelTrace(m: Ram, mmu: Mmu, c: Invocation): seq<Pass>
    requires c.Valid() && c.image + 46 <= MB
  {
    Trace(m, mmu, Add32(Dword(m, c.image + 28), c.image), Word(m, c.image + 42), c,
          LoopCount(Word(m, c.image + 44), RAM_SIZE))
  }

  ghost predicate Strays(p: Pass, mmu: Mmu, c: Invocation)
    requires c.Valid()
  {
    StrayHeader(p.m, mmu, p.ph, c)
  }

  ghost predicate Faults(p: Pass, mmu: Mmu, c: Invocation)
    requires c.Valid()
  {
    FaultHeader(p.m, mmu, p.ph, c)
  }

  /** The trace is the run: it starts at the first header with the memory at
      entry, and each pass leads to the next. */
  lemma {:induction false} TraceSteps(m: Ram, mmu: Mmu, ph: u32, stride: u32, c: Invocation, left: nat)
    requires c.Valid()
    ensures var t := Trace(m, mmu, ph, stride, c, left);
            && |t| <= left && (left > 0 ==> t != [] && t[0] == Pass(m, ph))
            && forall i :: 0 <= i < |t| - 1 ==>
                 && t[i + 1].ph == Add32(t[i].ph, stride)
                 && HeaderPass(t[i].m, mmu, t[i].ph, c, Counter(left - i)) == End(Returned, t[i + 1].m)
    decreases left
  {
    hide HeaderPass, Counter, Add32;
    if left > 0 {
      var e := HeaderPass(m, mmu, ph, c, Counter(left));
      if e.outcome.Returned? {
        TraceSteps(e.m, mmu, Add32(ph, stride), stride, c, left - 1);
        var t, rest := Trace(m, mmu, ph, stride, c, left), Trace(e.m, mmu, Add32(ph, stride), stride, c, left - 1);
        assert t == [Pass(m, ph)] + rest;
        forall i | 0 <= i < |t| - 1
          ensures t[i + 1].ph == Add32(t[i].ph, stride)
          ensures HeaderPass(t[i].m, mmu, t[i].ph, c, Counter(left - i)) == End(Returned, t[i + 1].m)
        {
          if i == 0 {
            assert rest[0] == Pass(e.m, Add32(ph, stride));
          } else {
            assert t[i] == rest[i - 1] && t[i + 1] == rest[i] && left - i == left - 1 - (i - 1);
          }
        }
      }
    }
  }

  ghost predicate SomeStrays(t: seq<Pass>, mmu: Mmu, c: Invocation)
    requires c.Valid()
  {
    exists i :: 0 <= i < |t| && Strays(t[i], mmu, c)
  }

  ghost predicate SomeFaults(t: seq<Pass>, mmu: Mmu, c: Invocation)
    requires c.Valid()
  {
    exists i :: 0 <= i < |t| && Faults(t[i], mmu, c)
  }

  lemma SomeOf(p: Pass, rest: seq<Pass>, mmu: Mmu, c: Invocation)
    requires c.Valid()
    ensures SomeStrays([p] + rest, mmu, c) <==> Strays(p, mmu, c) || SomeStrays(rest, mmu, c)
    ensures SomeFaults([p] + rest, mmu, c) <==> Faults(p, mmu, c) || SomeFaults(rest, mmu, c)
    ensures !SomeStrays([], mmu, c) && !SomeFaults([], mmu, c)
  {
    hide Strays, Faults;
    var t := [p] + rest;
    assert t[0] == p;
    assert forall i :: 0 <= i < |rest| ==> t[i + 1] == rest[i];
    assert forall i :: 0 < i < |t| ==> t[i] == rest[i - 1];
  }

  /** A run strays exactly if it meets a header that strays, faults exactly if
      it meets one that faults, and otherwise passes all headers and returns. */
  lemma {:induction false} TraceDecides(m: Ram, pd: nat, ph: u32, stride: u32, c: Invocation, left: nat)
    requires 256 <= pd && Mapped(m, pd) && c.Valid()
    ensures var t := Trace(m, Mmu(true, pd), ph, stride, c, left);
            var o := TableRun(m, Mmu(true, pd), ph, stride, c, left).outcome;
            && (o.Strayed? <==> SomeStrays(t, Mmu(true, pd), c))
            && (o.Faulted? <==> SomeFaults(t, Mmu(true, pd), c))
            && (o.Returned? ==> |t| == left)
    decreases left
  {
    hide DirectoryBuilt, FirstTableBuilt, HeaderPass, Counter, StrayHeader, FaultHeader, Add32, SomeStrays, SomeFaults;
    hide Preserved;
    var mmu := Mmu(true, pd);
    SomeOf(Pass(m, ph), [], mmu, c);
    if left > 0 {
      var e := HeaderPass(m, mmu, ph, c, Counter(left));
      PassDecides(m, pd, ph, c, Counter(left));
      if e.outcome.Returned? {
        PassPreserves(m, pd, ph, c, Counter(left));
        TraceDecides(e.m, pd, Add32(ph, stride), stride, c, left - 1);
        SomeOf(Pass(m, ph), Trace(e.m, mmu, Add32(ph, stride), stride, c, left - 1), mmu, c);
      }
    }
  }

  lemma {:induction false} TracePreserves(m: Ram, pd: nat, ph: u32, stride: u32, c: Invocation, left: nat)
    requires 256 <= pd && Mapped(m, pd) && c.Valid()
    ensures forall p :: p in Trace(m, Mmu(true, pd), ph, stride, c, left) ==> Preserved(m, p.m, c.s)
    decreases left
  {
    hide DirectoryBuilt, FirstTableBuilt, HeaderPass, Preserved, SameOutside, Counter, Add32;
    SameOutsideItself(m, c.s, c.s);
    PreservedOutside(m, m, c.s, c.s, c.s);
    if left > 0 {
      var e := HeaderPass(m, Mmu(true, pd), ph, c, Counter(left));
      PassPreserves(m, pd, ph, c, Counter(left));
      if e.outcome.Returned? {
        TracePreserves(e.m, pd, Add32(ph, stride), stride, c, left - 1);
        forall p | p in Trace(e.m, Mmu(true, pd), Add32(ph, stride), stride, c, left - 1)
          ensures Preserved(m, p.m, c.s)
        {
          PreservedSteps(m, e.m, p.m, c.s);
        }
      }
    }
  }

  /** The header, as it is met, keeps off the pushed words, and if it is
      accepted its segment is empty or ends at 0xC0100000 or below. */
  ghost predicate InRange(p: Pass, mmu: Mmu, c: Invocation)
  {
    && !OverlaysStack(p.m, mmu, p.ph, c.s)
    && (Accepts(p.m, mmu, p.ph) ==>
          match (Load32(p.m, mmu, Add32(p.ph, 8)), Load32(p.m, mmu, Add32(p.ph, 16)))
          case (Some(vaddr), Some(filesz)) => filesz == 0 || vaddr + filesz <= HIGHER_HALF + MB
          case _ => true)
  }

  /** So a run whose segments all end in range never strays: it returns or
      faults, and whatever the headers and sources are, the loader is as it
      was. */
  lemma InRangeNeverStrays(m: Ram, pd: nat, c: Invocation)
    requires 256 <= pd && Mapped(m, pd) && c.Valid() && c.image + 46 <= MB
    requires var t := KernelTrace(m, Mmu(true, pd), c);
             forall i :: 0 <= i < |t| ==> InRange(t[i], Mmu(true, pd), c)
    ensures !KernelRun(m, Mmu(true, pd), c).outcome.Strayed?
    ensures Preserved(m, KernelRun(m, Mmu(true, pd), c).m, c.s)
  {
    hide DirectoryBuilt, FirstTableBuilt, TableRun, Trace, Preserved, Dword, Word, StrayHeader, OverlaysStack, Accepts;
    hide Load32, Add32, FaultHeader;
    var mmu := Mmu(true, pd);
    var ph, stride := Add32(Dword(m, c.image + 28), c.image), Word(m, c.image + 42);
    var left := LoopCount(Word(m, c.image + 44), RAM_SIZE);
    var t := KernelTrace(m, mmu, c);
    TraceDecides(m, pd, ph, stride, c, left);
    TracePreserves(m, pd, ph, stride, c, left);
    TablePreserves(m, pd, ph, stride, c, left);
    forall i | 0 <= i < |t|
      ensures !Strays(t[i], mmu, c)
    {
      assert InRange(t[i], mmu, c);
      PreservedMapped(m, t[i].m, pd, c.s);
      OffStackAccepts(t[i].m, pd, t[i].ph, c);
    }
  }

  // ----- A header that strays although it is in range -----

  /** Memory at the entry of kernel_init, with the stack pointer at 0x8FC and
      the image at 0x70000, whose header table starts 17 bytes below the stack
      pointer: the first header is to be loaded from offset 9 - 0x70000 to
      0xC0001500, and its size field ends in the return address. */
  ghost function WithOverlay(m: Ram, ret: u32): Ram
  {
    var m1 := PutDword(m, 0x7_001C, Sub32(0x8EB, 0x7_0000));
    var m2 := PutDword(PutDword(m1, 0x8EB, 1), 0x8EF, Sub32(9, 0x7_0000));
    PutDword(PutDword(m2, 0x8F3, 0xC000_1500)[0x8FB := 0], 0x8FC, ret)
  }

  lemma FirstByte(m: Ram, a: nat, v: u32)
    requires a + 4 <= RAM_SIZE
    ensures PutDword(m, a, v)[a] == v % 0x100
  {
  }

  /** A dword one byte below a small one. */
  lemma ThreeBytes(m: Ram, a: nat, v: u32)
    requires 0 < a && a + 4 <= RAM_SIZE && v < 0x1_0000
    ensures Dword(PutDword(m, a, v), a - 1) == m[a - 1] + 0x100 * v
  {
    assert v == v % 0x100 + 0x100 * (v / 0x100);
  }

  lemma OverlayFields(m: Ram, ret: u32)
    requires ret < 0xFEB
    ensures var n := WithOverlay(m, ret);
            && Dword(n, 0x7_001C) == Sub32(0x8EB, 0x7_0000)
            && Dword(n, 0x8EB) == 1 && Dword(n, 0x8EF) == Sub32(9, 0x7_0000)
            && Dword(n, 0x8F3) == 0xC000_1500 && Dword(n, 0x8FB) == 0x100 * ret
            && n[0x8F3] == 0 && SameOutside(m, n, 0, MB)
  {
    hide FromBytes, PutDword;
    var m1 := PutDword(m, 0x7_001C, Sub32(0x8EB, 0x7_0000));
    var m2 := PutDword(m1, 0x8EB, 1);
    var m3 := PutDword(m2, 0x8EF, Sub32(9, 0x7_0000));
    var m4 := PutDword(m3, 0x8F3, 0xC000_1500);
    var m5 := m4[0x8FB := 0];
    DwordAfterPut(m, 0x7_001C, Sub32(0x8EB, 0x7_0000));
    DwordAfterPut(m1, 0x8EB, 1);
    DwordAfterPut(m2, 0x8EF, Sub32(9, 0x7_0000));
    DwordAfterPut(m3, 0x8F3, 0xC000_1500);
    DwordAfterPut(m5, 0x8FC, ret);
    FirstByte(m3, 0x8F3, 0xC000_1500);
    ThreeBytes(m5, 0x8FC, ret);
  }

  /** Of the first push after the count the destination field keeps its lowest
      byte only. */
  lemma OverlayPushed(m: Ram, count: u32)
    requires m[0x8F3] == 0
    ensures var m1 := PutDword(m, 0x8F8, count);
            && Dword(m1, 0x8EF) == Dword(m, 0x8EF)
            && Dword(PutDword(m1, 0x8F4, 9), 0x8F3) == 0x900
  {
    hide FromBytes, PutDword;
    var m1 := PutDword(m, 0x8F8, count);
    DwordAfterPut(m, 0x8F8, count);
    ThreeBytes(m1, 0x8F4, 9);
  }

  lemma OverlayLoads(m: Ram, pd: nat, c: Invocation, ret: u32)
    requires 256 <= pd && Mapped(m, pd) && c.s == 0x8FC && c.image == 0x7_0000 && 0 < ret < 0xFEB
    requires Dword(m, 0x8EB) == 1 && Dword(m, 0x8EF) == Sub32(9, 0x7_0000)
    requires Dword(m, 0x8F3) == 0xC000_1500 && Dword(m, 0x8FB) == 0x100 * ret && m[0x8F3] == 0
    ensures var mmu := Mmu(true, pd);
            && Accepts(m, mmu, 0x8EB)
            && Load32(m, mmu, Add32(0x8EB, 8)) == Some(0xC000_1500)
            && Load32(m, mmu, Add32(0x8EB, 16)) == Some(0x100 * ret)
            && SourceOf(m, mmu, 0x8EB, c) == Some(9) && TargetOf(m, mmu, 0x8EB, c) == Some(0x900)
  {
    hide DirectoryBuilt, FirstTableBuilt, Dword, PutDword, Lin, Load32;
    var m1 := PutDword(m, 0x8F8, 0x100 * ret);
    var m2 := PutDword(m1, 0x8F4, 9);
    OverlayPushed(m, 0x100 * ret);
    LowDword(m, pd, 0x8F8, 0x100 * ret);
    LowDword(m1, pd, 0x8F4, 9);
    LowMegDenoted(m, pd);
    LoadDenoted(m, Mmu(true, pd), 0, 0, MB, 0x8EB);
    LoadDenoted(m, Mmu(true, pd), 0, 0, MB, 0x8F3);
    LoadDenoted(m, Mmu(true, pd), 0, 0, MB, 0x8FB);
    LowMegDenoted(m1, pd);
    LoadDenoted(m1, Mmu(true, pd), 0, 0, MB, 0x8EF);
    LowMegDenoted(m2, pd);
    LoadDenoted(m2, Mmu(true, pd), 0, 0, MB, 0x8F3);
    assert Add32(Sub32(9, 0x7_0000), 0x7_0000) == 9;
  }

  lemma CopyOverLoader(m: Ram, pd: nat, n: nat)
    requires 256 <= pd && Mapped(m, pd) && 0 < n < 0xF_EB00
    ensures var r := CopiedThrough(m, Mmu(true, pd), 9, 0x900, n);
            r.1 && r.0[0x900] == m[9]
  {
    hide DirectoryBuilt, FirstTableBuilt, CopiedThrough, CopiedFrom;
    CopiedToAlias(m, pd, 9, 0, 0x900, n);
    CopiedFromLow(m, pd, 9, 0x900, n);
    CopiedFrame(m[0x900 := m[9]], 10, 0x901, n - 1);
  }

  lemma OverlayReturn(m: Ram, ret: u32)
    ensures Dword(WithOverlay(m, ret), 0x8FC) == ret
  {
    hide FromBytes, PutDword;
    var m1 := PutDword(m, 0x7_001C, Sub32(0x8EB, 0x7_0000));
    var m2 := PutDword(PutDword(m1, 0x8EB, 1), 0x8EF, Sub32(9, 0x7_0000));
    DwordAfterPut(PutDword(m2, 0x8F3, 0xC000_1500)[0x8FB := 0], 0x8FC, ret);
  }

  lemma OverlaySaved(m: Ram, pushed: Ram, saved: Ram, pd: nat)
    requires 256 <= pd && Mapped(pushed, pd) && Preserved(m, pushed, 0x8FC)
    requires SameOutside(pushed, saved, 0x8E4, 0x8EC)
    ensures Mapped(saved, pd) && saved[9] == m[9]
  {
    hide DirectoryBuilt, FirstTableBuilt;
    MappedBelow(pushed, saved, pd, MB);
  }

  /** With such a table, whatever memory holds otherwise, whatever the return
      address below 0xFEB is: the first header is accepted and its segment ends
      in range, but the destination read after the pushes is 0x900, where the
      loader begins, and the copy that the code goes on to make overwrites it. */
  lemma OverlaidHeader(m0: Ram, pd: nat, ret: u32, site: u32, ebp: u32, ecx: u32)
    requires 256 <= pd && Mapped(m0, pd) && 0 < ret < 0xFEB
    ensures var m, mmu, c := WithOverlay(m0, ret), Mmu(true, pd), Invocation(0x7_0000, site, 0x8FC, ebp);
            var pushed := KernelRun(m, mmu, c).m;
            var r := CopiedThrough(Saved(pushed, c.s - 16, ebp, ecx), mmu, 9, 0x900, 0x100 * ret);
            && KernelTrace(m, mmu, c) == [Pass(m, 0x8EB)] && Dword(m, 0x8FC) == ret
            && Accepts(m, mmu, 0x8EB)
            && Load32(m, mmu, Add32(0x8EB, 8)) == Some(CUTOFF)
            && Load32(m, mmu, Add32(0x8EB, 16)) == Some(0x100 * ret) && CUTOFF + 0x100 * ret <= HIGHER_HALF + MB
            && TargetOf(m, mmu, 0x8EB, c) == Some(0x900)
            && KernelRun(m, mmu, c).outcome.Strayed?
            && r.1 && r.0[0x900] == m[9]
  {
    hide DirectoryBuilt, FirstTableBuilt, Dword, Word, PutDword, Lin, Load32, CopiedThrough, SameOutside;
    hide WithOverlay, HeaderPass, Preserved;
    var m, mmu, c := WithOverlay(m0, ret), Mmu(true, pd), Invocation(0x7_0000, site, 0x8FC, ebp);
    OverlayFields(m0, ret);
    OverlayReturn(m0, ret);
    MappedBelow(m0, m, pd, MB);
    OverlayLoads(m, pd, c, ret);
    var left := LoopCount(Word(m, 0x7_002C), RAM_SIZE);
    PassDecides(m, pd, 0x8EB, c, Counter(left));
    PassPreserves(m, pd, 0x8EB, c, Counter(left));
    assert Add32(Sub32(0x8EB, 0x7_0000), 0x7_0000) == 0x8EB;
    var pushed := HeaderPass(m, mmu, 0x8EB, c, Counter(left)).m;
    assert KernelRun(m, mmu, c) == HeaderPass(m, mmu, 0x8EB, c, Counter(left));
    var saved := Saved(pushed, c.s - 16, ebp, ecx);
    SavedOutside(pushed, c.s - 16, ebp, ecx);
    OverlaySaved(m, pushed, saved, pd);
    CopyOverLoader(saved, pd, 0x100 * ret);
  }

  // ----- Runs that stay in the low megabyte -----

  /** A header of the low megabyte above the stack is read without a fault. */
  lemma InHeader(m: Ram, pd: nat, ph: u32, s: nat)
    requires Mapped(m, pd) && s <= LOW
    ensures LOW <= ph && ph + 20 <= MB ==>
              var h := HeaderAt(m, ph);
              && Load32(m, Mmu(true, pd), ph) == Some(h.kind)
              && Load32(m, Mmu(true, pd), Add32(ph, 4)) == Some(h.offset)
              && Load32(m, Mmu(true, pd), Add32(ph, 8)) == Some(h.vaddr)
              && Load32(m, Mmu(true, pd), Add32(ph, 16)) == Some(h.filesz)
              && !OverlaysCount(m, Mmu(true, pd), ph, s)
              && !OverlaysStack(m, Mmu(true, pd), ph, s)
  {
    hide Mapped, Dword, Overlaps, Load32, Add32;
    if LOW <= ph && ph + 20 <= MB {
      AddExact(ph, 4);
      AddExact(ph, 8);
      AddExact(ph, 16);
      LowLoad(m, pd, ph, s - 8, s);
      LowLoad(m, pd, ph + 4, s - 4, s);
      LowLoad(m, pd, ph + 8, s - 8, s);
      LowLoad(m, pd, ph + 16, s - 8, s);
    }
  }

  /** Everything one call of mem_cpy does, seen from outside the stack window:
      the pushes stay in it and the copy neither reads nor writes it. */
  lemma CallSeenOutside(m: Ram, s: nat, count: u32, src: u32, dst: nat, site: u32, ebp: u32, ecx: u32)
    requires 24 <= s && s + 4 <= LOW
    requires LOW <= src && src + count <= MB && LOW <= dst && dst + count <= MB
    ensures var saved := Saved(Pushed(m, s, count, src, dst + HIGHER_HALF, site), s - 16, ebp, ecx);
            SameOutside(Copied(saved, src, dst, count), Copied(m, src, dst, count), s - 24, s)
  {
    hide Copied, PutDword, FromBytes;
    var pushed := Pushed(m, s, count, src, dst + HIGHER_HALF, site);
    PushedWords(m, s, count, src, dst + HIGHER_HALF, site);
    var q := s - 16;
    DwordAfterPut(pushed, q - 4, ebp);
    DwordAfterPut(PutDword(pushed, q - 4, ebp), q - 8, ecx);
    CopiedAgree(Saved(pushed, q, ebp, ecx), m, s - 24, s, src, dst, count);
  }

  /** A call with its source in the low megabyte: it does not fault, and it is
      the segment's copy as seen from outside the stack. */
  lemma CallInLow(m: Ram, pd: nat, c: Invocation, count: u32, src: u32, target: u32, ecx: u32)
    requires 256 <= pd && Mapped(m, pd) && c.Valid() && CUTOFF <= target && target + count <= HIGHER_HALF + MB
    requires LOW <= src && src + count <= MB
    ensures var saved := Saved(Pushed(m, c.s, count, src, target, c.site), c.s - 16, c.ebp, ecx);
            var r := CopiedThrough(saved, Mmu(true, pd), src, target, count);
            r.1 && SameOutside(r.0, Copied(m, src, target - HIGHER_HALF, count), c.s - 24, c.s)
  {
    hide Copied, CopiedFrom, CopiedThrough, Saved, Pushed, DirectoryBuilt, FirstTableBuilt, SameOutside, Dword;
    var saved := Saved(Pushed(m, c.s, count, src, target, c.site), c.s - 16, c.ebp, ecx);
    SavedEffect(m, pd, c, count, src, target, ecx);
    CopiedToAlias(saved, pd, src, HIGHER_HALF, target - HIGHER_HALF, count);
    CopiedFromLow(saved, pd, src, target - HIGHER_HALF, count);
    CallSeenOutside(m, c.s, count, src, target - HIGHER_HALF, c.site, c.ebp, ecx);
  }

  /** What the walk needs of its next header. */
  lemma WalkStep(m: Ram, image: nat, ph: nat, stride: nat, n: nat)
    requires n > 0 && WalkHeaders(m, image, ph, stride, n).Done?
    ensures image <= ph && ph + 20 <= MB
    ensures var h := HeaderAt(m, ph);
            if Accepted(h) then
              && Loadable(h, image)
              && WalkHeaders(m, image, ph, stride, n) ==
                 WalkHeaders(Copied(m, image + h.offset, h.vaddr - HIGHER_HALF, h.filesz),
                             image, ph + stride, stride, n - 1)
            else WalkHeaders(m, image, ph, stride, n) == WalkHeaders(m, image, ph + stride, stride, n - 1)
  {
    hide Copied, HeaderAt;
  }

  lemma HeaderElsewhere(m: Ram, n: Ram, lo: int, hi: int, a: nat)
    requires SameOutside(m, n, lo, hi) && hi <= a && a + 20 <= RAM_SIZE
    ensures HeaderAt(m, a) == HeaderAt(n, a)
  {
    hide Dword, SameOutside;
    DwordElsewhere(m, n, lo, hi, a);
    DwordElsewhere(m, n, lo, hi, a + 4);
    DwordElsewhere(m, n, lo, hi, a + 8);
    DwordElsewhere(m, n, lo, hi, a + 16);
  }

  /** The machine's memory keeps following the walk's across one copy. */
  lemma CopyFollows(actual: Ram, after: Ram, model: Ram, lo: nat, hi: nat, src: nat, dst: nat, n: nat)
    requires SameOutside(actual, model, lo, hi)
    requires hi <= LOW && LOW <= src && src + n <= MB && LOW <= dst && dst + n <= MB
    requires SameOutside(after, Copied(actual, src, dst, n), lo, hi)
    ensures SameOutside(after, Copied(model, src, dst, n), lo, hi)
  {
    hide Copied, SameOutside;
    CopiedAgree(actual, model, lo, hi, src, dst, n);
    SameOutsideTransitive(after, Copied(actual, src, dst, n), Copied(model, src, dst, n), lo, hi, lo, hi);
  }

  lemma PassFollows(actual: Ram, model: Ram, pd: nat, c: Invocation, ph: u32, ecx: u32)
    requires 256 <= pd && Mapped(actual, pd) && c.Valid() && SameOutside(actual, model, c.s - 24, c.s)
    requires LOW <= c.image && LOW <= ph && ph + 20 <= MB
    requires Accepted(HeaderAt(model, ph)) ==> Loadable(HeaderAt(model, ph), c.image)
    ensures var h := HeaderAt(model, ph);
            var e := HeaderPass(actual, Mmu(true, pd), ph, c, ecx);
            && e.outcome.Returned?
            && SameOutside(e.m, if Accepted(h) then Copied(model, c.image + h.offset, h.vaddr - HIGHER_HALF, h.filesz)
                                else model, c.s - 24, c.s)
  {
    hide DirectoryBuilt, FirstTableBuilt, Copied, SameOutside, Load32, Add32, PutDword, Pushed, Saved, Overlaps;
    hide CopiedThrough, HeaderAt;
    var mmu, h := Mmu(true, pd), HeaderAt(model, ph);
    HeaderElsewhere(actual, model, c.s - 24, c.s, ph);
    InHeader(actual, pd, ph, c.s);
    if Accepted(h) {
      var source := c.image + h.offset;
      AddExact(h.offset, c.image);
      LoadAfterPushes(actual, pd, ph, c.s, h.filesz, source);
      CallInLow(actual, pd, c, h.filesz, source, h.vaddr, ecx);
      var saved := Saved(Pushed(actual, c.s, h.filesz, source, h.vaddr, c.site), c.s - 16, c.ebp, ecx);
      var n := CopiedThrough(saved, mmu, source, h.vaddr, h.filesz).0;
      CopyFollows(actual, n, model, c.s - 24, c.s, source, h.vaddr - HIGHER_HALF, h.filesz);
    }
  }

  /** When the walk over the headers stays in the low megabyte, the run returns
      with the memory that the walk computes, outside the stack words. */
  lemma {:induction false} RunFollowsWalk(actual: Ram, model: Ram, pd: nat, c: Invocation, ph: u32,
                                          stride: u32, left: nat)
    requires 256 <= pd && Mapped(actual, pd) && c.Valid() && LOW <= c.image && stride < 0x1_0000
    requires SameOutside(actual, model, c.s - 24, c.s) && WalkHeaders(model, c.image, ph, stride, left).Done?
    ensures var e := TableRun(actual, Mmu(true, pd), ph, stride, c, left);
            && e.outcome.Returned?
            && SameOutside(e.m, WalkHeaders(model, c.image, ph, stride, left).m, c.s - 24, c.s)
    decreases left
  {
    hide DirectoryBuilt, FirstTableBuilt, Copied, SameOutside, WalkHeaders, HeaderPass, HeaderAt, Counter;
    if left == 0 {
      WalkDone(model, c.image, ph, stride);
    } else {
      WalkStep(model, c.image, ph, stride, left);
      PassFollows(actual, model, pd, c, ph, Counter(left));
      PassPreserves(actual, pd, ph, c, Counter(left));
      AddExact(ph, stride);
      var h, e := HeaderAt(model, ph), HeaderPass(actual, Mmu(true, pd), ph, c, Counter(left));
      var next := if Accepted(h) then Copied(model, c.image + h.offset, h.vaddr - HIGHER_HALF, h.filesz) else model;
      RunFollowsWalk(e.m, next, pd, c, ph + stride, stride, left - 1);
    }
  }

  // ----- In the header's own words -----

  /** A header of type 0, or with an address below 0xC0001500, copies nothing. */
  lemma SkippedHeader(m: Ram, mmu: Mmu, ph: u32, c: Invocation, ecx: u32, kind: u32, vaddr: u32)
    requires c.Valid() && Load32(m, mmu, ph) == Some(kind) && Load32(m, mmu, Add32(ph, 8)) == Some(vaddr)
    requires kind == 0 || vaddr < 0xC000_1500
    ensures HeaderPass(m, mmu, ph, c, ecx) == End(Returned, m)
  {
    hide Load32, CopyPass;
  }

  /** Any other one is copied: with header and source in the low megabyte above
      0x1500, the destination in reach and apart from the source, byte i of the
      segment stands at its address, and nothing else but stack words changes. */
  lemma CopiedHeader(m: Ram, pd: nat, ph: u32, c: Invocation, ecx: u32)
    requires 256 <= pd && Mapped(m, pd) && c.Valid() && 0x1500 <= c.image && 0x1500 <= ph && ph + 20 <= 0x10_0000
    requires Dword(m, ph) != 0 && Dword(m, ph + 8) >= 0xC000_1500
    requires Dword(m, ph + 8) + Dword(m, ph + 16) <= 0xC010_0000
    requires c.image + Dword(m, ph + 4) + Dword(m, ph + 16) <= 0x10_0000
    requires Apart(c.image + Dword(m, ph + 4), Dword(m, ph + 16), Dword(m, ph + 8) - 0xC000_0000, Dword(m, ph + 16))
    ensures var e := HeaderPass(m, Mmu(true, pd), ph, c, ecx);
            var source, dst, size := c.image + Dword(m, ph + 4), Dword(m, ph + 8) - 0xC000_0000, Dword(m, ph + 16);
            && e.outcome.Returned?
            && (forall a: nat :: dst <= a < dst + size ==> e.m[a] == m[source + (a - dst)])
            && (forall a: nat :: a < RAM_SIZE && !(dst <= a < dst + size) && !(c.s - 24 <= a < c.s) ==> e.m[a] == m[a])
  {
    hide DirectoryBuilt, FirstTableBuilt, Dword, Copied, HeaderPass;
    SameOutsideItself(m, c.s - 24, c.s);
    PassFollows(m, m, pd, c, ph, ecx);
    var source, dst, size := c.image + Dword(m, ph + 4), Dword(m, ph + 8) - 0xC000_0000, Dword(m, ph + 16);
    CopiedApart(m, source, dst, size);
    CopiedFrame(m, source, dst, size);
  }

  /** The headers met: the first where the dword at offset 28 says, each the
      size at offset 42 behind the one before, as many as the word at offset 44
      says, with 0 for 2^32. */
  lemma TraceInWords(m: Ram, pd: nat, c: Invocation)
    requires 256 <= pd && Mapped(m, pd) && c.Valid() && c.image + 46 <= 0x10_0000
    ensures var t := KernelTrace(m, Mmu(true, pd), c);
            var count := if Word(m, c.image + 44) == 0 then 0x1_0000_0000 else Word(m, c.image + 44);
            && t != [] && t[0] == Pass(m, (Dword(m, c.image + 28) + c.image) % 0x1_0000_0000)
            && (forall i :: 0 <= i < |t| - 1 ==> t[i + 1].ph == (t[i].ph + Word(m, c.image + 42)) % 0x1_0000_0000)
            && |t| <= count && (KernelRun(m, Mmu(true, pd), c).outcome.Returned? ==> |t| == count)
  {
    hide Trace, TableRun, Dword, Word, DirectoryBuilt, FirstTableBuilt, SomeStrays, SomeFaults, HeaderPass;
    var ph, stride := Add32(Dword(m, c.image + 28), c.image), Word(m, c.image + 42);
    var left := LoopCount(Word(m, c.image + 44), RAM_SIZE);
    TraceSteps(m, Mmu(true, pd), ph, stride, c, left);
    TraceDecides(m, pd, ph, stride, c, left);
  }

  /** And what every run keeps. */
  lemma PreservedInWords(m: Ram, pd: nat, c: Invocation, a: nat)
    requires 256 <= pd && Mapped(m, pd) && c.Valid() && c.image + 46 <= 0x10_0000 && a < RAM_SIZE
    requires (a < 0x1500 && !(c.s - 24 <= a < c.s)) || 0x10_0000 <= a
    ensures KernelRun(m, Mmu(true, pd), c).m[a] == m[a]
  {
    hide TableRun, Dword, Word, DirectoryBuilt, FirstTableBuilt;
    TablePreserves(m, pd, Add32(Dword(m, c.image + 28), c.image), Word(m, c.image + 42), c,
                   LoopCount(Word(m, c.image + 44), RAM_SIZE));
  }

  // ----- The loop -----

  /** The four pushes, each operand read from the header as it then is. */
  method PushArguments(cpu: Machine, pd: nat, image: u32, site: u32, ghost s: nat)
    returns (st: Status, count: u32, source: u32, target: u32)
    requires cpu.Valid() && OnStack(cpu, pd, s) && 24 <= s
    modifies cpu.mem, cpu`eax, cpu`esp
    ensures var m, c := old(cpu.Ram()), Invocation(image, site, s, cpu.ebp);
            match st
            case Running =>
              && OnStack(cpu, pd, s - 16) && cpu.Ram() == Pushed(m, s, count, source, target, site)
              && Load32(m, cpu.mmu, Add32(cpu.ebx, 16)) == Some(count)
              && SourceOf(m, cpu.mmu, cpu.ebx, c) == Some(source)
              && TargetOf(m, cpu.mmu, cpu.ebx, c) == Some(target)
            case PageFault =>
              CopyPass(m, cpu.mmu, cpu.ebx, c, cpu.ecx) == End(Faulted, cpu.Ram())
  {
    hide Mapped, Dword, PutDword, FromBytes, Load32, Add32, InReach, CopiedThrough, Saved;
    source, target := 0, 0;
    st, count := cpu.Get32(Add32(cpu.ebx, 16));
    if st.PageFault? { return; }
    PushLow(cpu, pd, s - 4, count);
    st, cpu.eax := cpu.Get32(Add32(cpu.ebx, 4));
    if st.PageFault? { return; }
    cpu.eax := Add32(cpu.eax, image);
    source := cpu.eax;
    PushLow(cpu, pd, s - 8, cpu.eax);
    st, target := cpu.Get32(Add32(cpu.ebx, 8));
    if st.PageFault? { return; }
    PushLow(cpu, pd, s - 12, target);
    PushLow(cpu, pd, s - 16, site);
  }

  lemma CopyPassOf(m: Ram, mmu: Mmu, ph: u32, c: Invocation, ecx: u32, count: u32, source: u32, target: u32)
    requires c.Valid() && Load32(m, mmu, Add32(ph, 16)) == Some(count)
    requires SourceOf(m, mmu, ph, c) == Some(source) && TargetOf(m, mmu, ph, c) == Some(target)
    ensures var pushed := Pushed(m, c.s, count, source, target, c.site);
            CopyPass(m, mmu, ph, c, ecx) ==
            if !InReach(target, count) then End(Strayed, pushed)
            else
              var r := CopiedThrough(Saved(pushed, c.s - 16, c.ebp, ecx), mmu, source, target, count);
              End(if r.1 then Returned else Faulted, r.0)
  {
    hide Load32, PutDword, Pushed, Saved, CopiedThrough, Add32, InReach;
  }

  /** The copy path of the loop, from the first push to the stack correction. */
  method CopySegment(cpu: Machine, pd: nat, image: u32, site: u32, ghost s: nat) returns (o: Outcome)
    requires cpu.Valid() && OnStack(cpu, pd, s) && 24 <= s
    modifies cpu.mem, cpu`eax, cpu`ecx, cpu`esi, cpu`edi, cpu`ebp, cpu`esp, cpu`eip
    ensures End(o, cpu.Ram()) ==
            CopyPass(old(cpu.Ram()), cpu.mmu, cpu.ebx, Invocation(image, site, s, old(cpu.ebp)), old(cpu.ecx))
    ensures o.Returned? ==>
              OnStack(cpu, pd, s) && cpu.ecx == old(cpu.ecx) && cpu.ebp == old(cpu.ebp) && cpu.eip == site
  {
    hide Mapped, Dword, CopiedThrough, Pushed, Saved, Load32, CopyPass, StackFrame, SourceOf, TargetOf, Unreadable;
    hide Preserved, SameOutside, Add32;
    ghost var m, c, ecx := cpu.Ram(), Invocation(image, site, s, cpu.ebp), cpu.ecx;
    var st, count, source, target := PushArguments(cpu, pd, image, site, s);
    if st.PageFault? {
      return Faulted;
    }
    CopyPassOf(m, cpu.mmu, cpu.ebx, c, ecx, count, source, target);
    if !InReach(target, count) {
      return Strayed;
    }
    PushedWords(m, s, count, source, target, site);
    CallEffect(m, pd, c, count, source, target, ecx);
    st := MemCpy(cpu, pd, s - 16);
    if st.PageFault? {
      return Faulted;
    }
    AddExact(cpu.esp, 12);
    cpu.esp := Add32(cpu.esp, 12);
    return Returned;
  }

  /** One pass of .get_each_segment up to the loop instruction, for every
      header: memory and outcome are those of the pass, ebx moves on by edx. */
  method GetEachSegment(cpu: Machine, pd: nat, image: u32, site: u32, ghost s: nat) returns (o: Outcome)
    requires cpu.Valid() && OnStack(cpu, pd, s) && 24 <= s
    modifies cpu.mem, cpu`eax, cpu`ebx, cpu`ecx, cpu`esi, cpu`edi, cpu`ebp, cpu`esp, cpu`eip
    ensures End(o, cpu.Ram()) ==
            HeaderPass(old(cpu.Ram()), cpu.mmu, old(cpu.ebx), Invocation(image, site, s, old(cpu.ebp)), old(cpu.ecx))
    ensures o.Returned? ==>
              && OnStack(cpu, pd, s) && cpu.ebx == Add32(old(cpu.ebx), cpu.edx)
              && cpu.ecx == old(cpu.ecx) && cpu.ebp == old(cpu.ebp)
  {
    hide Mapped, Load32, CopyPass, Add32;
    var st, kind := cpu.Get32(cpu.ebx);
    if st.PageFault? {
      return Faulted;
    }
    if kind != PT_NULL {
      st, cpu.eax := cpu.Get32(Add32(cpu.ebx, 8));
      if st.PageFault? {
        return Faulted;
      }
      if !(cpu.eax < CUTOFF) {
        o := CopySegment(cpu, pd, image, site, s);
        if !o.Returned? { return; }
      }
    }
    cpu.ebx := Add32(cpu.ebx, cpu.edx);
    o := Returned;
  }

  /** Table address, entry size and entry count from the ELF header. */
  method ReadElfHeader(cpu: Machine, pd: nat, image: u32)
    requires cpu.Valid() && KernelPaging(cpu.Ram(), cpu.mmu, pd) && image + 46 <= MB
    modifies cpu`eax, cpu`ebx, cpu`ecx, cpu`edx
    ensures cpu.ebx == Add32(Dword(cpu.Ram(), image + 28), image)
    ensures cpu.edx == Word(cpu.Ram(), image + 42) < 0x1_0000
    ensures cpu.ecx == Word(cpu.Ram(), image + 44) < 0x1_0000
  {
    hide Mapped, Dword, Word, Add32, SetLow16, KernelPaging, Machine.Ram;
    cpu.eax, cpu.ebx, cpu.ecx, cpu.edx := 0, 0, 0, 0;
    cpu.ebx := LoadLow(cpu, pd, image + 28, image + 28);
    cpu.ebx := Add32(cpu.ebx, image);
    var half := LoadLow16(cpu, pd, image + 42);
    WordBound(cpu.Ram(), image + 42);
    ZeroExtends(half);
    cpu.edx := SetLow16(cpu.edx, half);
    half := LoadLow16(cpu, pd, image + 44);
    WordBound(cpu.Ram(), image + 44);
    ZeroExtends(half);
    cpu.ecx := SetLow16(cpu.ecx, half);
  }

  lemma TableStep(m: Ram, mmu: Mmu, ph: u32, stride: u32, c: Invocation, left: nat)
    requires c.Valid() && left > 0
    ensures TableRun(m, mmu, ph, stride, c, left) ==
            var e := HeaderPass(m, mmu, ph, c, Counter(left));
            if e.outcome.Returned? then TableRun(e.m, mmu, Add32(ph, stride), stride, c, left - 1) else e
  {
    hide HeaderPass;
  }

  lemma TableDone(m: Ram, mmu: Mmu, ph: u32, stride: u32, c: Invocation)
    requires c.Valid()
    ensures TableRun(m, mmu, ph, stride, c, 0) == End(Returned, m)
  {
  }

  method WalkSegments(cpu: Machine, pd: nat, image: u32, site: u32, ghost s: nat) returns (o: Outcome)
    requires cpu.Valid() && OnStack(cpu, pd, s) && 24 <= s
    modifies cpu.mem, cpu`eax, cpu`ebx, cpu`ecx, cpu`esi, cpu`edi, cpu`ebp, cpu`esp, cpu`eip
    ensures End(o, cpu.Ram()) ==
            TableRun(old(cpu.Ram()), cpu.mmu, old(cpu.ebx), cpu.edx, Invocation(image, site, s, old(cpu.ebp)),
                     LoopCount(old(cpu.ecx), RAM_SIZE))
    ensures o.Returned? ==> OnStack(cpu, pd, s) && cpu.ebp == old(cpu.ebp)
  {
    hide Mapped, TableRun, HeaderPass, Add32;
    ghost var c, left := Invocation(image, site, s, cpu.ebp), LoopCount(cpu.ecx, RAM_SIZE);
    ghost var whole := TableRun(cpu.Ram(), cpu.mmu, cpu.ebx, cpu.edx, c, left);
    while true
      invariant 0 < left <= RAM_SIZE && cpu.ecx == Counter(left)
      invariant OnStack(cpu, pd, s) && cpu.ebp == c.ebp
      invariant TableRun(cpu.Ram(), cpu.mmu, cpu.ebx, cpu.edx, c, left) == whole
      decreases left
    {
      TableStep(cpu.Ram(), cpu.mmu, cpu.ebx, cpu.edx, c, left);
      o := GetEachSegment(cpu, pd, image, site, s);
      if !o.Returned? { return; }
      left := left - 1;
      cpu.ecx := Sub32(cpu.ecx, 1);
      if cpu.ecx == 0 { break; }
    }
    TableDone(cpu.Ram(), cpu.mmu, cpu.ebx, cpu.edx, c);
    o := Returned;
  }

  lemma PreservedDword(m: Ram, n: Ram, s: nat)
    requires Preserved(m, n, s) && s + 4 <= LOW
    ensures Dword(n, s) == Dword(m, s)
  {
  }

  /** The run's promises. */
  lemma KernelRunPromises(m: Ram, pd: nat, c: Invocation)
    requires 256 <= pd && Mapped(m, pd) && c.Valid() && c.image + 46 <= MB
    ensures var e, t := KernelRun(m, Mmu(true, pd), c), KernelTrace(m, Mmu(true, pd), c);
            && Preserved(m, e.m, c.s) && Mapped(e.m, pd)
            && (e.outcome.Strayed? <==> SomeStrays(t, Mmu(true, pd), c))
            && (e.outcome.Faulted? <==> SomeFaults(t, Mmu(true, pd), c))
            && (LOW <= c.image && LoadKernel(m, c.image).Done? ==>
                  e.outcome.Returned? && SameOutside(e.m, LoadKernel(m, c.image).m, c.s - 24, c.s))
  {
    hide DirectoryBuilt, FirstTableBuilt, TableRun, Trace, Preserved, SameOutside, Dword, Word, WalkHeaders, Add32;
    hide SomeStrays, SomeFaults;
    var ph, stride := Add32(Dword(m, c.image + 28), c.image), Word(m, c.image + 42);
    var left := LoopCount(Word(m, c.image + 44), RAM_SIZE);
    WordBound(m, c.image + 42);
    TablePreserves(m, pd, ph, stride, c, left);
    TraceDecides(m, pd, ph, stride, c, left);
    SameOutsideItself(m, c.s - 24, c.s);
    if LOW <= c.image && LoadKernel(m, c.image).Done? {
      RunFollowsWalk(m, m, pd, c, ph, stride, left);
    }
  }

  /** kernel_init, for any image and any table: memory and outcome are those of
      the run. So, however it ends, below 0x1500 nothing but the 24 bytes under
      the entry stack pointer has changed and above the low megabyte nothing at
      all; it strays or faults exactly if one of the headers it meets does; and
      if it returns, control and stack pointer are back at the caller's. When
      the walk over the headers stays in the low megabyte, it returns, with the
      memory that the walk computes outside the stack bytes. */
  method KernelInit(cpu: Machine, pd: nat, image: u32, site: u32, ghost s: nat) returns (o: Outcome)
    requires cpu.Valid() && OnStack(cpu, pd, s) && 24 <= s && s + 8 <= LOW && image + 46 <= MB
    modifies cpu.mem, cpu`eax, cpu`ebx, cpu`ecx, cpu`edx, cpu`esi, cpu`edi, cpu`ebp, cpu`esp, cpu`eip
    ensures End(o, cpu.Ram()) == KernelRun(old(cpu.Ram()), cpu.mmu, Invocation(image, site, s, old(cpu.ebp)))
    ensures Preserved(old(cpu.Ram()), cpu.Ram(), s) && KernelPaging(cpu.Ram(), cpu.mmu, pd)
    ensures var c := Invocation(image, site, s, old(cpu.ebp));
            var t := KernelTrace(old(cpu.Ram()), cpu.mmu, c);
            && (o.Strayed? <==> SomeStrays(t, cpu.mmu, c))
            && (o.Faulted? <==> SomeFaults(t, cpu.mmu, c))
    ensures o.Returned? ==>
              OnStack(cpu, pd, s + 4) && cpu.eip == old(Dword(cpu.Ram(), s)) && cpu.ebp == old(cpu.ebp)
    ensures LOW <= image && LoadKernel(old(cpu.Ram()), image).Done? ==>
              o.Returned? && SameOutside(cpu.Ram(), LoadKernel(old(cpu.Ram()), image).m, s - 24, s)
  {
    hide Mapped, Dword, SameOutside, Word, Preserved, TableRun, Trace, LoadKernel, Add32, SomeStrays, SomeFaults;
    ghost var m := cpu.Ram();
    KernelRunPromises(m, pd, Invocation(image, site, s, cpu.ebp));
    ReadElfHeader(cpu, pd, image);
    o := WalkSegments(cpu, pd, image, site, s);
    if !o.Returned? { return; }
    PreservedDword(m, cpu.Ram(), s);
    var target := PopLow(cpu, pd, s);
    cpu.eip := target;
  }
}
