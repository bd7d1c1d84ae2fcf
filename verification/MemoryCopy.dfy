/** mem_cpy with paging on, over the loader's stack: for any arguments, and for
    destinations in the mapped megabyte. */
module MemoryCopy {
  import opened Words
  import opened PhysicalMemory
  import opened Paging
  import opened Cpu
  import opened PageTables
  import opened KernelMap
  import opened ElfImage

  // ----- The stack -----

  /** A stack in the low megabyte, seen through its higher-half addresses. */
  ghost predicate OnStack(cpu: Machine, pd: nat, q: nat)
    requires cpu.Valid()
    reads cpu, cpu.mem
  {
    && KernelPaging(cpu.Ram(), cpu.mmu, pd)
    && cpu.esp == HIGHER_HALF + q && q + 4 <= LOW
  }

  lemma LowByte(m: Ram, n: Ram, pd: nat, a: nat, b: u8)
    requires 256 <= pd && Mapped(m, pd) && a < MB && n == m[a := b]
    ensures Mapped(n, pd)
  {
    hide Entry, DirectoryBuilt, FirstTableBuilt;
    MappedBelow(m, n, pd, MB);
  }

  lemma LowDword(m: Ram, pd: nat, a: nat, v: u32)
    requires 256 <= pd && Mapped(m, pd) && a + 4 <= MB
    ensures Mapped(PutDword(m, a, v), pd)
  {
    hide Entry, DirectoryBuilt, FirstTableBuilt, PutDword;
    DwordAfterPut(m, a, v);
    MappedBelow(m, PutDword(m, a, v), pd, MB);
  }

  method PushLow(cpu: Machine, pd: nat, ghost q: nat, v: u32)
    requires cpu.Valid() && OnStack(cpu, pd, q + 4)
    modifies cpu.mem, cpu`esp
    ensures OnStack(cpu, pd, q)
    ensures cpu.Ram() == PutDword(old(cpu.Ram()), q, v)
  {
    hide Mapped, PutDword, Lin, Store32;
    LowMegDenoted(cpu.Ram(), pd);
    SubExact(cpu.esp, 4);
    StoreDenoted(cpu.Ram(), cpu.mmu, HIGHER_HALF, 0, MB, HIGHER_HALF + q, v);
    LowDword(cpu.Ram(), pd, q, v);
    var _ := cpu.Push(v);
  }

  method PopLow(cpu: Machine, pd: nat, ghost q: nat) returns (v: u32)
    requires cpu.Valid() && OnStack(cpu, pd, q) && q + 8 <= LOW
    modifies cpu`esp
    ensures OnStack(cpu, pd, q + 4)
    ensures v == Dword(cpu.Ram(), q)
  {
    hide Mapped, Dword, Lin, Load32;
    LowMegDenoted(cpu.Ram(), pd);
    AddExact(cpu.esp, 4);
    LoadDenoted(cpu.Ram(), cpu.mmu, HIGHER_HALF, 0, MB, HIGHER_HALF + q);
    var s;
    s, v := cpu.Pop();
  }

  /** mov reg, [va] for an address of the low megabyte or its upper alias. */
  method LoadLow(cpu: Machine, pd: nat, va: u32, ghost p: nat) returns (v: u32)
    requires cpu.Valid() && KernelPaging(cpu.Ram(), cpu.mmu, pd)
    requires p + 4 <= MB && (va == p || va == HIGHER_HALF + p)
    ensures v == Dword(cpu.Ram(), p)
  {
    hide Mapped, Dword, Lin, Load32;
    LowMegDenoted(cpu.Ram(), pd);
    LoadDenoted(cpu.Ram(), cpu.mmu, va - p, 0, MB, va);
    var s;
    s, v := cpu.Get32(va);
  }

  method LoadLow16(cpu: Machine, pd: nat, va: u32) returns (v: u32)
    requires cpu.Valid() && KernelPaging(cpu.Ram(), cpu.mmu, pd)
    requires va + 2 <= MB
    ensures v == Word(cpu.Ram(), va)
  {
    hide Mapped, Word, Lin, Load16;
    LowMegDenoted(cpu.Ram(), pd);
    LoadDenoted(cpu.Ram(), cpu.mmu, 0, 0, MB, va);
    var s;
    s, v := cpu.Get16(va);
  }

  // ----- mem_cpy -----

  /** rep movsb between any two linear addresses: memory as far as the copy
      got, and whether it got to the end without a page fault. */
  ghost function CopiedThrough(m: Ram, mmu: Mmu, src: u32, dst: u32, n: nat): (Ram, bool)
    decreases n
  {
    if n == 0 then (m, true)
    else
      match Load8(m, mmu, src)
      case None => (m, false)
      case Some(b) =>
        match Store8(m, mmu, dst, b)
        case None => (m, false)
        case Some(m1) => CopiedThrough(m1, mmu, Add32(src, 1), Add32(dst, 1), n - 1)
  }

  /** The same copy to physical dst. */
  ghost function CopiedFrom(m: Ram, mmu: Mmu, src: u32, dst: nat, n: nat): (Ram, bool)
    requires dst + n <= RAM_SIZE
    decreases n
  {
    if n == 0 then (m, true)
    else
      match Load8(m, mmu, src)
      case None => (m, false)
      case Some(b) => CopiedFrom(m[dst := b], mmu, Add32(src, 1), dst + 1, n - 1)
  }

  lemma {:induction false} CopiedFromFrame(m: Ram, mmu: Mmu, src: u32, dst: nat, n: nat)
    requires dst + n <= RAM_SIZE
    ensures SameOutside(m, CopiedFrom(m, mmu, src, dst, n).0, dst, dst + n)
    decreases n
  {
    hide Lin;
    if n > 0 {
      var b := Load8(m, mmu, src);
      if b.Some? {
        CopiedFromFrame(m[dst := b.value], mmu, Add32(src, 1), dst + 1, n - 1);
      }
    }
  }

  /** From the low megabyte, which is identity-mapped, it is the copy on
      physical memory and never faults. */
  lemma {:induction false} CopiedFromLow(m: Ram, pd: nat, src: u32, dst: nat, n: nat)
    requires 256 <= pd && Mapped(m, pd) && src + n <= MB && dst + n <= MB
    ensures CopiedFrom(m, Mmu(true, pd), src, dst, n) == (Copied(m, src, dst, n), true)
    decreases n
  {
    hide DirectoryBuilt, FirstTableBuilt, Lin, Load8;
    if n > 0 {
      LowMegDenoted(m, pd);
      LoadDenoted(m, Mmu(true, pd), 0, 0, MB, src);
      LowByte(m, m[dst := m[src]], pd, dst, m[src]);
      AddExact(src, 1);
      CopiedFromLow(m[dst := m[src]], pd, src + 1, dst + 1, n - 1);
    }
  }

  /** Copies to the low megabyte, or to its alias from 3 GB on. */
  lemma {:induction false} CopiedToAlias(m: Ram, pd: nat, src: u32, base: nat, dst: nat, n: nat)
    requires 256 <= pd && Mapped(m, pd) && dst + n <= MB && (base == 0 || base == HIGHER_HALF)
    ensures CopiedThrough(m, Mmu(true, pd), src, base + dst, n) == CopiedFrom(m, Mmu(true, pd), src, dst, n)
    decreases n
  {
    hide DirectoryBuilt, FirstTableBuilt, Lin, Load8, Store8;
    var b := Load8(m, Mmu(true, pd), src);
    if n > 0 && b.Some? {
      LowMegDenoted(m, pd);
      StoreDenoted(m, Mmu(true, pd), base, 0, MB, base + dst, b.value);
      LowByte(m, m[dst := b.value], pd, dst, b.value);
      AddExact(base + dst, 1);
      CopiedToAlias(m[dst := b.value], pd, Add32(src, 1), base, dst + 1, n - 1);
    }
  }

  /** Some byte of the linear range is not mapped. */
  ghost predicate Unreadable(m: Ram, mmu: Mmu, src: u32, n: nat)
  {
    exists i: u32 :: i < n && Lin(m, mmu, Add32(src, i)).None?
  }

  lemma NothingUnreadable(m: Ram, mmu: Mmu, src: u32)
    ensures !Unreadable(m, mmu, src, 0)
  {
  }

  lemma NextAddress(src: u32, i: nat)
    requires i < 0xFFFF_FFFF
    ensures Add32(Add32(src, 1), i) == Add32(src, i + 1) && Add32(src, 0) == src
  {
  }

  lemma FirstUnreadable(m: Ram, mmu: Mmu, src: u32, n: nat)
    requires 0 < n <= MB
    ensures Unreadable(m, mmu, src, n) <==>
            Load8(m, mmu, src).None? || Unreadable(m, mmu, Add32(src, 1), n - 1)
  {
    hide Lin, Add32;
    NextAddress(src, 0);
    if Unreadable(m, mmu, Add32(src, 1), n - 1) {
      var i: u32 :| i < n - 1 && Lin(m, mmu, Add32(Add32(src, 1), i)).None?;
      NextAddress(src, i);
    }
    if Unreadable(m, mmu, src, n) && Load8(m, mmu, src).Some? {
      var i: u32 :| i < n && Lin(m, mmu, Add32(src, i)).None?;
      NextAddress(src, i - 1);
    }
  }

  lemma UnreadableStays(m: Ram, n: Ram, pd: nat, src: u32, count: nat)
    requires 256 <= pd && Mapped(m, pd) && Mapped(n, pd) && forall a: nat :: MB <= a < RAM_SIZE ==> n[a] == m[a]
    ensures Unreadable(n, Mmu(true, pd), src, count) <==> Unreadable(m, Mmu(true, pd), src, count)
  {
    hide DirectoryBuilt, FirstTableBuilt, Translate, Add32;
    forall i: u32 | i < count
      ensures Lin(n, Mmu(true, pd), Add32(src, i)) == Lin(m, Mmu(true, pd), Add32(src, i))
    {
      TranslateAbove(m, n, pd, Add32(src, i));
    }
  }

  /** The copy faults exactly when it meets such a byte. */
  lemma {:induction false} CopiedFromFaults(m: Ram, pd: nat, src: u32, dst: nat, n: nat)
    requires 256 <= pd && Mapped(m, pd) && dst + n <= MB
    ensures CopiedFrom(m, Mmu(true, pd), src, dst, n).1 <==> !Unreadable(m, Mmu(true, pd), src, n)
    decreases n
  {
    hide DirectoryBuilt, FirstTableBuilt, Translate, Unreadable, Add32;
    var mmu := Mmu(true, pd);
    if n == 0 {
      NothingUnreadable(m, mmu, src);
    } else {
      FirstUnreadable(m, mmu, src, n);
      var b := Load8(m, mmu, src);
      if b.Some? {
        var m1 := m[dst := b.value];
        LowByte(m, m1, pd, dst, b.value);
        CopiedFromFaults(m1, pd, Add32(src, 1), dst + 1, n - 1);
        UnreadableStays(m, m1, pd, Add32(src, 1), n - 1);
      }
    }
  }

  /** movsb */
  method Movsb(cpu: Machine) returns (st: Status)
    requires cpu.Valid()
    modifies cpu.mem, cpu`esi, cpu`edi
    ensures match Load8(old(cpu.Ram()), cpu.mmu, old(cpu.esi))
            case None => st.PageFault? && cpu.Ram() == old(cpu.Ram())
            case Some(b) =>
              match Store8(old(cpu.Ram()), cpu.mmu, old(cpu.edi), b)
              case None => st.PageFault? && cpu.Ram() == old(cpu.Ram())
              case Some(m) =>
                && st.Running? && cpu.Ram() == m
                && cpu.esi == Add32(old(cpu.esi), 1) && cpu.edi == Add32(old(cpu.edi), 1)
  {
    hide Lin, Load8, Store8;
    var b;
    st, b := cpu.Get8(cpu.esi);
    if st.PageFault? { return; }
    st := cpu.Put8(cpu.edi, b);
    if st.PageFault? { return; }
    cpu.esi := Add32(cpu.esi, 1);
    cpu.edi := Add32(cpu.edi, 1);
  }

  lemma CopiedThroughStep(m: Ram, mmu: Mmu, src: u32, dst: u32, n: nat)
    requires n > 0
    ensures CopiedThrough(m, mmu, src, dst, n) ==
            match Load8(m, mmu, src)
            case None => (m, false)
            case Some(b) =>
              match Store8(m, mmu, dst, b)
              case None => (m, false)
              case Some(m1) => CopiedThrough(m1, mmu, Add32(src, 1), Add32(dst, 1), n - 1)
  {
  }

  lemma CopiedThroughNothing(m: Ram, mmu: Mmu, src: u32, dst: u32)
    ensures CopiedThrough(m, mmu, src, dst, 0) == (m, true)
  {
  }

  /** rep movsb */
  method RepMovsb(cpu: Machine) returns (st: Status)
    requires cpu.Valid()
    modifies cpu.mem, cpu`ecx, cpu`esi, cpu`edi
    ensures (cpu.Ram(), st.Running?) ==
            CopiedThrough(old(cpu.Ram()), cpu.mmu, old(cpu.esi), old(cpu.edi), old(cpu.ecx))
  {
    hide Lin, CopiedThrough, Load8, Store8;
    while cpu.ecx != 0
      invariant CopiedThrough(cpu.Ram(), cpu.mmu, cpu.esi, cpu.edi, cpu.ecx) ==
                CopiedThrough(old(cpu.Ram()), cpu.mmu, old(cpu.esi), old(cpu.edi), old(cpu.ecx))
      decreases cpu.ecx
    {
      CopiedThroughStep(cpu.Ram(), cpu.mmu, cpu.esi, cpu.edi, cpu.ecx);
      st := Movsb(cpu);
      if st.PageFault? { return; }
      cpu.ecx := cpu.ecx - 1;
    }
    CopiedThroughNothing(cpu.Ram(), cpu.mmu, cpu.esi, cpu.edi);
    st := Running;
  }

  /** Memory after mem_cpy saved two registers below q. */
  ghost function Saved(m: Ram, q: nat, ebp: u32, ecx: u32): Ram
    requires 8 <= q && q + 4 <= LOW
  {
    PutDword(PutDword(m, q - 4, ebp), q - 8, ecx)
  }

  lemma SavedWords(m: Ram, q: nat, ebp: u32, ecx: u32, a: nat)
    requires 8 <= q && q + 4 <= LOW && q <= a && a + 4 <= RAM_SIZE
    ensures var n := Saved(m, q, ebp, ecx);
            Dword(n, q - 8) == ecx && Dword(n, q - 4) == ebp && Dword(n, a) == Dword(m, a)
  {
    hide PutDword, FromBytes;
    DwordAfterPut(m, q - 4, ebp);
    DwordAfterPut(PutDword(m, q - 4, ebp), q - 8, ecx);
  }

  /** The three loads relative to ebp. */
  method LoadArguments(cpu: Machine, pd: nat, ghost q: nat, ghost m0: Ram, ghost ebp: u32, ghost ecx: u32)
    requires cpu.Valid() && KernelPaging(cpu.Ram(), cpu.mmu, pd)
    requires 8 <= q && q + 16 <= LOW && cpu.ebp == HIGHER_HALF + (q - 4)
    requires cpu.Ram() == Saved(m0, q, ebp, ecx)
    modifies cpu`ecx, cpu`esi, cpu`edi
    ensures cpu.edi == Dword(m0, q + 4) && cpu.esi == Dword(m0, q + 8) && cpu.ecx == Dword(m0, q + 12)
  {
    hide Mapped, Dword, Saved;
    SavedWords(m0, q, ebp, ecx, q + 4);
    SavedWords(m0, q, ebp, ecx, q + 8);
    SavedWords(m0, q, ebp, ecx, q + 12);
    cpu.edi := LoadLow(cpu, pd, Add32(cpu.ebp, 8), q + 4);
    cpu.esi := LoadLow(cpu, pd, Add32(cpu.ebp, 12), q + 8);
    cpu.ecx := LoadLow(cpu, pd, Add32(cpu.ebp, 16), q + 12);
  }

  /** What pop ecx, pop ebp and ret find on the stack at the end of mem_cpy. */
  ghost function StackFrame(m: Ram, mmu: Mmu, q: nat): Option<(u32, u32, u32)>
    requires 8 <= q && q + 4 <= LOW
  {
    match (Load32(m, mmu, HIGHER_HALF + (q - 8)), Load32(m, mmu, HIGHER_HALF + (q - 4)),
           Load32(m, mmu, HIGHER_HALF + q))
    case (Some(ecx), Some(ebp), Some(eip)) => Some((ecx, ebp, eip))
    case _ => None
  }

  /** pop ecx, pop ebp, ret, whatever the copy has left on the stack. */
  method Leave(cpu: Machine, ghost q: nat) returns (st: Status)
    requires cpu.Valid() && 8 <= q && q + 4 <= LOW && cpu.esp == HIGHER_HALF + (q - 8)
    modifies cpu`ecx, cpu`ebp, cpu`esp, cpu`eip
    ensures match StackFrame(cpu.Ram(), cpu.mmu, q)
            case None => st.PageFault?
            case Some((ecx, ebp, eip)) =>
              && st.Running? && cpu.ecx == ecx && cpu.ebp == ebp && cpu.eip == eip
              && cpu.esp == HIGHER_HALF + q + 4
  {
    hide Lin, Load32, Add32;
    AddExact(HIGHER_HALF + (q - 8), 4);
    AddExact(HIGHER_HALF + (q - 4), 4);
    AddExact(HIGHER_HALF + q, 4);
    var v;
    st, v := cpu.Pop();
    if st.PageFault? { return; }
    cpu.ecx := v;
    st, v := cpu.Pop();
    if st.PageFault? { return; }
    cpu.ebp := v;
    st := cpu.Ret();
  }

  /** mem_cpy, for any arguments. The stack holds, from q up, the return
      address, destination, source and count. Two registers are saved below q,
      the copy goes through whatever the addresses map to, and control goes
      where the stack then says. */
  method MemCpy(cpu: Machine, pd: nat, ghost q: nat) returns (st: Status)
    requires cpu.Valid() && OnStack(cpu, pd, q) && 8 <= q && q + 16 <= LOW
    modifies cpu.mem, cpu`ecx, cpu`esi, cpu`edi, cpu`ebp, cpu`esp, cpu`eip
    ensures var m := old(cpu.Ram());
            var r := CopiedThrough(Saved(m, q, old(cpu.ebp), old(cpu.ecx)), cpu.mmu,
                                   Dword(m, q + 8), Dword(m, q + 4), Dword(m, q + 12));
            && cpu.Ram() == r.0
            && match (r.1, StackFrame(r.0, cpu.mmu, q))
               case (true, Some((ecx, ebp, eip))) =>
                 && st.Running? && cpu.ecx == ecx && cpu.ebp == ebp && cpu.eip == eip
                 && cpu.esp == HIGHER_HALF + q + 4
               case _ => st.PageFault?
  {
    hide Mapped, Dword, PutDword, CopiedThrough, StackFrame;
    ghost var m0, ebp, ecx := cpu.Ram(), cpu.ebp, cpu.ecx;
    PushLow(cpu, pd, q - 4, cpu.ebp);
    cpu.ebp := cpu.esp;
    PushLow(cpu, pd, q - 8, cpu.ecx);
    LoadArguments(cpu, pd, q, m0, ebp, ecx);
    st := RepMovsb(cpu);
    if st.PageFault? { return; }
    st := Leave(cpu, q);
  }
}
