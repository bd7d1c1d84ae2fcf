/** The kernel image as an ELF file: its program headers (chapters 4 and 5 of
    the System V gABI), what applying them in order makes of memory, and the
    images for which that is the kernel in place. */
module ElfImage {
  import opened Words
  import opened PhysicalMemory
  import opened KernelMap

  const PT_NULL: u32 := 0
  const CUTOFF: u32 := 0xC000_1500

  /** Physical address of the cutoff: nothing below it is ever a destination. */
  const LOW: nat := 0x1500

  // ----- Program headers -----

  datatype Header = Header(kind: u32, offset: u32, vaddr: u32, filesz: u32)

  function HeaderAt(m: seq<u8>, a: nat): Header
    requires a + 20 <= |m|
  {
    Header(Dword(m, a), Dword(m, a + 4), Dword(m, a + 8), Dword(m, a + 16))
  }

  /** The headers whose segments are copied; the comparison is unsigned. */
  predicate Accepted(h: Header) { h.kind != PT_NULL && h.vaddr >= CUTOFF }

  /** The destination stays in the mapped megabyte, the source between the
      image base and the end of the low megabyte. */
  predicate Loadable(h: Header, image: nat)
  {
    h.vaddr + h.filesz <= HIGHER_HALF + MB && image + h.offset + h.filesz <= MB
  }

  // ----- What the code computes -----

  /** rep movsb upwards, one byte at a time, so overlap behaves as on the
      processor. */
  ghost function Copied(m: Ram, src: nat, dst: nat, n: nat): Ram
    requires src + n <= RAM_SIZE && dst + n <= RAM_SIZE
    decreases n
  {
    if n == 0 then m else Copied(m[dst := m[src]], src + 1, dst + 1, n - 1)
  }

  /** The end of a walk over the headers: all of them done, or memory as it is
      when a header or a segment leaves the low megabyte. */
  datatype Walk = Done(m: Ram) | Outside(m: Ram)

  /** Memory after the n headers from ph on: the accepted segments applied in
      order, each header read from the memory the earlier copies left. */
  ghost function WalkHeaders(m: Ram, image: nat, ph: nat, stride: nat, n: nat): Walk
    decreases n
  {
    if n == 0 then Done(m)
    else if !(image <= ph && ph + 20 <= MB) then Outside(m)
    else
      var h := HeaderAt(m, ph);
      if !Accepted(h) then WalkHeaders(m, image, ph + stride, stride, n - 1)
      else if !Loadable(h, image) then Outside(m)
      else WalkHeaders(Copied(m, image + h.offset, h.vaddr - HIGHER_HALF, h.filesz), image, ph + stride, stride, n - 1)
  }

  /** The walk kernel_init makes for the ELF header at the image base. */
  ghost function LoadKernel(m: Ram, image: nat): Walk
    requires image + 46 <= MB
  {
    WalkHeaders(m, image, Add32(Dword(m, image + 28), image), Word(m, image + 42),
                LoopCount(Word(m, image + 44), 0x1_0000_0000))
  }

  // ----- Copies -----

  lemma CopiedStep(m: Ram, src: nat, dst: nat, n: nat)
    requires n > 0 && src + n <= RAM_SIZE && dst + n <= RAM_SIZE
    ensures Copied(m, src, dst, n) == Copied(m[dst := m[src]], src + 1, dst + 1, n - 1)
  {
  }

  lemma CopiedNothing(m: Ram, src: nat, dst: nat)
    requires src <= RAM_SIZE && dst <= RAM_SIZE
    ensures Copied(m, src, dst, 0) == m
  {
  }

  lemma {:induction false} CopiedFrame(m: Ram, src: nat, dst: nat, n: nat)
    requires src + n <= RAM_SIZE && dst + n <= RAM_SIZE
    ensures SameOutside(m, Copied(m, src, dst, n), dst, dst + n)
    decreases n
  {
    if n > 0 { CopiedFrame(m[dst := m[src]], src + 1, dst + 1, n - 1); }
  }

  ghost predicate Apart(a: int, n: nat, b: int, k: nat)
  {
    n == 0 || k == 0 || a + n <= b || b + k <= a
  }

  lemma {:induction false} CopiedApart(m: Ram, src: nat, dst: nat, n: nat)
    requires src + n <= RAM_SIZE && dst + n <= RAM_SIZE && Apart(src, n, dst, n)
    ensures forall a: nat :: dst <= a < dst + n ==> Copied(m, src, dst, n)[a] == m[src + (a - dst)]
    decreases n
  {
    if n > 0 {
      var m1 := m[dst := m[src]];
      CopiedApart(m1, src + 1, dst + 1, n - 1);
      CopiedFrame(m1, src + 1, dst + 1, n - 1);
    }
  }

  /** Copies that read and write outside a window commute with changes in it. */
  lemma {:induction false} CopiedAgree(m: Ram, n: Ram, lo: nat, hi: nat, src: nat, dst: nat, k: nat)
    requires src + k <= RAM_SIZE && dst + k <= RAM_SIZE
    requires SameOutside(m, n, lo, hi) && hi <= src && hi <= dst
    ensures SameOutside(Copied(m, src, dst, k), Copied(n, src, dst, k), lo, hi)
    decreases k
  {
    if k > 0 { CopiedAgree(m[dst := m[src]], n[dst := n[src]], lo, hi, src + 1, dst + 1, k - 1); }
  }

  // ----- Loader self-preservation -----

  /** Whatever the headers say, and even when a copy overwrites the image or
      the table being walked, no byte below 0x1500 and none above the low
      megabyte changes, up to the end of the walk or to where it leaves the
      low megabyte. */
  lemma {:induction false} WalkPreserves(m: Ram, image: nat, ph: nat, stride: nat, n: nat)
    ensures SameOutside(m, WalkHeaders(m, image, ph, stride, n).m, LOW, MB)
    decreases n
  {
    hide Copied, SameOutside, HeaderAt;
    SameOutsideItself(m, LOW, MB);
    if n > 0 && image <= ph && ph + 20 <= MB {
      var h := HeaderAt(m, ph);
      if !Accepted(h) {
        WalkPreserves(m, image, ph + stride, stride, n - 1);
      } else if Loadable(h, image) {
        var dst := h.vaddr - HIGHER_HALF;
        var m1 := Copied(m, image + h.offset, dst, h.filesz);
        CopiedFrame(m, image + h.offset, dst, h.filesz);
        SameOutsideTransitive(m, m, m1, LOW, MB, dst, dst + h.filesz);
        WalkPreserves(m1, image, ph + stride, stride, n - 1);
        SameOutsideTransitive(m, m1, WalkHeaders(m, image, ph, stride, n).m, LOW, MB, LOW, MB);
      }
    }
  }

  // ----- Well-formed images -----

  function PhNum(file: seq<u8>): nat
    requires |file| >= 46
  {
    Word(file, 44)
  }

  function PhAddr(file: seq<u8>, k: nat): nat
    requires |file| >= 46
  {
    Dword(file, 28) + k * Word(file, 42)
  }

  /** Header k lies in the file. */
  predicate HasHeader(file: seq<u8>, k: nat)
    requires |file| >= 46
  {
    PhAddr(file, k) + 20 <= |file|
  }

  function SegmentHeader(file: seq<u8>, k: nat): Header
    requires |file| >= 46 && HasHeader(file, k)
  {
    HeaderAt(file, PhAddr(file, k))
  }

  /** Segment k is accepted and physical address a is one of its bytes. */
  predicate Covers(h: Header, a: int)
  {
    Accepted(h) && h.vaddr - HIGHER_HALF <= a < h.vaddr - HIGHER_HALF + h.filesz
  }

  ghost predicate WellFormedSegment(file: seq<u8>, image: nat, h: Header)
  {
    Accepted(h) ==>
      && h.offset + h.filesz <= |file|
      && h.vaddr + h.filesz <= HIGHER_HALF + MB
      && Apart(h.vaddr - HIGHER_HALF, h.filesz, image, |file|)
  }

  ghost predicate Separate(g: Header, h: Header)
  {
    Accepted(g) && Accepted(h) ==> Apart(g.vaddr, g.filesz, h.vaddr, h.filesz)
  }

  /** The image, of |file| bytes at the given base, has a header table inside
      the file; its accepted segments come from the file, go to the mapped
      megabyte, and overlap neither the image nor one another. */
  ghost predicate WellFormed(file: seq<u8>, image: nat)
  {
    && |file| >= 46 && LOW <= image && image + |file| <= MB
    && PhNum(file) > 0
    && (forall k: nat :: k < PhNum(file) ==> HasHeader(file, k))
    && (forall k: nat :: k < PhNum(file) ==> WellFormedSegment(file, image, SegmentHeader(file, k)))
    && (forall j: nat, k: nat :: j < k < PhNum(file) ==> Separate(SegmentHeader(file, j), SegmentHeader(file, k)))
  }

  /** The header table and the condition in the file's own words: the number of
      headers at offset 44, their size at 42, the first one's offset at 28; a
      header is accepted when its type is not 0 and its address, unsigned, is
      not below 0xC0001500. */
  lemma TableInWords(file: seq<u8>, k: nat)
    requires |file| >= 46
    ensures PhNum(file) == Word(file, 44) && PhAddr(file, k) == Dword(file, 28) + k * Word(file, 42)
    ensures HasHeader(file, k) <==> PhAddr(file, k) + 20 <= |file|
    ensures HasHeader(file, k) ==>
              var a, h := PhAddr(file, k), SegmentHeader(file, k);
              && h == Header(Dword(file, a), Dword(file, a + 4), Dword(file, a + 8), Dword(file, a + 16))
              && (Accepted(h) <==> Dword(file, a) != 0 && Dword(file, a + 8) >= 0xC000_1500)
  {
  }

  predicate AcceptedAt(file: seq<u8>, a: nat)
    requires a + 20 <= |file|
  {
    Dword(file, a) != 0 && Dword(file, a + 8) >= 0xC000_1500
  }

  /** a belongs to none of the segments from k on. */
  ghost predicate Uncovered(file: seq<u8>, k: nat, a: int)
    requires |file| >= 46 && forall j: nat :: j < PhNum(file) ==> HasHeader(file, j)
  {
    forall j: nat :: k <= j < PhNum(file) ==> !Covers(SegmentHeader(file, j), a)
  }

  lemma UncoveredInWords(file: seq<u8>, image: nat, p: u32)
    requires |file| >= 46 && WellFormed(file, image)
    requires forall k: nat ::
               && k < Word(file, 44) && PhAddr(file, k) + 20 <= |file|
               && Dword(file, PhAddr(file, k)) != 0 && Dword(file, PhAddr(file, k) + 8) >= 0xC000_1500 ==>
               !(Dword(file, PhAddr(file, k) + 8) <= p + 0xC000_0000
                 < Dword(file, PhAddr(file, k) + 8) + Dword(file, PhAddr(file, k) + 16))
    ensures Uncovered(file, 0, p)
  {
    hide Dword, Word, WellFormedSegment;
    forall k: nat | k < PhNum(file)
      ensures !Covers(SegmentHeader(file, k), p)
    {
      TableInWords(file, k);
      assert HasHeader(file, k);
    }
  }

  /** The segment comes from the file, goes below 0xC0100000, and keeps off the
      image. */
  predicate SegmentInWords(offset: u32, vaddr: u32, filesz: u32, image: nat, size: nat)
  {
    && offset + filesz <= size && vaddr + filesz <= 0xC010_0000
    && (filesz == 0 || size == 0 || vaddr - 0xC000_0000 + filesz <= image || image + size <= vaddr - 0xC000_0000)
  }

  ghost predicate SegmentsInWords(file: seq<u8>, image: nat)
    requires |file| >= 46 && forall k: nat :: k < Word(file, 44) ==> PhAddr(file, k) + 20 <= |file|
  {
    && (forall k: nat :: k < Word(file, 44) && AcceptedAt(file, PhAddr(file, k)) ==>
          SegmentInWords(Dword(file, PhAddr(file, k) + 4), Dword(file, PhAddr(file, k) + 8),
                         Dword(file, PhAddr(file, k) + 16), image, |file|))
    && (forall j: nat, k: nat ::
          j < k < Word(file, 44) && AcceptedAt(file, PhAddr(file, j)) && AcceptedAt(file, PhAddr(file, k)) ==>
          Apart(Dword(file, PhAddr(file, j) + 8), Dword(file, PhAddr(file, j) + 16),
                Dword(file, PhAddr(file, k) + 8), Dword(file, PhAddr(file, k) + 16)))
  }

  lemma WellFormedInWords(file: seq<u8>, image: nat)
    ensures WellFormed(file, image) <==>
            && |file| >= 46 && 0x1500 <= image && image + |file| <= 0x10_0000 && Word(file, 44) > 0
            && (forall k: nat :: k < Word(file, 44) ==> PhAddr(file, k) + 20 <= |file|)
            && SegmentsInWords(file, image)
  {
    hide Dword, Word;
    if |file| >= 46 && forall k: nat :: k < Word(file, 44) ==> PhAddr(file, k) + 20 <= |file| {
      assert forall k: nat :: k < Word(file, 44) ==> HasHeader(file, k);
      if SegmentsInWords(file, image) {
        forall j: nat, k: nat | j < k < PhNum(file)
          ensures Separate(SegmentHeader(file, j), SegmentHeader(file, k))
        {
          assert HasHeader(file, j) && HasHeader(file, k);
        }
        forall k: nat | k < PhNum(file)
          ensures WellFormedSegment(file, image, SegmentHeader(file, k))
        {
          assert HasHeader(file, k);
        }
      }
      if WellFormed(file, image) {
        forall k: nat | k < Word(file, 44) && AcceptedAt(file, PhAddr(file, k))
          ensures SegmentInWords(Dword(file, PhAddr(file, k) + 4), Dword(file, PhAddr(file, k) + 8),
                                 Dword(file, PhAddr(file, k) + 16), image, |file|)
        {
          assert WellFormedSegment(file, image, SegmentHeader(file, k));
        }
        forall j: nat, k: nat |
            j < k < Word(file, 44) && AcceptedAt(file, PhAddr(file, j)) && AcceptedAt(file, PhAddr(file, k))
          ensures Apart(Dword(file, PhAddr(file, j) + 8), Dword(file, PhAddr(file, j) + 16),
                        Dword(file, PhAddr(file, k) + 8), Dword(file, PhAddr(file, k) + 16))
        {
          assert Separate(SegmentHeader(file, j), SegmentHeader(file, k));
        }
      }
    } else {
      if WellFormed(file, image) {
        forall k: nat | k < Word(file, 44)
          ensures PhAddr(file, k) + 20 <= |file|
        {
          assert HasHeader(file, k);
        }
      }
    }
  }

  /** Memory holds the image. */
  ghost predicate Holds(m: Ram, image: nat, file: seq<u8>)
    requires image + |file| <= RAM_SIZE
  {
    forall a: nat :: image <= a < image + |file| ==> m[a] == file[a - image]
  }

  /** Every byte of the segment stands at its physical address. */
  ghost predicate Loaded(m: Ram, file: seq<u8>, h: Header)
    requires Accepted(h) ==> h.offset + h.filesz <= |file| && h.vaddr + h.filesz <= HIGHER_HALF + MB
  {
    Accepted(h) ==>
      var base := h.vaddr - HIGHER_HALF;
      forall a: nat :: base <= a < base + h.filesz ==> m[a] == file[h.offset + (a - base)]
  }

  lemma HoldsDword(m: Ram, file: seq<u8>, image: nat, a: nat)
    requires image + |file| <= RAM_SIZE && Holds(m, image, file) && a + 4 <= |file|
    ensures Dword(m, image + a) == Dword(file, a)
  {
  }

  lemma HoldsHeader(m: Ram, file: seq<u8>, image: nat, k: nat)
    requires WellFormed(file, image) && Holds(m, image, file) && k < PhNum(file)
    ensures HasHeader(file, k)
    ensures HeaderAt(m, image + PhAddr(file, k)) == SegmentHeader(file, k)
  {
    assert HasHeader(file, k);
    var a := PhAddr(file, k);
    HoldsDword(m, file, image, a);
    HoldsDword(m, file, image, a + 4);
    HoldsDword(m, file, image, a + 8);
    HoldsDword(m, file, image, a + 16);
  }

  lemma HoldsWord(m: Ram, file: seq<u8>, image: nat, a: nat)
    requires image + |file| <= RAM_SIZE && Holds(m, image, file) && a + 2 <= |file|
    ensures Word(m, image + a) == Word(file, a)
  {
  }

  /** One copy of a well-formed segment loads it and leaves the image alone. */
  lemma SegmentCopied(m: Ram, file: seq<u8>, image: nat, h: Header)
    requires image + |file| <= MB && Holds(m, image, file)
    requires Accepted(h) && WellFormedSegment(file, image, h)
    ensures var n := Copied(m, image + h.offset, h.vaddr - HIGHER_HALF, h.filesz);
            && Loaded(n, file, h) && Holds(n, image, file)
            && forall a :: 0 <= a < RAM_SIZE && !Covers(h, a) ==> n[a] == m[a]
  {
    hide Copied;
    var dst := h.vaddr - HIGHER_HALF;
    var n := Copied(m, image + h.offset, dst, h.filesz);
    CopiedFrame(m, image + h.offset, dst, h.filesz);
    CopiedApart(m, image + h.offset, dst, h.filesz);
  }

  lemma OnlyOneCovers(file: seq<u8>, image: nat, k: nat, a: nat)
    requires WellFormed(file, image) && k < PhNum(file)
    requires var h := SegmentHeader(file, k);
             Accepted(h) && h.vaddr - HIGHER_HALF <= a < h.vaddr - HIGHER_HALF + h.filesz
    ensures Uncovered(file, k + 1, a)
  {
    hide HeaderAt, Dword, Word;
    forall j: nat | k + 1 <= j < PhNum(file)
      ensures !Covers(SegmentHeader(file, j), a)
    {
      assert HasHeader(file, j) && HasHeader(file, k);
      assert Separate(SegmentHeader(file, k), SegmentHeader(file, j));
    }
  }

  /** Later segments do not disturb segment k. */
  lemma StaysLoaded(n: Ram, r: Ram, file: seq<u8>, image: nat, k: nat)
    requires WellFormed(file, image) && k < PhNum(file)
    requires Loaded(n, file, SegmentHeader(file, k))
    requires forall a: nat :: a < RAM_SIZE && Uncovered(file, k + 1, a) ==> r[a] == n[a]
    ensures Loaded(r, file, SegmentHeader(file, k))
  {
    hide HeaderAt, Dword, Word, Covers;
    var h := SegmentHeader(file, k);
    if Accepted(h) {
      assert WellFormedSegment(file, image, h);
      var base := h.vaddr - HIGHER_HALF;
      forall a: nat | base <= a < base + h.filesz
        ensures r[a] == file[h.offset + (a - base)]
      {
        OnlyOneCovers(file, image, k, a);
      }
    }
  }

  /** The walk's next step over a well-formed image. */
  lemma WalkNext(m: Ram, file: seq<u8>, image: nat, k: nat)
    requires WellFormed(file, image) && Holds(m, image, file) && k < PhNum(file)
    ensures HasHeader(file, k) && WellFormedSegment(file, image, SegmentHeader(file, k))
    ensures var h := SegmentHeader(file, k);
            WalkHeaders(m, image, image + PhAddr(file, k), Word(file, 42), PhNum(file) - k) ==
            WalkHeaders(if Accepted(h) then Copied(m, image + h.offset, h.vaddr - HIGHER_HALF, h.filesz) else m,
                        image, image + PhAddr(file, k + 1), Word(file, 42), PhNum(file) - (k + 1))
  {
    hide Copied, HeaderAt, Holds, Dword, Word;
    HoldsHeader(m, file, image, k);
    assert PhAddr(file, k + 1) == PhAddr(file, k) + Word(file, 42);
  }

  lemma WalkDone(m: Ram, image: nat, ph: nat, stride: nat)
    ensures WalkHeaders(m, image, ph, stride, 0) == Done(m)
  {
  }

  /** Segments from k + 1 on loaded into n, and segment k in n already. */
  lemma OneMoreLoaded(m: Ram, n: Ram, r: Ram, file: seq<u8>, image: nat, k: nat)
    requires WellFormed(file, image) && k < PhNum(file) && HasHeader(file, k)
    requires Loaded(n, file, SegmentHeader(file, k))
    requires forall a :: 0 <= a < RAM_SIZE && !Covers(SegmentHeader(file, k), a) ==> n[a] == m[a]
    requires forall j: nat :: k + 1 <= j < PhNum(file) ==> Loaded(r, file, SegmentHeader(file, j))
    requires forall a: nat :: a < RAM_SIZE && Uncovered(file, k + 1, a) ==> r[a] == n[a]
    ensures forall j: nat :: k <= j < PhNum(file) ==> Loaded(r, file, SegmentHeader(file, j))
    ensures forall a: nat :: a < RAM_SIZE && Uncovered(file, k, a) ==> r[a] == m[a]
  {
    hide HeaderAt, Dword, Word, Loaded, Covers;
    StaysLoaded(n, r, file, image, k);
    forall a: nat | a < RAM_SIZE && Uncovered(file, k, a)
      ensures r[a] == m[a]
    {
      assert Uncovered(file, k + 1, a) && !Covers(SegmentHeader(file, k), a);
    }
  }

  lemma NothingLoaded(m: Ram, file: seq<u8>, h: Header)
    requires !Accepted(h)
    ensures Loaded(m, file, h) && forall a :: !Covers(h, a)
  {
  }

  /** Loading a well-formed image succeeds, puts every accepted segment in
      place and changes nothing else; stated for the headers from k on. */
  lemma {:induction false} WalkLoads(m: Ram, file: seq<u8>, image: nat, k: nat)
    requires WellFormed(file, image) && Holds(m, image, file) && k <= PhNum(file)
    ensures var r := WalkHeaders(m, image, image + PhAddr(file, k), Word(file, 42), PhNum(file) - k);
            && r.Done? && Holds(r.m, image, file)
            && (forall j: nat :: k <= j < PhNum(file) ==> Loaded(r.m, file, SegmentHeader(file, j)))
            && (forall a: nat :: a < RAM_SIZE && Uncovered(file, k, a) ==> r.m[a] == m[a])
    decreases PhNum(file) - k
  {
    hide Copied, HeaderAt, Holds, Dword, Word, WalkHeaders, Loaded, Uncovered, Covers;
    if k == PhNum(file) {
      WalkDone(m, image, image + PhAddr(file, k), Word(file, 42));
    } else {
      WalkNext(m, file, image, k);
      var h := SegmentHeader(file, k);
      var n := m;
      if Accepted(h) {
        n := Copied(m, image + h.offset, h.vaddr - HIGHER_HALF, h.filesz);
        SegmentCopied(m, file, image, h);
      } else {
        NothingLoaded(m, file, h);
      }
      WalkLoads(n, file, image, k + 1);
      var r := WalkHeaders(n, image, image + PhAddr(file, k + 1), Word(file, 42), PhNum(file) - (k + 1)).m;
      OneMoreLoaded(m, n, r, file, image, k);
    }
  }

  /** The whole table of a well-formed image. */
  lemma KernelLoads(m: Ram, file: seq<u8>, image: nat)
    requires WellFormed(file, image) && Holds(m, image, file)
    ensures var r := LoadKernel(m, image);
            && r.Done? && Holds(r.m, image, file)
            && (forall j: nat :: j < PhNum(file) ==> Loaded(r.m, file, SegmentHeader(file, j)))
            && (forall a: nat :: a < RAM_SIZE && Uncovered(file, 0, a) ==> r.m[a] == m[a])
  {
    hide HeaderAt, Holds, Dword, Word, WalkHeaders, SegmentHeader, Loaded, Uncovered;
    HoldsDword(m, file, image, 28);
    HoldsWord(m, file, image, 42);
    HoldsWord(m, file, image, 44);
    assert HasHeader(file, 0);
    assert PhAddr(file, 0) == Dword(file, 28);
    AddExact(Dword(file, 28), image);
    WalkLoads(m, file, image, 0);
  }
}
