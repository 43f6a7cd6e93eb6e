/** Loading the PT_LOAD segments of an executable (src/mmu.c). */
module Segments {
  import opened Words
  import opened Memory
  import opened Mmu

  const PT_LOAD: u32 := 1

  /** The fields of `elf64_phdr_t` the loader uses. */
  datatype Phdr = Phdr(ptype: u32, offset: u64, vaddr: u64, filesz: u64, memsz: u64)

  /** `mmap(..., MAP_PRIVATE | MAP_FIXED, fd, off)`: the old contents of the range go; file bytes
      appear, the last file page is filled up with zeros, and pages wholly behind the end of the
      file stay inaccessible. */
  function MapFile(m: Mem, lo: u64, n: nat, file: seq<byte>, off: u64): Mem {
    Unmap(m, lo, n) +
    (map h: u64 | lo <= h < lo + n && Within(h, lo, n) && off + (h - lo) < PagesOf(|file|) :: FileByte(file, off + (h - lo)))
  }

  function PagesOf(n: nat): nat { n + (4096 - n % 4096) % 4096 }

  function FileByte(file: seq<byte>, k: nat): byte { if k < |file| then file[k] else 0 }

  /** A fixed anonymous mapping: zeros, whatever was there. */
  function MapFixedZero(m: Mem, lo: u64, n: nat): Mem { MapZero(m, lo, n) }

  /** `mmu_load_segment`. `None` is a failed assertion on the result of `mmap`, which refuses an
      empty range and one that leaves the address space. */
  function LoadStep(s: Space, p: Phdr, file: seq<byte>): Option<Space> {
    var host := ToHost(p.vaddr);
    var aligned := RoundDown(host);
    var filesz := Wrap64(p.filesz + (host - aligned));
    var memsz := Wrap64(p.memsz + (host - aligned));
    var bss := Wrap64((RoundUp(memsz) as int) - RoundUp(filesz));
    if filesz == 0 || aligned + RoundUp(filesz) > TWO64 then None
    else
      var m := MapFile(s.mem, aligned, RoundUp(filesz), file, RoundDown(p.offset));
      if bss == 0 then Some(Finish(s, m, Wrap64(aligned + RoundUp(memsz))))
      else if aligned + RoundUp(filesz) + bss > TWO64 || aligned + RoundUp(filesz) >= TWO64 then None
      else Some(Finish(s, MapFixedZero(m, aligned + RoundUp(filesz), bss), Wrap64(aligned + RoundUp(memsz))))
  }

  /** The accounting at the end of `mmu_load_segment`. */
  function Finish(s: Space, m: Mem, end: u64): Space {
    var h := if end < s.hostAlloc then s.hostAlloc else end;
    Space(h, ToGuest(h), ToGuest(h), m)
  }

  /** The loop of `mmu_load_elf` over the program headers. */
  function LoadAll(s: Space, ps: seq<Phdr>, file: seq<byte>): Option<Space>
    decreases ps
  {
    if ps == [] then Some(s)
    else if ps[0].ptype != PT_LOAD then LoadAll(s, ps[1..], file)
    else
      var t := LoadStep(s, ps[0], file);
      if t.None? then None else LoadAll(t.value, ps[1..], file)
  }

  // ---- well-formed headers ----

  /** The segment is in the file, not larger in the file than in memory, congruent with its file
      offset modulo the page size, and inside the address space. */
  predicate GoodSegment(p: Phdr, file: seq<byte>) {
    && 0 < p.filesz <= p.memsz
    && p.offset % 4096 == p.vaddr % 4096
    && p.offset + p.filesz <= |file|
    && p.vaddr + p.memsz + GUEST_OFFSET + 0x4000 <= TWO64
  }

  /** First and last page boundary of the segment, in host addresses. */
  function SegLo(p: Phdr): int { var h := p.vaddr + GUEST_OFFSET; h - h % 4096 }
  function SegHi(p: Phdr): int { PagesOf(p.vaddr + GUEST_OFFSET + p.memsz) }

  /** The page boundary behind the part that comes from the file. */
  function FileHi(p: Phdr): int { PagesOf(p.vaddr + GUEST_OFFSET + p.filesz) }

  predicate PageDisjoint(p: Phdr, q: Phdr) { SegHi(p) <= SegLo(q) || SegHi(q) <= SegLo(p) }

  predicate GoodHeaders(ps: seq<Phdr>, file: seq<byte>) {
    && (forall i | 0 <= i < |ps| && ps[i].ptype == PT_LOAD :: GoodSegment(ps[i], file))
    && (forall i, j | 0 <= i < j < |ps| && ps[i].ptype == PT_LOAD && ps[j].ptype == PT_LOAD :: PageDisjoint(ps[i], ps[j]))
  }

  /** The image of one segment: all its pages are mapped, and its file bytes are at its address, and
      the pages wholly behind them are zero. */
  predicate Image(m: Mem, p: Phdr, file: seq<byte>)
    requires GoodSegment(p, file)
  {
    && (forall h: u64 | SegLo(p) <= h < SegHi(p) :: h in m)
    && (forall h: u64 | p.vaddr + GUEST_OFFSET <= h < p.vaddr + GUEST_OFFSET + p.filesz ::
          h in m && m[h] == file[p.offset + (h - p.vaddr - GUEST_OFFSET)])
    && (forall h: u64 | FileHi(p) <= h < SegHi(p) :: h in m && m[h] == 0)
  }

  /** Outside the pages of the segment nothing changes. */
  predicate Untouched(m: Mem, m': Mem, p: Phdr) {
    forall h: u64 | h < SegLo(p) || h >= SegHi(p) :: (h in m' <==> h in m) && (h in m ==> m'[h] == m[h])
  }

  // ---- the arithmetic of one segment ----

  lemma PagesOfBounds(n: nat)
    ensures n <= PagesOf(n) < n + 4096 && PagesOf(n) % 4096 == 0
  {
  }

  lemma SegLoBounds(p: Phdr)
    ensures 0 <= SegLo(p) <= p.vaddr + GUEST_OFFSET < SegLo(p) + 4096 && SegLo(p) % 4096 == 0
  {
  }

  /** A window of one page holds one page boundary. */
  lemma OneBoundary(x: int, a: int, b: int)
    requires x <= a < x + 4096 && x <= b < x + 4096 && a % 4096 == 0 && b % 4096 == 0
    ensures a == b
  {
  }

  lemma SumAligned(a: int, b: int)
    requires a % 4096 == 0 && b % 4096 == 0
    ensures (a + b) % 4096 == 0
  {
  }

  lemma MonotoneBoundary(x: int, y: int, a: int, b: int)
    requires x <= y && x <= a < x + 4096 && y <= b < y + 4096 && a % 4096 == 0 && b % 4096 == 0
    ensures a <= b
  {
  }

  lemma HostAddress(p: Phdr, file: seq<byte>)
    requires GoodSegment(p, file)
    ensures ToHost(p.vaddr) == p.vaddr + GUEST_OFFSET && RoundDown(ToHost(p.vaddr)) == SegLo(p)
  {
  }

  lemma SegmentArithmetic(p: Phdr, file: seq<byte>, lead: int, fs: int, ms: int)
    requires GoodSegment(p, file)
    requires lead == p.vaddr + GUEST_OFFSET - SegLo(p) && fs == p.filesz + lead && ms == p.memsz + lead
    ensures 0 <= lead < 4096 && 0 < fs <= ms < TWO64 - 4096
    ensures SegLo(p) + RoundUp(ms) == SegHi(p) < TWO64
    ensures fs <= RoundUp(fs) <= RoundUp(ms) && RoundUp(fs) % 4096 == 0 && RoundUp(fs) < fs + 4096
  {
    hide SegLo, RoundUp, PagesOf;
    SegLoBounds(p);
    RoundUpBounds(fs);
    RoundUpBounds(ms);
    MonotoneBoundary(fs, ms, RoundUp(fs), RoundUp(ms));
    var end := p.vaddr + GUEST_OFFSET + p.memsz;
    PagesOfBounds(end);
    SumAligned(SegLo(p), RoundUp(ms));
    OneBoundary(end, SegLo(p) + RoundUp(ms), PagesOf(end));
  }

  lemma MapFileBytes(m: Mem, lo: u64, n: nat, file: seq<byte>, off: u64, h: u64)
    ensures var m' := MapFile(m, lo, n, file, off);
      && (!Within(h, lo, n) ==> (h in m' <==> h in m) && (h in m ==> m'[h] == m[h]))
      && (Within(h, lo, n) && off + (h - lo) < PagesOf(|file|) ==> h in m' && m'[h] == FileByte(file, off + (h - lo)))
  {
  }

  /** Loading one segment: its image appears, nothing else changes, and the accounting moves to
      the larger of the two page-rounded ends. */
  lemma SegmentLoads(s: Space, p: Phdr, file: seq<byte>)
    requires GoodSegment(p, file)
    ensures LoadStep(s, p, file).Some?
    ensures var t := LoadStep(s, p, file).value;
      && Image(t.mem, p, file) && Untouched(s.mem, t.mem, p)
      && t.hostAlloc == (if SegHi(p) < s.hostAlloc then s.hostAlloc else SegHi(p))
      && t.base == t.guestAlloc == ToGuest(t.hostAlloc)
  {
    hide SegLo, SegHi, RoundUp, RoundDown, ToHost, ToGuest, MapFile, MapZero, PagesOf, LoadStep, Image, Untouched;
    var lo := SegLo(p);
    var lead := p.vaddr + GUEST_OFFSET - lo;
    var fs, ms := p.filesz + lead, p.memsz + lead;
    HostAddress(p, file);
    SegmentArithmetic(p, file, lead, fs, ms);
    LoadStepShape(s, p, file, lo, fs, ms);
    var m1 := MapFile(s.mem, lo, RoundUp(fs), file, RoundDown(p.offset));
    var t := LoadStep(s, p, file).value;
    SegmentImage(s.mem, p, file, lo, lead, fs, RoundUp(fs), RoundUp(ms) - RoundUp(fs), t.mem);
  }

  lemma LoadStepShape(s: Space, p: Phdr, file: seq<byte>, lo: u64, fs: u64, ms: u64)
    requires ToHost(p.vaddr) >= lo && lo == RoundDown(ToHost(p.vaddr))
    requires fs == p.filesz + (ToHost(p.vaddr) - lo) && ms == p.memsz + (ToHost(p.vaddr) - lo)
    requires 0 < fs <= RoundUp(fs) <= RoundUp(ms) && lo + RoundUp(ms) < TWO64
    ensures var m1 := MapFile(s.mem, lo, RoundUp(fs), file, RoundDown(p.offset));
      var bss := RoundUp(ms) - RoundUp(fs);
      LoadStep(s, p, file) == Some(Finish(s, if bss == 0 then m1 else MapZero(m1, lo + RoundUp(fs), bss), lo + RoundUp(ms)))
  {
    hide RoundUp, RoundDown, ToHost, ToGuest, MapFile, MapZero, Finish;
  }

  /** The file pages of a segment lie inside the file's pages, and start `lead` bytes before it. */
  lemma FileOffset(p: Phdr, file: seq<byte>, lead: int, fs: int, filePages: int)
    requires GoodSegment(p, file) && lead == p.vaddr + GUEST_OFFSET - SegLo(p) && fs == p.filesz + lead
    requires fs <= filePages < fs + 4096 && filePages % 4096 == 0
    ensures RoundDown(p.offset) + lead == p.offset && RoundDown(p.offset) + filePages <= PagesOf(|file|)
  {
    assert RoundDown(p.offset) + lead == p.offset;
    hide SegLo, PagesOf;
    PagesOfBounds(|file|);
    RoundDownBounds(p.offset);
    SumAligned(RoundDown(p.offset), filePages);
    hide RoundDown;
    MonotoneBoundary(p.offset + p.filesz, |file|, RoundDown(p.offset) + filePages, PagesOf(|file|));
  }

  /** The memory after the one or two mappings of a segment. */
  lemma SegmentImage(m: Mem, p: Phdr, file: seq<byte>, lo: u64, lead: int, fs: int, filePages: int, bss: int, m': Mem)
    requires GoodSegment(p, file) && lo == SegLo(p) && lead == p.vaddr + GUEST_OFFSET - lo
    requires 0 <= lead < 4096 && fs == p.filesz + lead && fs <= filePages < fs + 4096 && filePages % 4096 == 0 && 0 <= bss
    requires lo + filePages + bss == SegHi(p) < TWO64
    requires var m1 := MapFile(m, lo, filePages, file, RoundDown(p.offset));
      m' == if bss == 0 then m1 else MapZero(m1, lo + filePages, bss)
    ensures Image(m', p, file) && Untouched(m, m', p)
  {
    hide SegLo, SegHi, FileHi, RoundDown, MapFile, MapZero, PagesOf, Image, Untouched;
    FileOffset(p, file, lead, fs, filePages);
    var off := RoundDown(p.offset);
    var m1 := MapFile(m, lo, filePages, file, off);
    forall h: u64
      ensures lo <= h < lo + filePages ==> h in m' && m'[h] == FileByte(file, off + (h - lo))
      ensures lo + filePages <= h < lo + filePages + bss ==> h in m' && m'[h] == 0
      ensures !(lo <= h < lo + filePages + bss) ==> (h in m' <==> h in m) && (h in m ==> m'[h] == m[h])
    {
      MapFileBytes(m, lo, filePages, file, off, h);
      if bss != 0 {
        MapZeroBytes(m1, lo + filePages, bss, h);
      }
    }
    FileEnd(p, lo, filePages);
    ImageFromBytes(m', p, file, lo, off, filePages, bss);
    UntouchedOutside(m, m', p, lo, filePages + bss);
  }

  lemma FileEnd(p: Phdr, lo: int, filePages: int)
    requires lo == SegLo(p) && filePages % 4096 == 0
    requires p.filesz + (p.vaddr + GUEST_OFFSET - lo) <= filePages < p.filesz + (p.vaddr + GUEST_OFFSET - lo) + 4096
    ensures lo + filePages == FileHi(p)
  {
    hide SegLo, PagesOf;
    SegLoBounds(p);
    var end := p.vaddr + GUEST_OFFSET + p.filesz;
    PagesOfBounds(end);
    SumAligned(lo, filePages);
    OneBoundary(end, lo + filePages, PagesOf(end));
  }

  lemma ImageFromBytes(m': Mem, p: Phdr, file: seq<byte>, lo: int, off: int, filePages: int, bss: int)
    requires GoodSegment(p, file) && lo == SegLo(p) && off + (p.vaddr + GUEST_OFFSET - lo) == p.offset
    requires p.filesz + (p.vaddr + GUEST_OFFSET - lo) <= filePages && lo + filePages + bss == SegHi(p)
    requires lo <= p.vaddr + GUEST_OFFSET && 0 <= bss && 0 <= off
    requires forall h: u64 :: lo <= h < lo + filePages ==> h in m' && m'[h] == FileByte(file, off + (h - lo))
    requires forall h: u64 :: lo + filePages <= h < lo + filePages + bss ==> h in m' && m'[h] == 0
    requires lo + filePages == FileHi(p)
    ensures Image(m', p, file)
  {
    hide SegLo, SegHi, FileHi;
  }

  lemma UntouchedOutside(m: Mem, m': Mem, p: Phdr, lo: int, n: int)
    requires lo == SegLo(p) && lo + n == SegHi(p)
    requires forall h: u64 :: !(lo <= h < lo + n) ==> (h in m' <==> h in m) && (h in m ==> m'[h] == m[h])
    ensures Untouched(m, m', p)
  {
    hide SegLo, SegHi;
  }

  // ---- the whole executable ----

  /** The largest page-rounded end of the PT_LOAD segments, or `end` if that is larger. */
  function MaxEnd(end: int, ps: seq<Phdr>): int
    decreases ps
  {
    if ps == [] then end
    else if ps[0].ptype != PT_LOAD then MaxEnd(end, ps[1..])
    else MaxEnd(if SegHi(ps[0]) < end then end else SegHi(ps[0]), ps[1..])
  }

  /** The image of a segment survives loading a page-disjoint one. */
  lemma ImageSurvives(m: Mem, m': Mem, p: Phdr, q: Phdr, file: seq<byte>)
    requires GoodSegment(p, file) && GoodSegment(q, file) && PageDisjoint(p, q)
    requires Image(m, p, file) && Untouched(m, m', q)
    ensures Image(m', p, file)
  {
    InsidePages(p, file);
    hide SegLo, SegHi, FileHi;
  }

  lemma InsidePages(p: Phdr, file: seq<byte>)
    requires GoodSegment(p, file)
    ensures SegLo(p) <= p.vaddr + GUEST_OFFSET && p.vaddr + GUEST_OFFSET + p.filesz <= SegHi(p)
    ensures SegLo(p) <= FileHi(p)
  {
    hide PagesOf, SegLo;
    SegLoBounds(p);
    PagesOfBounds(p.vaddr + GUEST_OFFSET + p.filesz);
    PagesOfBounds(p.vaddr + GUEST_OFFSET + p.memsz);
  }

  lemma GoodTail(ps: seq<Phdr>, file: seq<byte>)
    requires ps != [] && GoodHeaders(ps, file)
    ensures GoodHeaders(ps[1..], file)
  {
    hide GoodSegment, PageDisjoint;
  }

  /** A segment loaded before a list of page-disjoint ones is still there after them. */
  lemma {:induction false} ImageSurvivesAll(s: Space, p: Phdr, ps: seq<Phdr>, file: seq<byte>)
    requires GoodSegment(p, file) && Image(s.mem, p, file) && GoodHeaders(ps, file)
    requires forall i | 0 <= i < |ps| && ps[i].ptype == PT_LOAD :: PageDisjoint(p, ps[i])
    ensures LoadAll(s, ps, file).Some? ==> Image(LoadAll(s, ps, file).value.mem, p, file)
    decreases ps
  {
    hide GoodSegment, PageDisjoint, LoadStep, SegLo, SegHi;
    if ps == [] {
    } else {
      GoodTail(ps, file);
      if ps[0].ptype != PT_LOAD {
        ImageSurvivesAll(s, p, ps[1..], file);
      } else {
        SegmentLoads(s, ps[0], file);
        var t := LoadStep(s, ps[0], file).value;
        ImageSurvives(s.mem, t.mem, p, ps[0], file);
        ImageSurvivesAll(t, p, ps[1..], file);
      }
    }
  }

  /** Loading any list of page-disjoint headers succeeds; every segment's pages are mapped with
      its file bytes in place; and host_alloc ends as the largest page-rounded end, with
      guest_alloc and base at the same place. */
  lemma {:induction false} ElfLoads(s: Space, ps: seq<Phdr>, file: seq<byte>)
    requires GoodHeaders(ps, file)
    ensures LoadAll(s, ps, file).Some?
    ensures var t := LoadAll(s, ps, file).value;
      && t.hostAlloc == MaxEnd(s.hostAlloc, ps)
      && (forall i | 0 <= i < |ps| && ps[i].ptype == PT_LOAD :: Image(t.mem, ps[i], file))
    decreases ps
  {
    hide GoodSegment, PageDisjoint, LoadStep, SegLo, SegHi, Image;
    if ps == [] {
    } else {
      GoodTail(ps, file);
      if ps[0].ptype != PT_LOAD {
        ElfLoads(s, ps[1..], file);
      } else {
        SegmentLoads(s, ps[0], file);
        var u := LoadStep(s, ps[0], file).value;
        ElfLoads(u, ps[1..], file);
        ImageSurvivesAll(u, ps[0], ps[1..], file);
      }
      forall i | 0 <= i < |ps| && ps[i].ptype == PT_LOAD
        ensures GoodSegment(ps[i], file) && Image(LoadAll(s, ps, file).value.mem, ps[i], file)
      {
        if i > 0 { assert ps[i] == ps[1..][i - 1]; }
      }
    }
  }

  /** After at least one segment, and with nothing mapped above host_alloc before, the state is
      sound: the heap starts empty at a page boundary above everything loaded. */
  lemma {:induction false} ElfSound(s: Space, ps: seq<Phdr>, file: seq<byte>)
    requires GoodHeaders(ps, file)
    requires forall h: u64 | h in s.mem :: h < s.hostAlloc
    requires s.hostAlloc % 4096 == 0
    requires
      || (Sound(s) && s.base == s.guestAlloc == ToGuest(s.hostAlloc))
      || (exists i :: 0 <= i < |ps| && ps[i].ptype == PT_LOAD)
    ensures LoadAll(s, ps, file).Some? && Sound(LoadAll(s, ps, file).value)
    ensures var t := LoadAll(s, ps, file).value; t.base == t.guestAlloc == t.hostAlloc - GUEST_OFFSET
    decreases ps
  {
    hide GoodSegment, PageDisjoint, LoadStep, SegLo, SegHi, Image;
    if ps == [] {
      GuestOfHost(s.hostAlloc);
    } else {
      GoodTail(ps, file);
      if ps[0].ptype != PT_LOAD {
        if exists i :: 0 <= i < |ps| && ps[i].ptype == PT_LOAD {
          var i :| 0 <= i < |ps| && ps[i].ptype == PT_LOAD;
          assert ps[1..][i - 1].ptype == PT_LOAD;
        }
        ElfSound(s, ps[1..], file);
      } else {
        SegmentLoads(s, ps[0], file);
        var u := LoadStep(s, ps[0], file).value;
        SegmentSound(s, u, ps[0], file);
        ElfSound(u, ps[1..], file);
      }
    }
  }

  lemma SegmentSound(s: Space, u: Space, p: Phdr, file: seq<byte>)
    requires GoodSegment(p, file) && Untouched(s.mem, u.mem, p)
    requires forall h: u64 | h in s.mem :: h < s.hostAlloc
    requires s.hostAlloc % 4096 == 0
    requires u.hostAlloc == (if SegHi(p) < s.hostAlloc then s.hostAlloc else SegHi(p))
    requires u.base == u.guestAlloc == ToGuest(u.hostAlloc)
    ensures Sound(u)
  {
    hide PagesOf, SegLo, ToGuest;
    SegLoBounds(p);
    PagesOfBounds(p.vaddr + GUEST_OFFSET + p.memsz);
    GuestOfHost(u.hostAlloc);
  }
}
