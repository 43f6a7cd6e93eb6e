/** `mmu_t` as an object (src/rvemu.h, src/mmu.c) with the operations of src/mmu.c and `sys_brk`
    of src/syscall.c on it, each proved against its specification function. */
module AddressSpace {
  import opened Words
  import opened Memory
  import opened Mmu
  import opened Segments

  class Allocator {
    var hostAlloc: u64
    var guestAlloc: u64
    var base: u64
    var mem: Mem

    ghost function View(): Space
      reads this
    {
      Space(hostAlloc, guestAlloc, base, mem)
    }

    /** `machine_t machine = { 0 }`. */
    constructor ()
      ensures View() == Space(0, 0, 0, map[])
    {
      hostAlloc, guestAlloc, base, mem := 0, 0, 0, map[];
    }

    /** `mmu_alloc`: the result is the old break, and the new state is that of the specification;
        `None` is a failed assertion. */
    method Alloc(size: int) returns (r: Option<u64>)
      modifies this
      ensures AllocStep(old(View()), size) == if r.Some? then Some(View()) else None
      ensures r.Some? ==> r.value == old(guestAlloc)
    {
      hide RoundUp, ToGuest, MmapHint, Unmap;
      var start := guestAlloc;
      if !(start >= base) {
        return None;
      }
      guestAlloc := Wrap64(guestAlloc + size);
      if !(guestAlloc >= base) {
        return None;
      }
      if size > 0 && guestAlloc > ToGuest(hostAlloc) {
        var allocSize := RoundUp(Wrap64(size));
        mem := MmapHint(mem, hostAlloc, allocSize);
        hostAlloc := Wrap64(hostAlloc + allocSize);
      } else if size < 0 && RoundUp(guestAlloc) < ToGuest(hostAlloc) {
        var munmapSize := ToGuest(hostAlloc) - RoundUp(guestAlloc);
        mem := Unmap(mem, hostAlloc, munmapSize);
        hostAlloc := Wrap64((hostAlloc as int) - munmapSize);
      }
      return Some(start);
    }

    /** `sys_brk`: the break ends at the requested address, or stays for a request of zero. */
    method SysBrk(request: u64) returns (r: Option<u64>)
      modifies this
      ensures r.Some? ==> r.value == (if request == 0 then old(guestAlloc) else request) && guestAlloc == r.value
      ensures var addr := if request == 0 then old(guestAlloc) else request;
        && (r.None? <==> addr < old(base) || AllocStep(old(View()), BrkIncrement(old(View()), addr)) == None)
        && (r.Some? ==> AllocStep(old(View()), BrkIncrement(old(View()), addr)) == Some(View()))
    {
      hide AllocStep;
      var addr := request;
      if addr == 0 {
        addr := guestAlloc;
      }
      if !(addr >= base) {
        return None;
      }
      var incr := Signed64(Wrap64((addr as int) - guestAlloc));
      ghost var s := View();
      var a := Alloc(incr);
      if a.None? {
        return None;
      }
      BrkSetsBreak(s, addr);
      return Some(addr);
    }

    /** `mmu_write` of a string: `memcpy` to the host address. */
    method WriteString(a: u64, data: seq<byte>)
      requires a + GUEST_OFFSET + |data| < TWO64 && AllMapped(mem, a + GUEST_OFFSET, |data|)
      modifies this`mem
      ensures Copied(old(mem), mem, a, data)
    {
      var lo := ToHost(a);
      mem := mem + (map h: u64 | lo <= h < lo + |data| && Within(h, lo, |data|) :: data[h - lo]);
    }

    /** `mmu_write` of a 64-bit word: its eight bytes, lowest first, replace those at a, and a load
        gives the word back. */
    method WriteWord(a: u64, v: u64)
      requires Mapped(mem, a, 8)
      modifies this`mem
      ensures Stored(old(mem), mem, a, 8, v)
      ensures Mapped(mem, a, 8) && LoadLE(mem, a, 8) == v
    {
      hide StoreLE, Mapped, Stored, Low, LoadLE;
      ghost var m := mem;
      mem := StoreLE(mem, a, v, 8);
      StoreIsStored(m, a, 8, v);
      LoadAfterStore(m, a, v, 8);
      LowWidths(v);
    }

    /** `mmu_load_segment`. */
    method LoadSegment(p: Phdr, file: seq<byte>) returns (ok: bool)
      modifies this
      ensures LoadStep(old(View()), p, file) == if ok then Some(View()) else None
    {
      hide RoundUp, RoundDown, ToHost, ToGuest, MapFile, MapFixedZero;
      var guestInHost := ToHost(p.vaddr);
      var aligned := RoundDown(guestInHost);
      var filesz := Wrap64(p.filesz + (guestInHost - aligned));
      var memsz := Wrap64(p.memsz + (guestInHost - aligned));
      if filesz == 0 || aligned + RoundUp(filesz) > TWO64 {
        return false;
      }
      mem := MapFile(mem, aligned, RoundUp(filesz), file, RoundDown(p.offset));
      var remaining := Wrap64((RoundUp(memsz) as int) - RoundUp(filesz));
      if remaining > 0 {
        if aligned + RoundUp(filesz) + remaining > TWO64 || aligned + RoundUp(filesz) >= TWO64 {
          return false;
        }
        mem := MapFixedZero(mem, aligned + RoundUp(filesz), remaining);
      }
      var end := Wrap64(aligned + RoundUp(memsz));
      if hostAlloc <= end {
        hostAlloc := end;
      }
      guestAlloc := ToGuest(hostAlloc);
      base := guestAlloc;
      return true;
    }

    /** The loop of `mmu_load_elf` over the program headers. For well-formed, page-disjoint
        headers it succeeds, every segment is in place, and the heap starts behind the last. */
    method LoadElf(ps: seq<Phdr>, file: seq<byte>) returns (ok: bool)
      modifies this
      ensures LoadAll(old(View()), ps, file) == if ok then Some(View()) else None
      ensures GoodHeaders(ps, file) ==>
        && ok && hostAlloc == MaxEnd(old(hostAlloc), ps)
        && (forall i | 0 <= i < |ps| && ps[i].ptype == PT_LOAD :: Image(mem, ps[i], file))
    {
      hide LoadStep, GoodSegment, PageDisjoint, Image, SegLo, SegHi;
      ghost var s := View();
      if GoodHeaders(ps, file) {
        ElfLoads(s, ps, file);
      }
      var i := 0;
      while i < |ps|
        invariant 0 <= i <= |ps|
        invariant LoadAll(s, ps, file) == LoadAll(View(), ps[i..], file)
      {
        assert ps[i..][0] == ps[i] && ps[i..][1..] == ps[i + 1..];
        if ps[i].ptype == PT_LOAD {
          var loaded := LoadSegment(ps[i], file);
          if !loaded {
            return false;
          }
        }
        i := i + 1;
      }
      assert ps[i..] == [];
      return true;
    }
  }
}
