/** Exactly when the core's departures from the RISC-V standard show, for memory accesses, CSR reads
    and mret.  Shifts and jalr are treated with the arithmetic. */
module Dialect {
  import opened Bits
  import opened Csr
  import opened Isa

  // ---------------------------------------------------------------
  // Misaligned accesses
  // ---------------------------------------------------------------

  /** The n bytes from addr on, at any alignment, in an address space that repeats the memory. */
  function StandardBytes(m: Memory, addr: nat, n: nat): (v: nat)
    decreases n
  {
    if n == 0 then 0 else m[addr % MEM_BYTES] + 0x100 * StandardBytes(m, addr + 1, n - 1)
  }

  function StandardLoad(m: Memory, addr: Word, size: nat, unsigned: bool): Word {
    Extended(StandardBytes(m, addr, size), size, unsigned)
  }

  function StandardStore(m: Memory, addr: nat, n: nat, v: nat): Memory
    decreases n
  {
    if n == 0 then m else StandardStore(m[addr % MEM_BYTES := v % 0x100], addr + 1, n - 1, v / 0x100)
  }

  predicate Size(size: nat) {
    size in {1, 2, 4}
  }

  lemma EffectiveAligned(addr: Word, size: nat)
    requires Size(size)
    ensures addr % size == 0 ==> Effective(addr, size) == addr % MEM_BYTES
    ensures addr % size != 0 ==> Effective(addr, size) == addr % MEM_BYTES - addr % size
  {
  }

  lemma {:induction false} SameBytes(m: Memory, addr: nat, e: nat, n: nat)
    requires addr % MEM_BYTES == e && e + n <= MEM_BYTES
    ensures LoadBytes(m, e, n) == StandardBytes(m, addr, n)
    decreases n
  {
    if n <= 1 {
    } else {
      NextAddress(addr);
      SameBytes(m, addr + 1, e + 1, n - 1);
    }
  }

  lemma {:induction false} SameStore(m: Memory, addr: nat, e: nat, n: nat, v: nat)
    requires addr % MEM_BYTES == e && e + n <= MEM_BYTES
    ensures StoreBytes(m, e, n, v) == StandardStore(m, addr, n, v)
    decreases n
  {
    if n <= 1 {
    } else {
      NextAddress(addr);
      SameStore(m[e := v % 0x100], addr + 1, e + 1, n - 1, v / 0x100);
    }
  }

  lemma NextAddress(addr: nat)
    ensures (addr + 1) % MEM_BYTES == if addr % MEM_BYTES == MEM_BYTES - 1 then 0 else addr % MEM_BYTES + 1
  {
  }

  function Blank(): Memory {
    seq(MEM_BYTES, i => 0)
  }

  lemma {:induction false} BlankBytes(m: Memory, e: nat, n: nat)
    requires e + n <= MEM_BYTES && forall i :: e <= i < e + n ==> m[i] == 0
    ensures LoadBytes(m, e, n) == 0
    decreases n
  {
    if n == 0 {
    } else {
      BlankBytes(m, e + 1, n - 1);
    }
  }

  lemma LowByteOfWrap(x: int)
    ensures Wrap(x) % 0x100 == x % 0x100
  {
    var q, r := x / 0x1_0000_0000, x % 0x1_0000_0000;
    DivideUnique(x, 0x100, q * 0x100_0000 + r / 0x100, r % 0x100);
  }

  lemma LowByteOfLoad(v: nat, size: nat, unsigned: bool)
    requires Size(size)
    ensures Extended(v, size, unsigned) % 0x100 == v % 0x100
  {
    hide Wrap;
    DivideUnique(v - 0x100, 0x100, v / 0x100 - 1, v % 0x100);
    DivideUnique(v - 0x1_0000, 0x100, v / 0x100 - 0x100, v % 0x100);
    LowByteOfWrap(v);
    LowByteOfWrap(v - 0x100);
    LowByteOfWrap(v - 0x1_0000);
  }

  /** A memory on which a misaligned load differs: the byte at the aligned address is not read. */
  lemma MisalignedLoadDiffers(addr: Word, size: nat, unsigned: bool) returns (m: Memory)
    requires Size(size) && addr % size != 0
    ensures LoadValue(m, addr, size, unsigned) != StandardLoad(m, addr, size, unsigned)
  {
    var e := Effective(addr, size);
    EffectiveAligned(addr, size);
    m := Blank()[e := 1];
    BlankBytes(m, e + 1, size - 1);
    assert LoadBytes(m, e, size) == 1;
    LowByteOfLoad(1, size, unsigned);
    LowByteOfLoad(StandardBytes(m, addr, size), size, unsigned);
    assert StandardBytes(m, addr, size) == 0x100 * StandardBytes(m, addr + 1, size - 1);
    HighPart(StandardBytes(m, addr + 1, size - 1));
    LoadIsExtended(m, addr, size, unsigned);
  }

  lemma HighPart(x: nat)
    ensures 0x100 * x % 0x100 == 0
  {
  }

  lemma LoadIsExtended(m: Memory, addr: Word, size: nat, unsigned: bool)
    requires Size(size)
    ensures LoadValue(m, addr, size, unsigned) == Extended(LoadBytes(m, Effective(addr, size), size), size, unsigned)
  {
    hide Effective, LoadBytes;
  }

  /** A load is the standard's for every memory if and only if it is aligned. */
  lemma LoadConformsIffAligned(addr: Word, size: nat, unsigned: bool)
    requires Size(size)
    ensures (forall m: Memory :: LoadValue(m, addr, size, unsigned) == StandardLoad(m, addr, size, unsigned))
            <==> addr % size == 0
  {
    hide LoadValue, Effective;
    if addr % size == 0 {
      forall m: Memory ensures LoadValue(m, addr, size, unsigned) == StandardLoad(m, addr, size, unsigned) {
        LoadIsExtended(m, addr, size, unsigned);
        EffectiveAligned(addr, size);
        SameBytes(m, addr, Effective(addr, size), size);
      }
    } else {
      var m := MisalignedLoadDiffers(addr, size, unsigned);
    }
  }

  predicate Reaches(addr: nat, k: nat, i: nat) {
    (addr + k) % MEM_BYTES == i
  }

  lemma {:induction false} StandardStoreElsewhere(m: Memory, addr: nat, n: nat, v: nat, i: nat)
    requires i < MEM_BYTES && forall k: nat :: k < n ==> !Reaches(addr, k, i)
    ensures StandardStore(m, addr, n, v)[i] == m[i]
    decreases n
  {
    if n == 0 {
    } else {
      assert !Reaches(addr, 0, i);
      var next := addr + 1;
      forall k: nat | k < n - 1 ensures !Reaches(next, k, i) {
        assert !Reaches(addr, k + 1, i);
      }
      StandardStoreElsewhere(m[addr % MEM_BYTES := v % 0x100], next, n - 1, v / 0x100, i);
    }
  }

  /** A misaligned store of 1 writes the byte at the aligned address, which the standard's leaves. */
  lemma MisalignedStoreDiffers(addr: Word, size: nat)
    requires Size(size) && addr % size != 0
    ensures StoreValue(Blank(), addr, size, 1) != StandardStore(Blank(), addr, size, 1)
  {
    var m, e := Blank(), Effective(addr, size);
    EffectiveAligned(addr, size);
    assert StoreValue(m, addr, size, 1) == StoreBytes(m, e, size, 1);
    StoresLowByte(m, e, size);
    forall k: nat | k < size ensures !Reaches(addr, k, e) {
      NotBack(addr, e, size, k);
    }
    StandardStoreElsewhere(m, addr, size, 1, e);
  }

  lemma StoresLowByte(m: Memory, e: nat, size: nat)
    requires Size(size) && e + size <= MEM_BYTES
    ensures StoreBytes(m, e, size, 1)[e] == 1
  {
    StoreKeepsBelow(m[e := 1], e + 1, size - 1, 0, e);
  }

  lemma {:induction false} StoreKeepsBelow(m: Memory, addr: nat, n: nat, v: nat, i: nat)
    requires i < addr && addr + n <= MEM_BYTES
    ensures StoreBytes(m, addr, n, v)[i] == m[i]
    decreases n
  {
    if n == 0 {
    } else {
      StoreKeepsBelow(m[addr := v % 0x100], addr + 1, n - 1, v / 0x100, i);
    }
  }

  lemma NotBack(addr: Word, e: nat, size: nat, k: nat)
    requires Size(size) && addr % size != 0 && k < size && e == addr % MEM_BYTES - addr % size && e + size <= MEM_BYTES
    ensures (addr + k) % MEM_BYTES != e
  {
    var x := addr % MEM_BYTES;
    var q := addr / MEM_BYTES;
    if x + k < MEM_BYTES {
      DivideUnique(addr + k, MEM_BYTES, q, x + k);
    } else {
      DivideUnique(addr + k, MEM_BYTES, q + 1, x + k - MEM_BYTES);
    }
  }

  /** A store is the standard's for every memory and value if and only if it is aligned. */
  lemma StoreConformsIffAligned(addr: Word, size: nat)
    requires Size(size)
    ensures (forall m: Memory, v: Word :: StoreValue(m, addr, size, v) == StandardStore(m, addr, size, v))
            <==> addr % size == 0
  {
    if addr % size == 0 {
      forall m: Memory, v: Word ensures StoreValue(m, addr, size, v) == StandardStore(m, addr, size, v) {
        EffectiveAligned(addr, size);
        SameStore(m, addr, Effective(addr, size), size, v);
      }
    } else {
      MisalignedStoreDiffers(addr, size);
    }
  }

  // ---------------------------------------------------------------
  // CSR reads and mret
  // ---------------------------------------------------------------

  /** The standard's csrrs and csrrc with x0: rd gets the CSR, which stays as it is. */
  function StandardCsrRead(a: Arch, rd: RegIndex, csr: nat): Arch {
    a.(pc := Wrap(a.pc + 4), regs := SetReg(a.regs, rd, ReadCsr(a.csrs, csr)))
  }

  /** csrrs and csrrc with x0 are the standard's read if and only if rd is x0 or holds the value
      already. */
  lemma CsrReadConformsIff(a: Arch, form: CsrForm, rd: RegIndex, csr: nat)
    requires form != Swap
    ensures Execute(a, CsrAccess(form, rd, Register(0), csr)) == StandardCsrRead(a, rd, csr)
            <==> rd == 0 || a.regs[rd] == ReadCsr(a.csrs, csr)
  {
    var v := ReadCsr(a.csrs, csr);
    if rd != 0 {
      if a.regs[rd] == v {
        assert a.regs[rd := v] == a.regs;
      } else {
        assert a.regs[rd := v][rd] != a.regs[rd];
      }
    }
  }

  /** The standard's mret: MIE from MPIE, MPIE set, nothing else touched. */
  function StandardMret(a: Arch): Arch {
    var mpie := Bit(a.csrs.mstatus, MSTATUS_MPIE);
    a.(pc := a.csrs.mepc - a.csrs.mepc % 4, inHandler := false,
       csrs := a.csrs.(mstatus := WithEnables(a.csrs.mstatus, mpie, 1)))
  }

  /** mret never leaves the standard's mstatus, but differs in MPIE alone; it leaves the standard's mip
      if and only if no external interrupt is pending; pc agrees always. */
  lemma MretConforms(a: Arch)
    ensures var r, std := Execute(a, Mret), StandardMret(a);
      && r.pc == std.pc && r.regs == std.regs && r.mem == std.mem
      && r.csrs.mstatus != std.csrs.mstatus
      && SetBit32(r.csrs.mstatus, MSTATUS_MPIE, 1) == std.csrs.mstatus
      && (r.csrs.mip == std.csrs.mip <==> Bit(a.csrs.mip, MIP_MEIP) == 0)
  {
    hide Bit, SetBit;
    var m, mpie := a.csrs.mstatus, Bit(a.csrs.mstatus, MSTATUS_MPIE);
    var x0, x1 := SetBit(m, MSTATUS_MPIE, 0), SetBit(m, MSTATUS_MPIE, 1);
    BitOfSetBit(x0, MSTATUS_MIE, mpie, MSTATUS_MPIE);
    BitOfSetBit(x1, MSTATUS_MIE, mpie, MSTATUS_MPIE);
    BitOfSetBit(m, MSTATUS_MPIE, 0, MSTATUS_MPIE);
    BitOfSetBit(m, MSTATUS_MPIE, 1, MSTATUS_MPIE);
    SetBitCommutes(x0, MSTATUS_MIE, mpie, MSTATUS_MPIE, 1);
    SetBitTwice(m, MSTATUS_MPIE, 0, 1);
    if Bit(a.csrs.mip, MIP_MEIP) == 0 {
      SetBitSame(a.csrs.mip, MIP_MEIP, 0);
    } else {
      BitOfSetBit(a.csrs.mip, MIP_MEIP, 0, MIP_MEIP);
    }
  }
}
