/** The word BRAM behind the Pmmu is a flat little-endian byte array. */
module MemoryRefinement {
  import opened Bits
  import opened Pmmu
  import Isa

  /** The byte array a word bank represents. */
  function BytesOf(mem: Bank): Isa.Memory {
    seq(Isa.MEM_BYTES, i requires 0 <= i < Isa.MEM_BYTES => Lane(mem[i / 4], i % 4))
  }

  function SizeOf(funct3: nat): nat {
    if funct3 % 4 == BYTE_SIZE then 1 else if funct3 % 4 == HALFWORD_SIZE then 2 else 4
  }

  lemma HalvesMakeWord(w: Word)
    ensures w == Half(w, false) + 0x1_0000 * Half(w, true)
    ensures w / 0x100 % 0x100 == w % 0x1_0000 / 0x100 && w % 0x100 == w % 0x1_0000 % 0x100
    ensures w / 0x100_0000 == w / 0x1_0000 / 0x100
  {
  }

  lemma LanesMakeHalf(w: Word)
    ensures Half(w, false) == Lane(w, 0) + 0x100 * Lane(w, 1)
    ensures Half(w, true) == Lane(w, 2) + 0x100 * Lane(w, 3)
  {
    HalvesMakeWord(w);
  }

  lemma LanesMakeWord(w: Word)
    ensures w == Lane(w, 0) + 0x100 * Lane(w, 1) + 0x1_0000 * Lane(w, 2) + 0x100_0000 * Lane(w, 3)
    ensures Half(w, false) == Lane(w, 0) + 0x100 * Lane(w, 1)
    ensures Half(w, true) == Lane(w, 2) + 0x100 * Lane(w, 3)
  {
    hide Lane, Half;
    LanesMakeHalf(w);
    HalvesMakeWord(w);
  }

  /** The word whose byte lanes are the given four. */
  function Join(b0: nat, b1: nat, b2: nat, b3: nat): (w: Word)
    requires b0 < 0x100 && b1 < 0x100 && b2 < 0x100 && b3 < 0x100
  {
    b0 + 0x100 * b1 + 0x1_0000 * b2 + 0x100_0000 * b3
  }

  lemma DigitsOfJoin(b0: nat, b1: nat, b2: nat, b3: nat)
    requires b0 < 0x100 && b1 < 0x100 && b2 < 0x100 && b3 < 0x100
    ensures var w := Join(b0, b1, b2, b3);
            && w / 0x100 == b1 + 0x100 * b2 + 0x1_0000 * b3 && w % 0x100 == b0
            && w / 0x1_0000 == b2 + 0x100 * b3 && w % 0x1_0000 == b0 + 0x100 * b1
            && w / 0x100_0000 == b3 && w % 0x100_0000 == b0 + 0x100 * b1 + 0x1_0000 * b2
  {
    var w := Join(b0, b1, b2, b3);
    DivideUnique(w, 0x100, b1 + 0x100 * b2 + 0x1_0000 * b3, b0);
    DivideUnique(w, 0x1_0000, b2 + 0x100 * b3, b0 + 0x100 * b1);
    DivideUnique(w, 0x100_0000, b3, b0 + 0x100 * b1 + 0x1_0000 * b2);
  }

  lemma LanesOfJoin(b0: nat, b1: nat, b2: nat, b3: nat)
    requires b0 < 0x100 && b1 < 0x100 && b2 < 0x100 && b3 < 0x100
    ensures var w := Join(b0, b1, b2, b3);
            Lane(w, 0) == b0 && Lane(w, 1) == b1 && Lane(w, 2) == b2 && Lane(w, 3) == b3
  {
    DigitsOfJoin(b0, b1, b2, b3);
    DivideUnique(b1 + 0x100 * b2 + 0x1_0000 * b3, 0x100, b2 + 0x100 * b3, b1);
    DivideUnique(b2 + 0x100 * b3, 0x100, b3, b2);
    hide Join;
  }

  lemma AlignedParts(addr: Word)
    ensures addr % 4096 / 4 == addr / 4 % 1024 && addr % 4096 % 4 == addr % 4
    ensures addr - addr % 2 == addr / 2 * 2 && addr - addr % 4 == addr / 4 * 4
    ensures addr / 4 * 4 % 4096 == addr / 4 % 1024 * 4
    ensures addr / 2 * 2 % 4096 == addr / 4 % 1024 * 4 + addr / 2 % 2 * 2
  {
    var q, r, h := addr / 4, addr % 4, addr / 2;
    var rows, w := q / 1024, q % 1024;
    DivideUnique(addr, 4096, rows, 4 * w + r);
    DivideUnique(4 * w + r, 4, w, r);
    DivideUnique(addr, 4, h / 2, 2 * (h % 2) + addr % 2);
    DivideUnique(4 * q, 4096, rows, 4 * w);
    DivideUnique(2 * h, 4096, rows, 4 * w + 2 * (h % 2));
  }

  /** The bytes of an access lie in the word the BRAM addresses. */
  lemma EffectiveInWord(addr: Word, size: nat)
    requires size in {1, 2, 4}
    ensures var e := Isa.Effective(addr, size);
            && e / 4 == WordAddr(addr)
            && e % 4 == (if size == 1 then addr % 4 else if size == 2 then addr / 2 % 2 * 2 else 0)
  {
    AlignedParts(addr);
  }

  lemma FourBytes(m: Isa.Memory, e: nat)
    requires e + 4 <= Isa.MEM_BYTES
    ensures Isa.LoadBytes(m, e, 4) == Join(m[e], m[e + 1], m[e + 2], m[e + 3])
    ensures Isa.LoadBytes(m, e, 2) == Join(m[e], m[e + 1], 0, 0)
    ensures Isa.LoadBytes(m, e, 1) == m[e]
  {
    assert Isa.LoadBytes(m, e + 3, 1) == m[e + 3];
    assert Isa.LoadBytes(m, e + 1, 1) == m[e + 1];
    assert Isa.LoadBytes(m, e + 2, 2) == m[e + 2] as int + 0x100 * m[e + 3] as int;
    assert Isa.LoadBytes(m, e + 1, 3) == m[e + 1] as int + 0x100 * Isa.LoadBytes(m, e + 2, 2);
  }

  lemma LoadByteRefines(mem: Bank, funct3: nat, addr: Word)
    requires funct3 == 0 || funct3 == 4
    ensures ReadOut(funct3, addr, mem[WordAddr(addr)], true)
         == Isa.LoadValue(BytesOf(mem), addr, 1, funct3 >= 4)
  {
    var m, e := BytesOf(mem), Isa.Effective(addr, 1);
    EffectiveInWord(addr, 1);
    assert Isa.LoadBytes(m, e, 1) == m[e];
    assert m[e] == Lane(mem[WordAddr(addr)], addr % 4);
  }

  lemma LoadHalfRefines(mem: Bank, funct3: nat, addr: Word)
    requires funct3 == 1 || funct3 == 5
    ensures ReadOut(funct3, addr, mem[WordAddr(addr)], true)
         == Isa.LoadValue(BytesOf(mem), addr, 2, funct3 >= 4)
  {
    hide WordAddr, Isa.Effective, Half;
    HalfAt(mem, addr);
  }

  lemma HalfAt(mem: Bank, addr: Word)
    ensures Isa.LoadBytes(BytesOf(mem), Isa.Effective(addr, 2), 2) == Half(mem[WordAddr(addr)], addr / 2 % 2 == 1)
  {
    var m, e, w := BytesOf(mem), Isa.Effective(addr, 2), mem[WordAddr(addr)];
    EffectiveInWord(addr, 2);
    assert Isa.LoadBytes(m, e + 1, 1) == m[e + 1];
    assert m[e] == Lane(w, e % 4) && m[e + 1] == Lane(w, e % 4 + 1);
    hide Lane, Half, BytesOf, WordAddr;
    LanesMakeWord(w);
  }

  lemma BytesOfWord(mem: Bank, e: nat)
    requires e < Isa.MEM_BYTES && e % 4 == 0
    ensures e + 4 <= Isa.MEM_BYTES
    ensures var m, w := BytesOf(mem), mem[e / 4];
      m[e] == Lane(w, 0) && m[e + 1] == Lane(w, 1) && m[e + 2] == Lane(w, 2) && m[e + 3] == Lane(w, 3)
  {
    hide Lane;
    DivideUnique(e + 1, 4, e / 4, 1);
    DivideUnique(e + 2, 4, e / 4, 2);
    DivideUnique(e + 3, 4, e / 4, 3);
  }

  lemma JoinLanes(w: Word)
    ensures Join(Lane(w, 0), Lane(w, 1), Lane(w, 2), Lane(w, 3)) == w
  {
    LanesMakeWord(w);
    hide Lane;
  }

  lemma LoadsWord(m: Isa.Memory, addr: Word, unsigned: bool)
    ensures Isa.LoadValue(m, addr, 4, unsigned) == Isa.LoadBytes(m, Isa.Effective(addr, 4), 4)
  {
    hide Isa.Effective, Isa.LoadBytes, Join;
    FourBytes(m, Isa.Effective(addr, 4));
  }

  lemma LoadWordRefines(mem: Bank, addr: Word, unsigned: bool)
    ensures mem[WordAddr(addr)] == Isa.LoadValue(BytesOf(mem), addr, 4, unsigned)
  {
    var m, e, w := BytesOf(mem), Isa.Effective(addr, 4), mem[WordAddr(addr)];
    hide *;
    EffectiveInWord(addr, 4);
    BytesOfWord(mem, e);
    FourBytes(m, e);
    JoinLanes(w);
    LoadsWord(m, addr, unsigned);
  }

  /** lb, lbu, lh, lhu and lw through the Pmmu return the bytes of the flat array, extended. */
  lemma LoadRefines(mem: Bank, funct3: nat, addr: Word)
    requires funct3 in {0, 1, 2, 4, 5}
    ensures ReadOut(funct3, addr, mem[WordAddr(addr)], true)
         == Isa.LoadValue(BytesOf(mem), addr, SizeOf(funct3), funct3 >= 4)
  {
    if funct3 == 0 || funct3 == 4 {
      LoadByteRefines(mem, funct3, addr);
    } else if funct3 == 1 || funct3 == 5 {
      LoadHalfRefines(mem, funct3, addr);
    } else {
      LoadWordRefines(mem, addr, false);
    }
  }

  /** An instruction fetch reads the aligned word. */
  lemma FetchRefines(mem: Bank, pc: Word)
    ensures mem[WordAddr(pc)] == Isa.LoadValue(BytesOf(mem), pc, 4, true)
  {
    LoadWordRefines(mem, pc, true);
  }

  lemma MergedByte(addr: Word, w: Word, wd: Word)
    ensures forall k: nat | k < 4 ::
      Lane(MergeIn(0, addr, w, wd), k) == if k == addr % 4 then Lane(wd, 0) else Lane(w, k)
  {
    var b0, b1, b2, b3, b := Lane(w, 0), Lane(w, 1), Lane(w, 2), Lane(w, 3), wd % 0x100;
    LanesMakeWord(w);
    DigitsOfJoin(b0, b1, b2, b3);
    LanesOfJoin(b0, b1, b2, b3);
    LanesOfJoin(b, b1, b2, b3);
    LanesOfJoin(b0, b, b2, b3);
    LanesOfJoin(b0, b1, b, b3);
    LanesOfJoin(b0, b1, b2, b);
    assert MergeIn(0, addr, w, wd)
        == (if addr % 4 == 0 then Join(b, b1, b2, b3) else if addr % 4 == 1 then Join(b0, b, b2, b3)
            else if addr % 4 == 2 then Join(b0, b1, b, b3) else Join(b0, b1, b2, b));
  }

  lemma MergedHalf(addr: Word, w: Word, wd: Word)
    ensures var lower := addr / 2 % 2 * 2;
      forall k: nat | k < 4 ::
        Lane(MergeIn(1, addr, w, wd), k) == if lower <= k < lower + 2 then Lane(wd, k - lower) else Lane(w, k)
  {
    var b0, b1, b2, b3 := Lane(w, 0), Lane(w, 1), Lane(w, 2), Lane(w, 3);
    var c0, c1 := Lane(wd, 0), Lane(wd, 1);
    LanesMakeWord(w);
    LanesMakeWord(wd);
    DigitsOfJoin(b0, b1, b2, b3);
    LanesOfJoin(b0, b1, b2, b3);
    LanesOfJoin(c0, c1, b2, b3);
    LanesOfJoin(b0, b1, c0, c1);
    HalfMerge(addr, w, wd);
  }

  lemma HalfMerge(addr: Word, w: Word, wd: Word)
    ensures MergeIn(1, addr, w, wd)
         == if addr / 2 % 2 == 0 then Join(Lane(wd, 0), Lane(wd, 1), Lane(w, 2), Lane(w, 3))
            else Join(Lane(w, 0), Lane(w, 1), Lane(wd, 0), Lane(wd, 1))
  {
    LanesMakeHalf(w);
    LanesMakeHalf(wd);
    hide Lane;
  }

  lemma MergedLanes(funct3: nat, addr: Word, w: Word, wd: Word)
    requires funct3 < 3
    ensures
      var size, first := SizeOf(funct3), Isa.Effective(addr, SizeOf(funct3)) % 4;
      forall k: nat | k < 4 ::
        Lane(MergeIn(funct3, addr, w, wd), k)
          == if first <= k < first + size then Lane(wd, k - first) else Lane(w, k)
  {
    EffectiveInWord(addr, SizeOf(funct3));
    MergedByte(addr, w, wd);
    MergedHalf(addr, w, wd);
  }

  /** What a little-endian store leaves in each cell. */
  lemma StoreCells(m: Isa.Memory, e: nat, size: nat, v: Word, i: nat)
    requires size in {1, 2, 4} && e + size <= Isa.MEM_BYTES && i < Isa.MEM_BYTES
    ensures Isa.StoreBytes(m, e, size, v)[i] == if e <= i < e + size then Lane(v, i - e) else m[i]
  {
    hide Lane;
    FourLanes(v);
    var m1 := m[e := v % 0x100];
    if size == 1 {
      assert Isa.StoreBytes(m, e, 1, v) == Isa.StoreBytes(m1, e + 1, 0, v / 0x100) == m1;
    } else {
      var m2 := m1[e + 1 := v / 0x100 % 0x100];
      if size == 2 {
        StoreTwo(m, e, v);
      } else {
        var m3 := m2[e + 2 := v / 0x1_0000 % 0x100];
        var m4 := m3[e + 3 := v / 0x100_0000];
        StoreFour(m, e, v);
        assert Isa.StoreBytes(m, e, 4, v) == m4;
      }
    }
  }

  lemma FourLanes(v: Word)
    ensures Lane(v, 0) == v % 0x100 && Lane(v, 1) == v / 0x100 % 0x100
    ensures Lane(v, 2) == v / 0x1_0000 % 0x100 && Lane(v, 3) == v / 0x100_0000
  {
  }

  lemma StoreTwo(m: Isa.Memory, e: nat, v: Word)
    requires e + 2 <= Isa.MEM_BYTES
    ensures Isa.StoreBytes(m, e, 2, v) == m[e := v % 0x100][e + 1 := v / 0x100 % 0x100]
  {
    var m1 := m[e := v % 0x100];
    assert Isa.StoreBytes(m1, e + 1, 1, v / 0x100) == m1[e + 1 := v / 0x100 % 0x100];
  }

  lemma StoreFour(m: Isa.Memory, e: nat, v: Word)
    requires e + 4 <= Isa.MEM_BYTES
    ensures Isa.StoreBytes(m, e, 4, v)
         == m[e := v % 0x100][e + 1 := v / 0x100 % 0x100][e + 2 := v / 0x1_0000 % 0x100][e + 3 := v / 0x100_0000]
  {
    var m1 := m[e := v % 0x100];
    var m2 := m1[e + 1 := v / 0x100 % 0x100];
    Quotients(v);
    StoreTwo(m2, e + 2, v / 0x1_0000);
    assert Isa.StoreBytes(m1, e + 1, 3, v / 0x100) == Isa.StoreBytes(m2, e + 2, 2, v / 0x1_0000);
  }

  lemma Quotients(v: Word)
    ensures v / 0x100 / 0x100 == v / 0x1_0000 && v / 0x1_0000 / 0x100 == v / 0x100_0000
    ensures v / 0x100_0000 % 0x100 == v / 0x100_0000
  {
  }

  /** sb, sh and sw by read-merge-write are the byte stores of the flat array. */
  lemma StoreRefines(mem: Bank, funct3: nat, addr: Word, wd: Word)
    requires funct3 < 3
    ensures BytesOf(mem[WordAddr(addr) := MergeIn(funct3, addr, mem[WordAddr(addr)], wd)])
         == Isa.StoreValue(BytesOf(mem), addr, SizeOf(funct3), wd)
  {
    var size := SizeOf(funct3);
    var e := Isa.Effective(addr, size);
    var mem' := mem[WordAddr(addr) := MergeIn(funct3, addr, mem[WordAddr(addr)], wd)];
    EffectiveInWord(addr, size);
    MergedLanes(funct3, addr, mem[WordAddr(addr)], wd);
    forall i: nat | i < Isa.MEM_BYTES
      ensures BytesOf(mem')[i] == Isa.StoreValue(BytesOf(mem), addr, size, wd)[i]
    {
      StoreCells(BytesOf(mem), e, size, wd, i);
    }
  }

  /** A store changes only its own bytes, and a later load of the same cell, signed or unsigned,
      returns the low bytes of the value stored, extended. */
  lemma StoreThenLoad(m: Isa.Memory, addr: Word, size: nat, v: Word, unsigned: bool)
    requires size in {1, 2, 4}
    ensures var m' := Isa.StoreValue(m, addr, size, v);
            var e := Isa.Effective(addr, size);
            && (forall i: nat | i < Isa.MEM_BYTES && !(e <= i < e + size) :: m'[i] == m[i])
            && Isa.LoadValue(m', addr, size, unsigned) == Isa.Extended(LowBytes(v, size), size, unsigned)
  {
    hide Isa.Effective, Isa.StoreBytes, Isa.Extended;
    var m' := Isa.StoreValue(m, addr, size, v);
    var e := Isa.Effective(addr, size);
    forall i: nat | i < Isa.MEM_BYTES
      ensures m'[i] == if e <= i < e + size then Lane(v, i - e) else m[i]
    {
      StoreCells(m, e, size, v, i);
    }
    LoadStored(m', e, size, v);
  }

  function LowBytes(v: Word, size: nat): nat {
    if size == 1 then v % 0x100 else if size == 2 then v % 0x1_0000 else v
  }

  /** The same in the BRAM: what sb, sh or sw merged into a word, the load of that size selects. */
  lemma MergeThenRead(mem: Bank, funct3: nat, addr: Word, wd: Word, unsigned: bool)
    requires funct3 < 3 && (unsigned ==> funct3 < 2)
    ensures var w := mem[WordAddr(addr)];
            var size := SizeOf(funct3);
            ReadOut(if unsigned then funct3 + 4 else funct3, addr, MergeIn(funct3, addr, w, wd), true)
            == Isa.Extended(LowBytes(wd, size), size, unsigned)
  {
    hide WordAddr, MergeIn, ReadOut, BytesOf, Isa.LoadValue, Isa.StoreValue, Isa.Extended, LowBytes;
    var code := if unsigned then funct3 + 4 else funct3;
    var mem' := mem[WordAddr(addr) := MergeIn(funct3, addr, mem[WordAddr(addr)], wd)];
    StoreRefines(mem, funct3, addr, wd);
    LoadRefines(mem', code, addr);
    StoreThenLoad(BytesOf(mem), addr, SizeOf(funct3), wd, unsigned);
  }

  lemma LoadStored(m: Isa.Memory, e: nat, size: nat, v: Word)
    requires size in {1, 2, 4} && e + size <= Isa.MEM_BYTES
    requires forall k: nat | k < size :: m[e + k] == Lane(v, k)
    ensures Isa.LoadBytes(m, e, size) == LowBytes(v, size)
  {
    assert m[e + 0] == Lane(v, 0);
    hide Lane;
    LanesMakeWord(v);
    assert v % 0x100 == Lane(v, 0) && v % 0x1_0000 == Half(v, false) by {
      LowParts(v);
    }
    hide Half;
    if size == 1 {
      assert Isa.LoadBytes(m, e, 1) == m[e];
    } else if size == 2 {
      assert Isa.LoadBytes(m, e + 1, 1) == m[e + 1];
      assert Isa.LoadBytes(m, e, 2) == m[e] as int + 0x100 * m[e + 1] as int;
    } else {
      FourBytes(m, e);
    }
  }

  lemma LowParts(v: Word)
    ensures v % 0x100 == Lane(v, 0) && v % 0x1_0000 == Half(v, false)
  {
  }
}
