/** The addresses a source gets: what a label line gives, where a source without addresses ends up,
    and what an offset or a reference written in the source stands for. */
module AsmAddresses {
  import opened Bits
  import opened AsmPasses
  import opened AsmPlacement
  import Assemblers
  import AsmRoundTrip
  import Isa

  // ---------------------------------------------------------------
  // Labels
  // ---------------------------------------------------------------

  /** A label without an address keeps the running word address, one with an address moves it there,
      and `$` divides either by four. */
  lemma LabelMoves(lines: seq<Line>, j: nat)
    requires j < |lines| && lines[j].Label?
    ensures var l, before, after := lines[j], Pc(lines, j), Pc(lines, j + 1);
      && (l.addr.None? && !l.dollar ==> after == before)
      && (l.addr.None? && l.dollar ==> after == before / 4)
      && (l.addr.Some? && !l.dollar ==> after == l.addr.value)
      && (l.addr.Some? && l.dollar ==> after == l.addr.value / 4)
  {
  }

  /** Every other line counts one, unless it is blank or a comment; the count starts at zero. */
  lemma OthersCount(lines: seq<Line>, n: nat)
    requires n < |lines| && !lines[n].Label?
    ensures Pc(lines, n + 1) == Pc(lines, n) + (if lines[n].Blank? || lines[n].Comment? then 0 else 1)
    ensures Pc(lines, 0) == 0
  {
  }

  /** No label carries an address and no line consists of spaces. */
  predicate Unaddressed(lines: seq<Line>) {
    forall n :: 0 <= n < |lines| ==>
      !lines[n].Spaces? && (lines[n].Label? ==> lines[n].addr.None? && !lines[n].dollar)
  }

  lemma {:induction false} CountsOn(lines: seq<Line>, n: nat)
    requires Unaddressed(lines) && n <= |lines|
    ensures Pc(lines, n) == Count(lines, 0, n) && Gap(lines, n) == 0
  {
    if n == 0 {
    } else {
      CountsOn(lines, n - 1);
      if lines[n - 1].Label? {
        LabelMoves(lines, n - 1);
      }
    }
  }

  lemma {:induction false} CountGrows(lines: seq<Line>, m: nat, n: nat)
    requires m < n <= |lines| && Emits(lines[m])
    ensures Count(lines, 0, m) < Count(lines, 0, n)
    decreases n
  {
    if n == m + 1 {
    } else {
      CountGrows(lines, m, n - 1);
    }
  }

  /** Such a source is laid out without a gap or an overlap: every emitting line is placed at the number
      of emitting lines before it, and nothing else is placed. */
  lemma UnaddressedPlaces(lines: seq<Line>, p: Placed)
    requires WellFormed(lines) && Unaddressed(lines)
    ensures Program(lines).Some?
    ensures p in Program(lines).value <==>
            p.index < |lines| && Emits(lines[p.index]) && p.addr == Count(lines, 0, p.index)
  {
    hide *;
    ProgramPlaces(lines, p);
    if p.index < |lines| {
      CountsOn(lines, p.index);
    }
  }

  /** So no two lines share an address, and the order of the source is the order in memory. */
  lemma UnaddressedDistinct(lines: seq<Line>, p: Placed, q: Placed)
    requires WellFormed(lines) && Unaddressed(lines) && Program(lines).Some?
    requires p in Program(lines).value && q in Program(lines).value
    ensures p.addr < q.addr <==> p.index < q.index
  {
    hide *;
    UnaddressedPlaces(lines, p);
    UnaddressedPlaces(lines, q);
    if p.index < q.index {
      CountGrows(lines, p.index, q.index);
    } else if q.index < p.index {
      CountGrows(lines, q.index, p.index);
    }
  }

  /** A label of such a source names the address of the first line emitted after it. */
  lemma UnaddressedLabel(lines: seq<Line>, j: nat, e: nat)
    requires WellFormed(lines) && Unaddressed(lines) && j < e < |lines| && lines[j].Label? && Emits(lines[e])
    requires forall m :: j < m < e ==> !Emits(lines[m])
    ensures Lookup(LabelMap(lines, |lines|), lines[j].name) == Count(lines, 0, e) == Count(lines, 0, j)
  {
    LabelKeepsAddress(lines, j);
    hide LabelMap, Pc;
    CountsOn(lines, j + 1);
    CountSplits(lines, 0, j, j + 1);
    LabelCountsNothing(lines, j);
    CountSplits(lines, 0, j + 1, e);
    NothingCounted(lines, j + 1, e);
  }

  // ---------------------------------------------------------------
  // Offsets and references
  // ---------------------------------------------------------------

  /** A load with offset v written as a number, or as a sum of two, decodes to v exactly if v fits. */
  lemma WrittenOffset(labels: Labels, base: int, offset: int,
                      op: Assemblers.LoadOp, rd: Isa.RegIndex, rs1: Isa.RegIndex)
    ensures ResolveCalc(labels, Literal(base)) == Some(base)
    ensures ResolveCalc(labels, Sum(base, offset)) == Some(base + offset)
    ensures var v := base + offset;
      var w := Assemblers.IWord(0x03, Assemblers.LoadFunct3(op), rd, rs1, v, false);
      w < 0x1_0000_0000 && (Isa.Decode(w) == AsmRoundTrip.LoadInstr(op, rd, rs1, v) <==> -2048 <= v <= 2047)
  {
    hide Isa.Decode, Assemblers.IWord, AsmRoundTrip.LoadInstr;
    AsmRoundTrip.LoadRoundTrip(op, rd, rs1, base + offset);
    RegisterNumber(rd);
    RegisterNumber(rs1);
  }

  /** @Label(x0) reads the first line after the label, exactly if its byte address is below 2048. */
  lemma LabelReference(lines: seq<Line>, j: nat, e: nat, op: Assemblers.LoadOp, rd: Isa.RegIndex) returns (addr: nat)
    requires Sectioned(lines) && j < e < |lines| && lines[j].Label? && Emits(lines[e])
    requires forall m :: j < m < e ==> !Emits(lines[m]) && !lines[m].Label?
    ensures Program(lines).Some? && Placed(e, addr) in Program(lines).value
    ensures ResolveCalc(LabelMap(lines, |lines|), Ref(lines[j].name)) == Some(4 * addr)
    ensures var w := Assemblers.IWord(0x03, Assemblers.LoadFunct3(op), rd, 0, 4 * addr, false);
      && w < 0x1_0000_0000
      && (Isa.Decode(w) == AsmRoundTrip.LoadInstr(op, rd, 0, 4 * addr) <==> 4 * addr <= 2047)
  {
    hide *;
    NothingCounted(lines, j + 1, e);
    addr := DataReference(lines, j, e, op, rd);
    ReferenceResolves(lines, j, 0);
    RefIsRefPlus(LabelMap(lines, |lines|), lines[j].name);
  }

  lemma RefIsRefPlus(labels: Labels, x: string)
    ensures ResolveCalc(labels, Ref(x)) == Some(4 * Lookup(labels, x))
    ensures ResolveCalc(labels, RefPlus(x, 0)).Some? ==>
              ResolveCalc(labels, RefPlus(x, 0)) == ResolveCalc(labels, Ref(x))
    ensures x !in labels ==> forall n: nat :: ResolveCalc(labels, RefPlus(x, n)) == None
  {
  }

  /** The word a data or reference line puts into memory: a reference, its label's byte address. */
  function StoredWord(labels: Labels, l: Line): nat
    requires l.Data? || (l.AddrRef? && l.ref in labels)
  {
    match l
    case Data(value) => value
    case AddrRef(ref) => 4 * labels[ref]
  }

  /** A reference line holds the byte address of the first line after its label, as a vector should. */
  lemma ReferenceLineHolds(lines: seq<Line>, r: nat, j: nat, e: nat) returns (addr: nat)
    requires Sectioned(lines) && j < e < |lines| && lines[j].Label? && Emits(lines[e])
    requires forall m :: j < m < e ==> !Emits(lines[m]) && !lines[m].Label?
    requires r < |lines| && lines[r].AddrRef? && lines[r].ref == lines[j].name
    ensures Program(lines).Some? && Placed(e, addr) in Program(lines).value
    ensures lines[r].ref in LabelMap(lines, |lines|) && StoredWord(LabelMap(lines, |lines|), lines[r]) == 4 * addr
  {
    addr := LabelReference(lines, j, e, Assemblers.Lw, 0);
    hide LabelMap, Program;
    ReferenceResolves(lines, j, 0);
  }

  /** A branch to a name that is no label is assembled all the same, as one to address zero. */
  lemma UnknownTarget(labels: Labels, x: string, c: Isa.Cond, rs1: Isa.RegIndex, rs2: Isa.RegIndex,
                      addr: nat, a: Isa.Arch)
    requires x !in labels && 4 * addr <= 4096 && a.pc == 4 * addr && Isa.Holds(c, a.regs[rs1], a.regs[rs2])
    ensures var w := Assemblers.BWord(c, rs1, rs2, Delta(Lookup(labels, x), addr));
      w < 0x1_0000_0000 && Isa.Execute(a, Isa.Decode(w)).pc == 0
  {
    hide Isa.Decode, Isa.Execute, Isa.Holds, Assemblers.BWord;
    BranchLands(c, rs1, rs2, 0, addr, a);
  }
}
