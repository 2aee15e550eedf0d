/** The two passes of the assembler over tokenised lines: the first collects label addresses, the
    second cuts the source into sections and gives every emitted line its word address. */
module AsmPasses {
  import opened Bits
  import Assemblers
  import Isa

  datatype Option<T> = None | Some(value: T)

  /** A tokenised line.  `Spaces` is a line of spaces only; a label may carry an address, in bytes
      when `dollar` is set and in words otherwise. */
  datatype Line =
    | Blank | Spaces | Comment
    | Label(name: string, dollar: bool, addr: Option<nat>)
    | Data(value: nat)
    | AddrRef(ref: string)
    | Instruction(text: string)

  type Labels = map<string, nat>

  predicate Emits(l: Line) {
    l.Data? || l.AddrRef? || l.Instruction?
  }

  // ---------------------------------------------------------------
  // First pass
  // ---------------------------------------------------------------

  /** A label without an address takes the running pc, also when it is marked as a byte address. */
  function LabelAddress(l: Line, pc: nat): nat
    requires l.Label?
  {
    var a := if l.addr.Some? then l.addr.value else pc;
    if l.dollar then a / 4 else a
  }

  /** The running word address before line n. */
  function Pc(lines: seq<Line>, n: nat): nat
    requires n <= |lines|
  {
    if n == 0 then 0
    else
      var pc := Pc(lines, n - 1);
      match lines[n - 1]
      case Blank | Comment => pc
      case Label(_, _, _) => LabelAddress(lines[n - 1], pc)
      case _ => pc + 1
  }

  function LabelNames(lines: seq<Line>, n: nat): seq<string>
    requires n <= |lines|
  {
    if n == 0 then []
    else LabelNames(lines, n - 1) + (if lines[n - 1].Label? then [lines[n - 1].name] else [])
  }

  function LabelMap(lines: seq<Line>, n: nat): Labels
    requires n <= |lines|
  {
    if n == 0 then map[]
    else if lines[n - 1].Label? then LabelMap(lines, n - 1)[lines[n - 1].name := Pc(lines, n)]
    else LabelMap(lines, n - 1)
  }

  method FindLabels(lines: seq<Line>) returns (labels: Labels, labelNames: seq<string>)
    ensures labels == LabelMap(lines, |lines|) && labelNames == LabelNames(lines, |lines|)
  {
    labels, labelNames := map[], [];
    var pc := 0;
    for i := 0 to |lines|
      invariant pc == Pc(lines, i)
      invariant labels == LabelMap(lines, i) && labelNames == LabelNames(lines, i)
    {
      match lines[i] {
        case Blank =>
        case Comment =>
        case Label(name, dollar, addr) =>
          var value := match addr case None => pc case Some(a) => a;
          if dollar {
            value := value / 4;
          }
          pc := value;
          labels := labels[name := value];
          labelNames := labelNames + [name];
        case Spaces => pc := pc + 1;
        case Data(_) => pc := pc + 1;
        case AddrRef(_) => pc := pc + 1;
        case Instruction(_) => pc := pc + 1;
      }
    }
  }

  // ---------------------------------------------------------------
  // Second pass
  // ---------------------------------------------------------------

  /** Line `index` placed at word address `addr`. */
  datatype Placed = Placed(index: nat, addr: nat)

  datatype Section = Failed | Section(lines: seq<Placed>, next: nat)

  /** One section, scanned from line i with its pc at `pc`: it skips its own label and stops after the
      next section's.  Any other label line is taken for an instruction. */
  function Scan(lines: seq<Line>, i: nat, pc: nat, labels: Labels, start: string, end: string): (s: Section)
    requires i <= |lines|
    ensures s.Section? ==> i <= s.next <= |lines|
    decreases |lines| - i
  {
    if i == |lines| then Section([], i)
    else
      match lines[i]
      case Blank | Comment | Spaces => Scan(lines, i + 1, pc, labels, start, end)
      case Label(name, _, _) =>
        if name != "" && name == start then Scan(lines, i + 1, pc, labels, start, end)
        else if name != "" && name == end then Section([], i + 1)
        else Place(i, pc, Scan(lines, i + 1, pc + 1, labels, start, end))
      case AddrRef(ref) =>
        if ref !in labels then Failed else Place(i, pc, Scan(lines, i + 1, pc + 1, labels, start, end))
      case _ => Place(i, pc, Scan(lines, i + 1, pc + 1, labels, start, end))
  }

  function Place(i: nat, pc: nat, rest: Section): Section {
    if rest.Failed? then Failed else Section([Placed(i, pc)] + rest.lines, rest.next)
  }

  /** What the scan adds to what it has collected so far. */
  function Extend(done: seq<Placed>, s: Section): Section {
    if s.Failed? then Failed else Section(done + s.lines, s.next)
  }

  method ProcessSection(lines: seq<Line>, from: nat, labels: Labels, startLabel: string, endLabel: string)
    returns (sect: Section)
    requires from <= |lines| && startLabel in labels
    ensures sect == Scan(lines, from, labels[startLabel], labels, startLabel, endLabel)
  {
    var pc := labels[startLabel];
    var done: seq<Placed> := [];
    var i := from;
    ghost var whole := Scan(lines, from, pc, labels, startLabel, endLabel);
    while i < |lines|
      invariant from <= i <= |lines|
      invariant whole == Extend(done, Scan(lines, i, pc, labels, startLabel, endLabel))
    {
      var emits := false;
      match lines[i] {
        case Blank =>
        case Comment =>
        case Spaces =>
        case Label(name, _, _) =>
          if name != "" && name == startLabel {
          } else if name != "" && name == endLabel {
            return Section(done, i + 1);
          } else {
            emits := true;
          }
        case AddrRef(ref) =>
          if ref !in labels {
            return Failed;
          }
          emits := true;
        case Data(_) => emits := true;
        case Instruction(_) => emits := true;
      }
      if emits {
        Regroup(done, Placed(i, pc), Scan(lines, i + 1, pc + 1, labels, startLabel, endLabel));
        done := done + [Placed(i, pc)];
        pc := pc + 1;
      }
      i := i + 1;
    }
    sect := Section(done, i);
  }

  lemma Regroup(done: seq<Placed>, p: Placed, s: Section)
    ensures Extend(done, Place(p.index, p.addr, s)) == Extend(done + [p], s)
  {
    if s.Section? {
      assert done + ([p] + s.lines) == (done + [p]) + s.lines;
    }
  }

  /** All sections from section k on. */
  function Sections(lines: seq<Line>, i: nat, labels: Labels, names: seq<string>, k: nat): Option<seq<Placed>>
    requires i <= |lines| && k < |names| && forall n :: n in names ==> n in labels
    decreases |names| - k
  {
    var last := k == |names| - 1;
    var s := Scan(lines, i, labels[names[k]], labels, names[k], if last then "" else names[k + 1]);
    if s.Failed? then None
    else if last then Some(s.lines)
    else
      var rest := Sections(lines, s.next, labels, names, k + 1);
      if rest.None? then None else Some(s.lines + rest.value)
  }

  lemma {:induction false} NamesMapped(lines: seq<Line>, n: nat)
    requires n <= |lines|
    ensures forall x :: x in LabelNames(lines, n) ==> x in LabelMap(lines, n)
  {
    if n == 0 {
    } else {
      NamesMapped(lines, n - 1);
    }
  }

  /** The addresses of a whole source; none if it has no label or refers to an unknown one. */
  function Program(lines: seq<Line>): Option<seq<Placed>> {
    var names := LabelNames(lines, |lines|);
    NamesMapped(lines, |lines|);
    if names == [] then None else Sections(lines, 0, LabelMap(lines, |lines|), names, 0)
  }

  method Assemble(lines: seq<Line>) returns (placed: Option<seq<Placed>>)
    ensures placed == Program(lines)
  {
    var labels, labelNames := FindLabels(lines);
    NamesMapped(lines, |lines|);
    hide LabelNames, LabelMap, Scan;
    if labelNames == [] {
      return None;
    }
    assert Program(lines) == Sections(lines, 0, labels, labelNames, 0);
    hide Program;
    var done: seq<Placed> := [];
    var from: nat := 0;
    var k: nat := 0;
    EmptyPrefix(Sections(lines, 0, labels, labelNames, 0));
    while k < |labelNames| - 1
      invariant 0 <= k < |labelNames| && from <= |lines|
      invariant Program(lines) == Prefixed(done, Sections(lines, from, labels, labelNames, k))
    {
      var sect := ProcessSection(lines, from, labels, labelNames[k], labelNames[k + 1]);
      if sect.Failed? {
        return None;
      }
      ghost var rest := Sections(lines, sect.next, labels, labelNames, k + 1);
      if rest.Some? {
        assert done + (sect.lines + rest.value) == (done + sect.lines) + rest.value;
      }
      done := done + sect.lines;
      from := sect.next;
      k := k + 1;
    }
    var sect := ProcessSection(lines, from, labels, labelNames[k], "");
    if sect.Failed? {
      return None;
    }
    placed := Some(done + sect.lines);
  }

  lemma EmptyPrefix(x: Option<seq<Placed>>)
    ensures Prefixed([], x) == x
  {
    if x.Some? {
      assert [] + x.value == x.value;
    }
  }

  function Prefixed(done: seq<Placed>, rest: Option<seq<Placed>>): Option<seq<Placed>> {
    if rest.None? then None else Some(done + rest.value)
  }

  // ---------------------------------------------------------------
  // Operands that name labels
  // ---------------------------------------------------------------

  /** The offset the assembler computes for a target, both word addresses turned into bytes. */
  function Delta(target: nat, addr: nat): int {
    4 * target - 4 * addr
  }

  /** A label as a branch or jal finds it; an unknown one reads as address zero. */
  function Lookup(labels: Labels, target: string): nat {
    if target in labels then labels[target] else 0
  }

  /** A branch line placed at word address `addr`. */
  method AssembleBranch(labels: Labels, target: string, addr: nat, c: Isa.Cond, rs1: Isa.RegIndex, rs2: Isa.RegIndex)
    returns (code: nat)
    requires addr < 0x1000_0000_0000_0000 && Lookup(labels, target) < 0x1000_0000_0000_0000
    ensures var d := Delta(Lookup(labels, target), addr);
      -0x8000_0000 < d < 0x8000_0000 ==> code == Assemblers.BWord(c, rs1, rs2, d)
  {
    hide Assemblers.BWord;
    var pcInt := 4 * addr;
    var targetInt := 4 * (if target in labels then labels[target] else 0);
    code := Assemblers.BtypeBranch(c, rs1, rs2, targetInt - pcInt);
  }

  method AssembleJal(labels: Labels, target: string, addr: nat, rd: Isa.RegIndex) returns (code: nat)
    requires addr < 0x1000_0000_0000_0000 && Lookup(labels, target) < 0x1000_0000_0000_0000
    ensures var d := Delta(Lookup(labels, target), addr);
      -0x8000_0000 < d < 0x8000_0000 ==> code == Assemblers.JWord(rd, d)
  {
    hide Assemblers.JWord;
    var pcInt := 4 * addr;
    var targetInt := 4 * (if target in labels then labels[target] else 0);
    code := Assemblers.Jal(rd, targetInt - pcInt);
  }

  /** The offset of a load or store: a number, a sum, or a label with an optional word offset. */
  datatype Offset = Literal(v: int) | Sum(base: int, offset: int) | Ref(name: string) | RefPlus(name: string, n: nat)

  /** The byte offset it stands for.  An unknown label reads as zero alone and fails in a sum. */
  function ResolveCalc(labels: Labels, o: Offset): Option<int> {
    match o
    case Literal(v) => Some(v)
    case Sum(base, offset) => Some(base + offset)
    case Ref(name) => Some(4 * Lookup(labels, name))
    case RefPlus(name, n) => if name in labels then Some(4 * (labels[name] + n)) else None
  }
}
