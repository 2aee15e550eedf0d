/** Where the second pass puts every line, for any source at all; and what the first pass, the
    branches and the data references make of it. */
module AsmPlacement {
  import opened Bits
  import opened AsmPasses
  import Assemblers
  import AsmRoundTrip
  import Encoding
  import Isa

  // ---------------------------------------------------------------
  // The second pass as one walk over the lines
  // ---------------------------------------------------------------

  /** The second pass before a line: the section's label, the next word address, whether the first
      label has been read, and whether the section can no longer end. */
  datatype Cursor = Cursor(section: string, addr: nat, seen: bool, stuck: bool)

  /** The line is placed.  A label line is, as if it were an instruction, when its name is empty or
      the section it should end cannot end. */
  predicate Takes(l: Line, c: Cursor) {
    Emits(l) || (l.Label? && (l.name == "" || (c.stuck && l.name != c.section)))
  }

  /** A label after the first opens its own section at the address the map holds for it; if it is the
      section's own name again, or empty, the section runs to the end of the source. */
  function Next(l: Line, c: Cursor, labels: Labels): Cursor {
    var d := if Takes(l, c) then c.(addr := c.addr + 1) else c;
    if !l.Label? then d
    else if !c.seen then d.(seen := true)
    else if c.stuck then d
    else if l.name == "" || l.name == c.section then d.(stuck := true)
    else Cursor(l.name, Lookup(labels, l.name), true, false)
  }

  function Start(lines: seq<Line>): Cursor {
    var names := LabelNames(lines, |lines|);
    if names == [] then Cursor("", 0, false, false)
    else Cursor(names[0], Lookup(LabelMap(lines, |lines|), names[0]), false, false)
  }

  /** The cursor before line n. */
  function At(lines: seq<Line>, n: nat): Cursor
    requires n <= |lines|
  {
    if n == 0 then Start(lines) else Next(lines[n - 1], At(lines, n - 1), LabelMap(lines, |lines|))
  }

  /** What the walk places from line i on. */
  function Walk(lines: seq<Line>, i: nat, c: Cursor, labels: Labels): seq<Placed>
    requires i <= |lines|
    decreases |lines| - i
  {
    if i == |lines| then []
    else (if Takes(lines[i], c) then [Placed(i, c.addr)] else [])
         + Walk(lines, i + 1, Next(lines[i], c, labels), labels)
  }

  /** Every reference from line i on names a label. */
  predicate Resolved(lines: seq<Line>, i: nat, labels: Labels)
    requires i <= |lines|
  {
    forall m :: i <= m < |lines| && lines[m].AddrRef? ==> lines[m].ref in labels
  }

  function NextLabel(lines: seq<Line>, i: nat): (j: nat)
    requires i <= |lines|
    ensures i <= j <= |lines|
    ensures forall m :: i <= m < j ==> !lines[m].Label?
    ensures j < |lines| ==> lines[j].Label?
    decreases |lines| - i
  {
    if i == |lines| || lines[i].Label? then i else NextLabel(lines, i + 1)
  }

  /** The label line a section scanned from line i is to end at. */
  function EndLine(lines: seq<Line>, i: nat, seen: bool): (j: nat)
    requires i <= |lines|
    ensures i <= j <= |lines| && (j < |lines| ==> lines[j].Label?)
  {
    var j := NextLabel(lines, i);
    if seen || j == |lines| then j else NextLabel(lines, j + 1)
  }

  /** A section that cannot end runs to the end of the source. */
  lemma {:induction false} ScanStuck(lines: seq<Line>, i: nat, c: Cursor, labels: Labels, end: string)
    requires i <= |lines| && Resolved(lines, i, labels)
    requires c.seen && c.stuck && (end == "" || end == c.section)
    ensures Scan(lines, i, c.addr, labels, c.section, end) == Section(Walk(lines, i, c, labels), |lines|)
    decreases |lines| - i
  {
    if i == |lines| {
    } else {
      ScanStuck(lines, i + 1, Next(lines[i], c, labels), labels, end);
    }
  }

  /** The scan of one section is the walk up to the label that ends it, or to the end of the source. */
  predicate ScanWalks(lines: seq<Line>, i: nat, c: Cursor, labels: Labels, end: string)
    requires i <= |lines|
  {
    var s := Scan(lines, i, c.addr, labels, c.section, end);
    var j := EndLine(lines, i, c.seen);
    if j < |lines| && end != "" && end != c.section then
      && s.Section? && s.next == j + 1
      && Walk(lines, i, c, labels)
         == s.lines + Walk(lines, j + 1, Cursor(end, Lookup(labels, end), true, false), labels)
    else s == Section(Walk(lines, i, c, labels), |lines|)
  }

  lemma {:induction false} ScanFollowsWalk(lines: seq<Line>, i: nat, c: Cursor, labels: Labels, end: string)
    requires i <= |lines| && Resolved(lines, i, labels) && !c.stuck
    requires var j := EndLine(lines, i, c.seen); if j < |lines| then end == lines[j].name else end == ""
    requires !c.seen ==> NextLabel(lines, i) < |lines| && lines[NextLabel(lines, i)].name == c.section
    ensures ScanWalks(lines, i, c, labels, end)
    decreases |lines| - i
  {
    if i == |lines| {
    } else if lines[i].Label? && c.seen {
      LabelFollows(lines, i, c, labels, end);
    } else {
      var d := Next(lines[i], c, labels);
      ScanContinues(lines, i, c, labels, end);
      EndLineLater(lines, i, c, labels);
      ScanFollowsWalk(lines, i + 1, d, labels, end);
      WalkFrom(lines, i, c, labels);
      hide *;
      WalksFromNext(lines, i, c, labels, end);
    }
  }

  /** A label after the first ends the section, or makes sure it never ends. */
  lemma LabelFollows(lines: seq<Line>, i: nat, c: Cursor, labels: Labels, end: string)
    requires i < |lines| && Resolved(lines, i, labels) && !c.stuck && c.seen
    requires lines[i].Label? && end == lines[i].name
    ensures ScanWalks(lines, i, c, labels, end)
  {
    WalkFrom(lines, i, c, labels);
    if end == "" || end == c.section {
      ScanStuck(lines, i + 1, Next(lines[i], c, labels), labels, end);
    } else {
      assert [] + Walk(lines, i + 1, Next(lines[i], c, labels), labels)
             == Walk(lines, i + 1, Next(lines[i], c, labels), labels);
    }
  }

  /** A line that does not end the section is placed or passed over, and the scan goes on. */
  lemma ScanContinues(lines: seq<Line>, i: nat, c: Cursor, labels: Labels, end: string)
    requires i < |lines| && Resolved(lines, i, labels) && !c.stuck
    requires lines[i].Label? ==> !c.seen && lines[i].name == c.section
    ensures var d := Next(lines[i], c, labels);
      var rest := Scan(lines, i + 1, d.addr, labels, d.section, end);
      && d.section == c.section && !d.stuck && d.seen == (c.seen || lines[i].Label?)
      && Scan(lines, i, c.addr, labels, c.section, end) == if Takes(lines[i], c) then Place(i, c.addr, rest) else rest
  {
  }

  lemma EndLineLater(lines: seq<Line>, i: nat, c: Cursor, labels: Labels)
    requires i < |lines| && (lines[i].Label? ==> !c.seen)
    ensures EndLine(lines, i + 1, c.seen || lines[i].Label?) == EndLine(lines, i, c.seen)
    ensures !lines[i].Label? ==> NextLabel(lines, i + 1) == NextLabel(lines, i)
    ensures lines[i].Label? ==> NextLabel(lines, i) == i
  {
  }

  lemma FirstThen<T>(x: T, s: seq<T>, t: seq<T>)
    ensures [x] + (s + t) == ([x] + s) + t
  {
  }

  lemma WalksFromNext(lines: seq<Line>, i: nat, c: Cursor, labels: Labels, end: string)
    requires i < |lines|
    requires var d := Next(lines[i], c, labels);
      && ScanWalks(lines, i + 1, d, labels, end) && EndLine(lines, i + 1, d.seen) == EndLine(lines, i, c.seen)
      && d.section == c.section
      && var rest := Scan(lines, i + 1, d.addr, labels, d.section, end);
         var walk := Walk(lines, i + 1, d, labels);
         && Scan(lines, i, c.addr, labels, c.section, end)
            == (if Takes(lines[i], c) then Place(i, c.addr, rest) else rest)
         && Walk(lines, i, c, labels) == (if Takes(lines[i], c) then [Placed(i, c.addr)] + walk else walk)
    ensures ScanWalks(lines, i, c, labels, end)
  {
    hide Scan, Walk, Takes, Next, EndLine;
    var d := Next(lines[i], c, labels);
    var rest := Scan(lines, i + 1, d.addr, labels, d.section, end);
    var j := EndLine(lines, i, c.seen);
    if Takes(lines[i], c) && j < |lines| && end != "" && end != c.section {
      var after := Walk(lines, j + 1, Cursor(end, Lookup(labels, end), true, false), labels);
      FirstThen(Placed(i, c.addr), rest.lines, after);
    }
  }

  lemma WalkFrom(lines: seq<Line>, i: nat, c: Cursor, labels: Labels)
    requires i < |lines|
    ensures var rest := Walk(lines, i + 1, Next(lines[i], c, labels), labels);
      Walk(lines, i, c, labels) == if Takes(lines[i], c) then [Placed(i, c.addr)] + rest else rest
  {
    hide Takes, Next;
    var rest := Walk(lines, i + 1, Next(lines[i], c, labels), labels);
    assert [] + rest == rest;
  }

  // ---------------------------------------------------------------
  // All sections
  // ---------------------------------------------------------------

  lemma {:induction false} NamesGrow(lines: seq<Line>, i: nat, j: nat)
    requires i <= j <= |lines|
    ensures LabelNames(lines, i) <= LabelNames(lines, j)
    ensures (forall m :: i <= m < j ==> !lines[m].Label?) ==> LabelNames(lines, i) == LabelNames(lines, j)
    decreases j - i
  {
    if i == j {
    } else {
      NamesGrow(lines, i, j - 1);
    }
  }

  /** The next label line carries the next name of the list. */
  lemma NextName(lines: seq<Line>, i: nat, j: nat)
    requires i <= j < |lines| && lines[j].Label? && LabelNames(lines, i) == LabelNames(lines, j)
    ensures var names, k := LabelNames(lines, |lines|), |LabelNames(lines, i)|;
      k < |names| && names[k] == lines[j].name && |LabelNames(lines, j + 1)| == k + 1
  {
    NamesGrow(lines, j + 1, |lines|);
  }

  lemma NothingAfter(s: seq<Placed>)
    ensures s + [] == s
  {
  }

  lemma {:induction false} SectionsAtEnd(lines: seq<Line>, labels: Labels, names: seq<string>, k: nat)
    requires k < |names| && forall n :: n in names ==> n in labels
    ensures Sections(lines, |lines|, labels, names, k) == Some([])
    decreases |names| - k
  {
    if k == |names| - 1 {
    } else {
      SectionsAtEnd(lines, labels, names, k + 1);
      NothingAfter([]);
    }
  }

  /** The name at which section k is told to end. */
  function EndName(names: seq<string>, k: nat): string
    requires k < |names|
  {
    if k == |names| - 1 then "" else names[k + 1]
  }

  /** The label line that should end section k is the one with its end name. */
  lemma EndsAtName(lines: seq<Line>, i: nat, k: nat, seen: bool)
    requires i <= |lines| && k < |LabelNames(lines, |lines|)|
    requires if seen then |LabelNames(lines, i)| == k + 1 else k == 0 && LabelNames(lines, i) == []
    ensures var names, j := LabelNames(lines, |lines|), EndLine(lines, i, seen);
      && (if j < |lines| then k < |names| - 1 && EndName(names, k) == lines[j].name
                          && |LabelNames(lines, j + 1)| == k + 2
          else k == |names| - 1)
      && (!seen ==> NextLabel(lines, i) < |lines| && lines[NextLabel(lines, i)].name == names[0])
  {
    var first := NextLabel(lines, i);
    NamesGrow(lines, i, first);
    if first < |lines| {
      NextName(lines, i, first);
      if !seen {
        var j := NextLabel(lines, first + 1);
        NamesGrow(lines, first + 1, j);
        if j < |lines| {
          NextName(lines, first + 1, j);
        }
      }
    }
  }

  lemma {:induction false} SectionsFollowWalk(lines: seq<Line>, i: nat, k: nat, c: Cursor)
    requires i <= |lines| && k < |LabelNames(lines, |lines|)| && !c.stuck
    requires var labels, names := LabelMap(lines, |lines|), LabelNames(lines, |lines|);
      && Resolved(lines, i, labels)
      && c.section == names[k] && c.addr == Lookup(labels, names[k])
      && if c.seen then |LabelNames(lines, i)| == k + 1 else k == 0 && LabelNames(lines, i) == []
    ensures var labels, names := LabelMap(lines, |lines|), LabelNames(lines, |lines|);
      && (forall n :: n in names ==> n in labels)
      && Sections(lines, i, labels, names, k) == Some(Walk(lines, i, c, labels))
    decreases |lines| - i, |LabelNames(lines, |lines|)| - k
  {
    hide LabelNames, LabelMap, Walk, Scan, NextLabel, EndLine, Next;
    var labels, names := LabelMap(lines, |lines|), LabelNames(lines, |lines|);
    NamesMapped(lines, |lines|);
    EndsAtName(lines, i, k, c.seen);
    var j, end := EndLine(lines, i, c.seen), EndName(names, k);
    ScanFollowsWalk(lines, i, c, labels, end);
    if j < |lines| && end != "" && end != c.section {
      SectionsFollowWalk(lines, j + 1, k + 1, Cursor(end, Lookup(labels, end), true, false));
    } else if k < |names| - 1 {
      SectionsAtEnd(lines, labels, names, k + 1);
      assert Walk(lines, i, c, labels) + [] == Walk(lines, i, c, labels);
    }
  }

  // ---------------------------------------------------------------
  // When there is a program
  // ---------------------------------------------------------------

  lemma {:induction false} ScanReaches(lines: seq<Line>, i: nat, pc: nat, labels: Labels, start: string, end: string,
                                    m: nat)
    requires i <= m < |lines| && lines[m].AddrRef? && lines[m].ref !in labels
    ensures var s := Scan(lines, i, pc, labels, start, end); s.Failed? || s.next <= m
    decreases m - i
  {
    if i == m {
    } else {
      ScanReaches(lines, i + 1, pc, labels, start, end, m);
      ScanReaches(lines, i + 1, pc + 1, labels, start, end, m);
    }
  }

  lemma {:induction false} LastScanEnds(lines: seq<Line>, i: nat, pc: nat, labels: Labels, start: string)
    requires i <= |lines|
    ensures var s := Scan(lines, i, pc, labels, start, ""); s.Section? ==> s.next == |lines|
    decreases |lines| - i
  {
    if i == |lines| {
    } else {
      LastScanEnds(lines, i + 1, pc, labels, start);
      LastScanEnds(lines, i + 1, pc + 1, labels, start);
    }
  }

  lemma {:induction false} UnknownReferenceFails(lines: seq<Line>, i: nat, labels: Labels, names: seq<string>,
                                              k: nat, m: nat)
    requires i <= m < |lines| && lines[m].AddrRef? && lines[m].ref !in labels
    requires k < |names| && forall n :: n in names ==> n in labels
    ensures Sections(lines, i, labels, names, k) == None
    decreases |names| - k
  {
    hide Scan;
    ScanReaches(lines, i, labels[names[k]], labels, names[k], EndName(names, k), m);
    if k == |names| - 1 {
      LastScanEnds(lines, i, labels[names[k]], labels, names[k]);
    } else {
      var s := Scan(lines, i, labels[names[k]], labels, names[k], names[k + 1]);
      if s.Section? {
        UnknownReferenceFails(lines, s.next, labels, names, k + 1, m);
      }
    }
  }

  /** A source assembles exactly if it has a label and every reference names one; then the second pass
      places what the walk places. */
  lemma ProgramWalks(lines: seq<Line>)
    ensures Program(lines).Some? <==>
            LabelNames(lines, |lines|) != [] && Resolved(lines, 0, LabelMap(lines, |lines|))
    ensures Program(lines).Some? ==> Program(lines).value == Walk(lines, 0, Start(lines), LabelMap(lines, |lines|))
  {
    var labels, names := LabelMap(lines, |lines|), LabelNames(lines, |lines|);
    NamesMapped(lines, |lines|);
    assert LabelNames(lines, 0) == [];
    hide LabelNames, LabelMap, Sections, Walk;
    if names != [] {
      if Resolved(lines, 0, labels) {
        SectionsFollowWalk(lines, 0, 0, Start(lines));
      } else {
        var m: nat :| m < |lines| && lines[m].AddrRef? && lines[m].ref !in labels;
        UnknownReferenceFails(lines, 0, labels, names, 0, m);
      }
    }
  }

  // ---------------------------------------------------------------
  // Where each line goes
  // ---------------------------------------------------------------

  lemma {:induction false} WalkHas(lines: seq<Line>, i: nat, p: Placed)
    requires i <= |lines|
    ensures p in Walk(lines, i, At(lines, i), LabelMap(lines, |lines|)) <==>
            i <= p.index < |lines| && Takes(lines[p.index], At(lines, p.index)) && p.addr == At(lines, p.index).addr
    decreases |lines| - i
  {
    if i == |lines| {
    } else {
      assert At(lines, i + 1) == Next(lines[i], At(lines, i), LabelMap(lines, |lines|));
      hide Takes, Next, At, LabelMap;
      WalkFrom(lines, i, At(lines, i), LabelMap(lines, |lines|));
      WalkHas(lines, i + 1, p);
    }
  }

  /** For any source that assembles: the lines placed are exactly those the walk takes, each at the
      walk's address. */
  lemma PlacedExactly(lines: seq<Line>, p: Placed)
    requires Program(lines).Some?
    ensures p in Program(lines).value <==>
            p.index < |lines| && Takes(lines[p.index], At(lines, p.index)) && p.addr == At(lines, p.index).addr
  {
    hide Program, Walk, Takes, LabelMap;
    ProgramWalks(lines);
    WalkHas(lines, 0, p);
  }

  /** Emitting lines of [i, n). */
  function Count(lines: seq<Line>, i: nat, n: nat): nat
    requires i <= n <= |lines|
  {
    if i == n then 0 else Count(lines, i, n - 1) + (if Emits(lines[n - 1]) then 1 else 0)
  }

  /** Two labels in a row with one name. */
  predicate Adjacent(names: seq<string>) {
    exists k :: 0 <= k < |names| - 1 && names[k] == names[k + 1]
  }

  predicate Named(lines: seq<Line>) {
    forall j :: 0 <= j < |lines| && lines[j].Label? ==> lines[j].name != ""
  }

  lemma AdjacentGrows(names: seq<string>, x: string)
    requires names != []
    ensures Adjacent(names + [x]) <==> Adjacent(names) || names[|names| - 1] == x
  {
    var more := names + [x];
    if Adjacent(names) {
      var k :| 0 <= k < |names| - 1 && names[k] == names[k + 1];
      assert more[k] == more[k + 1];
    } else if names[|names| - 1] == x {
      assert more[|names| - 1] == more[|names|];
    }
  }

  /** The section is the last label read, and it cannot end exactly if some label repeats the one
      before it. */
  predicate InState(c: Cursor, names: seq<string>, all: seq<string>)
    requires all != []
  {
    && (c.seen <==> names != [])
    && (c.stuck <==> Adjacent(names))
    && (names == [] ==> c.section == all[0])
    && (names != [] && !c.stuck ==> c.section == names[|names| - 1])
  }

  /** The state of the walk in the source's own terms. */
  lemma {:induction false} WalkState(lines: seq<Line>, n: nat)
    requires n <= |lines| && Named(lines) && LabelNames(lines, |lines|) != []
    ensures InState(At(lines, n), LabelNames(lines, n), LabelNames(lines, |lines|))
  {
    hide LabelNames, LabelMap, At, InState;
    if n == 0 {
      StartState(lines);
    } else {
      WalkState(lines, n - 1);
      WalkStateNext(lines, n - 1);
    }
  }

  lemma WalkStateNext(lines: seq<Line>, n: nat)
    requires n < |lines| && Named(lines) && LabelNames(lines, |lines|) != []
    requires InState(At(lines, n), LabelNames(lines, n), LabelNames(lines, |lines|))
    ensures InState(At(lines, n + 1), LabelNames(lines, n + 1), LabelNames(lines, |lines|))
  {
    NextIs(lines, n);
    NamesNext(lines, n);
    NamesGrow(lines, n + 1, |lines|);
    assert lines[n].Label? ==> lines[n].name != "";
    hide *;
    NextInState(lines[n], At(lines, n), LabelMap(lines, |lines|), LabelNames(lines, n), LabelNames(lines, |lines|));
  }

  lemma StartState(lines: seq<Line>)
    requires LabelNames(lines, |lines|) != []
    ensures InState(At(lines, 0), LabelNames(lines, 0), LabelNames(lines, |lines|))
  {
    hide LabelMap;
  }

  lemma NamesNext(lines: seq<Line>, n: nat)
    requires n < |lines|
    ensures LabelNames(lines, n + 1) ==
            if lines[n].Label? then LabelNames(lines, n) + [lines[n].name] else LabelNames(lines, n)
  {
    var names := LabelNames(lines, n);
    assert names + [] == names;
  }

  lemma NextInState(l: Line, c: Cursor, labels: Labels, names: seq<string>, all: seq<string>)
    requires all != [] && InState(c, names, all) && (l.Label? ==> l.name != "" && names + [l.name] <= all)
    ensures InState(Next(l, c, labels), if l.Label? then names + [l.name] else names, all)
  {
    hide Adjacent, Lookup;
    if l.Label? {
      if names == [] {
        NoneAdjacent(l.name);
        assert [] + [l.name] == [l.name];
      } else {
        AdjacentGrows(names, l.name);
      }
    }
  }

  lemma NextIs(lines: seq<Line>, n: nat)
    requires n < |lines|
    ensures At(lines, n + 1) == Next(lines[n], At(lines, n), LabelMap(lines, |lines|))
  {
  }

  lemma NoneAdjacent(x: string)
    ensures !Adjacent([]) && !Adjacent([x])
  {
  }

  /** A line of spaces moves the first pass's counter and not the second's. */
  lemma SpacesCountedOnce(lines: seq<Line>, n: nat)
    requires n < |lines| && lines[n].Spaces?
    ensures Pc(lines, n + 1) == Pc(lines, n) + 1 && At(lines, n + 1) == At(lines, n)
  {
  }

  /** Lines before the first label are placed from that label's address on, and the label itself does
      not set the counter back: up to the second label every line is displaced by their number. */
  lemma {:induction false} LeadingLinesShift(lines: seq<Line>, n: nat)
    requires n <= |lines| && Named(lines) && |LabelNames(lines, n)| <= 1 && LabelNames(lines, |lines|) != []
    ensures var labels, first := LabelMap(lines, |lines|), LabelNames(lines, |lines|)[0];
      && !At(lines, n).stuck && At(lines, n).addr == Lookup(labels, first) + Count(lines, 0, n)
      && (n < |lines| ==> (Takes(lines[n], At(lines, n)) <==> Emits(lines[n])))
  {
    hide LabelMap;
    WalkState(lines, n);
    if n == 0 {
    } else {
      WalkState(lines, n - 1);
      NamesGrow(lines, n - 1, n);
      LeadingLinesShift(lines, n - 1);
    }
  }

  /** After any later label, if no label so far repeats the one before it, lines are counted from the
      address the map holds for the name. */
  lemma {:induction false} SectionStartsAtMap(lines: seq<Line>, j: nat, n: nat)
    requires j < n <= |lines| && Named(lines) && lines[j].Label? && LabelNames(lines, j) != []
    requires !Adjacent(LabelNames(lines, j + 1)) && forall m :: j < m < n ==> !lines[m].Label?
    ensures var labels := LabelMap(lines, |lines|);
      && At(lines, n) == Cursor(lines[j].name, Lookup(labels, lines[j].name) + Count(lines, j + 1, n), true, false)
      && (n < |lines| ==> (Takes(lines[n], At(lines, n)) <==> Emits(lines[n])))
    decreases n
  {
    if n == j + 1 {
      NextIs(lines, j);
      NamesNext(lines, j);
      NamesGrow(lines, j, |lines|);
      assert lines[j].name != "";
      hide LabelNames, LabelMap, Named, At, Adjacent;
      WalkState(lines, j);
      AdjacentGrows(LabelNames(lines, j), lines[j].name);
    } else {
      hide LabelMap;
      SectionStartsAtMap(lines, j, n - 1);
    }
  }

  /** The map holds the address of the last label with the name. */
  lemma {:induction false} MapHoldsLast(lines: seq<Line>, l: nat, n: nat)
    requires l < n <= |lines| && lines[l].Label?
    requires forall m :: l < m < n && lines[m].Label? ==> lines[m].name != lines[l].name
    ensures lines[l].name in LabelMap(lines, n) && LabelMap(lines, n)[lines[l].name] == Pc(lines, l + 1)
    decreases n
  {
    if l == n - 1 {
    } else {
      MapHoldsLast(lines, l, n - 1);
    }
  }

  /** A label defined more than once: every section it opens is counted from the address of its last
      definition, wherever the others stand. */
  lemma RepeatedLabelUsesLast(lines: seq<Line>, j: nat, l: nat, n: nat)
    requires j < n <= |lines| && Named(lines) && lines[j].Label? && LabelNames(lines, j) != []
    requires !Adjacent(LabelNames(lines, j + 1)) && forall m :: j < m < n ==> !lines[m].Label?
    requires j <= l < |lines| && lines[l].Label? && lines[l].name == lines[j].name
    requires forall m :: l < m < |lines| && lines[m].Label? ==> lines[m].name != lines[l].name
    ensures At(lines, n).addr == Pc(lines, l + 1) + Count(lines, j + 1, n)
    ensures n < |lines| ==> (Takes(lines[n], At(lines, n)) <==> Emits(lines[n]))
  {
    hide At, Takes, Pc;
    SectionStartsAtMap(lines, j, n);
    MapHoldsLast(lines, l, |lines|);
  }

  /** What a section that cannot end places in [i, n): emitting lines and every other label. */
  function Swallowed(lines: seq<Line>, section: string, i: nat, n: nat): nat
    requires i <= n <= |lines|
  {
    if i == n then 0
    else
      var l := lines[n - 1];
      Swallowed(lines, section, i, n - 1) + (if Emits(l) || (l.Label? && l.name != section) then 1 else 0)
  }

  /** A label that repeats the one before it: its section goes on, never ends, and takes the label
      lines of all other names for instructions. */
  lemma {:induction false} RepeatedInARowSwallows(lines: seq<Line>, j: nat, n: nat)
    requires j < n <= |lines| && Named(lines) && lines[j].Label? && LabelNames(lines, j) != []
    requires !Adjacent(LabelNames(lines, j)) && lines[j].name == LabelNames(lines, j)[|LabelNames(lines, j)| - 1]
    ensures var x := lines[j].name;
      && At(lines, n) == Cursor(x, At(lines, j).addr + Swallowed(lines, x, j + 1, n), true, true)
      && (n < |lines| ==>
            (Takes(lines[n], At(lines, n)) <==> Emits(lines[n]) || (lines[n].Label? && lines[n].name != x)))
    decreases n
  {
    if n == j + 1 {
      NextIs(lines, j);
      NamesGrow(lines, j, |lines|);
      assert lines[j].name != "";
      hide LabelNames, LabelMap, Named, At, Adjacent;
      WalkState(lines, j);
    } else {
      hide LabelMap, LabelNames;
      RepeatedInARowSwallows(lines, j, n - 1);
    }
  }

  // ---------------------------------------------------------------
  // The passes against each other
  // ---------------------------------------------------------------

  predicate Distinct(names: seq<string>) {
    forall a, b :: 0 <= a < b < |names| ==> names[a] != names[b]
  }

  /** The source starts with a label, no label is empty or repeats the one before it, and every
      address reference names a label. */
  predicate Sectioned(lines: seq<Line>) {
    && LabelNames(lines, |lines|) != []
    && (forall n :: 0 <= n < |lines| && Emits(lines[n]) ==> LabelNames(lines, n) != [])
    && Named(lines) && !Adjacent(LabelNames(lines, |lines|)) && Resolved(lines, 0, LabelMap(lines, |lines|))
  }

  /** Besides, no name is defined twice. */
  predicate WellFormed(lines: seq<Line>) {
    Sectioned(lines) && Distinct(LabelNames(lines, |lines|))
  }

  /** Lines of spaces since the last label. */
  function Gap(lines: seq<Line>, n: nat): nat
    requires n <= |lines|
  {
    if n == 0 then 0
    else if lines[n - 1].Label? then 0
    else if lines[n - 1].Spaces? then Gap(lines, n - 1) + 1
    else Gap(lines, n - 1)
  }

  lemma AdjacentStays(lines: seq<Line>, n: nat)
    requires n <= |lines| && Adjacent(LabelNames(lines, n))
    ensures Adjacent(LabelNames(lines, |lines|))
  {
    NamesGrow(lines, n, |lines|);
    var names, all := LabelNames(lines, n), LabelNames(lines, |lines|);
    var k :| 0 <= k < |names| - 1 && names[k] == names[k + 1];
    assert all[k] == all[k + 1];
  }

  lemma {:induction false} NoneBeforeFirst(lines: seq<Line>, n: nat)
    requires n <= |lines| && Sectioned(lines) && LabelNames(lines, n) == []
    ensures Count(lines, 0, n) == 0
  {
    if n == 0 {
    } else {
      NamesGrow(lines, n - 1, n);
      NoneBeforeFirst(lines, n - 1);
    }
  }

  lemma {:induction false} CountSplits(lines: seq<Line>, i: nat, m: nat, n: nat)
    requires i <= m <= n <= |lines|
    ensures Count(lines, i, n) == Count(lines, i, m) + Count(lines, m, n)
    decreases n
  {
    if m == n {
    } else {
      CountSplits(lines, i, m, n - 1);
    }
  }

  lemma LabelCountsNothing(lines: seq<Line>, j: nat)
    requires j < |lines| && lines[j].Label?
    ensures Count(lines, j, j + 1) == 0
  {
  }

  lemma FirstLabelIs(lines: seq<Line>, j: nat)
    requires Sectioned(lines) && j < |lines| && lines[j].Label? && LabelNames(lines, j) == []
    ensures LabelNames(lines, |lines|) != [] && LabelNames(lines, |lines|)[0] == lines[j].name && Named(lines)
    ensures |LabelNames(lines, j + 1)| == 1
  {
    assert LabelNames(lines, 0) == [];
    hide LabelNames;
    NextName(lines, 0, j);
  }

  lemma AfterFirst(lines: seq<Line>, j: nat, n: nat)
    requires Sectioned(lines) && j < n <= |lines| && lines[j].Label? && forall m :: j < m < n ==> !lines[m].Label?
    requires LabelNames(lines, j) == []
    ensures At(lines, n).addr == Lookup(LabelMap(lines, |lines|), lines[j].name) + Count(lines, j + 1, n)
    ensures n < |lines| ==> (Takes(lines[n], At(lines, n)) <==> Emits(lines[n]))
  {
    hide *;
    FirstLabelIs(lines, j);
    NamesGrow(lines, j + 1, n);
    LeadingLinesShift(lines, n);
    NoneBeforeFirst(lines, j);
    CountSplits(lines, 0, j, n);
    CountSplits(lines, j, j + 1, n);
    LabelCountsNothing(lines, j);
  }

  lemma NotRepeated(lines: seq<Line>, n: nat)
    requires Sectioned(lines) && n <= |lines|
    ensures Named(lines) && !Adjacent(LabelNames(lines, n))
  {
    hide LabelNames, Adjacent;
    if Adjacent(LabelNames(lines, n)) {
      AdjacentStays(lines, n);
    }
  }

  /** Between a label and the next one lines are counted from the address the map holds for it. */
  lemma AfterLabel(lines: seq<Line>, j: nat, n: nat)
    requires Sectioned(lines) && j < n <= |lines| && lines[j].Label? && forall m :: j < m < n ==> !lines[m].Label?
    ensures At(lines, n).addr == Lookup(LabelMap(lines, |lines|), lines[j].name) + Count(lines, j + 1, n)
    ensures n < |lines| ==> (Takes(lines[n], At(lines, n)) <==> Emits(lines[n]))
  {
    hide *;
    if LabelNames(lines, j) == [] {
      AfterFirst(lines, j, n);
    } else {
      NotRepeated(lines, j + 1);
      SectionStartsAtMap(lines, j, n);
    }
  }

  /** The first pass counts the lines of spaces too. */
  lemma {:induction false} FirstPassCounts(lines: seq<Line>, j: nat, n: nat)
    requires j < n <= |lines| && lines[j].Label? && forall m :: j < m < n ==> !lines[m].Label?
    ensures Pc(lines, n) == Pc(lines, j + 1) + Count(lines, j + 1, n) + Gap(lines, n)
    decreases n
  {
    if n == j + 1 {
    } else {
      FirstPassCounts(lines, j, n - 1);
    }
  }

  /** With distinct names the map keeps the address each label was given. */
  lemma LabelKeepsAddress(lines: seq<Line>, j: nat)
    requires j < |lines| && lines[j].Label? && Distinct(LabelNames(lines, |lines|))
    ensures lines[j].name in LabelMap(lines, |lines|) && LabelMap(lines, |lines|)[lines[j].name] == Pc(lines, j + 1)
  {
    hide LabelMap, Pc;
    forall m | j < m < |lines| && lines[m].Label? ensures lines[m].name != lines[j].name {
      NamesGrow(lines, j + 1, m);
      NamesGrow(lines, m + 1, |lines|);
      var names := LabelNames(lines, |lines|);
      assert names[|LabelNames(lines, j)|] == lines[j].name && names[|LabelNames(lines, m)|] == lines[m].name;
    }
    MapHoldsLast(lines, j, |lines|);
  }

  lemma {:induction false} LastLabel(lines: seq<Line>, n: nat) returns (j: nat)
    requires n <= |lines| && LabelNames(lines, n) != []
    ensures j < n && lines[j].Label? && forall m :: j < m < n ==> !lines[m].Label?
  {
    if lines[n - 1].Label? {
      j := n - 1;
    } else {
      j := LastLabel(lines, n - 1);
    }
  }

  /** With distinct names and a leading label the second pass places exactly the data, reference and
      instruction lines, each at the first pass's address less the lines of spaces since its label. */
  lemma ProgramPlaces(lines: seq<Line>, p: Placed)
    requires WellFormed(lines)
    ensures Program(lines).Some?
    ensures p in Program(lines).value <==>
            p.index < |lines| && Emits(lines[p.index]) && p.addr == Pc(lines, p.index) - Gap(lines, p.index)
  {
    hide Program, At, Pc, Gap, LabelMap, Count, Distinct;
    ProgramWalks(lines);
    PlacedExactly(lines, p);
    var n := p.index;
    if n < |lines| {
      if LabelNames(lines, n) == [] {
        LeadingLinesShift(lines, n);
      } else {
        var j := LastLabel(lines, n);
        AfterLabel(lines, j, n);
        FirstPassCounts(lines, j, n);
        LabelKeepsAddress(lines, j);
      }
    }
  }

  /** Both passes give every line the same word address if and only if no emitting line has a line of
      spaces between its label and itself. */
  lemma PassesAgree(lines: seq<Line>)
    requires WellFormed(lines)
    ensures Program(lines).Some?
    ensures (forall p :: p in Program(lines).value ==> p.index < |lines| && p.addr == Pc(lines, p.index))
            <==> (forall n :: 0 <= n < |lines| && Emits(lines[n]) ==> Gap(lines, n) == 0)
  {
    hide Program, WellFormed, Gap, Emits;
    ProgramPlaces(lines, Placed(0, 0));
    var placed := Program(lines).value;
    forall p: Placed
      ensures p in placed <==>
              p.index < |lines| && Emits(lines[p.index]) && p.addr == Pc(lines, p.index) - Gap(lines, p.index)
    {
      ProgramPlaces(lines, p);
    }
    forall n: nat | n < |lines| && Emits(lines[n])
      ensures exists p :: p in placed && p.index == n && p.addr == Pc(lines, n) - Gap(lines, n)
    {
      GapBound(lines, n);
      assert Placed(n, Pc(lines, n) - Gap(lines, n)) in placed;
    }
  }

  lemma {:induction false} GapBound(lines: seq<Line>, n: nat)
    requires n <= |lines|
    ensures Gap(lines, n) <= Pc(lines, n)
  {
    if n == 0 {
    } else {
      GapBound(lines, n - 1);
    }
  }

  // ---------------------------------------------------------------
  // Branches land on labels
  // ---------------------------------------------------------------

  lemma SectionedAssembles(lines: seq<Line>, j: nat)
    requires Sectioned(lines) && j < |lines| && lines[j].Label?
    ensures Program(lines).Some?
  {
    hide Program;
    ProgramWalks(lines);
  }

  lemma TakenAfterLabel(lines: seq<Line>, j: nat, e: nat)
    requires Sectioned(lines) && j < e < |lines| && lines[j].Label? && Emits(lines[e])
    requires forall m :: j < m < e ==> !lines[m].Label?
    ensures Takes(lines[e], At(lines, e))
    ensures At(lines, e).addr == Lookup(LabelMap(lines, |lines|), lines[j].name) + Count(lines, j + 1, e)
  {
    hide *;
    AfterLabel(lines, j, e);
  }

  lemma PlacedIf(lines: seq<Line>, p: Placed)
    requires Program(lines).Some? && p.index < |lines|
    requires Takes(lines[p.index], At(lines, p.index)) && p.addr == At(lines, p.index).addr
    ensures p in Program(lines).value
  {
    PlacedExactly(lines, p);
    hide *;
  }

  /** The n-th line emitted after a label (n from 0, no other label between) is placed n words after
      the address the map holds for the label, lines of spaces or not and whatever other labels have
      the name. */
  lemma LineAfterLabel(lines: seq<Line>, j: nat, e: nat)
    requires Sectioned(lines) && j < e < |lines| && lines[j].Label? && Emits(lines[e])
    requires forall m :: j < m < e ==> !lines[m].Label?
    ensures Program(lines).Some?
    ensures Placed(e, Lookup(LabelMap(lines, |lines|), lines[j].name) + Count(lines, j + 1, e)) in Program(lines).value
  {
    hide *;
    SectionedAssembles(lines, j);
    TakenAfterLabel(lines, j, e);
    PlacedIf(lines, Placed(e, At(lines, e).addr));
  }

  lemma {:induction false} NothingCounted(lines: seq<Line>, i: nat, n: nat)
    requires i <= n <= |lines| && forall m :: i <= m < n ==> !Emits(lines[m])
    ensures Count(lines, i, n) == 0
    decreases n
  {
    if i == n {
    } else {
      NothingCounted(lines, i, n - 1);
    }
  }

  lemma EvenDelta(target: nat, addr: nat, lo: int, hi: int)
    requires lo <= Delta(target, addr) <= hi
    ensures AsmRoundTrip.Even(lo, Delta(target, addr), hi) && 4 * addr + Delta(target, addr) == 4 * target
  {
    DivideUnique(Delta(target, addr), 2, 2 * target - 2 * addr, 0);
  }

  lemma RegisterNumber(r: Isa.RegIndex)
    ensures r % 32 == r
  {
  }

  lemma TakenTo(a: Isa.Arch, i: Isa.Instr)
    ensures i.Branch? && Isa.Holds(i.cond, a.regs[i.rs1], a.regs[i.rs2]) ==> Isa.Execute(a, i).pc == Wrap(a.pc + i.imm)
    ensures i.Jal? ==> Isa.Execute(a, i).pc == Wrap(a.pc + i.imm)
  {
    hide Isa.Holds;
  }

  /** A branch placed at word address `addr`: executed there by the interpreter, or by the core as
      pc_prior plus the decoded immediate, it goes to its label's address when it is taken, if the
      distance fits a branch. */
  lemma BranchLands(c: Isa.Cond, rs1: Isa.RegIndex, rs2: Isa.RegIndex, target: nat, addr: nat, a: Isa.Arch)
    requires -4096 <= Delta(target, addr) <= 4094
    requires a.pc == Wrap(4 * addr) && Isa.Holds(c, a.regs[rs1], a.regs[rs2])
    ensures var w := Assemblers.BWord(c, rs1, rs2, Delta(target, addr));
      && w < 0x1_0000_0000
      && Isa.Execute(a, Isa.Decode(w)).pc == Wrap(4 * target)
      && Wrap(a.pc + Encoding.Immediate(w)) == Wrap(4 * target)
  {
    hide Isa.Decode, Encoding.Immediate, Assemblers.BWord, Isa.Holds, Isa.Execute, Wrap, AsmRoundTrip.Even;
    var d := Delta(target, addr);
    EvenDelta(target, addr, -4096, 4094);
    RegisterNumber(rs1);
    RegisterNumber(rs2);
    AsmRoundTrip.BranchRoundTrip(c, rs1, rs2, d);
    WrapSum(4 * addr, d);
    TakenTo(a, Isa.Branch(c, rs1, rs2, d));
  }

  /** The same for jal. */
  lemma JalLands(rd: Isa.RegIndex, target: nat, addr: nat, a: Isa.Arch)
    requires -0x10_0000 <= Delta(target, addr) <= 0xF_FFFE
    requires a.pc == Wrap(4 * addr)
    ensures var w := Assemblers.JWord(rd, Delta(target, addr));
      && w < 0x1_0000_0000
      && Isa.Execute(a, Isa.Decode(w)).pc == Wrap(4 * target)
      && Wrap(a.pc + Encoding.Immediate(w)) == Wrap(4 * target)
  {
    hide Isa.Decode, Encoding.Immediate, Assemblers.JWord, Isa.Execute, Wrap, AsmRoundTrip.Even;
    var d := Delta(target, addr);
    EvenDelta(target, addr, -0x10_0000, 0xF_FFFE);
    RegisterNumber(rd);
    AsmRoundTrip.JalRoundTrip(rd, d);
    WrapSum(4 * addr, d);
    TakenTo(a, Isa.Jal(rd, d));
  }

  /** End to end: a branch on line b to the label on line j, taken where the second pass placed it,
      arrives where the second pass placed the first line after that label. */
  lemma BranchesLandOnLabels(lines: seq<Line>, b: nat, j: nat, e: nat, at: nat,
                             c: Isa.Cond, rs1: Isa.RegIndex, rs2: Isa.RegIndex, a: Isa.Arch)
    returns (target: nat)
    requires Sectioned(lines) && j < e < |lines| && lines[j].Label? && Emits(lines[e])
    requires forall m :: j < m < e ==> !Emits(lines[m]) && !lines[m].Label?
    requires Program(lines).Some? && Placed(b, at) in Program(lines).value
    requires -4096 <= Delta(Lookup(LabelMap(lines, |lines|), lines[j].name), at) <= 4094
    requires a.pc == Wrap(4 * at) && Isa.Holds(c, a.regs[rs1], a.regs[rs2])
    ensures Placed(e, target) in Program(lines).value
    ensures var w := Assemblers.BWord(c, rs1, rs2, Delta(Lookup(LabelMap(lines, |lines|), lines[j].name), at));
      w < 0x1_0000_0000 && Isa.Execute(a, Isa.Decode(w)).pc == Wrap(4 * target)
  {
    hide Program, LabelMap, Lookup, Isa.Decode, Isa.Execute, Isa.Holds, Assemblers.BWord;
    target := Lookup(LabelMap(lines, |lines|), lines[j].name);
    LineAfterLabel(lines, j, e);
    NothingCounted(lines, j + 1, e);
    BranchLands(c, rs1, rs2, target, at, a);
  }

  // ---------------------------------------------------------------
  // References to data
  // ---------------------------------------------------------------

  lemma ReferenceResolves(lines: seq<Line>, j: nat, n: nat)
    requires j < |lines| && lines[j].Label?
    ensures var labels, x := LabelMap(lines, |lines|), lines[j].name;
      ResolveCalc(labels, RefPlus(x, n)) == Some(4 * (Lookup(labels, x) + n))
  {
    NamesMapped(lines, |lines|);
    NextName(lines, j, j);
  }

  lemma ByteOffset(addr: nat)
    ensures AsmRoundTrip.Small(4 * addr) <==> 4 * addr <= 2047
  {
  }

  /** A load of @Label+n(x0) reads from the place the second pass gave the n-th line after the label,
      exactly if that byte address is below 2048. */
  lemma DataReference(lines: seq<Line>, j: nat, e: nat, op: Assemblers.LoadOp, rd: Isa.RegIndex) returns (addr: nat)
    requires Sectioned(lines) && j < e < |lines| && lines[j].Label? && Emits(lines[e])
    requires forall m :: j < m < e ==> !lines[m].Label?
    ensures Program(lines).Some? && Placed(e, addr) in Program(lines).value
    ensures ResolveCalc(LabelMap(lines, |lines|), RefPlus(lines[j].name, Count(lines, j + 1, e))) == Some(4 * addr)
    ensures var w := Assemblers.IWord(0x03, Assemblers.LoadFunct3(op), rd, 0, 4 * addr, false);
      && w < 0x1_0000_0000
      && (Isa.Decode(w) == AsmRoundTrip.LoadInstr(op, rd, 0, 4 * addr) <==> 4 * addr <= 2047)
  {
    hide *;
    ReferenceResolves(lines, j, Count(lines, j + 1, e));
    LineAfterLabel(lines, j, e);
    addr := Lookup(LabelMap(lines, |lines|), lines[j].name) + Count(lines, j + 1, e);
    AsmRoundTrip.LoadRoundTrip(op, rd, 0, 4 * addr);
    RegisterNumber(rd);
    ByteOffset(addr);
  }

  // ---------------------------------------------------------------
  // Examples of sources on which the passes disagree
  // ---------------------------------------------------------------

  /** One leading line: it lands at the label's address and pushes the next line off it. */
  lemma LeadingLineExample(lines: seq<Line>)
    requires lines == [Instruction("nop"), Label("L", false, Some(5)), Instruction("nop")]
    ensures Pc(lines, 0) == 0 && Pc(lines, 2) == 5
    ensures Program(lines).Some? && {Placed(0, 5), Placed(2, 6)} <= set p | p in Program(lines).value
  {
    assert LabelNames(lines, 0) == [] && LabelNames(lines, 1) == [] && LabelNames(lines, 2) == ["L"];
    assert LabelNames(lines, 3) == ["L"];
    assert Pc(lines, 1) == 1 && Pc(lines, 2) == 5;
    MapHoldsLast(lines, 1, 3);
    ProgramWalks(lines);
    assert Count(lines, 0, 0) == 0 && Count(lines, 0, 1) == 1 && Count(lines, 0, 2) == 1;
    LeadingLinesShift(lines, 0);
    LeadingLinesShift(lines, 2);
    PlacedExactly(lines, Placed(0, 5));
    PlacedExactly(lines, Placed(2, 6));
  }

  /** One name twice in a row: both lines are counted from the last address, without a break. */
  lemma RepeatedLabelExample(lines: seq<Line>)
    requires lines == [Label("L", false, Some(0)), Instruction("nop"), Label("L", false, Some(16)), Instruction("nop")]
    ensures Pc(lines, 1) == 0 && Pc(lines, 3) == 16
    ensures Program(lines).Some? && {Placed(1, 16), Placed(3, 17)} <= set p | p in Program(lines).value
  {
    RepeatedLabelFacts(lines);
    hide LabelNames, LabelMap, Pc, Count, At, Program, Adjacent, Lookup;
    ProgramWalks(lines);
    LeadingLinesShift(lines, 1);
    LeadingLinesShift(lines, 2);
    RepeatedInARowSwallows(lines, 2, 3);
    PlacedExactly(lines, Placed(1, 16));
    PlacedExactly(lines, Placed(3, 17));
  }

  lemma RepeatedLabelFacts(lines: seq<Line>)
    requires lines == [Label("L", false, Some(0)), Instruction("nop"), Label("L", false, Some(16)), Instruction("nop")]
    ensures Pc(lines, 1) == 0 && Pc(lines, 3) == 16 && Lookup(LabelMap(lines, 4), "L") == 16
    ensures LabelNames(lines, 1) == ["L"] && LabelNames(lines, 2) == ["L"] && LabelNames(lines, 4) == ["L", "L"]
    ensures !Adjacent(["L"]) && Count(lines, 0, 1) == 0 && Count(lines, 0, 2) == 1
  {
    assert LabelNames(lines, 0) == [] && LabelNames(lines, 1) == ["L"] && LabelNames(lines, 2) == ["L"];
    assert LabelNames(lines, 3) == ["L", "L"];
    assert Pc(lines, 0) == 0 && Pc(lines, 1) == 0 && Pc(lines, 3) == 16;
    assert Count(lines, 0, 0) == 0 && Count(lines, 0, 1) == 0;
    MapHoldsLast(lines, 2, 4);
  }
}
