/** The section/slot reconstruction of regchula_scraper.py: the rows of a course's
    schedule table, each a list of cell texts of varying width, folded into a list
    of sections, each with its list of slots.

    A row of ten cells opens a new section (its number, its open status and its
    `registered/maximum` cell). Every row, whatever its width, then adds one slot
    to the most recently opened section. A row of eight cells lacks the two leading
    columns, so its slot columns are read one place to the left.

    `Reconstruct` is the fold as a function, one row at a time, with no carried
    state but the sections so far; `BuildSections` is the scraper's loop, with its
    accumulator and its column offset carried from pass to pass (reset to 0 after
    every slot), proved equal to it. `Blocks` cuts the
    rows before every opening row; `ReconstructByBlocks` shows that section j is
    made of exactly the j-th block. */
module Sections {
  import opened Text

  type Row = seq<string>

  datatype Slot = Slot(
    slotId: nat, teachingMethod: string, day: string, time: string,
    building: string, room: string, teacher: string, note: Option<string>)

  datatype Section = Section(sectNum: int, sectStatus: int, registered: int, maximum: int, slots: seq<Slot>)

  /** The four fields a section-opening row gives its section. */
  datatype Header = Header(sectNum: int, sectStatus: int, registered: int, maximum: int)

  /** A row of ten cells opens a new section. */
  predicate Opens(row: Row) { |row| == 10 }

  /** The first of the seven slot columns: 1 in a row of eight cells, 2 in any other row. */
  function SlotStart(row: Row): nat { if |row| == 8 then 1 else 2 }

  /** The row is wide enough for its seven slot columns. */
  predicate HasSlotColumns(row: Row) { SlotStart(row) + 7 <= |row| }

  /** The note column, absent when empty. */
  function NoteOf(cell: string): Option<string>
  {
    if cell == "" then None else Some(cell)
  }

  /** The slot a row adds, numbered `id`. */
  function SlotOf(row: Row, id: nat): Slot
    requires HasSlotColumns(row)
  {
    var c := SlotStart(row);
    Slot(id, row[c], row[c + 1], row[c + 2], row[c + 3], row[c + 4], row[c + 5], NoteOf(row[c + 6]))
  }

  /** The section fields of an opening row: the number in column 1, open (1) exactly
      when column 0 is empty, and the two halves of column 9 around its one `/`. */
  function ParseHeader(row: Row): Result<Header>
    requires Opens(row)
  {
    match ParseInt(row[1])
    case None => Err(NotAnInteger(row[1]))
    case Some(sectNum) =>
      match SplitOnce(row[9], '/')
      case None => Err(NotAPair(row[9]))
      case Some((registered, maximum)) =>
        match ParseInt(registered)
        case None => Err(NotAnInteger(registered))
        case Some(reg) =>
          match ParseInt(maximum)
          case None => Err(NotAnInteger(maximum))
          case Some(max) => Ok(Header(sectNum, if row[0] == "" then 1 else 0, reg, max))
  }

  lemma SplitOnceOf(a: string, b: string, c: char)
    requires c !in a && c !in b
    ensures SplitOnce(a + [c] + b, c) == Some((a, b))
  {
    var s := a + [c] + b;
    assert multiset(s) == multiset(a) + multiset{c} + multiset(b);
    assert multiset(a)[c] == 0 && multiset(b)[c] == 0;
    assert s[|a|] == c && s[..|a|] == a && s[|a| + 1..] == b;
  }

  /** An opening row whose number and capacity cells are decimal numbers gives back those numbers. */
  lemma ParseHeaderRoundTrip(row: Row, n: nat, registered: nat, maximum: nat)
    requires Opens(row) && row[1] == Decimal(n) && row[9] == Decimal(registered) + "/" + Decimal(maximum)
    ensures ParseHeader(row) == Ok(Header(n, if row[0] == "" then 1 else 0, registered, maximum))
  {
    ParseIntOfDecimal(n);
    ParseIntOfDecimal(registered);
    ParseIntOfDecimal(maximum);
    assert '/' !in Decimal(registered) && '/' !in Decimal(maximum) by {
      assert AllDigits(Decimal(registered)) && AllDigits(Decimal(maximum));
    }
    SplitOnceOf(Decimal(registered), Decimal(maximum), '/');
  }

  // ---------------------------------------------------------------------------
  // The fold

  /** One row of the fold. */
  function Step(acc: seq<Section>, row: Row): (r: Result<seq<Section>>)
    ensures r.Ok? ==> r.value != []
  {
    if Opens(row) then
      var h :- ParseHeader(row);
      Ok(acc + [Section(h.sectNum, h.sectStatus, h.registered, h.maximum, [SlotOf(row, 1)])])
    else if !HasSlotColumns(row) then Err(MissingColumn(|row|))
    else if acc == [] then Err(SlotBeforeSection)
    else
      var last := acc[|acc| - 1];
      Ok(acc[..|acc| - 1] + [last.(slots := last.slots + [SlotOf(row, |last.slots| + 1)])])
  }

  /** The sections the rows fold into, or the first row's error. */
  function Reconstruct(rows: seq<Row>): Result<seq<Section>>
  {
    if rows == [] then Ok([])
    else
      var acc :- Reconstruct(rows[..|rows| - 1]);
      Step(acc, rows[|rows| - 1])
  }

  /** Once a prefix of the rows fails, the whole table fails with the same error. */
  lemma {:induction false} ErrorPersists(rows: seq<Row>, i: nat)
    requires i <= |rows| && Reconstruct(rows[..i]).Err?
    ensures Reconstruct(rows) == Reconstruct(rows[..i])
    decreases |rows| - i
  {
    if i < |rows| {
      var init := rows[..|rows| - 1];
      assert init[..i] == rows[..i];
      ErrorPersists(init, i);
    } else {
      assert rows[..i] == rows;
    }
  }

  /** The fold one row further. */
  lemma ReconstructNext(rows: seq<Row>, i: nat, acc: seq<Section>)
    requires i < |rows| && Reconstruct(rows[..i]) == Ok(acc)
    ensures Reconstruct(rows[..i + 1]) == Step(acc, rows[i])
  {
    assert rows[..i + 1][..i] == rows[..i];
  }

  /** The fold stops at the first row it cannot take, with that row's error. */
  lemma ReconstructStops(rows: seq<Row>, i: nat, acc: seq<Section>)
    requires i < |rows| && Reconstruct(rows[..i]) == Ok(acc) && Step(acc, rows[i]).Err?
    ensures Reconstruct(rows) == Step(acc, rows[i])
  {
    ReconstructNext(rows, i, acc);
    ErrorPersists(rows, i + 1);
  }

  /** One pass of the scraper's loop body. The column offset comes in from the
      previous pass (it only ever holds 0 or -1). A row of ten cells appends a new
      section with an empty slot list; a row of eight cells sets the offset to -1;
      then the row's seven slot cells, read at the offset, become a slot numbered
      after the current section's last one, and the offset is reset to 0 for the
      next pass. With the offset 0 on entry, the pass is one step of the fold. */
  method AddRow(before: seq<Section>, row: Row, carried: int) returns (r: Result<seq<Section>>, offset: int)
    requires carried == 0 || carried == -1
    ensures carried == 0 ==> r == Step(before, row)
    ensures r.Ok? ==> offset == 0
  {
    var section := before;
    offset := carried;
    if |row| == 10 {
      var header := ParseHeader(row);
      if header.Err? {
        return Err(header.error), offset;
      }
      var h := header.value;
      section := section + [Section(h.sectNum, h.sectStatus, h.registered, h.maximum, [])];
    } else if |row| == 8 {
      offset := -1;
    }
    if |row| <= 8 + offset {
      return Err(MissingColumn(|row|)), offset;
    }
    if section == [] {
      return Err(SlotBeforeSection), offset;
    }
    var note := if row[8 + offset] == "" then None else Some(row[8 + offset]);
    var current := section[|section| - 1];
    var slot := Slot(|current.slots| + 1, row[2 + offset], row[3 + offset], row[4 + offset],
                     row[5 + offset], row[6 + offset], row[7 + offset], note);
    var rest := section[..|section| - 1];
    r := Ok(rest + [current.(slots := current.slots + [slot])]);
    offset := 0;
    if carried != 0 {
    } else if |row| == 10 {
      assert rest == before && current.slots + [slot] == [slot];
      assert slot == SlotOf(row, 1);
    } else {
      assert slot == SlotOf(row, |current.slots| + 1);
    }
  }

  /** The scraper's loop over the table's rows, proved to be the fold. The column
      offset lives across passes, and is 0 at the start of every pass because each
      successful pass resets it. */
  method BuildSections(table: seq<Row>) returns (r: Result<seq<Section>>)
    ensures r == Reconstruct(table)
  {
    var section: seq<Section> := [];
    var offset := 0;
    var i := 0;
    while i < |table|
      invariant 0 <= i <= |table|
      invariant offset == 0
      invariant Reconstruct(table[..i]) == Ok(section)
    {
      var next;
      next, offset := AddRow(section, table[i], offset);
      if next.Err? {
        ReconstructStops(table, i, section);
        return next;
      }
      ReconstructNext(table, i, section);
      section := next.value;
      i := i + 1;
    }
    assert table[..i] == table;
    return Ok(section);
  }

  // ---------------------------------------------------------------------------
  // Counts

  /** The number of rows that open a section. */
  function CountOpening(rows: seq<Row>): nat {
    if rows == [] then 0
    else CountOpening(rows[..|rows| - 1]) + (if Opens(rows[|rows| - 1]) then 1 else 0)
  }

  /** The number of slots over all sections. */
  function TotalSlots(secs: seq<Section>): nat {
    if secs == [] then 0 else TotalSlots(secs[..|secs| - 1]) + |secs[|secs| - 1].slots|
  }

  /** There are as many sections as opening rows, and as many slots as rows. */
  lemma {:induction false} SectionAndSlotCounts(rows: seq<Row>)
    requires Reconstruct(rows).Ok?
    ensures |Reconstruct(rows).value| == CountOpening(rows)
    ensures TotalSlots(Reconstruct(rows).value) == |rows|
  {
    if rows != [] {
      var init := rows[..|rows| - 1];
      var acc := Reconstruct(init).value;
      SectionAndSlotCounts(init);
      var row := rows[|rows| - 1];
      var secs := Reconstruct(rows).value;
      if Opens(row) {
        assert secs[..|secs| - 1] == acc;
      } else {
        var m := |acc|;
        assert secs[..m - 1] == acc[..m - 1];
        assert acc[..m - 1] == acc[..|acc| - 1];
      }
    }
  }

  // ---------------------------------------------------------------------------
  // Success

  /** A row the fold can take once a section is open: wide enough for its slot
      columns and, when it opens a section, with fields that parse. */
  predicate RowAccepted(row: Row) {
    HasSlotColumns(row) && (Opens(row) ==> ParseHeader(row).Ok?)
  }

  /** Every row of the table is accepted. */
  predicate AllAccepted(rows: seq<Row>) {
    rows == [] || (AllAccepted(rows[..|rows| - 1]) && RowAccepted(rows[|rows| - 1]))
  }

  /** A table the fold accepts: it starts with an opening row and every row is accepted. */
  predicate WellFormedTable(rows: seq<Row>) {
    (rows == [] || Opens(rows[0])) && AllAccepted(rows)
  }

  lemma StepOk(acc: seq<Section>, row: Row)
    ensures Step(acc, row).Ok? <==> RowAccepted(row) && (acc != [] || Opens(row))
  {
  }

  lemma ReconstructEmpty(rows: seq<Row>)
    requires Reconstruct(rows).Ok?
    ensures Reconstruct(rows).value == [] <==> rows == []
  {
  }

  /** The fold fails exactly on a table that is not well formed. */
  lemma {:induction false} ReconstructSucceedsIff(rows: seq<Row>)
    ensures Reconstruct(rows).Ok? <==> WellFormedTable(rows)
  {
    if rows != [] {
      var init := rows[..|rows| - 1];
      ReconstructSucceedsIff(init);
      if init != [] {
        assert init[0] == rows[0];
      }
      if Reconstruct(init).Ok? {
        ReconstructEmpty(init);
        StepOk(Reconstruct(init).value, rows[|rows| - 1]);
      }
    }
  }

  // ---------------------------------------------------------------------------
  // The blocks

  /** The number of rows at the start of `rows` that do not open a section. */
  function RunLength(rows: seq<Row>): (n: nat)
    ensures n <= |rows|
    ensures forall i :: 0 <= i < n ==> !Opens(rows[i])
    ensures n < |rows| ==> Opens(rows[n])
  {
    if rows == [] || Opens(rows[0]) then 0 else 1 + RunLength(rows[1..])
  }

  /** The rows cut before every opening row: each block is one opening row and the
      non-opening rows that follow it. */
  function Blocks(rows: seq<Row>): (bs: seq<seq<Row>>)
    requires rows == [] || Opens(rows[0])
    ensures rows != [] ==> bs != []
    decreases |rows|
  {
    if rows == [] then []
    else
      var n := 1 + RunLength(rows[1..]);
      [rows[..n]] + Blocks(rows[n..])
  }

  lemma {:induction false} RunLengthAppend(s: seq<Row>, t: seq<Row>)
    ensures RunLength(s) < |s| ==> RunLength(s + t) == RunLength(s)
    ensures RunLength(s) == |s| ==> RunLength(s + t) == |s| + RunLength(t)
  {
    if s != [] {
      assert (s + t)[0] == s[0];
      assert (s + t)[1..] == s[1..] + t;
      RunLengthAppend(s[1..], t);
    } else {
      assert s + t == t;
    }
  }

  /** The blocks after one more row: a new block when the row opens a section, the
      last block one row longer otherwise. */
  function Extend(bs: seq<seq<Row>>, r: Row): seq<seq<Row>>
    requires bs != []
  {
    if Opens(r) then bs + [[r]] else bs[..|bs| - 1] + [bs[|bs| - 1] + [r]]
  }

  lemma ExtendCons(b: seq<Row>, bs: seq<seq<Row>>, r: Row)
    requires bs != []
    ensures Extend([b] + bs, r) == [b] + Extend(bs, r)
  {
    if !Opens(r) {
      assert ([b] + bs)[..|bs|] == [b] + bs[..|bs| - 1];
    }
  }

  lemma BlocksSingle(rows: seq<Row>)
    requires rows != [] && Opens(rows[0]) && RunLength(rows[1..]) == |rows| - 1
    ensures Blocks(rows) == [rows]
  {
    assert rows[..|rows|] == rows;
    assert rows[|rows|..] == [];
  }

  /** Appending a row adds a block when it opens a section, and extends the last block otherwise. */
  lemma {:induction false} BlocksSnoc(rows: seq<Row>, r: Row)
    requires rows != [] && Opens(rows[0])
    ensures Blocks(rows + [r]) == Extend(Blocks(rows), r)
    decreases |rows|
  {
    var s := rows + [r];
    var n := 1 + RunLength(rows[1..]);
    assert s[0] == rows[0];
    assert s[1..] == rows[1..] + [r];
    RunLengthAppend(rows[1..], [r]);
    if n < |rows| {
      assert s[..n] == rows[..n];
      assert s[n..] == rows[n..] + [r];
      BlocksSnoc(rows[n..], r);
      ExtendCons(rows[..n], Blocks(rows[n..]), r);
    } else {
      BlocksSingle(rows);
      if Opens(r) {
        assert RunLength([r]) == 0;
        assert s[..n] == rows && s[n..] == [r];
        BlocksSingle([r]);
      } else {
        assert RunLength([r]) == 1;
        BlocksSingle(s);
      }
    }
  }

  /** Section `sec` is what block `block` gives: the header of its opening row, and
      one slot per row, numbered from 1 in row order, read from that row's columns. */
  predicate MadeOfBlock(sec: Section, block: seq<Row>) {
    block != [] && Opens(block[0])
    && ParseHeader(block[0]) == Ok(Header(sec.sectNum, sec.sectStatus, sec.registered, sec.maximum))
    && |sec.slots| == |block|
    && forall k :: 0 <= k < |block| ==> HasSlotColumns(block[k]) && sec.slots[k] == SlotOf(block[k], k + 1)
  }

  /** Sections and blocks pair up one to one, in order, each section made of its block. */
  predicate AllMadeOfBlocks(secs: seq<Section>, bs: seq<seq<Row>>) {
    |secs| == |bs|
    && (secs == [] || (AllMadeOfBlocks(secs[..|secs| - 1], bs[..|bs| - 1]) && MadeOfBlock(secs[|secs| - 1], bs[|bs| - 1])))
  }

  /** Section j is made of block j. */
  lemma {:induction false} MadeOfBlockAt(secs: seq<Section>, bs: seq<seq<Row>>, j: nat)
    requires AllMadeOfBlocks(secs, bs) && j < |secs|
    ensures MadeOfBlock(secs[j], bs[j])
    decreases |secs|
  {
    if j < |secs| - 1 {
      MadeOfBlockAt(secs[..|secs| - 1], bs[..|bs| - 1], j);
    }
  }

  lemma MadeOfBlocksOpening(acc: seq<Section>, bs: seq<seq<Row>>, row: Row, h: Header)
    requires AllMadeOfBlocks(acc, bs) && Opens(row) && ParseHeader(row) == Ok(h)
    ensures AllMadeOfBlocks(acc + [Section(h.sectNum, h.sectStatus, h.registered, h.maximum, [SlotOf(row, 1)])], bs + [[row]])
  {
    var sec := Section(h.sectNum, h.sectStatus, h.registered, h.maximum, [SlotOf(row, 1)]);
    MadeOfOpeningRow(row, h);
    SnocPrefix(acc, sec);
    SnocPrefix(bs, [row]);
  }

  /** An opening row alone is the block of the section it opens. */
  lemma MadeOfOpeningRow(row: Row, h: Header)
    requires Opens(row) && ParseHeader(row) == Ok(h)
    ensures MadeOfBlock(Section(h.sectNum, h.sectStatus, h.registered, h.maximum, [SlotOf(row, 1)]), [row])
  {
  }

  lemma MadeOfBlockExtended(sec: Section, block: seq<Row>, row: Row)
    requires MadeOfBlock(sec, block) && HasSlotColumns(row)
    ensures MadeOfBlock(sec.(slots := sec.slots + [SlotOf(row, |sec.slots| + 1)]), block + [row])
  {
    var sec' := sec.(slots := sec.slots + [SlotOf(row, |sec.slots| + 1)]);
    var block' := block + [row];
    assert block'[0] == block[0];
    forall k | 0 <= k < |block'| ensures HasSlotColumns(block'[k]) && sec'.slots[k] == SlotOf(block'[k], k + 1) {
      if k < |block| {
        assert block'[k] == block[k] && sec'.slots[k] == sec.slots[k];
      }
    }
  }

  lemma MadeOfBlocksContinuing(acc: seq<Section>, bs: seq<seq<Row>>, row: Row)
    requires AllMadeOfBlocks(acc, bs) && acc != [] && HasSlotColumns(row)
    ensures var last := acc[|acc| - 1];
      AllMadeOfBlocks(acc[..|acc| - 1] + [last.(slots := last.slots + [SlotOf(row, |last.slots| + 1)])],
                      bs[..|bs| - 1] + [bs[|bs| - 1] + [row]])
  {
    var m := |acc|;
    var last := acc[m - 1];
    MadeOfBlockExtended(last, bs[m - 1], row);
    SnocPrefix(acc[..m - 1], last.(slots := last.slots + [SlotOf(row, |last.slots| + 1)]));
    SnocPrefix(bs[..m - 1], bs[m - 1] + [row]);
  }

  lemma StepOpening(acc: seq<Section>, row: Row)
    requires Opens(row) && ParseHeader(row).Ok?
    ensures var h := ParseHeader(row).value;
      Step(acc, row) == Ok(acc + [Section(h.sectNum, h.sectStatus, h.registered, h.maximum, [SlotOf(row, 1)])])
  {
  }

  lemma StepContinuing(acc: seq<Section>, row: Row)
    requires Step(acc, row).Ok? && !Opens(row)
    ensures acc != [] && HasSlotColumns(row)
    ensures var last := acc[|acc| - 1];
      Step(acc, row) == Ok(acc[..|acc| - 1] + [last.(slots := last.slots + [SlotOf(row, |last.slots| + 1)])])
  {
  }

  /** One step of the fold keeps sections and blocks paired. */
  lemma MadeOfBlocksStep(acc: seq<Section>, bs: seq<seq<Row>>, r: Row)
    requires AllMadeOfBlocks(acc, bs) && Step(acc, r).Ok?
    ensures bs != [] ==> AllMadeOfBlocks(Step(acc, r).value, Extend(bs, r))
    ensures bs == [] ==> Opens(r) && AllMadeOfBlocks(Step(acc, r).value, [[r]])
  {
    if Opens(r) {
      StepOpening(acc, r);
      MadeOfBlocksOpening(acc, bs, r, ParseHeader(r).value);
    } else {
      StepContinuing(acc, r);
      MadeOfBlocksContinuing(acc, bs, r);
    }
  }

  /** Section j is made of exactly the j-th block: the fold puts every row's slot in the
      section its nearest opening row above it opened, and nowhere else. */
  lemma {:induction false} ReconstructByBlocks(rows: seq<Row>)
    requires Reconstruct(rows).Ok?
    ensures rows == [] || Opens(rows[0])
    ensures AllMadeOfBlocks(Reconstruct(rows).value, Blocks(rows))
  {
    if rows != [] {
      var init := rows[..|rows| - 1];
      var r := rows[|rows| - 1];
      ReconstructNext(rows, |rows| - 1, Reconstruct(init).value);
      SnocParts(rows);
      if init == [] {
        assert rows == [r];
        BlocksSingle(rows);
        MadeOfBlocksStep([], [], r);
      } else {
        ReconstructByBlocks(init);
        assert init[0] == rows[0];
        BlocksSnoc(init, r);
        MadeOfBlocksStep(Reconstruct(init).value, Blocks(init), r);
      }
    }
  }

  /** Slot ids are 1, 2, ... within every section, each section on its own, and no
      section is without a slot. */
  lemma {:induction false} SlotIdsDense(rows: seq<Row>)
    requires Reconstruct(rows).Ok?
    ensures forall sec :: sec in Reconstruct(rows).value ==> sec.slots != []
    ensures forall sec, k :: sec in Reconstruct(rows).value && 0 <= k < |sec.slots| ==> sec.slots[k].slotId == k + 1
  {
    ReconstructByBlocks(rows);
    var secs := Reconstruct(rows).value;
    forall sec | sec in secs ensures sec.slots != [] && forall k :: 0 <= k < |sec.slots| ==> sec.slots[k].slotId == k + 1 {
      var j :| 0 <= j < |secs| && secs[j] == sec;
      MadeOfBlockAt(secs, Blocks(rows), j);
    }
  }
}
