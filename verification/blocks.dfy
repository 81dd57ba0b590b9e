/**
 * The blocks of the measurement section of the certificate document: one
 * unbreakable block per channel for multichannel pipettes, a heading per
 * syringe followed by its tables for repeater pipettes, plain tables
 * otherwise; and the checks made before anything is drawn.
 */
module CertificateBlocks {
  import opened Wrappers
  import opened JsText
  import opened JsNumber
  import opened Draft
  import opened Sorting
  import opened CertificateLayout

  // ---------------------------------------------------------------------------
  // The fixed three-point rows of a channel
  // ---------------------------------------------------------------------------

  /** `n` empty slots. */
  function Blanks(n: nat): (b: seq<seq<Cell>>)
    ensures |b| == n
  {
    if n == 0 then [] else [BlankSlot] + Blanks(n - 1)
  }

  /** The slot at `idx` of a padded row: the point's cells, or empty cells past the last point. */
  function Padded(pts: seq<Point>, idx: nat, n: nat, r: nat): (cells: seq<Cell>)
    ensures |cells| == 3
  {
    if idx < |pts| then Slot(pts[idx], n + idx, r) else BlankSlot
  }

  /** One line of a channel row: always three slots and two separators. */
  function FixedLine(pts: seq<Point>, n: nat, r: nat): (line: seq<Cell>)
    ensures |line| == 11
  {
    Padded(pts, 0, n, r) + [Blank] + Padded(pts, 1, n, r) + [Blank] + Padded(pts, 2, n, r)
  }

  function FixedBody(pts: seq<Point>, n: nat): (body: seq<seq<Cell>>)
    ensures |body| == LineCount
  {
    [FixedLine(pts, n, 0), FixedLine(pts, n, 1), FixedLine(pts, n, 2), FixedLine(pts, n, 3), FixedLine(pts, n, 4)]
  }

  /** The table of up to three points of a channel, laid out for three whatever their number. */
  function FixedTable(pts: seq<Point>, n: nat): Table {
    Table(Widths(PointsPerRow), FontSize(PointsPerRow), Padding(PointsPerRow), FixedBody(pts, n),
      HRules(LineCount), VRules(PointsPerRow, 11))
  }

  /** `criarTabelasLadoALadoMulticanal` on points already sorted, numbered from `start + 1`. */
  function FixedTables(s: seq<Point>, start: nat): seq<Table>
    decreases |s|
  {
    if s == [] then []
    else
      var k := if |s| < PointsPerRow then |s| else PointsPerRow;
      [FixedTable(s[..k], start + 1)] + FixedTables(s[k..], start + k)
  }

  /** Empty slots that pad the last row of `n` points to three. */
  function Pad(n: nat): nat {
    (PointsPerRow - n % PointsPerRow) % PointsPerRow
  }

  lemma PadLast(n: nat)
    requires 1 <= n <= PointsPerRow
    ensures Pad(n) == PointsPerRow - n
  {
  }

  lemma PadStep(n: nat)
    requires n > PointsPerRow
    ensures Pad(n - PointsPerRow) == Pad(n)
  {
  }

  /** Three slots of three cells with a separator between them read back as those three slots. */
  lemma ThreeSlots(p0: seq<Cell>, p1: seq<Cell>, p2: seq<Cell>)
    requires |p0| == 3 && |p1| == 3 && |p2| == 3
    ensures Slots(p0 + [Blank] + p1 + [Blank] + p2) == [p0, p1, p2]
  {
    var line := p0 + [Blank] + p1 + [Blank] + p2;
    assert line[..3] == p0;
    assert line[4..] == p1 + [Blank] + p2;
    assert line[4..][..3] == p1;
    assert line[4..][4..] == p2;
    assert Slots(p2) == [p2] by { assert p2[..3] == p2; }
  }

  lemma {:induction false} FixedLineSlots(pts: seq<Point>, n: nat, r: nat)
    requires 1 <= |pts| <= PointsPerRow
    ensures Slots(FixedLine(pts, n, r)) == Column(pts, n, r) + Blanks(PointsPerRow - |pts|)
  {
    var p0 := Padded(pts, 0, n, r);
    var p1 := Padded(pts, 1, n, r);
    var p2 := Padded(pts, 2, n, r);
    ThreeSlots(p0, p1, p2);
    var c := Column(pts, n, r);
    ColumnAt(pts, n, r, 0);
    if |pts| == 1 {
      assert c == [p0];
      assert Blanks(2) == [p1, p2];
    } else if |pts| == 2 {
      ColumnAt(pts, n, r, 1);
      assert c == [p0, p1];
      assert Blanks(1) == [p2];
    } else {
      ColumnAt(pts, n, r, 1);
      ColumnAt(pts, n, r, 2);
      assert c == [p0, p1, p2];
    }
  }

  lemma FixedBodyAt(pts: seq<Point>, n: nat, r: nat)
    requires r < LineCount
    ensures FixedTable(pts, n).body[r] == FixedLine(pts, n, r)
  {
  }

  lemma FixedTableColumn(pts: seq<Point>, n: nat, r: nat)
    requires 1 <= |pts| <= PointsPerRow && r < LineCount
    ensures Slots(FixedTable(pts, n).body[r]) == Column(pts, n, r) + Blanks(PointsPerRow - |pts|)
  {
    FixedBodyAt(pts, n, r);
    FixedLineSlots(pts, n, r);
  }

  lemma FixedTablesUnfold(s: seq<Point>, start: nat)
    requires s != []
    ensures var k := if |s| < PointsPerRow then |s| else PointsPerRow;
      FixedTables(s, start) == [FixedTable(s[..k], start + 1)] + FixedTables(s[k..], start + k)
  {
  }

  lemma FixedTableShape(pts: seq<Point>, n: nat)
    requires 1 <= |pts| <= PointsPerRow
    ensures Shaped(FixedTable(pts, n), PointsPerRow)
  {
    var t := FixedTable(pts, n);
    forall r | 0 <= r < LineCount
      ensures |t.body[r]| == 11 && |Slots(t.body[r])| == PointsPerRow
    {
      FixedLineSlots(pts, n, r);
    }
    assert t.hRules == [true, false, false, false, false, true];
  }

  /** Regrouping of the pieces a row of a channel is read back from. */
  lemma Regroup(line: seq<seq<Cell>>, first: seq<seq<Cell>>, rest: seq<seq<Cell>>, head: seq<seq<Cell>>,
                tail: seq<seq<Cell>>, blanks1: seq<seq<Cell>>, blanks2: seq<seq<Cell>>)
    requires line == first + rest && first == head + blanks1 && rest == tail + blanks2
    requires blanks1 == [] || (tail == [] && blanks2 == [])
    ensures line == (head + tail) + (blanks1 + blanks2)
  {
  }

  /** The last row of a channel: its points, then empty slots. */
  lemma {:induction false} FixedTablesLast(s: seq<Point>, start: nat, r: nat)
    requires 1 <= |s| <= PointsPerRow && r < LineCount
    ensures LineSlots(FixedTables(s, start), r) == Column(s, start + 1, r) + Blanks(Pad(|s|))
  {
    var t := FixedTable(s, start + 1);
    FixedTablesUnfold(s, start);
    assert s[..|s|] == s && s[|s|..] == [];
    assert FixedTables(s[|s|..], start + |s|) == [];
    LineSlotsCons(t, [], r);
    FixedTableColumn(s, start + 1, r);
    PadLast(|s|);
    Regroup(LineSlots(FixedTables(s, start), r), Slots(t.body[r]), [], Column(s, start + 1, r), [],
      Blanks(PointsPerRow - |s|), []);
  }

  /** The first row of a channel holds its first three points, and the rows after it hold the rest. */
  lemma {:induction false} FixedTablesFirst(s: seq<Point>, start: nat, r: nat)
    requires |s| > PointsPerRow && r < LineCount
    ensures LineSlots(FixedTables(s, start), r)
      == Column(s[..PointsPerRow], start + 1, r) + LineSlots(FixedTables(s[PointsPerRow..], start + PointsPerRow), r)
  {
    var t := FixedTable(s[..PointsPerRow], start + 1);
    FixedTablesUnfold(s, start);
    LineSlotsCons(t, FixedTables(s[PointsPerRow..], start + PointsPerRow), r);
    FixedTableColumn(s[..PointsPerRow], start + 1, r);
    assert Blanks(0) == [];
  }

  lemma {:induction false} FixedTablesFull(s: seq<Point>, start: nat, r: nat)
    requires |s| > PointsPerRow && r < LineCount
    requires LineSlots(FixedTables(s[PointsPerRow..], start + PointsPerRow), r)
      == Column(s[PointsPerRow..], start + 1 + PointsPerRow, r) + Blanks(Pad(|s| - PointsPerRow))
    ensures LineSlots(FixedTables(s, start), r) == Column(s, start + 1, r) + Blanks(Pad(|s|))
  {
    FixedTablesFirst(s, start, r);
    ColumnSplit(s, start + 1, r, PointsPerRow);
    PadStep(|s|);
    Chain(LineSlots(FixedTables(s, start), r), Column(s[..PointsPerRow], start + 1, r),
      LineSlots(FixedTables(s[PointsPerRow..], start + PointsPerRow), r),
      Column(s[PointsPerRow..], start + 1 + PointsPerRow, r), Blanks(Pad(|s|)), Column(s, start + 1, r));
  }

  /** Regrouping a row read back as its first part, then the rest followed by padding. */
  lemma Chain(line: seq<seq<Cell>>, first: seq<seq<Cell>>, later: seq<seq<Cell>>, tail: seq<seq<Cell>>,
              blanks: seq<seq<Cell>>, whole: seq<seq<Cell>>)
    requires line == first + later && later == tail + blanks && first + tail == whole
    ensures line == whole + blanks
  {
  }

  /** Read back line by line, a channel's rows hold its points in order and then empty slots up to a multiple of three. */
  lemma {:induction false} FixedTablesSlots(s: seq<Point>, start: nat, r: nat)
    requires r < LineCount
    ensures LineSlots(FixedTables(s, start), r) == Column(s, start + 1, r) + Blanks(Pad(|s|))
    decreases |s|
  {
    if |s| > PointsPerRow {
      FixedTablesSlots(s[PointsPerRow..], start + PointsPerRow, r);
      FixedTablesFull(s, start, r);
    } else if s != [] {
      FixedTablesLast(s, start, r);
    }
  }

  /** Every channel row is laid out for three points: eleven columns by five lines. */
  lemma {:induction false} FixedTablesShape(s: seq<Point>, start: nat)
    ensures |FixedTables(s, start)| == (|s| + 2) / 3
    ensures forall c :: 0 <= c < |FixedTables(s, start)| ==> Shaped(FixedTables(s, start)[c], PointsPerRow)
    decreases |s|
  {
    if s != [] {
      var k := if |s| < PointsPerRow then |s| else PointsPerRow;
      FixedTableShape(s[..k], start + 1);
      FixedTablesShape(s[k..], start + k);
      assert FixedTables(s, start)[1..] == FixedTables(s[k..], start + k);
    }
  }

  // ---------------------------------------------------------------------------
  // Channels
  // ---------------------------------------------------------------------------

  /** The channel numbers of the points, in order, with repeats. */
  function ChannelNumbers(points: seq<Point>): (cs: seq<nat>)
    ensures forall c :: c in cs <==> exists i :: 0 <= i < |points| && CanalOf(points[i]) == Some(c)
  {
    if points == [] then []
    else
      var rest := ChannelNumbers(points[1..]);
      assert forall i :: 1 <= i < |points| ==> points[i] == points[1..][i - 1];
      (if points[0].tag.Channel? then [points[0].tag.canal] else []) + rest
  }

  /** A sorted sequence without its repeats. */
  function DedupSorted(s: seq<nat>): (r: seq<nat>)
    ensures forall c :: c in r <==> c in s
    ensures (forall i, j :: 0 <= i < j < |s| ==> s[i] <= s[j]) ==> forall i, j :: 0 <= i < j < |r| ==> r[i] < r[j]
    ensures r != [] && s != [] ==> r[0] == s[0]
  {
    if |s| <= 1 then s
    else if s[0] == s[1] then DedupSorted(s[1..])
    else [s[0]] + DedupSorted(s[1..])
  }

  function NatKey(c: nat): real {
    c as real
  }

  /** The distinct channel numbers in increasing order: `Object.keys(...).sort((a, b) => parseInt(a) - parseInt(b))`. */
  function Channels(points: seq<Point>): seq<nat> {
    DedupSorted(SortBy(ChannelNumbers(points), NatKey))
  }

  /** Points without a channel are grouped under `undefined`, which sorts after every number. */
  predicate HasUnchanneled(points: seq<Point>) {
    exists i :: 0 <= i < |points| && CanalOf(points[i]).None?
  }

  /** The group keys in the order the blocks are drawn. */
  function Keys(points: seq<Point>): seq<Option<nat>> {
    Map(Channels(points), (c: nat) => Some(c)) + (if HasUnchanneled(points) then [None] else [])
  }

  function KeyText(key: Option<nat>): string {
    if key.Some? then NatToString(key.value) else "undefined"
  }

  function ChannelTitle(key: Option<nat>): string {
    "Canal " + KeyText(key) + ":"
  }

  /** The points of one group, in their original order. */
  function ChannelPoints(points: seq<Point>, key: Option<nat>): seq<Point> {
    Filter(points, (p: Point) => CanalOf(p) == key)
  }

  /** The points of one group as drawn: sorted by volume. */
  function SortedChannel(points: seq<Point>, key: Option<nat>): seq<Point> {
    SortBy(ChannelPoints(points, key), PointKey)
  }

  /** A block of the measurement section. */
  datatype Block =
    | Grid(table: Table)
    | Heading(text: string, top: nat)
    | Unbreakable(title: string, top: nat, tables: seq<Table>)

  /** The space above every block but the first. */
  function TopMargin(index: nat): nat {
    if index == 0 then 0 else 20
  }

  function ChannelBlock(points: seq<Point>, key: Option<nat>, index: nat): Block {
    Unbreakable(ChannelTitle(key), TopMargin(index), FixedTables(SortedChannel(points, key), 0))
  }

  /** `criarTabelasMulticanal`. */
  function Multichannel(points: seq<Point>): (blocks: seq<Block>)
    ensures |blocks| == |Keys(points)|
    ensures forall c :: 0 <= c < |blocks| ==> blocks[c] == ChannelBlock(points, Keys(points)[c], c)
  {
    var keys := Keys(points);
    seq(|keys|, c requires 0 <= c < |keys| => ChannelBlock(points, keys[c], c))
  }

  /** The channels are the channel numbers the points carry, each once, in increasing order. */
  lemma ChannelsSpec(points: seq<Point>)
    ensures forall c :: c in Channels(points) <==> exists i :: 0 <= i < |points| && CanalOf(points[i]) == Some(c)
    ensures forall i, j :: 0 <= i < j < |Channels(points)| ==> Channels(points)[i] < Channels(points)[j]
  {
    var cs := ChannelNumbers(points);
    var sorted := SortBy(cs, NatKey);
    forall c
      ensures c in sorted <==> c in cs
    {
      assert c in sorted <==> c in multiset(sorted);
      assert c in cs <==> c in multiset(cs);
    }
  }

  /** Every point belongs to the group of one of the keys; the numbered groups come first, increasing. */
  lemma {:induction false} KeysSpec(points: seq<Point>)
    ensures forall i :: 0 <= i < |points| ==> CanalOf(points[i]) in Keys(points)
    ensures forall c :: 0 <= c < |Keys(points)| && Keys(points)[c].None? ==> c == |Keys(points)| - 1
    ensures forall i, j :: 0 <= i < j < |Keys(points)| && Keys(points)[j].Some? ==>
      Keys(points)[i].Some? && Keys(points)[i].value < Keys(points)[j].value
  {
    ChannelsSpec(points);
    var chans := Channels(points);
    var keys := Keys(points);
    forall i | 0 <= i < |points|
      ensures CanalOf(points[i]) in keys
    {
      if CanalOf(points[i]).Some? {
        var c := CanalOf(points[i]).value;
        assert c in chans;
        var j :| 0 <= j < |chans| && chans[j] == c;
        assert keys[j] == Some(c);
      } else {
        assert keys[|keys| - 1] == None;
      }
    }
  }

  /** A group holds exactly the points of its key, sorted by volume. */
  lemma SortedChannelSpec(points: seq<Point>, key: Option<nat>)
    ensures multiset(SortedChannel(points, key)) == multiset(ChannelPoints(points, key))
    ensures SortedBy(SortedChannel(points, key), PointKey)
    ensures forall p :: p in SortedChannel(points, key) <==> p in points && CanalOf(p) == key
  {
    var g := ChannelPoints(points, key);
    var s := SortedChannel(points, key);
    forall p
      ensures p in s <==> p in g
    {
      assert p in s <==> p in multiset(s);
      assert p in g <==> p in multiset(g);
    }
  }

  /**
   * Multichannel blocks: one unbreakable block per key, titled `Canal c:`,
   * the first without space above; its rows are laid out for three points,
   * and read back line by line they hold the group's points sorted by
   * volume, numbered from 1, then empty slots up to a multiple of three.
   */
  lemma MultichannelSpec(points: seq<Point>, c: nat, r: nat)
    requires c < |Keys(points)| && r < LineCount
    ensures var b := Multichannel(points)[c];
      var g := SortedChannel(points, Keys(points)[c]);
      && b.Unbreakable?
      && b.title == ChannelTitle(Keys(points)[c])
      && b.top == TopMargin(c)
      && |b.tables| == (|g| + 2) / 3
      && (forall t :: 0 <= t < |b.tables| ==> Shaped(b.tables[t], PointsPerRow))
      && LineSlots(b.tables, r) == Column(g, 1, r) + Blanks(Pad(|g|))
  {
    var key := Keys(points)[c];
    assert Multichannel(points)[c] == ChannelBlock(points, key, c);
    ChannelRows(SortedChannel(points, key), r);
  }

  /** The rows of one channel: laid out for three points, holding the points in order, numbered from 1. */
  lemma {:induction false} ChannelRows(g: seq<Point>, r: nat)
    requires r < LineCount
    ensures |FixedTables(g, 0)| == (|g| + 2) / 3
    ensures forall t :: 0 <= t < |FixedTables(g, 0)| ==> Shaped(FixedTables(g, 0)[t], PointsPerRow)
    ensures LineSlots(FixedTables(g, 0), r) == Column(g, 1, r) + Blanks(Pad(|g|))
  {
    FixedTablesShape(g, 0);
    FixedTablesSlots(g, 0, r);
  }

  // ---------------------------------------------------------------------------
  // Repeater pipettes
  // ---------------------------------------------------------------------------

  function SyringeTitle(s: Syringe): string {
    "Seringa de " + s.volumeNominal + UnitOr(s.unidade) + ":"
  }

  function Grids(tables: seq<Table>): (bs: seq<Block>)
    ensures |bs| == |tables|
    ensures forall i :: 0 <= i < |tables| ==> bs[i] == Grid(tables[i])
  {
    if tables == [] then [] else [Grid(tables[0])] + Grids(tables[1..])
  }

  /** Each syringe, from the `index`-th on: its heading, then its tables. */
  function RepeaterFrom(s: seq<Syringe>, index: nat): seq<Block>
    decreases |s|
  {
    if s == [] then []
    else [Heading(SyringeTitle(s[0]), TopMargin(index))] + Grids(SideBySide(s[0].points)) + RepeaterFrom(s[1..], index + 1)
  }

  /** `criarTabelasRepipetador`. */
  function Repeater(syringes: seq<Syringe>): seq<Block> {
    RepeaterFrom(SortBy(syringes, SyringeKey), 0)
  }

  /** A heading and the tables drawn under it. */
  datatype Section = Section(title: string, tables: seq<Table>)

  /** The tables at the front of a list of blocks. */
  function LeadingTables(bs: seq<Block>): seq<Table> {
    if bs == [] || !bs[0].Grid? then [] else [bs[0].table] + LeadingTables(bs[1..])
  }

  /** Reads a list of blocks back as sections: each heading with the tables that follow it. */
  function Sections(bs: seq<Block>): seq<Section>
    decreases |bs|
  {
    if bs == [] then []
    else if bs[0].Heading? then
      var ts := LeadingTables(bs[1..]);
      LeadingTablesLength(bs[1..]);
      [Section(bs[0].text, ts)] + Sections(bs[1 + |ts|..])
    else Sections(bs[1..])
  }

  lemma {:induction false} LeadingTablesLength(bs: seq<Block>)
    ensures |LeadingTables(bs)| <= |bs|
    ensures forall i :: 0 <= i < |LeadingTables(bs)| ==> bs[i] == Grid(LeadingTables(bs)[i])
  {
    if bs != [] && bs[0].Grid? {
      LeadingTablesLength(bs[1..]);
    }
  }

  lemma {:induction false} LeadingGrids(tables: seq<Table>, rest: seq<Block>)
    requires rest == [] || !rest[0].Grid?
    ensures LeadingTables(Grids(tables) + rest) == tables
  {
    if tables != [] {
      assert (Grids(tables) + rest)[1..] == Grids(tables[1..]) + rest;
      LeadingGrids(tables[1..], rest);
    } else {
      assert Grids(tables) + rest == rest;
    }
  }

  /** What is drawn for a syringe, read back as a section. */
  function SyringeSection(s: Syringe): Section {
    Section(SyringeTitle(s), SideBySide(s.points))
  }

  lemma {:induction false} RepeaterSections(s: seq<Syringe>, index: nat)
    ensures Sections(RepeaterFrom(s, index)) == Map(s, SyringeSection)
    ensures RepeaterFrom(s, index) == [] || RepeaterFrom(s, index)[0].Heading?
    decreases |s|
  {
    if s != [] {
      var rest := RepeaterFrom(s[1..], index + 1);
      RepeaterSections(s[1..], index + 1);
      RepeaterFromUnfold(s, index);
      SectionsHeading(SyringeTitle(s[0]), TopMargin(index), SideBySide(s[0].points), rest);
      MapCons(s, SyringeSection);
    }
  }

  lemma RepeaterFromUnfold(s: seq<Syringe>, index: nat)
    requires s != []
    ensures RepeaterFrom(s, index)
      == [Heading(SyringeTitle(s[0]), TopMargin(index))] + (Grids(SideBySide(s[0].points)) + RepeaterFrom(s[1..], index + 1))
  {
  }

  /** A heading followed by its tables reads back as one section. */
  lemma SectionsHeading(title: string, top: nat, ts: seq<Table>, rest: seq<Block>)
    requires rest == [] || !rest[0].Grid?
    ensures Sections([Heading(title, top)] + (Grids(ts) + rest)) == [Section(title, ts)] + Sections(rest)
  {
    var bs := [Heading(title, top)] + (Grids(ts) + rest);
    assert bs[1..] == Grids(ts) + rest;
    LeadingGrids(ts, rest);
    assert bs[1 + |ts|..] == rest;
  }

  /**
   * Repeater blocks: nothing for no syringes; otherwise, read back as
   * sections, one per syringe in increasing nominal volume, each titled
   * `Seringa de <volume><unit>:` and holding that syringe's side-by-side
   * tables.
   */
  lemma RepeaterSpec(syringes: seq<Syringe>)
    ensures syringes == [] ==> Repeater(syringes) == []
    ensures Sections(Repeater(syringes)) == Map(SortBy(syringes, SyringeKey), SyringeSection)
    ensures multiset(SortBy(syringes, SyringeKey)) == multiset(syringes)
    ensures SortedBy(SortBy(syringes, SyringeKey), SyringeKey)
  {
    RepeaterSections(SortBy(syringes, SyringeKey), 0);
  }

  // ---------------------------------------------------------------------------
  // Choosing the layout and checking the inputs
  // ---------------------------------------------------------------------------

  /** `criarTabelasMedicoes`: per-channel blocks when the instrument is multichannel and the first point has a channel. */
  function MeasurementBlocks(points: seq<Point>, tipoInstrumento: string): seq<Block> {
    if tipoInstrumento == "multicanal" && points != [] && points[0].tag.Channel? then Multichannel(points)
    else Grids(SideBySide(points))
  }

  /** Single-channel points are always drawn side by side; multichannel ones in one block per channel. */
  lemma MeasurementBlocksSpec(points: seq<Point>, tipoInstrumento: string)
    ensures tipoInstrumento != "multicanal" ==> forall b :: b in MeasurementBlocks(points, tipoInstrumento) ==> b.Grid?
    ensures tipoInstrumento == "multicanal" && points != [] && points[0].tag.Channel? ==>
      |MeasurementBlocks(points, tipoInstrumento)| == |Keys(points)|
      && forall b :: b in MeasurementBlocks(points, tipoInstrumento) ==> b.Unbreakable?
  {
  }

  const InsufficientData := "Dados insuficientes para gerar o certificado"
  const NoSyringe := "É necessário ter pelo menos uma seringa para repipetadores"
  const NoPoint := "É necessário ter pelo menos um ponto de calibração"

  /**
   * The checks `gerarCertificadoCalibracao` makes before it loads anything:
   * certificate data, client and a truthy correction factor, then at least
   * one syringe for a repeater or at least one point for anything else.
   */
  function RenderCheck(hasData: bool, hasClient: bool, fatorZ: Value, repeater: bool,
                       points: Option<seq<Point>>, syringes: Option<seq<Syringe>>): Result<(), string> {
    if !hasData || !hasClient || !Truthy(fatorZ) then Err(InsufficientData)
    else if repeater then
      (if syringes.None? || syringes.value == [] then Err(NoSyringe) else Ok(()))
    else
      (if points.None? || points.value == [] then Err(NoPoint) else Ok(()))
  }

  /** Rendering proceeds exactly when every input is present, and the first missing one names the error. */
  lemma RenderCheckSpec(hasData: bool, hasClient: bool, fatorZ: Value, repeater: bool,
                        points: Option<seq<Point>>, syringes: Option<seq<Syringe>>)
    ensures var r := RenderCheck(hasData, hasClient, fatorZ, repeater, points, syringes);
      && (r.Ok? <==> (hasData && hasClient && Truthy(fatorZ)
                      && (repeater ==> syringes.Some? && syringes.value != [])
                      && (!repeater ==> points.Some? && points.value != [])))
      && (r.Err? && hasData && hasClient && Truthy(fatorZ) ==> r.error == (if repeater then NoSyringe else NoPoint))
      && (!hasData || !hasClient || !Truthy(fatorZ) ==> r == Err(InsufficientData))
  {
  }

  /** A repeater is checked for syringes only: its points, even when missing, do not matter, and vice versa. */
  lemma RenderCheckIndependent(fatorZ: Value, points: Option<seq<Point>>, syringes: Option<seq<Syringe>>)
    ensures RenderCheck(true, true, fatorZ, true, points, syringes) == RenderCheck(true, true, fatorZ, true, None, syringes)
    ensures RenderCheck(true, true, fatorZ, false, points, syringes) == RenderCheck(true, true, fatorZ, false, points, None)
  {
  }
}
