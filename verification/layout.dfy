/**
 * The measurement tables of the certificate document, as an abstract table
 * structure: the points sorted by nominal volume, cut into rows of at most
 * three points, each row a table of five lines of cells.  Multichannel
 * pipettes get one unbreakable block per channel, repeater pipettes one
 * heading per syringe followed by that syringe's tables.
 */
module CertificateLayout {
  import opened Wrappers
  import opened JsText
  import opened JsNumber
  import opened Draft
  import opened Sorting
  import PdfFormat

  /** `parseFloat(volumeNominal) || 0`. */
  function PointKey(p: Point): real {
    ParseOrZero(p.volumeNominal)
  }

  function SyringeKey(s: Syringe): real {
    ParseOrZero(s.volumeNominal)
  }

  // ---------------------------------------------------------------------------
  // Cells
  // ---------------------------------------------------------------------------

  /** A cell with text, or an empty cell without borders (a separator or padding). */
  datatype Cell = Text(text: string) | Blank

  /** `ponto.unidade || 'µL'`. */
  function UnitOr(u: string): string {
    if u == "" then "µL" else u
  }

  /** JavaScript truthiness of a stored result. */
  predicate Truthy(x: Value) {
    (x.Num? && x.v != 0.0) || x.Inf?
  }

  /** `x ? formatarNumero(x) : '0,00'`. */
  function StatText(x: Value): string {
    if Truthy(x) then PdfFormat.FormatNumber(PdfFormat.Number(x)) else "0,00"
  }

  function PointLabel(n: nat): string {
    "Ponto " + NatToString(n) + " de medição"
  }

  /** The five lines of a table. */
  const LineCount: nat := 5

  /** The three cells a point shows on line `r` of its table, `n` being its number. */
  function Slot(p: Point, n: nat, r: nat): (cells: seq<Cell>)
    ensures |cells| == 3
  {
    if r == 0 then [Text(PointLabel(n)), Text(":"), Text(p.volumeNominal + UnitOr(p.unidade))]
    else if r == 1 then [Text("Número de medições"), Text(":"), Text("10")]
    else if r == 2 then [Text("Média"), Text(":"), Text(StatText(p.stats.media) + UnitOr(p.unidade))]
    else if r == 3 then [Text("Inexatidão / ISO8655"), Text(":"), Text(StatText(p.stats.inexatidao) + UnitOr(p.unidade))]
    else [Text("Incerteza / ISO8655"), Text(":"), Text(StatText(p.stats.desvioPadrao) + UnitOr(p.unidade))]
  }

  const BlankSlot: seq<Cell> := [Blank, Blank, Blank]

  /** A line split back into its slots of three cells, the separators between them skipped. */
  function Slots(row: seq<Cell>): seq<seq<Cell>>
    decreases |row|
  {
    if |row| < 3 then [] else [row[..3]] + (if |row| >= 4 then Slots(row[4..]) else [])
  }

  // ---------------------------------------------------------------------------
  // Tables
  // ---------------------------------------------------------------------------

  /**
   * A table: column widths, font size, cell padding, the lines of cells,
   * and which horizontal and vertical rules are drawn (index `i` is the
   * rule before line or column `i`).
   */
  datatype Table = Table(
    widths: seq<nat>,
    fontSize: nat,
    padding: nat,
    body: seq<seq<Cell>>,
    hRules: seq<bool>,
    vRules: seq<bool>)

  const PointsPerRow: nat := 3

  /** The width presets for one, two and three points in a row. */
  function Widths(k: nat): seq<nat> {
    if k == 1 then [110, 8, 60]
    else if k == 2 then [100, 6, 60, 15, 100, 6, 60]
    else [85, 5, 50, 12, 85, 5, 50, 12, 85, 5, 50]
  }

  function FontSize(k: nat): nat {
    if k == 1 then 10 else if k == 2 then 9 else 8
  }

  function Padding(k: nat): nat {
    if k == 1 then 4 else if k == 2 then 3 else 2
  }

  /** `vLineWidth(i) === 1` for a row of `k` points and `w` columns. */
  predicate VRule(k: nat, i: nat, w: nat) {
    if k == 1 then i == 0 || i == w
    else if k == 2 then i == 0 || i == 3 || i == 4 || i == w
    else if k == 3 then i == 0 || i == 3 || i == 4 || i == 7 || i == 8 || i == w
    else false
  }

  /** Rules above the first line and below the last only. */
  function HRules(lines: nat): seq<bool> {
    seq(lines + 1, i => i == 0 || i == lines)
  }

  /** One line of a side-by-side row: each point's slot, a separator between neighbours. */
  function SideLine(pts: seq<Point>, n: nat, r: nat): seq<Cell> {
    if pts == [] then []
    else if |pts| == 1 then Slot(pts[0], n, r)
    else Slot(pts[0], n, r) + [Blank] + SideLine(pts[1..], n + 1, r)
  }

  /** The table of a row of one to three points, numbered from `n`. */
  function SideTable(pts: seq<Point>, n: nat): Table
    requires 1 <= |pts| <= PointsPerRow
  {
    var k := |pts|;
    var w := Widths(k);
    Table(w, FontSize(k), Padding(k), SideBody(pts, n), HRules(LineCount), VRules(k, |w|))
  }

  /** The five lines of a side-by-side row. */
  function SideBody(pts: seq<Point>, n: nat): (body: seq<seq<Cell>>)
    ensures |body| == LineCount
  {
    [SideLine(pts, n, 0), SideLine(pts, n, 1), SideLine(pts, n, 2), SideLine(pts, n, 3), SideLine(pts, n, 4)]
  }

  /** The vertical rules of a row of `k` points and `w` columns. */
  function VRules(k: nat, w: nat): seq<bool> {
    seq(w + 1, i requires 0 <= i => VRule(k, i, w))
  }

  /** The rows of the sorted points from number `start + 1` on. */
  function SideTables(s: seq<Point>, start: nat): seq<Table>
    decreases |s|
  {
    if s == [] then []
    else
      var k := if |s| < PointsPerRow then |s| else PointsPerRow;
      [SideTable(s[..k], start + 1)] + SideTables(s[k..], start + k)
  }

  /** `criarTabelasLadoALado`. */
  function SideBySide(points: seq<Point>): seq<Table> {
    SideTables(SortBy(points, PointKey), 0)
  }

  /** The number of points a table shows: the slots of its first line. */
  function PointCount(t: Table): nat {
    if t.body == [] then 0 else |Slots(t.body[0])|
  }

  /** The reference reading of a line: each point's slot in order, numbered from `n`. */
  function Column(s: seq<Point>, n: nat, r: nat): (c: seq<seq<Cell>>)
    ensures |c| == |s|
  {
    if s == [] then [] else [Slot(s[0], n, r)] + Column(s[1..], n + 1, r)
  }

  lemma {:induction false} ColumnAt(s: seq<Point>, n: nat, r: nat, i: nat)
    requires i < |s|
    ensures Column(s, n, r)[i] == Slot(s[i], n + i, r)
  {
    if i > 0 {
      ColumnAt(s[1..], n + 1, r, i - 1);
    }
  }

  lemma {:induction false} ColumnSplit(s: seq<Point>, n: nat, r: nat, k: nat)
    requires k <= |s|
    ensures Column(s[..k], n, r) + Column(s[k..], n + k, r) == Column(s, n, r)
  {
    if k > 0 {
      ColumnSplit(s[1..], n + 1, r, k - 1);
      assert s[..k][1..] == s[1..][..k - 1];
      assert s[k..] == s[1..][k - 1..];
    }
  }

  /** The slots of line `r` of every table, in order. */
  function LineSlots(tables: seq<Table>, r: nat): seq<seq<Cell>> {
    if tables == [] then []
    else (if r < |tables[0].body| then Slots(tables[0].body[r]) else []) + LineSlots(tables[1..], r)
  }

  /** The shape of a table of `k` points, as the source lays it out. */
  predicate Shaped(t: Table, k: nat) {
    && 1 <= k <= PointsPerRow
    && t.widths == Widths(k)
    && |t.widths| == 4 * k - 1
    && |t.body| == LineCount
    && (forall r :: 0 <= r < LineCount ==> |t.body[r]| == 4 * k - 1 && |Slots(t.body[r])| == k)
    && t.hRules == [true, false, false, false, false, true]
    && |t.vRules| == 4 * k
    && (forall i :: 0 <= i < 4 * k ==>
          t.vRules[i] == (i == 0 || i == 4 * k - 1 || (k >= 2 && (i == 3 || i == 4)) || (k == 3 && (i == 7 || i == 8))))
  }

  lemma {:induction false} SideLineSlots(pts: seq<Point>, n: nat, r: nat)
    requires pts != []
    ensures |SideLine(pts, n, r)| == 4 * |pts| - 1
    ensures Slots(SideLine(pts, n, r)) == Column(pts, n, r)
    decreases |pts|
  {
    var line := SideLine(pts, n, r);
    if |pts| > 1 {
      SideLineSlots(pts[1..], n + 1, r);
      assert line[..3] == Slot(pts[0], n, r);
      assert line[4..] == SideLine(pts[1..], n + 1, r);
    } else {
      assert line[..3] == line;
    }
  }

  lemma SideTableColumn(pts: seq<Point>, n: nat, r: nat)
    requires 1 <= |pts| <= PointsPerRow && r < LineCount
    ensures Slots(SideTable(pts, n).body[r]) == Column(pts, n, r)
  {
    SideLineSlots(pts, n, r);
  }

  lemma SideTableShape(pts: seq<Point>, n: nat)
    requires 1 <= |pts| <= PointsPerRow
    ensures Shaped(SideTable(pts, n), |pts|)
  {
    var t := SideTable(pts, n);
    forall r | 0 <= r < LineCount
      ensures |t.body[r]| == 4 * |pts| - 1
      ensures Slots(t.body[r]) == Column(pts, n, r)
    {
      SideLineSlots(pts, n, r);
    }
    assert t.hRules == [true, false, false, false, false, true];
  }

  lemma LineSlotsCons(t: Table, rest: seq<Table>, r: nat)
    requires r < |t.body|
    ensures LineSlots([t] + rest, r) == Slots(t.body[r]) + LineSlots(rest, r)
  {
    assert ([t] + rest)[1..] == rest;
  }

  /** Read back line by line, the rows hold the points in order, numbered from `start + 1`. */
  lemma {:induction false} SideTablesSlots(s: seq<Point>, start: nat, r: nat)
    requires r < LineCount
    ensures LineSlots(SideTables(s, start), r) == Column(s, start + 1, r)
    decreases |s|
  {
    if s != [] {
      var k := if |s| < PointsPerRow then |s| else PointsPerRow;
      var t := SideTable(s[..k], start + 1);
      var rest := SideTables(s[k..], start + k);
      assert SideTables(s, start) == [t] + rest;
      LineSlotsCons(t, rest, r);
      SideTableColumn(s[..k], start + 1, r);
      SideTablesSlots(s[k..], start + k, r);
      ColumnSplit(s, start + 1, r, k);
    }
  }

  /** Every row but the last holds three points, and every row has the shape of its point count. */
  lemma {:induction false} SideTablesShape(s: seq<Point>, start: nat)
    ensures |SideTables(s, start)| == (|s| + 2) / 3
    ensures forall c :: 0 <= c < |SideTables(s, start)| ==>
      var t := SideTables(s, start)[c];
      Shaped(t, PointCount(t)) && (c < |SideTables(s, start)| - 1 ==> PointCount(t) == PointsPerRow)
    decreases |s|
  {
    if s != [] {
      var k := if |s| < PointsPerRow then |s| else PointsPerRow;
      SideTableShape(s[..k], start + 1);
      SideTablesShape(s[k..], start + k);
      var tables := SideTables(s, start);
      assert tables[1..] == SideTables(s[k..], start + k);
    }
  }

  /**
   * Side-by-side tables: nothing for no points; otherwise the points sorted
   * by volume, three to a row with the last row holding the rest, numbered
   * `Ponto 1` to `Ponto n` in sorted order, each row shaped for its count.
   */
  lemma SideBySideSpec(points: seq<Point>)
    ensures points == [] ==> SideBySide(points) == []
    ensures |SideBySide(points)| == (|points| + 2) / 3
    ensures forall c :: 0 <= c < |SideBySide(points)| ==>
      var t := SideBySide(points)[c];
      Shaped(t, PointCount(t)) && (c < |SideBySide(points)| - 1 ==> PointCount(t) == PointsPerRow)
  {
    SideTablesShape(SortBy(points, PointKey), 0);
  }

  /** Read back line by line, the side-by-side tables hold the points sorted by volume, numbered from 1. */
  lemma {:induction false} SideBySideSlots(points: seq<Point>, r: nat)
    requires r < LineCount
    ensures LineSlots(SideBySide(points), r) == Column(SortBy(points, PointKey), 1, r)
  {
    var sorted := SortBy(points, PointKey);
    assert SideBySide(points) == SideTables(sorted, 0);
    SideTablesSlots(sorted, 0, r);
  }
}
