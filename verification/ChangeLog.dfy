/** The change log on its way to flash: rows become CSV text, a drain moves
    text from the ring to the active file, and the cursor makes sure that
    nothing is lost or written twice. */
module ChangeLog {
  import opened Words
  import opened Decimals

  const FLUSH_BUDGET := 2048
  const ROW_GUARD := 96
  const FILE_MAX_BYTES := 65536
  const COMPACT_AT_PCT := 25
  const HEADER := "ms,id,ext,dlc,changed,d0,d1,d2,d3,d4,d5,d6,d7\n"

  /** A change-log record with its mask of changed bytes. */
  datatype Rec = Rec(ms: u32, id: u16, dlc: u8, flags: u8, data: seq<u8>, mask: u8) {
    predicate Ok() { |data| == 8 }
  }

  // ---- a row of CSV ------------------------------------------------------

  function Column(r: Rec, i: nat): string
    requires r.Ok() && i < 8
  {
    if i < r.dlc then "," + HexPadded(r.data[i], 2) else ","
  }

  function Columns(r: Rec, n: nat): string
    requires r.Ok() && n <= 8
  {
    if n == 0 then "" else Columns(r, n - 1) + Column(r, n - 1)
  }

  function Front(r: Rec): string {
    Decimal(r.ms) + "," + HexPadded(r.id, 3) + "," + Decimal(r.flags % 2) + "," + Decimal(r.dlc)
  }

  function RowText(r: Rec): string
    requires r.Ok()
  {
    Front(r) + "," + HexPadded(r.mask, 2) + Columns(r, 8) + "\n"
  }

  lemma {:induction false} HexLength(n: nat, k: nat)
    requires n < Sixteen(k) && k > 0
    ensures |Hex(n)| <= k
  {
    if n >= 16 { HexLength(n / 16, k - 1); }
  }

  function Sixteen(k: nat): (t: nat)
    ensures t >= 1
  {
    if k == 0 then 1 else 16 * Sixteen(k - 1)
  }

  lemma {:induction false} ColumnsLength(r: Rec, n: nat)
    requires r.Ok() && n <= 8
    ensures |Columns(r, n)| <= 3 * n
  {
    if n > 0 {
      ColumnsLength(r, n - 1);
      assert Sixteen(2) == 256;
      HexLength(r.data[n - 1], 2);
    }
  }

  /** The longest row: ten digits of time, four of id, one, three, and two of
      mask, eight full columns, five commas and the newline. */
  lemma RowLength(r: Rec)
    requires r.Ok()
    ensures 0 < |RowText(r)| <= 50 < ROW_GUARD
  {
    assert Ten(1) == 10 && Ten(3) == 1000 && Ten(5) == 100000 by { assert Ten(2) == 100 && Ten(4) == 10000; }
    assert Ten(10) == 10000000000 by { assert Ten(6) == 1000000 && Ten(8) == 100000000; }
    assert Sixteen(2) == 256 && Sixteen(4) == 65536;
    DecimalLength(r.ms, 10);
    HexLength(r.id, 4);
    DecimalLength(r.flags % 2, 1);
    DecimalLength(r.dlc, 3);
    HexLength(r.mask, 2);
    ColumnsLength(r, 8);
  }

  /** What snprintf stores when `avail` bytes are left, one of them for the
      terminator. */
  function Clip(text: string, avail: nat): string {
    if |text| < avail then text else if avail == 0 then "" else text[..avail - 1]
  }

  /** emitRow: piece by piece into what is left of the buffer. With more than
      96 bytes left no piece is clipped. */
  method EmitRow(avail: nat, r: Rec) returns (out: string, n: nat)
    requires r.Ok() && avail > ROW_GUARD
    ensures out == RowText(r) && n == |out|
  {
    hide Front, Columns, Column, HexPadded;
    RowLength(r);
    var front, mask := Front(r), "," + HexPadded(r.mask, 2);
    ghost var head := front + mask;
    RowPieces(r, head);
    out, n := Clip(front, avail), |front|;
    out, n := out + Clip(mask, avail - n), n + |mask|;
    for i := 0 to 8
      invariant out == head + Columns(r, i) && n == |out|
    {
      ColumnsPrefix(r, i + 1, 8);
      ColumnStep(r, i, head);
      var piece := Column(r, i);
      out, n := out + Clip(piece, avail - n), n + |piece|;
    }
    out, n := out + Clip("\n", avail - n), n + 1;
  }

  lemma RowPieces(r: Rec, head: string)
    requires r.Ok() && head == Front(r) + ("," + HexPadded(r.mask, 2))
    ensures RowText(r) == head + Columns(r, 8) + "\n" && head + Columns(r, 0) == head
  {
    hide HexPadded, Column, Front;
    assert Columns(r, 0) == "";
  }

  lemma ColumnStep(r: Rec, i: nat, head: string)
    requires r.Ok() && i < 8
    ensures head + Columns(r, i + 1) == head + Columns(r, i) + Column(r, i)
  {
  }

  lemma {:induction false} ColumnsPrefix(r: Rec, m: nat, n: nat)
    requires r.Ok() && m <= n <= 8
    ensures |Columns(r, m)| <= |Columns(r, n)|
    decreases n
  {
    if m < n { ColumnsPrefix(r, m, n - 1); }
  }

  // ---- a chunk of rows ---------------------------------------------------

  /** RecCsvCursor: rows already written, and whether the header was. */
  datatype CsvCursor = CsvCursor(row: nat, headerDone: bool)

  datatype Line = Head | Row(r: Rec)

  predicate RowsOk(q: seq<Rec>) { forall i :: 0 <= i < |q| ==> q[i].Ok() }

  function LineText(l: Line): string
    requires l.Row? ==> l.r.Ok()
  {
    if l.Head? then HEADER else RowText(l.r)
  }

  predicate LinesOk(ls: seq<Line>) { forall i :: 0 <= i < |ls| ==> ls[i].Row? ==> ls[i].r.Ok() }

  /** The bytes of a file. */
  function Render(ls: seq<Line>): string
    requires LinesOk(ls)
  {
    if ls == [] then "" else Render(ls[..|ls| - 1]) + LineText(ls[|ls| - 1])
  }

  function RowsOf(ls: seq<Line>): seq<Rec> {
    if ls == [] then []
    else RowsOf(ls[..|ls| - 1]) + if ls[|ls| - 1].Row? then [ls[|ls| - 1].r] else []
  }

  function Lines(q: seq<Rec>): (ls: seq<Line>)
    ensures |ls| == |q| && forall i :: 0 <= i < |q| ==> ls[i] == Row(q[i])
  {
    seq(|q|, i requires 0 <= i < |q| => Row(q[i]))
  }

  /** How many rows of q, from row on, go into a buffer that holds n bytes. */
  function RowsThatFit(q: seq<Rec>, row: nat, n: nat): (k: nat)
    requires RowsOk(q)
    ensures row <= |q| ==> row + k <= |q|
    ensures row < |q| && n + ROW_GUARD < FLUSH_BUDGET ==> k > 0
    ensures row >= |q| ==> k == 0
    decreases |q| - row
  {
    if row < |q| && n + ROW_GUARD < FLUSH_BUDGET then 1 + RowsThatFit(q, row + 1, n + |RowText(q[row])|) else 0
  }

  /** The lines that one chunk adds, and the cursor behind them. */
  function ChunkLines(q: seq<Rec>, c: CsvCursor): seq<Line>
    requires RowsOk(q) && c.row <= |q|
  {
    var k := RowsThatFit(q, c.row, if c.headerDone then 0 else |HEADER|);
    (if c.headerDone then [] else [Head]) + Lines(q[c.row..c.row + k])
  }

  function ChunkCursor(q: seq<Rec>, c: CsvCursor): (c': CsvCursor)
    requires RowsOk(q) && c.row <= |q|
    ensures c.row <= c'.row <= |q| && c'.headerDone
  {
    CsvCursor(c.row + RowsThatFit(q, c.row, if c.headerDone then 0 else |HEADER|), true)
  }

  lemma RenderOne(ls: seq<Line>, l: Line)
    requires LinesOk(ls) && (l.Row? ==> l.r.Ok())
    ensures LinesOk(ls + [l]) && Render(ls + [l]) == Render(ls) + LineText(l)
  {
    assert (ls + [l])[..|ls|] == ls;
  }

  /** The lines of a chunk once its rows up to `upto` are in. */
  function LinesUpTo(q: seq<Rec>, c: CsvCursor, upto: nat): seq<Line>
    requires c.row <= upto <= |q|
  {
    (if c.headerDone then [] else [Head]) + Lines(q[c.row..upto])
  }

  lemma NextRow(q: seq<Rec>, c: CsvCursor, at: nat)
    requires RowsOk(q) && c.row <= at < |q|
    ensures var ls, r := LinesUpTo(q, c, at), q[at];
            && LinesOk(ls) && LinesOk(LinesUpTo(q, c, at + 1))
            && LinesUpTo(q, c, at + 1) == ls + [Row(r)]
            && Render(LinesUpTo(q, c, at + 1)) == Render(ls) + RowText(r)
  {
    hide RowText, Render;
    assert q[c.row..at + 1] == q[c.row..at] + [q[at]];
    assert LinesUpTo(q, c, at + 1) == LinesUpTo(q, c, at) + [Row(q[at])];
    RenderOne(LinesUpTo(q, c, at), Row(q[at]));
  }

  lemma FirstLine(q: seq<Rec>, c: CsvCursor)
    requires c.row <= |q|
    ensures var ls := LinesUpTo(q, c, c.row);
            LinesOk(ls) && Render(ls) == (if c.headerDone then "" else HEADER)
  {
    if !c.headerDone {
      RenderOne([], Head);
      assert [] + [Head] == LinesUpTo(q, c, c.row);
    }
  }

  /** recorderChangeCsvChunk: the text of whole lines, inside the buffer. */
  method CsvChunk(q: seq<Rec>, cur: CsvCursor) returns (out: string, cur': CsvCursor)
    requires RowsOk(q) && cur.row <= |q|
    ensures cur' == ChunkCursor(q, cur)
    ensures LinesOk(ChunkLines(q, cur)) && out == Render(ChunkLines(q, cur)) && |out| < FLUSH_BUDGET
  {
    hide RowText, Render, LinesOk, Rec.Ok;
    out, cur' := "", cur;
    if !cur.headerDone {
      cur' := cur'.(headerDone := true);
      out := Clip(HEADER, FLUSH_BUDGET);
    }
    FirstLine(q, cur);
    ghost var k := RowsThatFit(q, cur.row, |out|);
    while cur'.row < |q| && FLUSH_BUDGET - |out| > ROW_GUARD
      invariant cur.row <= cur'.row <= |q| && cur'.headerDone && |out| < FLUSH_BUDGET
      invariant k == cur'.row - cur.row + RowsThatFit(q, cur'.row, |out|)
      invariant LinesOk(LinesUpTo(q, cur, cur'.row)) && out == Render(LinesUpTo(q, cur, cur'.row))
    {
      var text, n := EmitRow(FLUSH_BUDGET - |out|, q[cur'.row]);
      RowLength(q[cur'.row]);
      NextRow(q, cur, cur'.row);
      out, cur' := out + text, cur'.(row := cur'.row + 1);
    }
  }
}
