/** The change log as a reader of the files sees it: a reader of CSV written on
    its own, and what it finds in the files that the drain leaves. */
module ChangeCsv {
  import opened Words
  import opened Options
  import opened Decimals
  import opened ChangeLog
  import opened ChangeDrain

  // ---- reading -----------------------------------------------------------

  /** The pieces between the separators. */
  function Split(s: string, sep: char): (ps: seq<string>)
    ensures |ps| > 0
  {
    if s == "" then [""]
    else
      var ps := Split(s[1..], sep);
      if s[0] == sep then [""] + ps else [[s[0]] + ps[0]] + ps[1..]
  }

  function ReadDecimal(s: string): Option<nat> {
    if s != "" && AllDigits(s) then Some(ValueOf(s)) else None
  }

  predicate IsHexDigit(c: char) { IsDigit(c) || 'A' <= c <= 'F' }

  predicate AllHex(s: string) { forall i :: 0 <= i < |s| ==> IsHexDigit(s[i]) }

  function HexDigitValue(c: char): nat
    requires IsHexDigit(c)
  {
    if IsDigit(c) then DigitValue(c) else c as int - 'A' as int + 10
  }

  function HexValueOf(ds: string): nat
    requires AllHex(ds)
  {
    if ds == "" then 0 else 16 * HexValueOf(ds[..|ds| - 1]) + HexDigitValue(ds[|ds| - 1])
  }

  function ReadHex(s: string): Option<nat> {
    if s != "" && AllHex(s) then Some(HexValueOf(s)) else None
  }

  /** What a row says; a data column may be blank. */
  datatype Sample = Sample(ms: nat, id: nat, ext: nat, dlc: nat, changed: nat, data: seq<Option<nat>>)

  const NAMES := ["ms", "id", "ext", "dlc", "changed", "d0", "d1", "d2", "d3", "d4", "d5", "d6", "d7"]

  function ReadBytes(cells: seq<string>): (bytes: seq<Option<nat>>)
    ensures |bytes| == |cells|
  {
    seq(|cells|, i requires 0 <= i < |cells| => ReadHex(cells[i]))
  }

  predicate BlankOrByte(cell: string) { cell == "" || (|cell| == 2 && ReadHex(cell).Some?) }

  function ReadRow(cells: seq<string>): Option<Sample> {
    if |cells| != 13 || exists i :: 5 <= i < 13 && !BlankOrByte(cells[i]) then None
    else
      var ms :- ReadDecimal(cells[0]);
      var id :- ReadHex(cells[1]);
      var ext :- ReadDecimal(cells[2]);
      var dlc :- ReadDecimal(cells[3]);
      var changed :- ReadHex(cells[4]);
      Some(Sample(ms, id, ext, dlc, changed, ReadBytes(cells[5..])))
  }

  /** The rows of the lines of a file; a line of column names is none. */
  function ReadLines(lines: seq<string>): Option<seq<Sample>> {
    if lines == [] then Some([])
    else
      var before :- ReadLines(lines[..|lines| - 1]);
      var cells := Split(lines[|lines| - 1], ',');
      if cells == NAMES then Some(before)
      else
        var row :- ReadRow(cells);
        Some(before + [row])
  }

  /** A file is lines, each with its newline. */
  function ReadFile(text: string): Option<seq<Sample>> {
    var pieces := Split(text, '\n');
    if pieces[|pieces| - 1] != "" then None else ReadLines(pieces[..|pieces| - 1])
  }

  function ReadFiles(texts: seq<string>): Option<seq<Sample>> {
    if texts == [] then Some([])
    else
      var before :- ReadFiles(texts[..|texts| - 1]);
      var rows :- ReadFile(texts[|texts| - 1]);
      Some(before + rows)
  }

  /** What a reader is to learn of a record: its fields, the extended flag, and
      the bytes the frame had, in their order; the other columns blank. */
  function Told(r: Rec): Sample
    requires r.Ok()
  {
    Sample(r.ms, r.id, r.flags % 2, r.dlc, r.mask,
           seq(8, i requires 0 <= i < 8 => if i < r.dlc then Some(r.data[i]) else None))
  }

  function ToldAll(q: seq<Rec>): (rows: seq<Sample>)
    requires RowsOk(q)
    ensures |rows| == |q| && forall i :: 0 <= i < |q| ==> rows[i] == Told(q[i])
  {
    seq(|q|, i requires 0 <= i < |q| => Told(q[i]))
  }

  // ---- splitting ---------------------------------------------------------

  lemma {:induction false} SplitPlain(s: string, sep: char)
    requires sep !in s
    ensures Split(s, sep) == [s]
  {
    if s != "" {
      SplitPlain(s[1..], sep);
      assert [s[0]] + s[1..] == s;
    }
  }

  /** The pieces with the first character put back. */
  function Onto(x: char, ps: seq<string>, sep: char): seq<string>
    requires |ps| > 0
  {
    if x == sep then [""] + ps else [[x] + ps[0]] + ps[1..]
  }

  lemma SplitOnto(x: char, t: string, sep: char)
    ensures Split([x] + t, sep) == Onto(x, Split(t, sep), sep)
  {
    assert ([x] + t)[1..] == t;
  }

  /** More text without a separator lengthens the last piece. */
  lemma {:induction false} SplitMore(a: string, c: string, sep: char)
    requires sep !in c
    ensures var ps := Split(a, sep); Split(a + c, sep) == ps[..|ps| - 1] + [ps[|ps| - 1] + c]
  {
    if a == "" {
      assert a + c == c && "" + c == c;
      SplitPlain(c, sep);
    } else {
      hide Split, Onto;
      var b := a[1..];
      SplitMore(b, c, sep);
      SplitOnto(a[0], b, sep);
      SplitOnto(a[0], b + c, sep);
      assert [a[0]] + b == a && [a[0]] + (b + c) == a + c;
      MoreLast(a[0], Split(b, sep), c, sep);
    }
  }

  lemma MoreLast(x: char, qs: seq<string>, c: string, sep: char)
    requires |qs| > 0
    ensures var rs := qs[..|qs| - 1] + [qs[|qs| - 1] + c];
            var ps := Onto(x, qs, sep);
            |ps| > 0 && Onto(x, rs, sep) == ps[..|ps| - 1] + [ps[|ps| - 1] + c]
  {
    if x != sep && |qs| == 1 {
      assert [x] + (qs[0] + c) == ([x] + qs[0]) + c;
    }
  }

  /** A separator behind the text begins a piece. */
  lemma {:induction false} SplitEnd(a: string, sep: char)
    ensures Split(a + [sep], sep) == Split(a, sep) + [""]
  {
    if a == "" {
      SplitOnto(sep, "", sep);
      assert a + [sep] == [sep] + "";
    } else {
      hide Split, Onto;
      var b := a[1..];
      SplitEnd(b, sep);
      SplitOnto(a[0], b, sep);
      SplitOnto(a[0], b + [sep], sep);
      assert [a[0]] + b == a && [a[0]] + (b + [sep]) == a + [sep];
      OntoMore(a[0], Split(b, sep), sep);
    }
  }

  lemma OntoMore(x: char, qs: seq<string>, sep: char)
    requires |qs| > 0
    ensures Onto(x, qs + [""], sep) == Onto(x, qs, sep) + [""]
  {
    assert (qs + [""])[1..] == qs[1..] + [""];
  }

  /** One more cell. */
  lemma SplitCell(a: string, c: string, sep: char)
    requires sep !in c
    ensures Split(a + [sep] + c, sep) == Split(a, sep) + [c]
  {
    SplitEnd(a, sep);
    SplitMore(a + [sep], c, sep);
    assert "" + c == c;
  }

  // ---- numbers -----------------------------------------------------------

  lemma PlainDecimal(s: string)
    requires AllDigits(s)
    ensures ',' !in s && '\n' !in s
  {
  }

  lemma PlainHex(s: string)
    requires AllHex(s)
    ensures ',' !in s && '\n' !in s
  {
  }

  lemma HexDigitRead(d: nat)
    requires d < 16
    ensures IsHexDigit(HexDigit(d)) && HexDigitValue(HexDigit(d)) == d
  {
  }

  lemma {:induction false} HexRead(n: nat)
    ensures AllHex(Hex(n)) && HexValueOf(Hex(n)) == n
  {
    HexDigitRead(n % 16);
    var ds := Hex(n);
    if n < 16 {
      assert ds[..0] == "" && HexValueOf("") == 0;
    } else {
      HexRead(n / 16);
      assert ds[..|ds| - 1] == Hex(n / 16);
    }
  }

  lemma {:induction false} LeadingZero(ds: string)
    requires AllHex(ds)
    ensures AllHex("0" + ds) && HexValueOf("0" + ds) == HexValueOf(ds)
    decreases |ds|
  {
    var s := "0" + ds;
    if ds == "" {
      assert s[..0] == "" && HexValueOf("") == 0;
    } else {
      LeadingZero(ds[..|ds| - 1]);
      assert s[..|s| - 1] == "0" + ds[..|ds| - 1];
    }
  }

  lemma {:induction false} PadRead(ds: string, k: nat)
    requires AllHex(ds)
    ensures AllHex(PadTo(ds, k)) && HexValueOf(PadTo(ds, k)) == HexValueOf(ds)
    decreases k - |ds|
  {
    if |ds| < k {
      LeadingZero(ds);
      PadRead("0" + ds, k);
    }
  }

  lemma PaddedRead(n: nat, k: nat)
    ensures ReadHex(HexPadded(n, k)) == Some(n) && AllHex(HexPadded(n, k))
    ensures n < Sixteen(k) && k > 0 ==> |HexPadded(n, k)| == k
  {
    hide Hex, HexValueOf;
    HexRead(n);
    PadRead(Hex(n), k);
    if n < Sixteen(k) && k > 0 { HexLength(n, k); }
  }

  lemma DecimalRead(n: nat)
    ensures ReadDecimal(Decimal(n)) == Some(n)
  {
    DecimalValue(n);
  }

  // ---- a row -------------------------------------------------------------

  function Cell(r: Rec, i: nat): string
    requires r.Ok() && i < 8
  {
    if i < r.dlc then HexPadded(r.data[i], 2) else ""
  }

  function ByteCells(r: Rec, n: nat): (cs: seq<string>)
    requires r.Ok() && n <= 8
    ensures |cs| == n && forall i :: 0 <= i < n ==> cs[i] == Cell(r, i)
  {
    seq(n, i requires 0 <= i < n => Cell(r, i))
  }

  function FrontCells(r: Rec): seq<string> {
    [Decimal(r.ms), HexPadded(r.id, 3), Decimal(r.flags % 2), Decimal(r.dlc), HexPadded(r.mask, 2)]
  }

  lemma CellRead(r: Rec, i: nat)
    requires r.Ok() && i < 8
    ensures var c := Cell(r, i);
            && BlankOrByte(c) && ',' !in c && '\n' !in c
            && ReadHex(c) == if i < r.dlc then Some(r.data[i]) else None
  {
    hide HexPadded, ReadHex;
    if i < r.dlc {
      assert Sixteen(2) == 256;
      PaddedRead(r.data[i], 2);
      PlainHex(HexPadded(r.data[i], 2));
    } else {
      NothingRead();
    }
  }

  lemma NothingRead()
    ensures ReadHex("") == None
  {
  }

  function FrontText(r: Rec): string { Front(r) + "," + HexPadded(r.mask, 2) }

  lemma FrontPlain(r: Rec)
    ensures forall i :: 0 <= i < 5 ==> ',' !in FrontCells(r)[i] && '\n' !in FrontCells(r)[i]
  {
    hide Decimal, HexPadded;
    PlainDecimal(Decimal(r.ms));
    PlainDecimal(Decimal(r.flags % 2));
    PlainDecimal(Decimal(r.dlc));
    PaddedRead(r.id, 3);
    PlainHex(HexPadded(r.id, 3));
    PaddedRead(r.mask, 2);
    PlainHex(HexPadded(r.mask, 2));
  }

  lemma FrontSplits(r: Rec)
    ensures Split(FrontText(r), ',') == FrontCells(r)
  {
    hide Decimal, HexPadded, Split;
    FrontPlain(r);
    var cs := FrontCells(r);
    assert forall i :: 0 <= i < 5 ==> ',' !in cs[i];
    SplitPlain(cs[0], ',');
    SplitCell(cs[0], cs[1], ',');
    SplitCell(cs[0] + "," + cs[1], cs[2], ',');
    SplitCell(cs[0] + "," + cs[1] + "," + cs[2], cs[3], ',');
    SplitCell(cs[0] + "," + cs[1] + "," + cs[2] + "," + cs[3], cs[4], ',');
  }

  lemma {:induction false} RowSplits(r: Rec, n: nat)
    requires r.Ok() && n <= 8
    ensures Split(FrontText(r) + Columns(r, n), ',') == FrontCells(r) + ByteCells(r, n)
  {
    hide FrontText, FrontCells, Cell, HexPadded, Split;
    if n == 0 {
      FrontSplits(r);
      assert FrontText(r) + Columns(r, 0) == FrontText(r);
      assert FrontCells(r) + ByteCells(r, 0) == FrontCells(r);
    } else {
      var m: nat := n - 1;
      RowSplits(r, m);
      CellRead(r, m);
      ColumnCell(r, m);
      SplitCell(FrontText(r) + Columns(r, m), Cell(r, m), ',');
      assert FrontText(r) + Columns(r, n) == FrontText(r) + Columns(r, m) + [','] + Cell(r, m);
      assert ByteCells(r, n) == ByteCells(r, m) + [Cell(r, m)];
    }
  }

  lemma ColumnCell(r: Rec, i: nat)
    requires r.Ok() && i < 8
    ensures Column(r, i) == [','] + Cell(r, i)
  {
    hide HexPadded;
  }

  /** The text of a row without its newline. */
  function Body(r: Rec): string
    requires r.Ok()
  {
    FrontText(r) + Columns(r, 8)
  }

  lemma RowBody(r: Rec)
    requires r.Ok()
    ensures RowText(r) == Body(r) + "\n"
  {
    hide Front, HexPadded, Columns;
  }

  lemma {:induction false} BodyPlain(r: Rec, n: nat)
    requires r.Ok() && n <= 8
    ensures '\n' !in FrontText(r) + Columns(r, n)
  {
    hide Cell, HexPadded, Decimal;
    if n == 0 {
      FrontPlain(r);
      var cs := FrontCells(r);
      assert forall i :: 0 <= i < 5 ==> '\n' !in cs[i];
      assert '\n' !in cs[0] && '\n' !in cs[1] && '\n' !in cs[2] && '\n' !in cs[3] && '\n' !in cs[4];
    } else {
      BodyPlain(r, n - 1);
      CellRead(r, n - 1);
      ColumnCell(r, n - 1);
    }
  }

  lemma FrontRead(r: Rec)
    ensures var cs := FrontCells(r);
            && ReadDecimal(cs[0]) == Some(r.ms) && ReadHex(cs[1]) == Some(r.id)
            && ReadDecimal(cs[2]) == Some(r.flags % 2)
            && ReadDecimal(cs[3]) == Some(r.dlc)
            && ReadHex(cs[4]) == Some(r.mask)
  {
    hide ReadDecimal, ReadHex, Decimal, HexPadded;
    DecimalRead(r.ms);
    DecimalRead(r.flags % 2);
    DecimalRead(r.dlc);
    PaddedRead(r.id, 3);
    PaddedRead(r.mask, 2);
  }

  /** Reading a row gives the record back: its fields and its bytes in order. */
  lemma RowReads(r: Rec)
    requires r.Ok()
    ensures Split(Body(r), ',') != NAMES && ReadRow(Split(Body(r), ',')) == Some(Told(r))
  {
    hide ReadDecimal, ReadHex, FrontCells, ByteCells, BlankOrByte, Columns, FrontText, Split, ReadBytes, Told;
    RowSplits(r, 8);
    FrontRead(r);
    FrontCount(r);
    BytesRead(r);
    NamesUnread();
    var cs, bs := FrontCells(r), ByteCells(r, 8);
    assert (cs + bs)[5..] == bs;
    forall i | 5 <= i < 13 ensures BlankOrByte((cs + bs)[i]) { assert (cs + bs)[i] == bs[i - 5]; }
    TellsFields(r);
  }

  lemma TellsFields(r: Rec)
    requires r.Ok()
    ensures Told(r) == Sample(r.ms, r.id, r.flags % 2, r.dlc, r.mask, Told(r).data)
  {
  }

  lemma BytesRead(r: Rec)
    requires r.Ok()
    ensures var bs := ByteCells(r, 8);
            (forall i :: 0 <= i < 8 ==> BlankOrByte(bs[i])) && ReadBytes(bs) == Told(r).data
  {
    hide ReadHex, BlankOrByte, Cell;
    var bs := ByteCells(r, 8);
    forall i | 0 <= i < 8
      ensures BlankOrByte(bs[i]) && ReadHex(bs[i]) == if i < r.dlc then Some(r.data[i]) else None
    {
      CellRead(r, i);
    }
  }

  lemma FrontCount(r: Rec)
    ensures |FrontCells(r)| == 5
  {
  }

  lemma NamesUnread()
    ensures ReadDecimal(NAMES[0]) == None
  {
    assert NAMES[0][0] == 'm';
  }

  // ---- the header --------------------------------------------------------

  const HEAD5 := "ms,id,ext,dlc,changed"
  const HEAD9 := "ms,id,ext,dlc,changed,d0,d1,d2,d3"
  const HEAD13 := "ms,id,ext,dlc,changed,d0,d1,d2,d3,d4,d5,d6,d7"

  lemma Head5Splits()
    ensures Split(HEAD5, ',') == ["ms", "id", "ext", "dlc", "changed"]
  {
    hide Split;
    SplitPlain("ms", ',');
    SplitCell("ms", "id", ',');
    assert "ms" + [','] + "id" == "ms,id";
    SplitCell("ms,id", "ext", ',');
    assert "ms,id" + [','] + "ext" == "ms,id,ext";
    SplitCell("ms,id,ext", "dlc", ',');
    assert "ms,id,ext" + [','] + "dlc" == "ms,id,ext,dlc";
    SplitCell("ms,id,ext,dlc", "changed", ',');
    assert "ms,id,ext,dlc" + [','] + "changed" == HEAD5;
  }

  /** Four more cells. */
  lemma FourCells(a: string, c0: string, c1: string, c2: string, c3: string)
    requires ',' !in c0 && ',' !in c1 && ',' !in c2 && ',' !in c3
    ensures Split(a + [','] + c0 + [','] + c1 + [','] + c2 + [','] + c3, ',') == Split(a, ',') + [c0, c1, c2, c3]
  {
    hide Split;
    SplitCell(a, c0, ',');
    SplitCell(a + [','] + c0, c1, ',');
    SplitCell(a + [','] + c0 + [','] + c1, c2, ',');
    SplitCell(a + [','] + c0 + [','] + c1 + [','] + c2, c3, ',');
  }

  lemma Head13Splits()
    ensures Split(HEAD13, ',') == NAMES
  {
    hide Split;
    Head5Splits();
    FourCells(HEAD5, "d0", "d1", "d2", "d3");
    FourCells(HEAD9, "d4", "d5", "d6", "d7");
    assert HEAD5 + [','] + "d0" + [','] + "d1" + [','] + "d2" + [','] + "d3" == HEAD9;
    assert HEAD9 + [','] + "d4" + [','] + "d5" + [','] + "d6" + [','] + "d7" == HEAD13;
  }

  lemma Head9Plain()
    ensures '\n' !in HEAD9
  {
    assert HEAD9 == HEAD5 + ",d0,d1,d2,d3";
  }

  lemma HeadPlain()
    ensures '\n' !in HEAD13
  {
    Head9Plain();
    assert HEAD13 == HEAD9 + ",d4,d5,d6,d7";
  }

  lemma HeaderSplits()
    ensures HEADER == HEADER[..|HEADER| - 1] + "\n" && '\n' !in HEADER[..|HEADER| - 1]
    ensures Split(HEADER[..|HEADER| - 1], ',') == NAMES
  {
    hide Split;
    Head13Splits();
    HeadPlain();
    assert HEADER[..|HEADER| - 1] == HEAD13;
  }

  // ---- files -------------------------------------------------------------

  function LineBody(l: Line): string
    requires l.Row? ==> l.r.Ok()
  {
    if l.Head? then HEADER[..|HEADER| - 1] else Body(l.r)
  }

  lemma LineIs(l: Line)
    requires l.Row? ==> l.r.Ok()
    ensures LineText(l) == LineBody(l) + "\n" && '\n' !in LineBody(l)
  {
    hide RowText, FrontText, Columns, Split;
    HeaderSplits();
    if l.Row? {
      RowBody(l.r);
      BodyPlain(l.r, 8);
      assert Body(l.r) == FrontText(l.r) + Columns(l.r, 8);
    }
  }

  function Bodies(ls: seq<Line>): (bs: seq<string>)
    requires LinesOk(ls)
    ensures |bs| == |ls| && forall i :: 0 <= i < |ls| ==> bs[i] == LineBody(ls[i])
  {
    seq(|ls|, i requires 0 <= i < |ls| => LineBody(ls[i]))
  }

  lemma {:induction false} FileSplits(ls: seq<Line>)
    requires LinesOk(ls)
    ensures Split(Render(ls), '\n') == Bodies(ls) + [""]
  {
    hide LineText, LineBody, Rec.Ok;
    if ls == [] {
      SplitPlain("", '\n');
    } else {
      var n := |ls| - 1;
      FileSplits(ls[..n]);
      LineIs(ls[n]);
      LinePieces(Render(ls[..n]), Bodies(ls[..n]), LineBody(ls[n]));
      assert Bodies(ls) == Bodies(ls[..n]) + [LineBody(ls[n])];
      assert Render(ls) == Render(ls[..n]) + (LineBody(ls[n]) + "\n");
    }
  }

  /** One more whole line behind whole lines. */
  lemma LinePieces(text: string, bs: seq<string>, body: string)
    requires Split(text, '\n') == bs + [""] && '\n' !in body
    ensures Split(text + (body + "\n"), '\n') == bs + [body] + [""]
  {
    hide Split;
    SplitMore(text, body, '\n');
    assert (bs + [""])[..|bs|] == bs && "" + body == body;
    SplitEnd(text + body, '\n');
    assert text + body + ['\n'] == text + (body + "\n");
  }

  lemma {:induction false} LinesRead(ls: seq<Line>)
    requires LinesOk(ls)
    ensures RowsOk(RowsOf(ls)) && ReadLines(Bodies(ls)) == Some(ToldAll(RowsOf(ls)))
  {
    hide ReadRow, Split, Told, Body, Rec.Ok;
    if ls != [] {
      var n := |ls| - 1;
      LinesRead(ls[..n]);
      assert Bodies(ls)[..n] == Bodies(ls[..n]);
      if ls[n].Row? {
        RowReads(ls[n].r);
        assert ToldAll(RowsOf(ls)) == ToldAll(RowsOf(ls[..n])) + [Told(ls[n].r)];
      } else {
        HeaderSplits();
        assert RowsOf(ls) == RowsOf(ls[..n]);
      }
    }
  }

  /** Reading a file gives its records, in order. */
  lemma FileReads(ls: seq<Line>)
    requires LinesOk(ls)
    ensures RowsOk(RowsOf(ls)) && ReadFile(Render(ls)) == Some(ToldAll(RowsOf(ls)))
  {
    hide Split, Render, RowsOf, ReadLines, Bodies, Rec.Ok;
    FileSplits(ls);
    LinesRead(ls);
    var bs := Bodies(ls);
    assert (bs + [""])[..|bs|] == bs;
  }

  // ---- what is on flash --------------------------------------------------

  function Texts(fs: seq<seq<Line>>): (ts: seq<string>)
    requires forall i :: 0 <= i < |fs| ==> LinesOk(fs[i])
    ensures |ts| == |fs| && forall i :: 0 <= i < |fs| ==> ts[i] == Render(fs[i])
  {
    seq(|fs|, i requires 0 <= i < |fs| => Render(fs[i]))
  }

  lemma {:induction false} ClosedRead(fs: seq<seq<Line>>)
    requires forall i :: 0 <= i < |fs| ==> LinesOk(fs[i])
    ensures RowsOk(ClosedRows(fs)) && ReadFiles(Texts(fs)) == Some(ToldAll(ClosedRows(fs)))
  {
    hide ReadFile, Render, RowsOf, LinesOk, Told, Rec.Ok;
    if fs != [] {
      var n := |fs| - 1;
      ClosedRead(fs[..n]);
      FileReads(fs[n]);
      assert Texts(fs)[..n] == Texts(fs[..n]);
      ToldJoin(ClosedRows(fs[..n]), RowsOf(fs[n]));
    }
  }

  lemma ToldJoin(a: seq<Rec>, b: seq<Rec>)
    requires RowsOk(a) && RowsOk(b)
    ensures RowsOk(a + b) && ToldAll(a + b) == ToldAll(a) + ToldAll(b)
  {
    hide Told, Rec.Ok;
  }

  /** Reading the files, the closed ones and the open one, gives the records
      the ring accepted, up to the cursor: each once, in order, byte for byte. */
  lemma FlashReads(l: Log)
    requires Inv(l)
    ensures FilesOk(l) && RowsOk(l.accepted) && l.given + l.cursor.row <= |l.accepted|
    ensures ReadFiles(Texts(l.closed + [l.file])) == Some(ToldAll(l.accepted)[..l.given + l.cursor.row])
  {
    hide ReadFiles, Texts, Told, ClosedRows, RowsOf, LinesOk, Rec.Ok, Blank;
    var fs := l.closed + [l.file];
    assert fs[..|fs| - 1] == l.closed;
    ClosedRead(fs);
    OneMoreFile(l.closed, l.file);
    var n := l.given + l.cursor.row;
    assert ToldAll(l.accepted[..n]) == ToldAll(l.accepted)[..n];
  }

  lemma OneMoreFile(closed: seq<seq<Line>>, file: seq<Line>)
    ensures ClosedRows(closed + [file]) == ClosedRows(closed) + RowsOf(file)
  {
    assert (closed + [file])[..|closed|] == closed;
  }

  /** So it is in every run, and of the text that the drain in place holds. */
  lemma FilesTellTheTruth(cap: u32, es: seq<Event>)
    ensures var l := Run(Fresh(cap), es);
            && FilesOk(l) && RowsOk(l.accepted) && l.given + l.cursor.row <= |l.accepted|
            && ReadFiles(Texts(l.closed + [l.file])) == Some(ToldAll(l.accepted)[..l.given + l.cursor.row])
  {
    hide Run, Inv, ReadFiles, Texts, ToldAll, FilesOk;
    ExactlyOnce(cap, es);
    FlashReads(Run(Fresh(cap), es));
  }

  lemma DrainerTellsTheTruth(d: Drainer)
    requires d.Valid()
    ensures RowsOk(d.accepted) && d.given + d.cursor.row <= |d.accepted|
    ensures ReadFiles(d.closed + [d.text]) == Some(ToldAll(d.accepted)[..d.given + d.cursor.row])
  {
    hide Inv, ReadFiles, ToldAll, Render;
    FlashReads(d.State());
    assert Texts(d.closedLines + [d.lines]) == d.closed + [d.text];
  }
}
