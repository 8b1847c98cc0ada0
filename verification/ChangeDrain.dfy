/** drainChangeLog: rows leave the ring for the active change file, through
    failed opens, failed writes, rotation, closes and compaction, exactly once
    and in order. */
module ChangeDrain {
  import opened Words
  import opened ChangeLog

  /** The change log and its files. accepted and given are history: every row
      the ring took, and how many were handed back to the producer. */
  datatype Log = Log(cap: u32, ring: seq<Rec>, cursor: CsvCursor, open: bool, file: seq<Line>,
                     closed: seq<seq<Line>>, accepted: seq<Rec>, given: nat)

  /** The rows in the closed files, file by file. */
  function ClosedRows(fs: seq<seq<Line>>): seq<Rec> {
    if fs == [] then [] else ClosedRows(fs[..|fs| - 1]) + RowsOf(fs[|fs| - 1])
  }

  /** Every row that reached flash, across successive files. */
  function Written(l: Log): seq<Rec> {
    ClosedRows(l.closed) + RowsOf(l.file)
  }

  // ---- operations --------------------------------------------------------

  /** A row from the producer: a full ring refuses it. */
  function Accept(l: Log, r: Rec): Log {
    if |l.ring| < l.cap then l.(ring := l.ring + [r], accepted := l.accepted + [r]) else l
  }

  /** closeActive on the change file. */
  function Close(l: Log): Log {
    if l.open then l.(open := false, file := [], closed := l.closed + [l.file]) else l
  }

  function Bytes(ls: seq<Line>): nat {
    if LinesOk(ls) then |Render(ls)| else 0
  }

  /** ensureOpen: rotate a full file, open one if none is open. */
  function EnsureOpen(l: Log, openOk: bool): Log {
    var m := if l.open && Bytes(l.file) >= FILE_MAX_BYTES then Close(l) else l;
    if !m.open && openOk then m.(open := true, file := []) else m
  }

  /** writeActive, all or nothing. */
  function Put(l: Log, ls: seq<Line>, ok: bool): Log {
    if ok then l.(file := l.file + ls) else l
  }

  /** Hand drained rows back once they fill a quarter of the ring. */
  function Compact(l: Log): Log {
    if l.cap > 0 && l.cursor.row > Wrap(l.cap * COMPACT_AT_PCT) / 100 then
      var k := Min(l.cursor.row, |l.ring|);
      l.(ring := l.ring[k..], given := l.given + k, cursor := l.cursor.(row := l.cursor.row - k))
    else l
  }

  /** One call of drainChangeLog. The flags say what the filesystem does. */
  function Drain(l: Log, running: bool, openOk: bool, headOk: bool, chunkOk: bool): Log
    requires RowsOk(l.ring)
  {
    var l0 := if l.cursor.row > |l.ring| then l.(cursor := CsvCursor(0, false)) else l;
    if l.cap == 0 || (!running && |l0.ring| == l0.cursor.row) then l0
    else
      var chunk := ChunkLines(l0.ring, l0.cursor);
      if chunk == [] then l0 else WriteOut(l0, chunk, ChunkCursor(l0.ring, l0.cursor), openOk, headOk, chunkOk)
  }

  /** The chunk goes to the active file, with a header before it where one is
      due; the cursor moves on once it is written. */
  function WriteOut(l: Log, chunk: seq<Line>, next: CsvCursor, openOk: bool, headOk: bool, chunkOk: bool): Log {
    var l1 := EnsureOpen(l, openOk);
    if !l1.open then l1
    else
      var l2 := if l1.file == [] && l.cursor.headerDone then Put(l1, [Head], headOk) else l1;
      if !chunkOk then l2 else Compact(Put(l2, chunk, true).(cursor := next))
  }

  lemma DrainRows(l: Log, running: bool, openOk: bool, headOk: bool, chunkOk: bool)
    requires RowsOk(l.ring)
    ensures RowsOk(Drain(l, running, openOk, headOk, chunkOk).ring)
  {
    hide ChunkLines, ChunkCursor, WriteOut;
    var l0 := if l.cursor.row > |l.ring| then l.(cursor := CsvCursor(0, false)) else l;
    WrittenRows(l0, ChunkLines(l0.ring, l0.cursor), ChunkCursor(l0.ring, l0.cursor), openOk, headOk, chunkOk);
  }

  lemma WrittenRows(l: Log, chunk: seq<Line>, next: CsvCursor, openOk: bool, headOk: bool, chunkOk: bool)
    requires RowsOk(l.ring)
    ensures RowsOk(WriteOut(l, chunk, next, openOk, headOk, chunkOk).ring)
  {
    hide Rec.Ok, EnsureOpen;
    OpenFrame(l, openOk);
  }

  // ---- invariant ---------------------------------------------------------

  predicate FilesOk(l: Log) {
    && LinesOk(l.file) && (forall i :: 0 <= i < |l.closed| ==> LinesOk(l.closed[i]))
    && (!l.open ==> l.file == [])
  }

  /** Nothing is written before the first header. */
  predicate Blank(l: Log) {
    l.cursor.row == 0 && l.given == 0 && l.file == [] && forall i :: 0 <= i < |l.closed| ==> l.closed[i] == []
  }

  /** What is on flash is what the ring accepted, up to the cursor. */
  ghost predicate Inv(l: Log) {
    && RowsOk(l.accepted) && l.given <= |l.accepted|
    && l.ring == l.accepted[l.given..] && l.cursor.row <= |l.ring| <= l.cap
    && FilesOk(l)
    && (!l.cursor.headerDone ==> Blank(l))
    && Written(l) == l.accepted[..l.given + l.cursor.row]
  }

  /** A file starts with the header and has no other. */
  predicate Headed(f: seq<Line>) {
    f != [] ==> f[0] == Head && forall i :: 0 < i < |f| ==> f[i].Row?
  }

  predicate AllHeaded(l: Log) {
    Headed(l.file) && forall i :: 0 <= i < |l.closed| ==> Headed(l.closed[i])
  }

  // ---- lemmas ------------------------------------------------------------

  lemma {:induction false} RowsOfAppend(a: seq<Line>, b: seq<Line>)
    ensures RowsOf(a + b) == RowsOf(a) + RowsOf(b)
    decreases |b|
  {
    if b == [] {
      assert a + b == a;
    } else {
      var n := |b| - 1;
      assert (a + b)[..|a + b| - 1] == a + b[..n];
      RowsOfAppend(a, b[..n]);
    }
  }

  lemma {:induction false} RowsOfLines(q: seq<Rec>)
    ensures RowsOf(Lines(q)) == q
    decreases |q|
  {
    if q != [] {
      var n := |q| - 1;
      assert Lines(q)[..n] == Lines(q[..n]);
      RowsOfLines(q[..n]);
      assert q == q[..n] + [q[n]];
    }
  }

  lemma HeadRows()
    ensures RowsOf([]) == [] && RowsOf([Head]) == []
  {
    assert [Head][..0] == [];
  }

  /** A chunk holds the rows between the cursors. */
  lemma ChunkRows(q: seq<Rec>, c: CsvCursor)
    requires RowsOk(q) && c.row <= |q|
    ensures var c' := ChunkCursor(q, c);
            && c.row <= c'.row && (c.row < |q| ==> c.row < c'.row && ChunkLines(q, c) != [])
            && RowsOf(ChunkLines(q, c)) == q[c.row..c'.row]
  {
    hide RowsOf, RowsThatFit, Rec.Ok;
    var rows := q[c.row..ChunkCursor(q, c).row];
    RowsOfAppend(if c.headerDone then [] else [Head], Lines(rows));
    RowsOfLines(rows);
    HeadRows();
  }

  lemma ChunkLinesOk(q: seq<Rec>, c: CsvCursor)
    requires RowsOk(q) && c.row <= |q|
    ensures LinesOk(ChunkLines(q, c))
    ensures (c.headerDone ==> forall i :: 0 <= i < |ChunkLines(q, c)| ==> ChunkLines(q, c)[i].Row?)
    ensures (!c.headerDone ==> Headed(ChunkLines(q, c)) && ChunkLines(q, c) != [])
  {
    hide RowsThatFit, Rec.Ok;
  }

  lemma CloseKeeps(l: Log)
    requires Inv(l)
    ensures Inv(Close(l)) && Written(Close(l)) == Written(l) && Close(l).cursor == l.cursor
    ensures AllHeaded(l) ==> AllHeaded(Close(l))
  {
    if l.open {
      var fs := l.closed + [l.file];
      assert fs[..|fs| - 1] == l.closed;
      assert RowsOf([]) == [];
    }
  }

  lemma OpenKeeps(l: Log, openOk: bool)
    requires Inv(l)
    ensures var m := EnsureOpen(l, openOk); Inv(m) && m.cursor == l.cursor && (openOk ==> m.open)
    ensures AllHeaded(l) ==> AllHeaded(EnsureOpen(l, openOk))
  {
    CloseKeeps(l);
  }

  lemma HeadKeeps(l: Log, ok: bool)
    requires Inv(l) && l.open && l.file == [] && l.cursor.headerDone
    ensures Inv(Put(l, [Head], ok)) && (AllHeaded(l) ==> AllHeaded(Put(l, [Head], ok)))
  {
    assert [Head][..0] == [] && RowsOf([Head]) == [];
  }

  lemma CompactKeeps(l: Log)
    requires Inv(l)
    ensures var m := Compact(l);
            && Inv(m) && Written(m) == Written(l) && (AllHeaded(l) ==> AllHeaded(m))
            && m.accepted == l.accepted && m.cap == l.cap
  {
  }

  /** The log once the chunk is written. */
  function Chunked(l: Log): Log
    requires RowsOk(l.ring) && l.cursor.row <= |l.ring|
  {
    Put(l, ChunkLines(l.ring, l.cursor), true).(cursor := ChunkCursor(l.ring, l.cursor))
  }

  lemma ChunkWritten(l: Log)
    requires RowsOk(l.ring) && l.cursor.row <= |l.ring|
    ensures Written(Chunked(l)) == Written(l) + l.ring[l.cursor.row..ChunkCursor(l.ring, l.cursor).row]
  {
    hide ChunkLines, ChunkCursor, RowsOf, ClosedRows, RowsOk;
    ChunkRows(l.ring, l.cursor);
    RowsOfAppend(l.file, ChunkLines(l.ring, l.cursor));
  }

  lemma ChunkFiles(l: Log)
    requires RowsOk(l.ring) && l.cursor.row <= |l.ring| && FilesOk(l) && l.open
    ensures FilesOk(Chunked(l))
  {
    hide ChunkLines, ChunkCursor, RowsOk, LinesOk;
    ChunkLinesOk(l.ring, l.cursor);
    LinesJoin(l.file, ChunkLines(l.ring, l.cursor));
  }

  /** The rows of a ring are those accepted behind the ones given back. */
  lemma Onward(accepted: seq<Rec>, given: nat, a: nat, b: nat)
    requires given + a <= given + b <= |accepted|
    ensures accepted[..given + a] + accepted[given..][a..b] == accepted[..given + b]
  {
  }

  /** Writing the chunk moves file and cursor together. */
  lemma ChunkKeeps(l: Log)
    requires Inv(l) && l.open
    ensures l.cursor.row <= |l.ring| && RowsOk(l.ring)
    ensures Inv(Chunked(l))
    ensures l.cursor.row < |l.ring| ==> |Written(Chunked(l))| > |Written(l)|
  {
    hide ChunkLines, ChunkCursor, Written, FilesOk, Rec.Ok, Blank;
    var c := ChunkCursor(l.ring, l.cursor);
    ChunkRows(l.ring, l.cursor);
    ChunkWritten(l);
    ChunkFiles(l);
    Onward(l.accepted, l.given, l.cursor.row, c.row);
  }

  lemma ChunkHeaded(l: Log)
    requires Inv(l) && l.open && AllHeaded(l) && (l.cursor.headerDone ==> l.file != [])
    ensures l.cursor.row <= |l.ring| && RowsOk(l.ring) && AllHeaded(Chunked(l))
  {
    hide ChunkLines, ChunkCursor, RowsOf, ClosedRows, Rec.Ok;
    ChunkLinesOk(l.ring, l.cursor);
  }

  /** Exactly-once, one drain at a time: whatever fails, what is on flash stays
      the accepted rows up to the cursor; a drain that meets no failure writes
      at least one pending row; and while header writes succeed, every file
      has its header, once, at the top. */
  lemma DrainKeeps(l: Log, running: bool, openOk: bool, headOk: bool, chunkOk: bool)
    requires Inv(l)
    ensures RowsOk(l.ring)
    ensures var m := Drain(l, running, openOk, headOk, chunkOk);
            && Inv(m) && m.accepted == l.accepted && m.cap == l.cap
            && (AllHeaded(l) && headOk ==> AllHeaded(m))
            && (chunkOk && openOk && l.cursor.row < |l.ring| ==> |Written(m)| > |Written(l)|)
  {
    hide Inv, ChunkLines, ChunkCursor, Compact, AllHeaded, EnsureOpen, Written;
    DrainCase(l);
    if l.cursor.row < |l.ring| { ChunkRows(l.ring, l.cursor); }
    var m := EnsureOpen(l, openOk);
    OpenKeeps(l, openOk);
    OpenFrame(l, openOk);
    DrainCase(m);
    if m.open {
      var h := if m.file == [] && m.cursor.headerDone then Put(m, [Head], headOk) else m;
      if m.file == [] && m.cursor.headerDone { HeadKeeps(m, headOk); }
      DrainCase(h);
      ChunkKeeps(h);
      if AllHeaded(l) && headOk { ChunkHeaded(h); }
      CompactKeeps(Chunked(h));
    }
  }

  lemma OpenFrame(l: Log, openOk: bool)
    ensures var m := EnsureOpen(l, openOk);
            m.ring == l.ring && m.cursor == l.cursor && m.accepted == l.accepted && m.cap == l.cap && m.given == l.given
  {
  }

  /** With the invariant, the guards of the drain that would reset the cursor
      never fire. */
  lemma DrainCase(l: Log)
    requires Inv(l)
    ensures l.cursor.row <= |l.ring| <= l.cap && RowsOk(l.ring) && |Written(l)| == l.given + l.cursor.row
    ensures Written(l) <= l.accepted
  {
  }

  // ---- whole runs --------------------------------------------------------

  /** What happens to the log; recorderClear is not among it. */
  datatype Event =
    | Offer(r: Rec)
    | IdleClose
    | DrainCall(running: bool, openOk: bool, headOk: bool, chunkOk: bool)

  function Step(l: Log, e: Event): (m: Log)
    requires RowsOk(l.ring)
    ensures RowsOk(m.ring)
  {
    match e
    case Offer(r) => if r.Ok() then Accept(l, r) else l
    case IdleClose => Close(l)
    case DrainCall(running, openOk, headOk, chunkOk) =>
      DrainRows(l, running, openOk, headOk, chunkOk);
      Drain(l, running, openOk, headOk, chunkOk)
  }

  function Run(l: Log, es: seq<Event>): (m: Log)
    requires RowsOk(l.ring)
    ensures RowsOk(m.ring)
  {
    if es == [] then l else Step(Run(l, es[..|es| - 1]), es[|es| - 1])
  }

  function Fresh(cap: u32): Log {
    Log(cap, [], CsvCursor(0, false), false, [], [], [], 0)
  }

  lemma AcceptKeeps(l: Log, r: Rec)
    requires Inv(l) && r.Ok()
    ensures Inv(Accept(l, r)) && (AllHeaded(l) ==> AllHeaded(Accept(l, r)))
  {
    hide RowsOf, ClosedRows;
    if |l.ring| < l.cap {
      var m := Accept(l, r);
      var n := l.given + l.cursor.row;
      assert m.accepted[..n] == l.accepted[..n];
      assert m.accepted[l.given..] == l.accepted[l.given..] + [r];
    }
  }

  lemma FreshInv(cap: u32)
    ensures Inv(Fresh(cap)) && AllHeaded(Fresh(cap))
  {
    assert RowsOf([]) == [] && ClosedRows([]) == [];
  }

  /** In every run, the rows on flash are a prefix of the rows the ring
      accepted: in order, none twice, none left out. */
  lemma {:induction false} ExactlyOnce(cap: u32, es: seq<Event>)
    ensures Inv(Run(Fresh(cap), es)) && Written(Run(Fresh(cap), es)) <= Run(Fresh(cap), es).accepted
    ensures (forall e :: e in es && e.DrainCall? ==> e.headOk) ==> AllHeaded(Run(Fresh(cap), es))
    decreases |es|
  {
    hide Drain, Inv, Accept, Close, AllHeaded, Written;
    if es == [] {
      FreshInv(cap);
    } else {
      var es', e := es[..|es| - 1], es[|es| - 1];
      ExactlyOnce(cap, es');
      var l := Run(Fresh(cap), es');
      match e
      case Offer(r) => if r.Ok() { AcceptKeeps(l, r); }
      case IdleClose => CloseKeeps(l);
      case DrainCall(running, openOk, headOk, chunkOk) => DrainKeeps(l, running, openOk, headOk, chunkOk);
    }
    DrainCase(Run(Fresh(cap), es));
  }

  // ---- sizes -------------------------------------------------------------

  /** The longest a chunk can be, from what is in the buffer on. */
  lemma {:induction false} RowsFit(q: seq<Rec>, row: nat, n: nat)
    requires RowsOk(q) && n < 2048
    ensures row <= |q| ==>
              var rows := q[row..row + RowsThatFit(q, row, n)];
              LinesOk(Lines(rows)) && n + |Render(Lines(rows))| < 2048
    decreases |q| - row
  {
    hide RowText, Rec.Ok, RowsThatFit, Render, Lines, LinesOk;
    RowsNext(q, row, n);
    if row < |q| && n + 96 < 2048 {
      RowLength(q[row]);
      var m := n + |RowText(q[row])|;
      RowsFit(q, row + 1, m);
      var k := RowsThatFit(q, row + 1, m);
      var rest := q[row + 1..row + 1 + k];
      assert q[row..row + 1 + k] == [q[row]] + rest;
      FirstRow(q[row], rest);
    } else if row <= |q| {
      assert q[row..row + 0] == [];
      NoRows();
    }
  }

  lemma NoRows()
    ensures LinesOk(Lines([])) && Render(Lines([])) == ""
  {
  }

  lemma RowsNext(q: seq<Rec>, row: nat, n: nat)
    requires RowsOk(q)
    ensures RowsThatFit(q, row, n) ==
            if row < |q| && n + 96 < 2048 then 1 + RowsThatFit(q, row + 1, n + |RowText(q[row])|) else 0
  {
    hide RowText, Rec.Ok;
  }

  lemma FirstRow(r: Rec, rest: seq<Rec>)
    requires r.Ok() && RowsOk(rest)
    ensures LinesOk(Lines([r] + rest)) && |Render(Lines([r] + rest))| == |RowText(r)| + |Render(Lines(rest))|
  {
    hide RowText, Rec.Ok;
    assert Lines([r] + rest) == [Row(r)] + Lines(rest);
    RenderAppend([Row(r)], Lines(rest));
    OneLine(Row(r));
  }

  lemma OneLine(l: Line)
    requires l.Row? ==> l.r.Ok()
    ensures Render([l]) == LineText(l)
  {
    hide RowText;
    assert [l][..0] == [] && Render([]) == "" && "" + LineText(l) == LineText(l);
  }

  lemma ChunkFits(q: seq<Rec>, c: CsvCursor)
    requires RowsOk(q) && c.row <= |q|
    ensures LinesOk(ChunkLines(q, c)) && |Render(ChunkLines(q, c))| < 2048
  {
    hide RowsThatFit, Render, Rec.Ok;
    ChunkLinesOk(q, c);
    HeaderLength();
    var n := if c.headerDone then 0 else |HEADER|;
    RowsFit(q, c.row, n);
    var rows := Lines(q[c.row..c.row + RowsThatFit(q, c.row, n)]);
    RenderAppend(if c.headerDone then [] else [Head], rows);
    RenderHead();
    NoLines();
  }

  lemma HeaderLength()
    ensures |HEADER| == 46
  {
  }

  /** No file is longer than 65536 bytes, a header and a chunk. */
  predicate Short(f: seq<Line>) { LinesOk(f) && |Render(f)| <= 65535 + 46 + 2047 }

  predicate AllShort(l: Log) { Short(l.file) && forall i :: 0 <= i < |l.closed| ==> Short(l.closed[i]) }

  lemma OpenShort(l: Log, openOk: bool)
    requires AllShort(l) && (!l.open ==> l.file == [])
    ensures var m := EnsureOpen(l, openOk); AllShort(m) && |Render(m.file)| <= 65535
  {
    hide Render;
    NoLines();
  }

  lemma PutShort(file: seq<Line>, chunk: seq<Line>, head: bool)
    requires LinesOk(file) && |Render(file)| <= 65535 && LinesOk(chunk) && |Render(chunk)| <= 2047
    ensures Short(file) && Short(file + chunk) && Short(file + [Head]) && Short(file + [Head] + chunk)
  {
    hide Render, Rec.Ok;
    HeaderLength();
    RenderHead();
    RenderAppend(file, chunk);
    RenderAppend(file, [Head]);
    RenderAppend(file + [Head], chunk);
  }

  lemma DrainShort(l: Log, running: bool, openOk: bool, headOk: bool, chunkOk: bool)
    requires RowsOk(l.ring) && AllShort(l) && (!l.open ==> l.file == []) && l.cursor.row <= |l.ring|
    ensures AllShort(Drain(l, running, openOk, headOk, chunkOk))
  {
    hide Render, ChunkLines, ChunkCursor, EnsureOpen, Short, Rec.Ok;
    ChunkFits(l.ring, l.cursor);
    OpenShort(l, openOk);
    var m := EnsureOpen(l, openOk);
    ShortOk(m);
    PutShort(m.file, ChunkLines(l.ring, l.cursor), true);
    OpenFrame(l, openOk);
  }

  lemma ShortOk(l: Log)
    requires AllShort(l)
    ensures LinesOk(l.file)
  {
  }

  /** In every run every file stays within that size. */
  lemma {:induction false} FilesShort(cap: u32, es: seq<Event>)
    ensures AllShort(Run(Fresh(cap), es))
    decreases |es|
  {
    hide Drain, Inv, Accept, Short;
    if es == [] {
      NothingShort();
    } else {
      var es', e := es[..|es| - 1], es[|es| - 1];
      FilesShort(cap, es');
      ExactlyOnce(cap, es');
      var l := Run(Fresh(cap), es');
      InvFiles(l);
      NothingShort();
      match e
      case Offer(r) => AcceptFiles(l, r);
      case IdleClose =>
      case DrainCall(running, openOk, headOk, chunkOk) => DrainShort(l, running, openOk, headOk, chunkOk);
    }
  }

  lemma AcceptFiles(l: Log, r: Rec)
    ensures Accept(l, r).file == l.file && Accept(l, r).closed == l.closed
  {
  }

  lemma NothingShort()
    ensures Short([])
  {
    NoLines();
  }

  lemma InvFiles(l: Log)
    requires Inv(l)
    ensures (!l.open ==> l.file == []) && l.cursor.row <= |l.ring|
  {
  }

  /** When rows are handed back: once the drained ones pass a quarter of the
      ring, all of them at once. */
  lemma CompactMeans(l: Log)
    requires Inv(l) && l.cap * 25 < U32
    ensures Compact(l) == if l.cap > 0 && l.cursor.row > l.cap / 4 then
                            l.(ring := l.ring[l.cursor.row..], given := l.given + l.cursor.row,
                               cursor := CsvCursor(0, l.cursor.headerDone))
                          else l
  {
    hide Written, FilesOk, Blank, RowsOk;
    var cap: int := l.cap;
    Quarter(cap);
    WrapFits(cap * 25);
  }

  lemma Quarter(cap: nat)
    ensures cap * 25 / 100 == cap / 4
  {
  }

  // ---- the drain in place ------------------------------------------------

  /** The change-log half of filestore.cpp: the cursor and the active file. The
      ring's rows are what SpscRuns.Queue stands for. */
  class Drainer {
    const cap: u32
    var ring: seq<Rec>
    var cursor: CsvCursor
    var open: bool
    var text: string
    var closed: seq<string>
    ghost var lines: seq<Line>
    ghost var closedLines: seq<seq<Line>>
    ghost var accepted: seq<Rec>
    ghost var given: nat

    ghost function State(): Log
      reads this
    {
      Log(cap, ring, cursor, open, lines, closedLines, accepted, given)
    }

    ghost predicate Valid()
      reads this
    {
      && Inv(State()) && LinesOk(lines) && text == Render(lines)
      && |closed| == |closedLines|
      && forall i :: 0 <= i < |closed| ==> LinesOk(closedLines[i]) && closed[i] == Render(closedLines[i])
    }

    constructor (cap: u32)
      ensures Valid() && State() == Fresh(cap)
    {
      this.cap := cap;
      ring, cursor, open, text, closed := [], CsvCursor(0, false), false, "", [];
      lines, closedLines, accepted, given := [], [], [], 0;
      new;
      ExactlyOnce(cap, []);
    }

    method CloseActive()
      requires Valid()
      modifies this
      ensures Valid() && State() == Close(old(State()))
    {
      hide Inv, Render, Rec.Ok;
      CloseKeeps(State());
      NoLines();
      if open {
        open, closed, text := false, closed + [text], "";
        closedLines, lines := closedLines + [lines], [];
      }
    }

    method EnsureOpenFile(openOk: bool)
      requires Valid()
      modifies this
      ensures Valid() && State() == EnsureOpen(old(State()), openOk)
    {
      OpenKeeps(State(), openOk);
      if open && |text| >= FILE_MAX_BYTES { CloseActive(); }
      if !open && openOk { open := true; }
    }

    /** writeActive: all the bytes, or none. */
    method WriteActive(bytes: string, ghost ls: seq<Line>, ok: bool)
      requires LinesOk(lines) && text == Render(lines) && LinesOk(ls) && bytes == Render(ls)
      modifies this`text, this`lines
      ensures LinesOk(lines) && text == Render(lines) && lines == if ok then old(lines) + ls else old(lines)
    {
      if ok {
        RenderAppend(lines, ls);
        text, lines := text + bytes, lines + ls;
      }
    }

    /** A file begun mid-stream needs its own header. */
    method WriteHeader(before: CsvCursor, headOk: bool)
      requires LinesOk(lines) && text == Render(lines)
      modifies this`text, this`lines
      ensures LinesOk(lines) && text == Render(lines)
      ensures lines == if old(lines) == [] && before.headerDone && headOk then [Head] else old(lines)
    {
      RenderEmpty(lines);
      if |text| == 0 && before.headerDone {
        RenderHead();
        WriteActive(HEADER, [Head], headOk);
      }
    }

    method DrainChangeLog(running: bool, openOk: bool, headOk: bool, chunkOk: bool)
      requires Valid()
      modifies this
      ensures Valid() && State() == Drain(old(State()), running, openOk, headOk, chunkOk)
    {
      hide Inv, ChunkLines, ChunkCursor, WriteOut, Render, RowText, RowsThatFit, Written, AllHeaded, Rec.Ok;
      DrainCase(State());
      // The reset of a cursor beyond the end answers recorderClear alone.
      assert cursor.row <= |ring|;
      if cap == 0 || (!running && |ring| == cursor.row) { return; }
      var chunk, next := CsvChunk(ring, cursor);
      ghost var ls := ChunkLines(ring, cursor);
      RenderEmpty(ls);
      if |chunk| == 0 { return; }
      WriteChunk(chunk, next, ls, openOk, headOk, chunkOk);
    }

    method WriteChunk(chunk: string, next: CsvCursor, ghost ls: seq<Line>, openOk: bool, headOk: bool, chunkOk: bool)
      requires Valid() && cap > 0 && cursor.row <= |ring| <= cap && RowsOk(ring)
      requires ls == ChunkLines(ring, cursor) && ls != [] && LinesOk(ls) && chunk == Render(ls)
               && next == ChunkCursor(ring, cursor)
      modifies this
      ensures Valid() && State() == WriteOut(old(State()), ls, next, openOk, headOk, chunkOk)
    {
      hide Inv, ChunkLines, ChunkCursor, EnsureOpen, Compact, Render, RowText, RowsThatFit, Written, AllHeaded, Rec.Ok;
      DrainKeeps(State(), true, openOk, headOk, chunkOk);
      var before := cursor;
      EnsureOpenFile(openOk);
      if !open { return; }
      ghost var l1 := State();
      assert [] + [Head] == [Head];
      WriteHeader(before, headOk);
      ghost var l2 := if l1.file == [] && before.headerDone then Put(l1, [Head], headOk) else l1;
      assert State() == l2;
      WriteActive(chunk, ls, chunkOk);
      if !chunkOk { return; }
      cursor := next;
      assert State() == Put(l2, ls, true).(cursor := next);
      CompactRing();
    }

    method CompactRing()
      modifies this`ring, this`given, this`cursor
      ensures State() == Compact(old(State()))
    {
      if cap > 0 && cursor.row > Wrap(cap * COMPACT_AT_PCT) / 100 {
        var dropped := Min(cursor.row, |ring|);
        ring, given := ring[dropped..], given + dropped;
        cursor := cursor.(row := cursor.row - dropped);
      }
    }
  }

  lemma LinesJoin(a: seq<Line>, b: seq<Line>)
    requires LinesOk(a) && LinesOk(b)
    ensures LinesOk(a + b)
  {
    hide Rec.Ok;
  }

  lemma {:induction false} RenderAppend(a: seq<Line>, b: seq<Line>)
    requires LinesOk(a) && LinesOk(b)
    ensures LinesOk(a + b) && Render(a + b) == Render(a) + Render(b)
    decreases |b|
  {
    hide LineText, Rec.Ok;
    LinesJoin(a, b);
    if b == [] {
      assert a + b == a;
    } else {
      var c := b[..|b| - 1];
      RenderAppend(a, c);
      assert (a + b)[..|a + b| - 1] == a + c;
    }
  }

  lemma NoLines()
    ensures LinesOk([]) && Render([]) == ""
  {
  }

  lemma RenderEmpty(ls: seq<Line>)
    requires LinesOk(ls)
    ensures |Render(ls)| == 0 <==> ls == []
  {
    if ls != [] && ls[|ls| - 1].Row? { RowLength(ls[|ls| - 1].r); }
  }

  lemma RenderHead()
    ensures LinesOk([Head]) && Render([Head]) == HEADER
  {
    assert [Head][..0] == [] && Render([]) == "";
    assert Render([Head]) == "" + HEADER;
  }
}
