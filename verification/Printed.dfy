/**
 * Files as the kernel prints them, with numbers in decimal and any blanks between columns,
 * and what both readers make of them.
 */
module Printed {
  import opened Wrappers
  import opened Text
  import opened ProcReaders

  /** Blanks within a line. */
  predicate Gap(s: string) {
    forall c | c in s :: c == ' ' || c == '\t'
  }

  /** Numbers, each after a gap of its own. */
  type Columns = seq<(string, nat)>

  predicate GoodColumns(cols: Columns) {
    forall i | 0 <= i < |cols| :: Gap(cols[i].0) && (i > 0 ==> cols[i].0 != "")
  }

  function Cells(cols: Columns): (cells: seq<(string, string)>)
    ensures |cells| == |cols|
    ensures forall i | 0 <= i < |cols| :: cells[i] == (cols[i].0, Decimal(cols[i].1))
  {
    seq(|cols|, i requires 0 <= i < |cols| => (cols[i].0, Decimal(cols[i].1)))
  }

  /** A row of /proc/net/dev: a padded name, a colon, and its columns. */
  datatype NetLine = NetLine(lead: string, name: string, trail: string, cols: Columns, tail: string) {
    predicate Good() {
      && Gap(lead) && Gap(trail) && Gap(tail) && Word(name) && ':' !in name
      && |cols| >= 11 && GoodColumns(cols)
      && forall i | 0 <= i < |cols| :: cols[i].1 < U64
    }

    function Line(): string {
      lead + name + trail + ":" + Laid(Cells(cols), tail)
    }

    function Rest(): string {
      Laid(Cells(cols), tail)
    }
  }

  lemma GapIsBlank(s: string)
    requires Gap(s)
    ensures Blank(s) && ':' !in s && '\n' !in s
    ensures s != "" ==> Last(s) != '\r'
  {
    assert White(' ') && White('\t');
    assert s != "" ==> Last(s) in s;
  }

  lemma ColumnWords(cols: Columns, tail: string)
    requires GoodColumns(cols) && Gap(tail)
    ensures Words(Laid(Cells(cols), tail)) == CellWords(Cells(cols))
    ensures |CellWords(Cells(cols))| == |cols|
    ensures forall i | 0 <= i < |cols| :: CellWords(Cells(cols))[i] == Decimal(cols[i].1)
  {
    var cells := Cells(cols);
    forall i | 0 <= i < |cells| ensures Blank(cells[i].0) && Word(cells[i].1) {
      GapIsBlank(cols[i].0);
      DecimalIsWord(cols[i].1);
    }
    GapIsBlank(tail);
    WordsOfLaid(cells, tail);
  }

  lemma {:induction false} LaidIsPlain(cells: seq<(string, string)>, tail: string)
    requires Gap(tail) && forall c | c in cells :: Gap(c.0) && Word(c.1)
    ensures '\n' !in Laid(cells, tail)
    ensures Laid(cells, tail) != "" ==> Last(Laid(cells, tail)) != '\r'
  {
    assert White('\n') && White('\r');
    GapIsBlank(tail);
    if cells != [] {
      var c, rest := cells[0], Laid(cells[1..], tail);
      LaidIsPlain(cells[1..], tail);
      assert c in cells;
      if rest == "" {
        assert Last(c.0 + (c.1 + rest)) == Last(c.1) && Last(c.1) in c.1;
      } else {
        assert Last(c.0 + (c.1 + rest)) == Last(rest);
      }
    }
  }

  lemma NetLineIsPlain(l: NetLine)
    requires l.Good()
    ensures PlainLine(l.Line())
  {
    GapIsBlank(l.lead);
    GapIsBlank(l.trail);
    assert White('\n');
    var cells := Cells(l.cols);
    forall i | 0 <= i < |cells| ensures Gap(cells[i].0) && Word(cells[i].1) {
      DecimalIsWord(l.cols[i].1);
    }
    LaidIsPlain(cells, l.tail);
    var head := l.lead + l.name + l.trail + ":";
    assert cells[0].1 != "" && l.Rest() != "";
    assert Last(head + l.Rest()) == Last(l.Rest());
  }

  /** A printed row reads as its unpadded name and columns 0, 2, 8 and 10. */
  lemma PrintedNetRow(l: NetLine)
    requires l.Good()
    ensures NetRow(l.Line()) ==
      Some(NetDev(l.name, l.cols[0].1, l.cols[2].1, l.cols[8].1, l.cols[10].1))
  {
    GapIsBlank(l.lead);
    GapIsBlank(l.trail);
    var head := l.lead + l.name + l.trail;
    assert ':' !in head;
    SplitOnceAt(head, ':', l.Rest());
    NameTrims(l.lead, l.name, l.trail);
    ColumnWords(l.cols, l.tail);
    forall i | 0 <= i < |l.cols| ensures OrZero(Decimal(l.cols[i].1)) == l.cols[i].1 {
      ParseDecimal(l.cols[i].1);
    }
  }

  lemma NameTrims(lead: string, name: string, trail: string)
    requires Gap(lead) && Gap(trail) && Word(name)
    ensures Trim(lead + name + trail) == name
  {
    GapIsBlank(lead);
    GapIsBlank(trail);
    assert name[0] in name && Last(name) in name;
    TrimPadded(lead, name, trail);
  }

  function NetText(lines: seq<NetLine>): (text: seq<string>)
    ensures |text| == |lines| && forall i | 0 <= i < |lines| :: text[i] == lines[i].Line()
  {
    seq(|lines|, i requires 0 <= i < |lines| => lines[i].Line())
  }

  predicate AllGood(lines: seq<NetLine>) {
    forall i | 0 <= i < |lines| :: lines[i].Good()
  }

  /** What a printed row says. */
  function Told(l: NetLine): NetDev
    requires l.Good()
  {
    NetDev(l.name, l.cols[0].1, l.cols[2].1, l.cols[8].1, l.cols[10].1)
  }

  function AllTold(lines: seq<NetLine>): (rows: seq<NetDev>)
    requires AllGood(lines)
    ensures |rows| == |lines| && forall i | 0 <= i < |lines| :: rows[i] == Told(lines[i])
  {
    seq(|lines|, i requires 0 <= i < |lines| => Told(lines[i]))
  }

  lemma TextFront(lines: seq<NetLine>)
    requires lines != []
    ensures NetText(lines) == NetText(Front(lines)) + [Last(lines).Line()]
  {
  }

  lemma ToldFront(lines: seq<NetLine>)
    requires lines != [] && AllGood(lines)
    ensures AllTold(lines) == AllTold(Front(lines)) + [Told(Last(lines))]
  {
  }

  lemma RowsGrow(lines: seq<string>, line: string)
    requires NetRow(line).Some?
    ensures NetRows(lines + [line]) == NetRows(lines) + [NetRow(line).value]
  {
    assert Front(lines + [line]) == lines;
  }

  lemma {:induction false} PrintedNetRows(lines: seq<NetLine>)
    requires AllGood(lines)
    ensures NetRows(NetText(lines)) == AllTold(lines)
  {
    if lines != [] {
      PrintedNetRows(Front(lines));
      PrintedNetRow(Last(lines));
      TextFront(lines);
      ToldFront(lines);
      RowsGrow(NetText(Front(lines)), Last(lines).Line());
    }
  }

  /** A column summed over every interface but loopback. */
  function Column(lines: seq<NetLine>, k: nat): nat
    requires AllGood(lines) && k < 11
  {
    if lines == [] then 0
    else Column(Front(lines), k) + (if Last(lines).name == "lo" then 0 else Last(lines).cols[k].1)
  }

  /** Columns 0, 8, 2 and 10, summed over every interface but `lo`. */
  function Columns4(lines: seq<NetLine>): Totals
    requires AllGood(lines)
  {
    Totals(Column(lines, 0), Column(lines, 8), Column(lines, 2), Column(lines, 10))
  }

  lemma {:induction false} PrintedTotals(lines: seq<NetLine>)
    requires AllGood(lines)
    ensures SumCounted(AllTold(lines)) == Columns4(lines)
  {
    if lines != [] {
      PrintedTotals(Front(lines));
      assert Last(lines).name != "";
      ToldFront(lines);
      RowAppended(AllTold(Front(lines)), Told(Last(lines)));
    }
  }

  lemma NetTextLines(lines: seq<NetLine>)
    requires AllGood(lines)
    ensures Lines(Unlines(NetText(lines))) == NetText(lines)
  {
    forall t | t in NetText(lines) ensures PlainLine(t) {
      var i :| 0 <= i < |lines| && NetText(lines)[i] == t;
      NetLineIsPlain(lines[i]);
    }
    LinesOfUnlines(NetText(lines));
  }

  /**
   * On a printed file the parser gives every row under its unpadded name, and the agent's
   * figures are columns 0, 8, 2 and 10 summed over every interface but `lo`.
   */
  method ReadPrinted(lines: seq<NetLine>) returns (rows: seq<NetDev>, t: Totals)
    requires AllGood(lines) && Columns4(lines).Fits()
    ensures |rows| == |lines|
    ensures forall i | 0 <= i < |lines| ::
      rows[i] == NetDev(
        lines[i].name, lines[i].cols[0].1, lines[i].cols[2].1, lines[i].cols[8].1, lines[i].cols[10].1)
    ensures t == Totals(Column(lines, 0), Column(lines, 8), Column(lines, 2), Column(lines, 10))
  {
    NetTextLines(lines);
    PrintedNetRows(lines);
    PrintedTotals(lines);
    rows := ParseNetDev(Unlines(NetText(lines)));
    t := ReadNetDev(Unlines(NetText(lines)));
  }

  /** A printed row of /proc/diskstats: two numbers, a name, and seven or more counters. */
  datatype DiskLine = DiskLine(major: nat, minor: nat, name: string, counters: seq<nat>, gap: string) {
    predicate Good() {
      && Gap(gap) && gap != "" && Word(name)
      && |counters| >= 7 && forall i | 0 <= i < |counters| :: counters[i] < U64
    }

    function Field(i: nat): string
      requires i < 3 + |counters|
    {
      if i == 0 then Decimal(major) else if i == 1 then Decimal(minor)
      else if i == 2 then name else Decimal(counters[i - 3])
    }

    function FieldCells(): (cells: seq<(string, string)>)
      ensures |cells| == 3 + |counters|
      ensures forall i | 0 <= i < |cells| :: cells[i] == (gap, Field(i))
    {
      seq(3 + |counters|, i requires 0 <= i < 3 + |counters| => (gap, Field(i)))
    }

    function Line(): string {
      Laid(FieldCells(), "")
    }
  }

  lemma DiskLineWords(l: DiskLine)
    requires l.Good()
    ensures |Words(l.Line())| == 3 + |l.counters| && PlainLine(l.Line())
    ensures forall i | 0 <= i < 3 + |l.counters| :: Words(l.Line())[i] == l.Field(i)
  {
    GapIsBlank(l.gap);
    var cells := l.FieldCells();
    forall i | 0 <= i < |cells| ensures Word(cells[i].1) {
      FieldIsWord(l, i);
    }
    WordsOfLaid(cells, "");
    LaidIsPlain(cells, "");
  }

  lemma FieldIsWord(l: DiskLine, i: nat)
    requires l.Good() && i < 3 + |l.counters|
    ensures Word(l.Field(i))
  {
    DecimalIsWord(l.major);
    DecimalIsWord(l.minor);
    if i > 2 {
      DecimalIsWord(l.counters[i - 3]);
    }
  }

  lemma CounterParses(l: DiskLine, i: nat)
    requires l.Good() && i < |l.counters|
    ensures |Words(l.Line())| == 3 + |l.counters| && Words(l.Line())[3 + i] == Decimal(l.counters[i])
    ensures ParseU64(Words(l.Line())[3 + i]) == Some(l.counters[i])
  {
    DiskLineWords(l);
    assert Words(l.Line())[3 + i] == l.Field(3 + i);
    ParseDecimal(l.counters[i]);
  }

  /** A printed row reads as its name and counters 0, 2, 4 and 6. */
  lemma PrintedDiskRow(l: DiskLine)
    requires l.Good()
    ensures |Words(l.Line())| >= 10
    ensures StatOf(Words(l.Line())) ==
      DiskStat(l.name, l.counters[0], l.counters[2], l.counters[4], l.counters[6])
  {
    DiskLineWords(l);
    assert Words(l.Line())[2] == l.Field(2);
    CounterParses(l, 0);
    CounterParses(l, 2);
    CounterParses(l, 4);
    CounterParses(l, 6);
  }

  /** The agent makes 512 bytes of each of its sectors. */
  lemma PrintedDiskBytes(l: DiskLine, table: map<string, (nat, nat)>)
    requires l.Good() && !Virtual(l.name) && l.counters[2] * 512 < U64 && l.counters[6] * 512 < U64
    ensures |Words(l.Line())| >= 10
    ensures AgentRow(table, Words(l.Line())) == table[l.name := (l.counters[2] * 512, l.counters[6] * 512)]
  {
    DiskLineWords(l);
    assert Words(l.Line())[2] == l.Field(2);
    CounterParses(l, 2);
    CounterParses(l, 6);
    RowBytes(Words(l.Line()), l.counters[2], l.counters[6], table);
  }

  lemma RowBytes(f: Row, input: nat, output: nat, table: map<string, (nat, nat)>)
    requires ParseU64(f[5]) == Some(input) && ParseU64(f[9]) == Some(output) && !Virtual(f[2])
    requires input * 512 < U64 && output * 512 < U64
    ensures AgentRow(table, f) == table[f[2] := (input * 512, output * 512)]
  {
  }
}
