/**
 * Two independent readers of the same /proc files: the agent's fused loops and the
 * diagnostics crate's row parsers. Sums and products wrap at 64 bits, as release builds do.
 */
module ProcReaders {
  import opened Wrappers
  import opened Text

  function OrZero(s: string): nat {
    ParseU64(s).GetOr(0)
  }

  // ------------------------------------------------------------------------------ /proc/net/dev

  datatype NetDev = NetDev(interface: string, rxBytes: nat, rxErrs: nat, txBytes: nat, txErrs: nat)

  /** One well-formed row of the file, as diagnostics reads it. */
  function NetRow(line: string): Option<NetDev> {
    match SplitOnce(line, ':')
    case None => None
    case Some((iface, rest)) =>
      var f := Words(rest);
      if |f| < 11 then None
      else Some(NetDev(Trim(iface), OrZero(f[0]), OrZero(f[2]), OrZero(f[8]), OrZero(f[10])))
  }

  function NetRows(lines: seq<string>): seq<NetDev> {
    if lines == [] then []
    else
      match NetRow(Last(lines))
      case None => NetRows(Front(lines))
      case Some(row) => NetRows(Front(lines)) + [row]
  }

  method ParseNetDev(text: string) returns (out: seq<NetDev>)
    ensures out == NetRows(Lines(text))
  {
    out := [];
    var lines := Lines(text);
    for i := 0 to |lines|
      invariant out == NetRows(lines[..i])
    {
      assert Front(lines[..i + 1]) == lines[..i];
      var cut := SplitOnce(lines[i], ':');
      if cut.None? {
        continue;
      }
      var f := Words(cut.value.1);
      if |f| < 11 {
        continue;
      }
      out := out + [NetDev(Trim(cut.value.0), OrZero(f[0]), OrZero(f[2]), OrZero(f[8]), OrZero(f[10]))];
    }
    assert lines[..|lines|] == lines;
  }

  predicate Counted(row: NetDev) {
    row.interface != "lo" && row.interface != ""
  }

  datatype Totals = Totals(rx: nat, tx: nat, rxErrs: nat, txErrs: nat) {
    function Plus(row: NetDev): Totals {
      Totals(rx + row.rxBytes, tx + row.txBytes, rxErrs + row.rxErrs, txErrs + row.txErrs)
    }

    function Wrapped(): Totals {
      Totals(rx % U64, tx % U64, rxErrs % U64, txErrs % U64)
    }

    /** Four additions, each wrapping at 64 bits. */
    function Add(rxBytes: nat, txBytes: nat, rxErrors: nat, txErrors: nat): Totals {
      Totals((rx + rxBytes) % U64, (tx + txBytes) % U64, (rxErrs + rxErrors) % U64, (txErrs + txErrors) % U64)
    }

    predicate Fits() {
      rx < U64 && tx < U64 && rxErrs < U64 && txErrs < U64
    }
  }

  /** The exact sums over the interfaces that count. */
  function SumCounted(rows: seq<NetDev>): Totals {
    if rows == [] then Totals(0, 0, 0, 0)
    else if Counted(Last(rows)) then SumCounted(Front(rows)).Plus(Last(rows))
    else SumCounted(Front(rows))
  }

  lemma WrapAdds(a: nat, b: nat)
    ensures (a % U64 + b) % U64 == (a + b) % U64
  {
    var q := a / U64;
    assert a == q * U64 + a % U64;
    assert a + b == q * U64 + (a % U64 + b);
  }

  lemma WrapPlus(t: Totals, row: NetDev)
    ensures t.Wrapped().Plus(row).Wrapped() == t.Plus(row).Wrapped()
  {
    WrapAdds(t.rx, row.rxBytes);
    WrapAdds(t.tx, row.txBytes);
    WrapAdds(t.rxErrs, row.rxErrs);
    WrapAdds(t.txErrs, row.txErrs);
  }

  lemma RowAppended(rows: seq<NetDev>, row: NetDev)
    ensures SumCounted(rows + [row]) == if Counted(row) then SumCounted(rows).Plus(row) else SumCounted(rows)
  {
    assert Front(rows + [row]) == rows;
  }

  /**
   * The agent's fused loop reads, on any text, exactly the wrapped sums of what the
   * diagnostics parser reads minus loopback and unnamed interfaces.
   */
  method ReadNetDev(text: string) returns (t: Totals)
    ensures t == SumCounted(NetRows(Lines(text))).Wrapped()
    ensures SumCounted(NetRows(Lines(text))).Fits() ==> t == SumCounted(NetRows(Lines(text)))
  {
    t := Totals(0, 0, 0, 0);
    var lines := Lines(text);
    for i := 0 to |lines|
      invariant t == SumCounted(NetRows(lines[..i])).Wrapped()
    {
      assert lines[..i + 1] == lines[..i] + [lines[i]];
      LineAppended(lines[..i], lines[i]);
      t := AddLine(t, lines[i]);
    }
    assert lines[..|lines|] == lines;
    FitsUnwrapped(SumCounted(NetRows(lines)));
  }

  lemma FitsUnwrapped(t: Totals)
    ensures t.Fits() ==> t.Wrapped() == t
  {
  }

  predicate CountsLine(line: string) {
    NetRow(line).Some? && Counted(NetRow(line).value)
  }

  lemma LineAppended(lines: seq<string>, line: string)
    ensures
      var before, after := SumCounted(NetRows(lines)), SumCounted(NetRows(lines + [line]));
      after.Wrapped() ==
        if CountsLine(line) then before.Wrapped().Plus(NetRow(line).value).Wrapped() else before.Wrapped()
  {
    assert Front(lines + [line]) == lines;
    if NetRow(line).Some? {
      RowAppended(NetRows(lines), NetRow(line).value);
      WrapPlus(SumCounted(NetRows(lines)), NetRow(line).value);
    }
  }

  lemma AddsRow(t: Totals, row: NetDev)
    ensures t.Add(row.rxBytes, row.txBytes, row.rxErrs, row.txErrs) == t.Plus(row).Wrapped()
  {
  }

  /** One turn of the agent's loop. */
  method AddLine(t: Totals, line: string) returns (sum: Totals)
    ensures sum == if CountsLine(line) then t.Plus(NetRow(line).value).Wrapped() else t
  {
    var cut := SplitOnce(line, ':');
    if cut.None? {
      return t;
    }
    var iface := Trim(cut.value.0);
    if iface == "lo" || iface == "" {
      return t;
    }
    var cols := Words(cut.value.1);
    if |cols| < 11 {
      return t;
    }
    ghost var row := NetDev(iface, OrZero(cols[0]), OrZero(cols[2]), OrZero(cols[8]), OrZero(cols[10]));
    assert NetRow(line) == Some(row);
    AddsRow(t, row);
    sum := t.Add(OrZero(cols[0]), OrZero(cols[8]), OrZero(cols[2]), OrZero(cols[10]));
  }

  // ----------------------------------------------------------------------------- /proc/diskstats

  const SECTOR_BYTES: nat := 512

  datatype DiskStat = DiskStat(
    device: string, readsCompleted: nat, sectorsRead: nat, writesCompleted: nat, sectorsWritten: nat)

  /** A line with enough fields, split into words. */
  type Row = f: seq<string> | |f| >= 10 witness seq(10, _ => "")

  function Rows(lines: seq<string>): seq<Row> {
    if lines == [] then []
    else if |Words(Last(lines))| < 10 then Rows(Front(lines))
    else Rows(Front(lines)) + [Words(Last(lines))]
  }

  function StatOf(f: Row): DiskStat {
    DiskStat(f[2], OrZero(f[3]), OrZero(f[5]), OrZero(f[7]), OrZero(f[9]))
  }

  function Stats(rows: seq<Row>): seq<DiskStat> {
    if rows == [] then [] else Stats(Front(rows)) + [StatOf(Last(rows))]
  }

  method ParseDiskstats(text: string) returns (out: seq<DiskStat>)
    ensures out == Stats(Rows(Lines(text)))
  {
    out := [];
    var lines := Lines(text);
    for i := 0 to |lines|
      invariant out == Stats(Rows(lines[..i]))
    {
      ghost var rows := Rows(lines[..i]);
      assert Front(lines[..i + 1]) == lines[..i];
      var f := Words(lines[i]);
      if |f| < 10 {
        continue;
      }
      assert Front(rows + [f]) == rows;
      out := out + [StatOf(f)];
    }
    assert lines[..|lines|] == lines;
  }

  predicate Virtual(device: string) {
    "loop" <= device || "ram" <= device
  }

  predicate SectorsParse(f: Row) {
    ParseU64(f[5]).Some? && ParseU64(f[9]).Some?
  }

  function Bytes(stat: DiskStat): (nat, nat) {
    (stat.sectorsRead * SECTOR_BYTES % U64, stat.sectorsWritten * SECTOR_BYTES % U64)
  }

  /** One row's effect on the agent's table. */
  function AgentRow(table: map<string, (nat, nat)>, f: Row): map<string, (nat, nat)> {
    if Virtual(f[2]) || !SectorsParse(f) then table else table[f[2] := Bytes(StatOf(f))]
  }

  function AgentTable(rows: seq<Row>): map<string, (nat, nat)> {
    if rows == [] then map[] else AgentRow(AgentTable(Front(rows)), Last(rows))
  }

  method InsertRow(table: map<string, (nat, nat)>, f: Row) returns (out: map<string, (nat, nat)>)
    ensures out == AgentRow(table, f)
  {
    if "loop" <= f[2] || "ram" <= f[2] {
      return table;
    }
    var rd, wr := ParseU64(f[5]), ParseU64(f[9]);
    if rd.None? || wr.None? {
      return table;
    }
    out := table[f[2] := (rd.value * SECTOR_BYTES % U64, wr.value * SECTOR_BYTES % U64)];
  }

  method ReadDiskstats(text: string) returns (out: map<string, (nat, nat)>)
    ensures out == AgentTable(Rows(Lines(text)))
  {
    out := map[];
    var lines := Lines(text);
    for i := 0 to |lines|
      invariant out == AgentTable(Rows(lines[..i]))
    {
      ghost var rows := Rows(lines[..i]);
      assert Front(lines[..i + 1]) == lines[..i];
      var f := Words(lines[i]);
      if |f| >= 10 {
        assert Front(rows + [f]) == rows;
        out := InsertRow(out, f);
      }
    }
    assert lines[..|lines|] == lines;
  }

  /** What diagnostics' rows give for a device when later rows replace earlier ones. */
  function LastWins(stats: seq<DiskStat>): map<string, (nat, nat)> {
    if stats == [] then map[]
    else if Virtual(Last(stats).device) then LastWins(Front(stats))
    else LastWins(Front(stats))[Last(stats).device := Bytes(Last(stats))]
  }

  /** The newest row for `device`, of those that parse if `parsing` is set. */
  function NewestRow(rows: seq<Row>, device: string, parsing: bool): Option<Row> {
    if rows == [] then None
    else if Last(rows)[2] == device && (parsing ==> SectorsParse(Last(rows))) then Some(Last(rows))
    else NewestRow(Front(rows), device, parsing)
  }

  function Entry(row: Option<Row>): Option<(nat, nat)> {
    match row
    case None => None
    case Some(f) => Some(Bytes(StatOf(f)))
  }

  function Get(m: map<string, (nat, nat)>, device: string): Option<(nat, nat)> {
    if device in m then Some(m[device]) else None
  }

  /** The newest row for the device, if it has one, has both sector fields readable. */
  predicate NewestParses(rows: seq<Row>, device: string) {
    NewestRow(rows, device, false).Some? ==> SectorsParse(NewestRow(rows, device, false).value)
  }

  lemma {:induction false} NewestOfBoth(rows: seq<Row>, device: string)
    requires NewestParses(rows, device)
    ensures NewestRow(rows, device, true) == NewestRow(rows, device, false)
  {
    if rows != [] && Last(rows)[2] != device {
      NewestOfBoth(Front(rows), device);
    }
  }

  lemma {:induction false} AgentByNewest(rows: seq<Row>, device: string)
    requires !Virtual(device)
    ensures Get(AgentTable(rows), device) == Entry(NewestRow(rows, device, true))
  {
    if rows != [] {
      AgentByNewest(Front(rows), device);
    }
  }

  lemma {:induction false} LastWinsByNewest(rows: seq<Row>, device: string)
    requires !Virtual(device)
    ensures Get(LastWins(Stats(rows)), device) == Entry(NewestRow(rows, device, false))
  {
    if rows != [] {
      LastWinsByNewest(Front(rows), device);
      assert Front(Stats(rows)) == Stats(Front(rows));
    }
  }

  lemma {:induction false} NoVirtualDevices(rows: seq<Row>, device: string)
    requires Virtual(device)
    ensures device !in AgentTable(rows) && device !in LastWins(Stats(rows))
  {
    if rows != [] {
      NoVirtualDevices(Front(rows), device);
      assert Front(Stats(rows)) == Stats(Front(rows));
    }
  }

  /** Sector counts that come to the same bytes modulo 2^64 are those equal modulo this. */
  const SECTORS: nat := 0x80_0000_0000_0000

  lemma BytesOfSectors(n: nat)
    ensures n * SECTOR_BYTES % U64 == n % SECTORS * SECTOR_BYTES
  {
    var q, r := n / SECTORS, n % SECTORS;
    assert n * SECTOR_BYTES == q * U64 + r * SECTOR_BYTES;
    assert 0 <= r * SECTOR_BYTES < U64;
  }

  lemma SectorBytes(a: nat, b: nat)
    ensures a * SECTOR_BYTES % U64 == b * SECTOR_BYTES % U64 <==> a % SECTORS == b % SECTORS
  {
    BytesOfSectors(a);
    BytesOfSectors(b);
  }

  /** The readable field `older` stands for what `newer` gives, an unreadable one giving zero. */
  predicate StandsFor(older: string, newer: string)
    requires ParseU64(older).Some?
  {
    match ParseU64(newer)
    case Some(v) => ParseU64(older).value % SECTORS == v % SECTORS
    case None => ParseU64(older).value % SECTORS == 0
  }

  /**
   * What the rows themselves must show for a device: none of them names it; or the newest
   * that does has both sector fields readable; or an older one does, and the newest of
   * those stands for it in both fields.
   */
  predicate RowsAgree(rows: seq<Row>, device: string) {
    var newest, parsing := NewestRow(rows, device, false), NewestRow(rows, device, true);
    newest.None? || SectorsParse(newest.value)
    || (parsing.Some? && SectorsParse(parsing.value)
        && StandsFor(parsing.value[5], newest.value[5]) && StandsFor(parsing.value[9], newest.value[9]))
  }

  lemma {:induction false} ParsingParses(rows: seq<Row>, device: string)
    ensures NewestRow(rows, device, true).Some? ==> SectorsParse(NewestRow(rows, device, true).value)
  {
    if rows != [] {
      ParsingParses(Front(rows), device);
    }
  }

  /** The readers agree on a device exactly when its rows do, field by field. */
  lemma DiskReadersAgreeExactly(rows: seq<Row>, device: string)
    requires !Virtual(device)
    ensures Get(AgentTable(rows), device) == Get(LastWins(Stats(rows)), device) <==> RowsAgree(rows, device)
  {
    AgentByNewest(rows, device);
    LastWinsByNewest(rows, device);
    ParsingParses(rows, device);
    var newest, parsing := NewestRow(rows, device, false), NewestRow(rows, device, true);
    if newest.None? || SectorsParse(newest.value) {
      NewestOfBoth(rows, device);
    } else if parsing.Some? {
      EntriesAgree(parsing.value, newest.value);
    }
  }

  lemma EntriesAgree(older: Row, newer: Row)
    requires SectorsParse(older)
    ensures Bytes(StatOf(older)) == Bytes(StatOf(newer))
      <==> StandsFor(older[5], newer[5]) && StandsFor(older[9], newer[9])
  {
    FieldsAgree(older[5], newer[5]);
    FieldsAgree(older[9], newer[9]);
  }

  lemma FieldsAgree(older: string, newer: string)
    requires ParseU64(older).Some?
    ensures OrZero(older) * SECTOR_BYTES % U64 == OrZero(newer) * SECTOR_BYTES % U64 <==> StandsFor(older, newer)
  {
    SectorBytes(OrZero(older), OrZero(newer));
  }

  /**
   * Print any two rows for a device, the newer with an unreadable sector field: the agent
   * keeps the older row's figures, diagnostics shows the newer one's, zero for that field.
   */
  lemma DiskReadersDisagree(older: Row, newer: Row, device: string)
    requires (forall w | w in older :: Word(w)) && (forall w | w in newer :: Word(w))
    requires older[2] == newer[2] == device && !Virtual(device)
    requires SectorsParse(older) && !SectorsParse(newer)
    ensures
      var rows := Rows(Lines(Unlines([Spaced(older), Spaced(newer)])));
      && Get(AgentTable(rows), device) == Some(Bytes(StatOf(older)))
      && Get(LastWins(Stats(rows)), device) == Some(Bytes(StatOf(newer)))
  {
    PrintedRows(older, newer);
    TwoRows(older, newer, device);
  }

  /** A row for `sda` with the given count of sectors read. */
  function SdaRow(sectors: string): Row {
    ["8", "0", "sda", "1", "0", sectors, "1", "0", "0", "0"]
  }

  /** Two such rows whose figures differ: one with a "1", the newer one with a "?". */
  lemma SuchRows()
    ensures !Virtual("sda") && SdaRow("1")[2] == SdaRow("?")[2] == "sda"
    ensures (forall w | w in SdaRow("1") :: Word(w)) && (forall w | w in SdaRow("?") :: Word(w))
    ensures SectorsParse(SdaRow("1")) && !SectorsParse(SdaRow("?"))
    ensures Bytes(StatOf(SdaRow("1"))) == (SECTOR_BYTES, 0) && Bytes(StatOf(SdaRow("?"))) == (0, 0)
  {
    PlainFields();
    SdaWords("1");
    SdaWords("?");
    assert "loop"[0] == 'l' && "ram"[0] == 'r';
  }

  lemma SdaWords(sectors: string)
    requires |sectors| == 1 && !White(sectors[0])
    ensures forall w | w in SdaRow(sectors) :: Word(w)
  {
    assert Word(sectors);
    assert !White('8') && !White('0') && !White('1') && !White('s') && !White('d') && !White('a');
  }

  lemma PlainFields()
    ensures ParseU64("1") == Some(1) && ParseU64("0") == Some(0) && ParseU64("?") == None
  {
    assert Front("1") == "" && Front("0") == "";
    assert Digits("1") == 1 && Digits("0") == 0;
    assert '?' in "?" && !Digit('?');
  }

  lemma PrintedRows(a: Row, b: Row)
    requires (forall w | w in a :: Word(w)) && (forall w | w in b :: Word(w))
    ensures Rows(Lines(Unlines([Spaced(a), Spaced(b)]))) == [a, b]
  {
    var lines := [Spaced(a), Spaced(b)];
    WordsOfSpaced(a);
    WordsOfSpaced(b);
    SpacedIsPlain(a);
    SpacedIsPlain(b);
    LinesOfUnlines(lines);
    assert Front(lines) == [Spaced(a)] && Front([Spaced(a)]) == [];
    assert Rows([Spaced(a)]) == [a];
  }

  lemma TwoRows(a: Row, b: Row, device: string)
    requires a[2] == b[2] == device && !Virtual(device) && SectorsParse(a) && !SectorsParse(b)
    ensures Get(AgentTable([a, b]), device) == Some(Bytes(StatOf(a)))
    ensures Get(LastWins(Stats([a, b])), device) == Some(Bytes(StatOf(b)))
  {
    assert Front([a, b]) == [a];
    AgentByNewest([a, b], device);
    LastWinsByNewest([a, b], device);
    assert NewestRow([a], device, true) == Some(a);
  }

  /** The agent keeps a device exactly when it is not virtual and some row of it parses. */
  lemma AgentKeepsExactly(rows: seq<Row>, device: string)
    ensures device in AgentTable(rows) <==> !Virtual(device) && NewestRow(rows, device, true).Some?
  {
    if Virtual(device) {
      NoVirtualDevices(rows, device);
    } else {
      AgentByNewest(rows, device);
    }
  }

  /** A comment in the agent's loop has it skip partitions; it keeps them. */
  lemma PartitionsAreKept(rows: seq<Row>)
    requires NewestRow(rows, "sda1", true).Some?
    ensures "sda1" in AgentTable(rows)
  {
    AgentKeepsExactly(rows, "sda1");
    assert "loop"[0] == 'l' && "ram"[0] == 'r';
  }

  /** Where every row parses, the agent's table is the diagnostics rows', later rows winning. */
  lemma DiskReadersAgree(text: string)
    requires forall r | r in Rows(Lines(text)) :: SectorsParse(r)
    ensures AgentTable(Rows(Lines(text))) == LastWins(Stats(Rows(Lines(text))))
  {
    var rows := Rows(Lines(text));
    var a, d := AgentTable(rows), LastWins(Stats(rows));
    forall device ensures Get(a, device) == Get(d, device) {
      if Virtual(device) {
        NoVirtualDevices(rows, device);
      } else {
        NewestIsARow(rows, device);
        DiskReadersAgreeExactly(rows, device);
      }
    }
    assert forall device :: device in a <==> Get(a, device).Some?;
    assert forall device :: device in d <==> Get(d, device).Some?;
  }

  lemma {:induction false} NewestIsARow(rows: seq<Row>, device: string)
    ensures NewestRow(rows, device, false).Some? ==> NewestRow(rows, device, false).value in rows
  {
    if rows != [] {
      NewestIsARow(Front(rows), device);
    }
  }

  /** The names the agent skips. */
  lemma VirtualExactly(device: string)
    ensures Virtual(device) <==> exists rest: string :: device == "loop" + rest || device == "ram" + rest
  {
    if "loop" <= device {
      assert device == "loop" + device[4..];
    }
    if "ram" <= device {
      assert device == "ram" + device[3..];
    }
  }
}
