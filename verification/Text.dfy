/** The string operations the parsers and the REST checks are built from. */
module Text {
  import opened Wrappers

  /** Unicode `White_Space`. */
  predicate White(c: char) {
    || '\t' <= c <= '\r'
    || c in " \U{0085}\U{00A0}\U{1680}\U{2028}\U{2029}\U{202F}\U{205F}\U{3000}"
    || '\U{2000}' <= c <= '\U{200A}'
  }

  function TrimStart(s: string): string {
    if s != [] && White(s[0]) then TrimStart(s[1..]) else s
  }

  function TrimEnd(s: string): string {
    if s != [] && White(Last(s)) then TrimEnd(Front(s)) else s
  }

  function Trim(s: string): string {
    TrimEnd(TrimStart(s))
  }

  predicate Blank(s: string) {
    forall c | c in s :: White(c)
  }

  /** What the REST checks test for: trimming leaves nothing exactly of a blank string. */
  lemma TrimEmpty(s: string)
    ensures Trim(s) == "" <==> Blank(s)
  {
    TrimStartBlank(s);
    if TrimStart(s) != "" {
      TrimEndKeeps(TrimStart(s));
    }
  }

  lemma {:induction false} TrimStartBlank(s: string)
    ensures TrimStart(s) == "" <==> Blank(s)
    ensures TrimStart(s) != "" ==> !White(TrimStart(s)[0])
  {
    if s != [] && White(s[0]) {
      TrimStartBlank(s[1..]);
      assert s == [s[0]] + s[1..];
    }
  }

  lemma {:induction false} TrimEndKeeps(s: string)
    requires s != "" && !White(s[0])
    ensures TrimEnd(s) != ""
  {
    if White(Last(s)) {
      TrimEndKeeps(Front(s));
    }
  }

  /** A string with nothing to trim. */
  predicate Trimmed(s: string) {
    s != "" ==> !White(s[0]) && !White(Last(s))
  }

  /** Trimming takes away white space at both ends, and all of it. */
  lemma TrimSplits(s: string) returns (a: string, b: string)
    ensures s == a + Trim(s) + b && Blank(a) && Blank(b) && Trimmed(Trim(s))
  {
    a := StartSplits(s);
    b := EndSplits(TrimStart(s));
    if Trim(s) != "" {
      assert TrimStart(s)[0] == Trim(s)[0];
    }
  }

  lemma {:induction false} StartSplits(s: string) returns (a: string)
    ensures s == a + TrimStart(s) && Blank(a)
    ensures TrimStart(s) != "" ==> !White(TrimStart(s)[0])
  {
    a := "";
    if s != [] && White(s[0]) {
      var rest := StartSplits(s[1..]);
      a := [s[0]] + rest;
      assert s == [s[0]] + s[1..];
    }
  }

  lemma {:induction false} EndSplits(s: string) returns (b: string)
    ensures s == TrimEnd(s) + b && Blank(b)
    ensures TrimEnd(s) != "" ==> !White(Last(TrimEnd(s)))
  {
    b := "";
    if s != [] && White(Last(s)) {
      var rest := EndSplits(Front(s));
      b := rest + [Last(s)];
      assert s == Front(s) + [Last(s)];
    }
  }

  /** Padding a trimmed string and trimming it gives it back. */
  lemma TrimPadded(a: string, s: string, b: string)
    requires Blank(a) && Blank(b) && s != "" && Trimmed(s)
    ensures Trim(a + s + b) == s
  {
    assert a + s + b == a + (s + b);
    StartPadded(a, s + b);
    EndPadded(s, b);
  }

  lemma {:induction false} StartPadded(a: string, s: string)
    requires Blank(a) && s != "" && !White(s[0])
    ensures TrimStart(a + s) == s
  {
    if a == "" {
      assert a + s == s;
    } else {
      assert White(a[0]) && (a + s)[1..] == a[1..] + s;
      StartPadded(a[1..], s);
    }
  }

  lemma {:induction false} EndPadded(s: string, b: string)
    requires Blank(b) && s != "" && !White(Last(s))
    ensures TrimEnd(s + b) == s
  {
    if b == "" {
      assert s + b == s;
    } else {
      assert White(Last(b)) && Front(s + b) == s + Front(b);
      EndPadded(s, Front(b));
    }
  }

  /** `split(',')`: one more piece than there are commas, so never empty. */
  function Split(s: string): (pieces: seq<string>)
    ensures pieces != []
  {
    if s == [] then [""]
    else if s[0] == ',' then [""] + Split(s[1..])
    else
      var rest := Split(s[1..]);
      [[s[0]] + rest[0]] + rest[1..]
  }

  /** `join(",")` */
  function Join(pieces: seq<string>): string {
    if pieces == [] then ""
    else if |pieces| == 1 then pieces[0]
    else pieces[0] + "," + Join(pieces[1..])
  }

  lemma {:induction false} SplitPieces(s: string)
    ensures forall p | p in Split(s) :: ',' !in p
  {
    if s != [] {
      SplitPieces(s[1..]);
      var rest := Split(s[1..]);
      if s[0] != ',' {
        assert forall p | p in Split(s) :: p == [s[0]] + rest[0] || p in rest;
      }
    }
  }

  lemma {:induction false} SplitAtComma(a: string, b: string)
    requires ',' !in a
    ensures Split(a) == [a]
    ensures Split(a + "," + b) == [a] + Split(b)
  {
    if a == [] {
      assert a + "," + b == "," + b;
    } else {
      SplitAtComma(a[1..], b);
      assert (a + "," + b)[1..] == a[1..] + "," + b;
      assert [a[0]] + a[1..] == a;
    }
  }

  /** Splitting inverts joining for exactly the non-empty lists of comma-free pieces. */
  lemma {:induction false} SplitInvertsJoin(pieces: seq<string>)
    ensures Split(Join(pieces)) == pieces <==> pieces != [] && forall p | p in pieces :: ',' !in p
  {
    SplitPieces(Join(pieces));
    if pieces != [] && forall p | p in pieces :: ',' !in p {
      SplitJoined(pieces);
    }
  }

  lemma {:induction false} SplitJoined(pieces: seq<string>)
    requires pieces != [] && forall p | p in pieces :: ',' !in p
    ensures Split(Join(pieces)) == pieces
  {
    if |pieces| == 1 {
      SplitAtComma(pieces[0], "");
    } else {
      SplitAtComma(pieces[0], Join(pieces[1..]));
      SplitJoined(pieces[1..]);
    }
  }

  // ----------------------------------------------------------------------- reading /proc text

  const U64: nat := 0x1_0000_0000_0000_0000

  function IndexOf(s: string, c: char): (i: Option<nat>)
    ensures i.Some? ==> i.value < |s| && s[i.value] == c
    ensures i.Some? ==> c !in s[..i.value]
    ensures i.None? ==> c !in s
  {
    if s == [] then None
    else if s[0] == c then Some(0)
    else
      match IndexOf(s[1..], c)
      case None => None
      case Some(i) => Some(i + 1)
  }

  function StripCr(s: string): string {
    if s != [] && Last(s) == '\r' then Front(s) else s
  }

  /** `lines()`: a final newline opens no empty line, and "\r\n" counts as one ending. */
  function Lines(text: string): seq<string> {
    if text == [] then []
    else
      match IndexOf(text, '\n')
      case None => [text]
      case Some(i) => [StripCr(text[..i])] + Lines(text[i + 1..])
  }

  function SplitOnce(s: string, c: char): Option<(string, string)> {
    match IndexOf(s, c)
    case None => None
    case Some(i) => Some((s[..i], s[i + 1..]))
  }

  function WordLength(s: string): (n: nat)
    ensures n <= |s|
    ensures s != [] && !White(s[0]) ==> n > 0
  {
    if s == [] || White(s[0]) then 0 else 1 + WordLength(s[1..])
  }

  /** `split_whitespace()` */
  function Words(s: string): seq<string> {
    if s == [] then []
    else if White(s[0]) then Words(s[1..])
    else
      var n := WordLength(s);
      [s[..n]] + Words(s[n..])
  }

  predicate Word(w: string) {
    w != "" && forall c | c in w :: !White(c)
  }

  function Spaced(words: seq<string>): string {
    if words == [] then ""
    else if |words| == 1 then words[0]
    else words[0] + " " + Spaced(words[1..])
  }

  function Unlines(lines: seq<string>): string {
    if lines == [] then "" else lines[0] + "\n" + Unlines(lines[1..])
  }

  lemma {:induction false} FirstWord(w: string, rest: string)
    requires forall c | c in w :: !White(c)
    requires rest == "" || White(rest[0])
    ensures WordLength(w + rest) == |w|
  {
    if w == "" {
      assert w + rest == rest;
    } else {
      assert (w + rest)[1..] == w[1..] + rest;
      FirstWord(w[1..], rest);
    }
  }

  /** Splitting at white space inverts printing words with spaces between them. */
  lemma {:induction false} WordsOfSpaced(words: seq<string>)
    requires forall w | w in words :: Word(w)
    ensures Words(Spaced(words)) == words
  {
    if words != [] {
      var w := words[0];
      var rest := if |words| == 1 then "" else " " + Spaced(words[1..]);
      WordsOfSpaced(words[1..]);
      assert Word(w);
      FirstWord(w, rest);
      assert Spaced(words) == w + rest;
      assert (w + rest)[..|w|] == w && (w + rest)[|w|..] == rest;
      assert |words| > 1 ==> rest[1..] == Spaced(words[1..]);
    }
  }

  lemma {:induction false} WordsSkipBlank(pad: string, s: string)
    requires Blank(pad)
    ensures Words(pad + s) == Words(s)
  {
    if pad == "" {
      assert pad + s == s;
    } else {
      assert White(pad[0]) && (pad + s)[1..] == pad[1..] + s;
      WordsSkipBlank(pad[1..], s);
    }
  }

  /** Words laid out, each after its own white space, with some more at the end. */
  function Laid(cells: seq<(string, string)>, tail: string): string {
    if cells == [] then tail else cells[0].0 + (cells[0].1 + Laid(cells[1..], tail))
  }

  predicate WellLaid(cells: seq<(string, string)>) {
    && (forall c | c in cells :: Blank(c.0) && Word(c.1))
    && forall i | 1 <= i < |cells| :: cells[i].0 != ""
  }

  function CellWords(cells: seq<(string, string)>): (words: seq<string>)
    ensures |words| == |cells| && forall i | 0 <= i < |cells| :: words[i] == cells[i].1
  {
    if cells == [] then [] else [cells[0].1] + CellWords(cells[1..])
  }

  /** Splitting at white space gives back the words of any layout. */
  lemma {:induction false} WordsOfLaid(cells: seq<(string, string)>, tail: string)
    requires WellLaid(cells) && Blank(tail)
    ensures Words(Laid(cells, tail)) == CellWords(cells)
  {
    if cells == [] {
      assert tail + "" == tail;
      WordsSkipBlank(tail, "");
    } else {
      var pad, w, rest := cells[0].0, cells[0].1, Laid(cells[1..], tail);
      assert cells[0] in cells;
      WordsSkipBlank(pad, w + rest);
      WordsOfLaid(cells[1..], tail);
      if |cells| > 1 {
        assert cells[1] in cells && cells[1..][0] == cells[1];
        assert rest[0] == cells[1].0[0] && White(cells[1].0[0]);
      } else {
        assert rest == tail;
      }
      FirstWord(w, rest);
      assert !White((w + rest)[0]);
      assert (w + rest)[..|w|] == w && (w + rest)[|w|..] == rest;
    }
  }

  /** A line as it stands in a file: no newline inside, no carriage return at its end. */
  predicate PlainLine(line: string) {
    '\n' !in line && (line == "" || Last(line) != '\r')
  }

  /** The first occurrence of `c` is the one after a part without any. */
  lemma {:induction false} IndexAfter(before: string, c: char, rest: string)
    requires c !in before
    ensures IndexOf(before + [c] + rest, c) == Some(|before|)
  {
    var s := before + [c] + rest;
    if before == "" {
      assert s[0] == c;
    } else {
      assert s[1..] == before[1..] + [c] + rest;
      IndexAfter(before[1..], c, rest);
    }
  }

  /** Splitting once undoes joining with a separator the first part does not hold. */
  lemma SplitOnceAt(before: string, c: char, rest: string)
    requires c !in before
    ensures SplitOnce(before + [c] + rest, c) == Some((before, rest))
  {
    IndexAfter(before, c, rest);
    var s := before + [c] + rest;
    assert s[..|before|] == before && s[|before| + 1..] == rest;
  }

  /** Splitting into lines inverts ending each with a newline. */
  lemma {:induction false} LinesOfUnlines(lines: seq<string>)
    requires forall l | l in lines :: PlainLine(l)
    ensures Lines(Unlines(lines)) == lines
  {
    if lines != [] {
      var l, rest := lines[0], Unlines(lines[1..]);
      assert PlainLine(l);
      IndexAfter(l, '\n', rest);
      LinesOfUnlines(lines[1..]);
      var s := l + "\n" + rest;
      assert s[..|l|] == l && s[|l| + 1..] == rest;
    }
  }

  /** "\r\n" ends a line too, and the last line needs no ending. */
  lemma LinesEndAnyhow(line: string, rest: string)
    requires '\n' !in line
    ensures Lines(line + "\r" + "\n" + rest) == [line] + Lines(rest)
    ensures line != "" ==> Lines(line) == [line]
  {
    IndexAfter(line + "\r", '\n', rest);
    var s := line + "\r" + "\n" + rest;
    assert s[..|line| + 1] == line + "\r" && s[|line| + 2..] == rest;
    assert Front(line + "\r") == line;
  }

  lemma {:induction false} SpacedIsPlain(words: seq<string>)
    requires forall w | w in words :: Word(w)
    ensures PlainLine(Spaced(words))
    ensures words != [] ==> Spaced(words) != ""
  {
    if words != [] {
      assert Word(words[0]);
      if |words| == 1 {
        assert Last(words[0]) in words[0];
      } else {
        SpacedIsPlain(words[1..]);
        assert Last(Spaced(words)) == Last(Spaced(words[1..]));
      }
    }
  }

  predicate Digit(c: char) {
    '0' <= c <= '9'
  }

  function Digits(s: string): nat
    requires forall c | c in s :: Digit(c)
  {
    if s == [] then 0
    else
      assert Digit(Last(s));
      Digits(Front(s)) * 10 + (Last(s) as int - '0' as int)
  }

  /** `parse::<u64>()`: one optional plus sign, then digits that fit in 64 bits. */
  function ParseU64(s: string): (v: Option<nat>)
    ensures v.Some? ==> v.value < U64
  {
    var body := if s != [] && s[0] == '+' then s[1..] else s;
    if body == [] || exists c | c in body :: !Digit(c) then None
    else if Digits(body) >= U64 then None
    else Some(Digits(body))
  }

  /** A number as the kernel prints it. */
  function Decimal(n: nat): (s: string)
    ensures s != "" && forall c | c in s :: Digit(c)
  {
    var digit := ('0' as int + n % 10) as char;
    if n < 10 then [digit] else Decimal(n / 10) + [digit]
  }

  lemma {:induction false} DigitsOfDecimal(n: nat)
    ensures Digits(Decimal(n)) == n
  {
    var digit := ('0' as int + n % 10) as char;
    if n < 10 {
      assert Front([digit]) == "";
    } else {
      DigitsOfDecimal(n / 10);
      assert Front(Decimal(n)) == Decimal(n / 10) && Last(Decimal(n)) == digit;
    }
  }

  /** Reading a printed number gives it back, if 64 bits hold it. */
  lemma ParseDecimal(n: nat)
    ensures ParseU64(Decimal(n)) == if n < 18_446_744_073_709_551_616 then Some(n) else None
    ensures ParseU64("+" + Decimal(n)) == ParseU64(Decimal(n))
  {
    DigitsOfDecimal(n);
    var s := Decimal(n);
    assert Digit(s[0]) && s[0] != '+';
    assert ("+" + s)[1..] == s;
  }

  /** Nothing but digits after an optional plus sign is a number. */
  lemma ParseOnlyDigits(s: string)
    ensures ParseU64(s).Some? ==> s != "" && s != "+" && forall i | 1 <= i < |s| :: Digit(s[i])
    ensures ParseU64(s).Some? ==> Digit(s[0]) || s[0] == '+'
  {
    var body := if s != [] && s[0] == '+' then s[1..] else s;
    if ParseU64(s).Some? {
      forall i | 1 <= i < |s| ensures Digit(s[i]) {
        assert s[i] in body;
      }
      assert s[0] == '+' || s[0] in body;
    }
  }

  lemma DecimalIsWord(n: nat)
    ensures Word(Decimal(n)) && ':' !in Decimal(n) && '\n' !in Decimal(n)
  {
    assert forall c | Digit(c) :: !White(c);
  }
}
