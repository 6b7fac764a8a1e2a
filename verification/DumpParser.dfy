/** The script that collects the hex dumps of output buffers from a log. */
module DumpParser {
  import opened Bytes

  const HEADER: string := "MEMREF Output data:"
  const PARAM: string := "Param["

  // ---------------------------------------------------------------- strings

  /** str.isspace for one character. */
  predicate IsSpace(c: char) {
    || '\t' <= c <= '\r' || '\U{1C}' <= c <= ' ' || c == '\U{85}' || c == '\U{A0}' || c == '\U{1680}'
    || '\U{2000}' <= c <= '\U{200A}' || c == '\U{2028}' || c == '\U{2029}' || c == '\U{202F}' || c == '\U{205F}'
        || c == '\U{3000}'
  }

  predicate AllSpace(s: string) {
    forall i | 0 <= i < |s| :: IsSpace(s[i])
  }

  function TrimLeft(s: string): string {
    if s != [] && IsSpace(s[0]) then TrimLeft(s[1..]) else s
  }

  function TrimRight(s: string): string {
    if s != [] && IsSpace(s[|s| - 1]) then TrimRight(s[..|s| - 1]) else s
  }

  function Strip(s: string): string {
    TrimRight(TrimLeft(s))
  }

  function BeforeBar(s: string): string {
    if s == [] || s[0] == '|' then [] else [s[0]] + BeforeBar(s[1..])
  }

  /** The words of str.split, the first of them begun with w. */
  function WordsFrom(w: string, s: string): seq<string>
    decreases |s|
  {
    if s == [] then (if w == [] then [] else [w])
    else if IsSpace(s[0]) then (if w == [] then [] else [w]) + WordsFrom([], s[1..])
    else WordsFrom(w + [s[0]], s[1..])
  }

  function Words(s: string): seq<string> {
    WordsFrom([], s)
  }

  function Join(ss: seq<string>): string {
    if ss == [] then [] else ss[0] + Join(ss[1..])
  }

  lemma {:induction false} JoinAppend(a: seq<string>, b: seq<string>)
    ensures Join(a + b) == Join(a) + Join(b)
    decreases |a|
  {
    if a == [] {
      assert a + b == b;
    } else {
      assert (a + b)[1..] == a[1..] + b;
      JoinAppend(a[1..], b);
    }
  }

  function NoSpace(s: string): string {
    if s == [] then [] else (if IsSpace(s[0]) then [] else [s[0]]) + NoSpace(s[1..])
  }

  lemma {:induction false} JoinWordsFrom(w: string, s: string)
    ensures Join(WordsFrom(w, s)) == w + NoSpace(s)
    decreases |s|
  {
    if s == [] {
      assert Join([w]) == w + Join([]);
    } else if IsSpace(s[0]) {
      var more, rest := WordsFrom([], s[1..]), NoSpace(s[1..]);
      JoinWordsFrom([], s[1..]);
      assert [] + rest == rest && [] + more == more;
      assert ([w] + more)[1..] == more;
    } else {
      JoinWordsFrom(w + [s[0]], s[1..]);
      assert (w + [s[0]]) + NoSpace(s[1..]) == w + ([s[0]] + NoSpace(s[1..]));
    }
  }

  lemma {:induction false} NoSpaceAppend(a: string, b: string)
    ensures NoSpace(a + b) == NoSpace(a) + NoSpace(b)
    decreases |a|
  {
    if a == [] {
      assert a + b == b;
    } else {
      assert (a + b)[1..] == a[1..] + b;
      NoSpaceAppend(a[1..], b);
    }
  }

  lemma {:induction false} SpaceVanishes(s: string)
    requires AllSpace(s)
    ensures NoSpace(s) == []
  {
    if s != [] {
      SpaceVanishes(s[1..]);
    }
  }

  /** Stripping takes space off both ends. */
  lemma {:induction false} TrimLeftSplit(s: string) returns (a: string)
    ensures s == a + TrimLeft(s) && AllSpace(a)
    ensures TrimLeft(s) != [] ==> !IsSpace(TrimLeft(s)[0])
  {
    if s != [] && IsSpace(s[0]) {
      var b := TrimLeftSplit(s[1..]);
      a := [s[0]] + b;
    } else {
      a := [];
    }
  }

  lemma {:induction false} TrimRightSplit(s: string) returns (z: string)
    ensures s == TrimRight(s) + z && AllSpace(z)
    ensures TrimRight(s) != [] ==> !IsSpace(TrimRight(s)[|TrimRight(s)| - 1])
    decreases |s|
  {
    if s != [] && IsSpace(s[|s| - 1]) {
      var y := TrimRightSplit(s[..|s| - 1]);
      z := y + [s[|s| - 1]];
    } else {
      z := [];
    }
  }

  /** A string that starts with p, where p has no space at its ends, still does. */
  lemma StripKeepsStart(p: string, s: string)
    requires p != [] && !IsSpace(p[0]) && !IsSpace(p[|p| - 1]) && p <= s
    ensures p <= Strip(s)
  {
    assert TrimLeft(s) == s;
    KeepsStart(p, s);
  }

  // ---------------------------------------------------------------- lines

  predicate StartsWith(s: string, p: string) {
    p <= s
  }

  predicate IsHeader(line: string) {
    StartsWith(Strip(line), HEADER)
  }

  predicate IsEnd(line: string) {
    StartsWith(Strip(line), PARAM) || Strip(line) == ""
  }

  // ---------------------------------------------------------------- those lines, as text

  /** The characters that count as white space, by their numbers. */
  lemma SpacesAre(c: char)
    ensures var n := c as int;
      IsSpace(c) <==> 9 <= n <= 13 || 28 <= n <= 32 || n == 0x85 || n == 0xA0 || n == 0x1680 || 0x2000 <= n <= 0x200A
                      || n == 0x2028 || n == 0x2029 || n == 0x202F || n == 0x205F || n == 0x3000
  {
  }

  /** White space, then the text p, then anything. */
  ghost predicate Begins(line: string, p: string) {
    exists a, b :: AllSpace(a) && line == a + p + b
  }

  lemma {:induction false} TrimLeftOf(a: string, s: string)
    requires AllSpace(a) && s != [] && !IsSpace(s[0])
    ensures TrimLeft(a + s) == s
    decreases |a|
  {
    if a == [] {
      assert a + s == s;
    } else {
      assert (a + s)[1..] == a[1..] + s;
      TrimLeftOf(a[1..], s);
    }
  }

  lemma StripBegins(line: string, p: string)
    requires p != [] && p <= Strip(line)
    ensures Begins(line, p)
  {
    var a := TrimLeftSplit(line);
    var z := TrimRightSplit(TrimLeft(line));
    Regroup(line, a, Strip(line), z, p);
    hide Strip;
  }

  lemma Regroup(line: string, a: string, u: string, z: string, p: string)
    requires line == a + (u + z) && p <= u
    ensures line == a + p + (u[|p|..] + z)
  {
    assert u + z == p + (u[|p|..] + z);
  }

  lemma BeginsStrip(line: string, p: string, a: string, b: string)
    requires p != [] && !IsSpace(p[0]) && !IsSpace(p[|p| - 1]) && AllSpace(a) && line == a + p + b
    ensures p <= Strip(line)
  {
    var s := p + b;
    assert line == a + s && s[0] == p[0];
    TrimLeftOf(a, s);
    hide TrimLeft, TrimRight, IsSpace, AllSpace;
    KeepsStart(p, s);
  }

  /** A stripped line starts with p exactly when p follows its white space. */
  lemma BeginsExactly(line: string, p: string)
    requires p != [] && !IsSpace(p[0]) && !IsSpace(p[|p| - 1])
    ensures p <= Strip(line) <==> Begins(line, p)
  {
    hide Strip, IsSpace, AllSpace;
    if p <= Strip(line) {
      StripBegins(line, p);
    }
    if Begins(line, p) {
      var a, b :| AllSpace(a) && line == a + p + b;
      BeginsStrip(line, p, a, b);
    }
  }

  lemma KeepsStart(p: string, s: string)
    requires p != [] && !IsSpace(p[|p| - 1]) && p <= s
    ensures p <= TrimRight(s)
  {
    var z := TrimRightSplit(s);
    var t := TrimRight(s);
    assert t == s[..|t|];
    assert forall i | |t| <= i < |s| :: s[i] == z[i - |t|];
  }

  lemma {:induction false} TrimAll(s: string)
    requires AllSpace(s)
    ensures TrimLeft(s) == []
  {
    if s != [] {
      TrimAll(s[1..]);
    }
  }

  lemma EmptyExactly(line: string)
    ensures Strip(line) == [] <==> AllSpace(line)
  {
    if Strip(line) == [] {
      var a := TrimLeftSplit(line);
      var z := TrimRightSplit(TrimLeft(line));
      assert line == a + z;
    }
    if AllSpace(line) {
      TrimAll(line);
    }
  }

  /** The header of a dump. */
  ghost predicate HeaderText(line: string) {
    Begins(line, "MEMREF Output data:")
  }

  /** What ends a block: the line of the next parameter, or nothing but space. */
  ghost predicate EndText(line: string) {
    Begins(line, "Param[") || AllSpace(line)
  }

  lemma HeaderExactly(line: string)
    ensures IsHeader(line) <==> HeaderText(line)
  {
    assert HEADER[0] == 'M' && HEADER[|HEADER| - 1] == ':';
    BeginsExactly(line, HEADER);
  }

  lemma EndExactly(line: string)
    ensures IsEnd(line) <==> EndText(line)
  {
    assert PARAM[0] == 'P' && PARAM[|PARAM| - 1] == '[';
    BeginsExactly(line, PARAM);
    EmptyExactly(line);
  }

  /** A line of a block, once a header was seen. */
  predicate IsRow(line: string) {
    !IsHeader(line) && !IsEnd(line)
  }

  /** The digits of a row. */
  function Digits(line: string): string {
    Join(Words(BeforeBar(Strip(line))))
  }

  function RowDigits(lines: seq<string>): (d: seq<string>)
    ensures |d| == |lines|
  {
    seq(|lines|, i requires 0 <= i < |lines| => Digits(lines[i]))
  }

  /** How many rows there are from lines[i] on. */
  function RowCount(lines: seq<string>, i: nat): (n: nat)
    requires i <= |lines|
    ensures i + n <= |lines|
    ensures forall k | i <= k < i + n :: IsRow(lines[k])
    ensures i + n < |lines| ==> !IsRow(lines[i + n])
    decreases |lines| - i
  {
    if i == |lines| || !IsRow(lines[i]) then 0 else 1 + RowCount(lines, i + 1)
  }

  /** The rows right after each header make a block, unless there are none;
      everything else is skipped. */
  function Blocks(lines: seq<string>): seq<string>
    decreases |lines|
  {
    if lines == [] then []
    else if !IsHeader(lines[0]) then Blocks(lines[1..])
    else Block(lines[1..1 + RowCount(lines, 1)]) + Blocks(lines[1 + RowCount(lines, 1)..])
  }

  function Block(rows: seq<string>): seq<string> {
    Flushed(RowDigits(rows))
  }

  function Flushed(digits: seq<string>): seq<string> {
    if digits == [] then [] else [Join(digits)]
  }

  // ---------------------------------------------------------------- the parser's loop

  /** What is still to be returned in the middle of the loop. */
  function Remaining(reading: bool, current: seq<string>, lines: seq<string>): seq<string> {
    if reading then
      Flushed(current + RowDigits(lines[..RowCount(lines, 0)])) + Blocks(lines[RowCount(lines, 0)..])
    else
      Blocks(lines)
  }

  lemma RowCountIs(lines: seq<string>, i: nat, n: nat)
    requires i + n <= |lines| && (forall k | i <= k < i + n :: IsRow(lines[k]))
    requires i + n < |lines| ==> !IsRow(lines[i + n])
    ensures RowCount(lines, i) == n
  {
  }

  lemma AtHeader(lines: seq<string>, reading: bool, current: seq<string>)
    requires lines != [] && IsHeader(lines[0]) && (!reading ==> current == [])
    ensures Remaining(reading, current, lines) == Flushed(current) + Remaining(true, [], lines[1..])
  {
    var n := RowCount(lines, 1);
    RowCountIs(lines[1..], 0, n);
    RowCountIs(lines, 0, 0);
    RowsAfter(lines, n);
    NoRows(lines, current);
    assert Blocks(lines) == Block(lines[1..1 + n]) + Blocks(lines[1 + n..]);
    hide Blocks, IsHeader, IsEnd, IsRow, RowCount, RowDigits, Flushed;
  }

  lemma RowsAfter(lines: seq<string>, n: nat)
    requires lines != [] && 1 + n <= |lines|
    ensures lines[1..][..n] == lines[1..1 + n] && lines[1..][n..] == lines[1 + n..]
    ensures [] + RowDigits(lines[1..1 + n]) == RowDigits(lines[1..1 + n])
  {
  }

  lemma NoRows(lines: seq<string>, current: seq<string>)
    ensures current + RowDigits(lines[..0]) == current && lines[0..] == lines
  {
  }

  lemma AtEnd(lines: seq<string>, current: seq<string>)
    requires lines != [] && !IsHeader(lines[0]) && IsEnd(lines[0])
    ensures Remaining(true, current, lines) == Flushed(current) + Remaining(false, [], lines[1..])
  {
    RowCountIs(lines, 0, 0);
    assert current + RowDigits(lines[..0]) == current && lines[0..] == lines;
  }

  lemma AtRow(lines: seq<string>, current: seq<string>)
    requires lines != [] && IsRow(lines[0])
    ensures Remaining(true, current, lines) == Remaining(true, current + [Digits(lines[0])], lines[1..])
  {
    var more := lines[1..];
    var n := RowCount(more, 0);
    RowCountIs(lines, 0, 1 + n);
    assert lines[..1 + n] == [lines[0]] + more[..n] && lines[1 + n..] == more[n..];
    hide Blocks, IsRow, Digits, RowCount, RowDigits, Flushed;
    OneRowMore(current, lines[0], more[..n]);
  }

  lemma OneRowMore(current: seq<string>, line: string, rows: seq<string>)
    ensures current + RowDigits([line] + rows) == (current + [Digits(line)]) + RowDigits(rows)
  {
    hide Digits;
    assert RowDigits([line] + rows) == [Digits(line)] + RowDigits(rows);
  }

  lemma AtOther(lines: seq<string>)
    requires lines != [] && !IsHeader(lines[0])
    ensures Remaining(false, [], lines) == Remaining(false, [], lines[1..])
  {
  }

  lemma Begin(lines: seq<string>)
    ensures Blocks(lines) == [] + Remaining(false, [], lines[0..])
  {
    assert lines[0..] == lines;
  }

  lemma AtEof(reading: bool, current: seq<string>)
    requires !reading ==> current == []
    ensures Remaining(reading, current, []) == if reading then Flushed(current) else []
  {
    RowCountIs([], 0, 0);
    var none: seq<string> := [];
    assert current + RowDigits(none) == current;
  }

  /** parse_hex_blocks. */
  method ParseHexBlocks(lines: seq<string>) returns (blocks: seq<string>)
    ensures blocks == Blocks(lines)
  {
    hide Blocks, Remaining, RowDigits, Join, Words, BeforeBar, Strip;
    blocks := [];
    var current: seq<string> := [];
    var reading := false;
    Begin(lines);
    for i := 0 to |lines|
      invariant !reading ==> current == []
      invariant Blocks(lines) == blocks + Remaining(reading, current, lines[i..])
    {
      ghost var rest := lines[i..];
      assert rest[0] == lines[i] && rest[1..] == lines[i + 1..];
      var line := Strip(lines[i]);
      if StartsWith(line, HEADER) {
        AtHeader(rest, reading, current);
        if reading && current != [] {
          blocks := blocks + [Join(current)];
          current := [];
        }
        reading := true;
      } else if reading {
        if StartsWith(line, PARAM) || line == "" {
          AtEnd(rest, current);
          if current != [] {
            blocks := blocks + [Join(current)];
            current := [];
          }
          reading := false;
        } else {
          AtRow(rest, current);
          var hexPart := BeforeBar(line);
          var hexBytes := Words(hexPart);
          current := current + [Join(hexBytes)];
        }
      } else {
        AtOther(rest);
      }
    }
    AtEof(reading, current);
    if reading && current != [] {
      blocks := blocks + [Join(current)];
    }
  }

  // ---------------------------------------------------------------- cutting a file at a header

  lemma SameRows(a: seq<string>, b: seq<string>)
    requires a != [] && (b == [] || IsHeader(b[0]))
    ensures RowCount(a + b, 1) == RowCount(a, 1)
  {
    RowCountIs(a + b, 1, RowCount(a, 1));
  }

  /** A header always starts afresh. */
  lemma {:induction false} CutAtHeader(a: seq<string>, b: seq<string>)
    requires b == [] || IsHeader(b[0])
    ensures Blocks(a + b) == Blocks(a) + Blocks(b)
    decreases |a|
  {
    hide IsHeader, IsEnd, Block;
    if a == [] {
      assert a + b == b;
    } else if !IsHeader(a[0]) {
      assert (a + b)[1..] == a[1..] + b;
      CutAtHeader(a[1..], b);
    } else {
      var n := RowCount(a, 1);
      SameRows(a, b);
      assert (a + b)[1..1 + n] == a[1..1 + n] && (a + b)[1 + n..] == a[1 + n..] + b;
      CutAtHeader(a[1 + n..], b);
    }
  }

  // ---------------------------------------------------------------- the layout of a dump

  function HexChar(n: nat): char
    requires n < 16
  {
    "0123456789abcdef"[n]
  }

  function Hex(bytes: seq<byte>): string {
    if bytes == [] then [] else [HexChar(bytes[0] / 16), HexChar(bytes[0] % 16)] + Hex(bytes[1..])
  }

  lemma {:induction false} HexAppend(a: seq<byte>, b: seq<byte>)
    ensures Hex(a + b) == Hex(a) + Hex(b)
    decreases |a|
  {
    if a == [] {
      assert a + b == b;
    } else {
      assert (a + b)[1..] == a[1..] + b;
      HexAppend(a[1..], b);
    }
  }

  /** The pairs of a row from number i on, with one more space in the middle. */
  function Pairs(bytes: seq<byte>, i: nat): string {
    if bytes == [] then []
    else
      [HexChar(bytes[0] / 16), HexChar(bytes[0] % 16), ' '] + (if i == 7 then [' '] else [])
      + Pairs(bytes[1..], i + 1)
  }

  lemma HexCharPlain(n: nat)
    requires n < 16
    ensures !IsSpace(HexChar(n)) && HexChar(n) != '|'
  {
  }

  lemma PairDigits(h: char, l: char, m: string, z: string)
    requires !IsSpace(h) && !IsSpace(l) && AllSpace(m)
    ensures NoSpace([h, l, ' '] + m + z) == [h, l] + NoSpace(z)
  {
    var s := [' '] + m;
    SpaceVanishes(s);
    NoSpaceAppend(s, z);
    var t := s + z;
    assert [h, l, ' '] + m + z == [h] + ([l] + t);
    assert ([h] + ([l] + t))[1..] == [l] + t && ([l] + t)[1..] == t;
  }

  lemma {:induction false} PairsDigits(bytes: seq<byte>, i: nat)
    ensures NoSpace(Pairs(bytes, i)) == Hex(bytes)
    ensures '|' !in Pairs(bytes, i)
    decreases |bytes|
  {
    if bytes != [] {
      HexCharPlain(bytes[0] / 16);
      HexCharPlain(bytes[0] % 16);
      assert AllSpace([' ']) && !IsSpace('|');
      hide IsSpace, HexChar, NoSpace;
      PairsDigits(bytes[1..], i + 1);
      var middle := if i == 7 then [' '] else [];
      PairDigits(HexChar(bytes[0] / 16), HexChar(bytes[0] % 16), middle, Pairs(bytes[1..], i + 1));
    }
  }

  /** A row: pairs, padding, a bar, any text. */
  datatype Row = Row(bytes: seq<byte>, pad: string, text: string) {
    predicate Ok() {
      bytes != [] && AllSpace(pad)
    }

    function Front(): string {
      Pairs(bytes, 0) + pad
    }

    function Text(): string {
      Front() + ['|'] + text
    }
  }

  lemma {:induction false} BeforeBarIs(x: string, more: string)
    requires '|' !in x
    ensures BeforeBar(x + ['|'] + more) == x
    decreases |x|
  {
    var s := x + ['|'] + more;
    if x != [] {
      assert s[1..] == x[1..] + ['|'] + more;
      BeforeBarIs(x[1..], more);
    }
  }

  /** A printed row is read as a row, with the digits of its bytes. */
  lemma RowRead(row: Row)
    requires row.Ok()
    ensures IsRow(row.Text()) && Digits(row.Text()) == Hex(row.bytes)
  {
    var x, s := row.Front(), row.Text();
    PairsDigits(row.bytes, 0);
    assert '|' !in x by {
      assert forall i | 0 <= i < |row.pad| :: row.pad[i] != '|';
    }
    StripKeepsStart(x + ['|'], s);
    assert Strip(s)[0] == HexChar(row.bytes[0] / 16);
    DigitsAre(x, row.text);
    NoSpaceAppend(Pairs(row.bytes, 0), row.pad);
    SpaceVanishes(row.pad);
  }

  /** A dump: its header, its rows, and what follows up to the next header. */
  datatype Dump = Dump(head: string, rows: seq<Row>, after: seq<string>) {
    ghost predicate Ok() {
      && rows != [] && (forall i | 0 <= i < |rows| :: rows[i].Ok())
      && (forall i | 0 <= i < |after| :: !HeaderText(after[i]))
      && (after != [] ==> EndText(after[0]))
    }

    function Lines(): seq<string> {
      ["MEMREF Output data:" + head] + RowTexts(rows) + after
    }
  }

  function RowTexts(rows: seq<Row>): (ts: seq<string>)
    ensures |ts| == |rows| && forall i | 0 <= i < |rows| :: ts[i] == rows[i].Text()
  {
    seq(|rows|, i requires 0 <= i < |rows| => rows[i].Text())
  }

  function RowBytes(rows: seq<Row>): seq<byte> {
    if rows == [] then [] else rows[0].bytes + RowBytes(rows[1..])
  }

  function Print(dumps: seq<Dump>): seq<string> {
    if dumps == [] then [] else dumps[0].Lines() + Print(dumps[1..])
  }

  function Contents(dumps: seq<Dump>): (c: seq<string>)
    ensures |c| == |dumps| && forall i | 0 <= i < |dumps| :: c[i] == Hex(RowBytes(dumps[i].rows))
  {
    seq(|dumps|, i requires 0 <= i < |dumps| => Hex(RowBytes(dumps[i].rows)))
  }

  lemma {:induction false} RowsJoined(rows: seq<Row>)
    requires forall i | 0 <= i < |rows| :: rows[i].Ok()
    ensures Join(RowDigits(RowTexts(rows))) == Hex(RowBytes(rows))
  {
    if rows != [] {
      var d := RowDigits(RowTexts(rows));
      RowRead(rows[0]);
      RowsJoined(rows[1..]);
      assert d[1..] == RowDigits(RowTexts(rows[1..]));
      HexAppend(rows[0].bytes, RowBytes(rows[1..]));
    }
  }

  lemma {:induction false} NoHeaders(lines: seq<string>)
    requires forall i | 0 <= i < |lines| :: !HeaderText(lines[i])
    ensures Blocks(lines) == []
  {
    if lines != [] {
      HeaderExactly(lines[0]);
      NoHeaders(lines[1..]);
    }
  }

  lemma HeaderRead(head: string)
    ensures IsHeader(HEADER + head)
  {
    StripKeepsStart(HEADER, HEADER + head);
  }

  /** One dump is one block, the digits of its bytes. */
  lemma OneDump(dump: Dump)
    requires dump.Ok()
    ensures Blocks(dump.Lines()) == [Hex(RowBytes(dump.rows))]
  {
    var rows, lines, n := RowTexts(dump.rows), dump.Lines(), |dump.rows|;
    assert lines[0] == HEADER + dump.head && lines[1..1 + n] == rows && lines[1 + n..] == dump.after;
    DumpRows(dump, lines, n);
    assert IsHeader(lines[0]) by {
      HeaderRead(dump.head);
    }
    assert n > 0 && Blocks(dump.after) == [] by {
      NoHeaders(dump.after);
    }
    RowsJoined(dump.rows);
    assert [Hex(RowBytes(dump.rows))] + [] == [Hex(RowBytes(dump.rows))];
    hide *;
    OneBlock(lines, n);
  }

  lemma DumpRows(dump: Dump, lines: seq<string>, n: nat)
    requires dump.Ok() && lines == dump.Lines() && n == |dump.rows|
    ensures RowCount(lines, 1) == n
  {
    forall k | 1 <= k < 1 + n
      ensures IsRow(lines[k])
    {
      RowRead(dump.rows[k - 1]);
      assert lines[k] == dump.rows[k - 1].Text();
    }
    if 1 + n < |lines| {
      assert lines[1 + n] == dump.after[0];
      EndExactly(dump.after[0]);
      assert !IsRow(lines[1 + n]);
    }
    hide IsHeader, IsEnd, IsRow, EndText, HeaderText;
    RowCountIs(lines, 1, n);
  }

  /** Any list of printed dumps, after any lines without a header, gives back the
      digits of each dump, in order. */
  lemma {:induction false} DumpsRoundTrip(before: seq<string>, dumps: seq<Dump>)
    requires (forall i | 0 <= i < |before| :: !HeaderText(before[i])) && (forall i | 0 <= i < |dumps| :: dumps[i].Ok())
    ensures Blocks(before + Print(dumps)) == Contents(dumps)
    decreases |dumps|
  {
    hide Blocks, IsHeader, Hex, RowBytes;
    NoHeaders(before);
    if dumps == [] {
      assert before + Print(dumps) == before;
    } else {
      var more := Print(dumps[1..]);
      StartsWithHeader(dumps);
      StartsWithHeader(dumps[1..]);
      CutAtHeader(before, Print(dumps));
      CutAtHeader(dumps[0].Lines(), more);
      OneDump(dumps[0]);
      DumpsRoundTrip([], dumps[1..]);
      assert [] + more == more;
      assert Contents(dumps) == [Hex(RowBytes(dumps[0].rows))] + Contents(dumps[1..]);
    }
  }

  lemma StartsWithHeader(dumps: seq<Dump>)
    ensures dumps != [] ==> Print(dumps) != [] && IsHeader(Print(dumps)[0])
    ensures dumps == [] ==> Print(dumps) == []
  {
    if dumps != [] {
      HeaderRead(dumps[0].head);
    }
  }

  // ---------------------------------------------------------------- any log

  /** A line that belongs to a block when it follows a header. */
  ghost predicate RowText(line: string) {
    !HeaderText(line) && !EndText(line)
  }

  /** Any log: lines before the first header are skipped; after a header every line
      that is neither a header nor an end adds its digits to one block; and after
      the end of a block everything is skipped up to the next header. */
  lemma AnyBlock(before: seq<string>, head: string, rows: seq<string>, rest: seq<string>)
    requires forall i | 0 <= i < |before| :: !HeaderText(before[i])
    requires HeaderText(head) && (forall i | 0 <= i < |rows| :: RowText(rows[i])) && (rest != [] ==> !RowText(rest[0]))
    ensures Blocks(before + ([head] + rows + rest))
         == (if rows == [] then [] else [Join(RowDigits(rows))]) + Blocks(rest)
  {
    var lines, n := [head] + rows + rest, |rows|;
    NoHeaders(before);
    HeaderExactly(head);
    forall k | 1 <= k < 1 + n
      ensures IsRow(lines[k])
    {
      assert lines[k] == rows[k - 1];
      HeaderExactly(rows[k - 1]);
      EndExactly(rows[k - 1]);
    }
    if rest != [] {
      assert lines[1 + n] == rest[0];
      HeaderExactly(rest[0]);
      EndExactly(rest[0]);
    }
    RowCountIs(lines, 1, n);
    assert lines[0] == head && lines[1..1 + n] == rows && lines[1 + n..] == rest;
    CutAtHeader(before, lines);
    hide IsHeader, IsEnd, HeaderText, EndText, RowDigits, Join;
    OneBlock(lines, n);
  }

  lemma OneBlock(lines: seq<string>, n: nat)
    requires lines != [] && IsHeader(lines[0]) && RowCount(lines, 1) == n
    ensures var rows := lines[1..1 + n];
      Blocks(lines) == (if rows == [] then [] else [Join(RowDigits(rows))]) + Blocks(lines[1 + n..])
  {
    var rows, more := lines[1..1 + n], lines[1 + n..];
    assert Blocks(lines) == Block(rows) + Blocks(more);
    assert Block(rows) == if rows == [] then [] else [Join(RowDigits(rows))];
    hide *;
  }

  lemma {:induction false} SpaceInFront(a: string, s: string)
    requires AllSpace(a)
    ensures NoSpace(BeforeBar(a + s)) == NoSpace(BeforeBar(s))
    decreases |a|
  {
    if a == [] {
      assert a + s == s;
    } else {
      assert (a + s)[1..] == a[1..] + s && !IsSpace('|');
      SpaceInFront(a[1..], s);
    }
  }

  lemma {:induction false} SpaceBehind(s: string, z: string)
    requires AllSpace(z)
    ensures NoSpace(BeforeBar(s + z)) == NoSpace(BeforeBar(s))
    decreases |s|
  {
    if s == [] {
      assert s + z == z + [];
      SpaceInFront(z, []);
    } else if s[0] != '|' {
      var t, u := BeforeBar(s[1..] + z), BeforeBar(s[1..]);
      assert (s + z)[1..] == s[1..] + z;
      SpaceBehind(s[1..], z);
      assert ([s[0]] + t)[1..] == t && ([s[0]] + u)[1..] == u;
    }
  }

  lemma DigitsOf(line: string)
    ensures Digits(line) == NoSpace(BeforeBar(line))
  {
    var t, u := TrimLeft(line), Strip(line);
    var a := TrimLeftSplit(line);
    var z := TrimRightSplit(t);
    var front := BeforeBar(u);
    assert Digits(line) == Join(WordsFrom([], front)) && [] + NoSpace(front) == NoSpace(front);
    assert u == TrimRight(t);
    hide *;
    SpaceInFront(a, t);
    SpaceBehind(u, z);
    JoinWordsFrom([], front);
  }

  /** The digits of a line: what precedes its first bar, if it has one, without the
      white space. */
  lemma DigitsAre(x: string, more: string)
    requires '|' !in x
    ensures Digits(x + ['|'] + more) == NoSpace(x) && Digits(x) == NoSpace(x)
  {
    DigitsOf(x + ['|'] + more);
    BeforeBarIs(x, more);
    DigitsOf(x);
    NoBar(x);
  }

  lemma {:induction false} NoBar(x: string)
    requires '|' !in x
    ensures BeforeBar(x) == x
  {
    if x != [] {
      NoBar(x[1..]);
      assert x == [x[0]] + x[1..];
    }
  }

  /** The digits of a byte: lower-case hexadecimal, the high half first. */
  lemma {:induction false} HexIs(bytes: seq<byte>, i: nat)
    requires i < |bytes|
    ensures |Hex(bytes)| == 2 * |bytes|
    ensures Hex(bytes)[2 * i] == HexChar(bytes[i] / 16) && Hex(bytes)[2 * i + 1] == HexChar(bytes[i] % 16)
  {
    var more := bytes[1..];
    if i > 0 {
      HexIs(more, i - 1);
    } else if more != [] {
      HexIs(more, 0);
    }
  }

  lemma HexCharIs(n: nat)
    requires n < 16
    ensures HexChar(n) as int == if n < 10 then 0x30 + n else 0x61 + (n - 10)
  {
  }
}
