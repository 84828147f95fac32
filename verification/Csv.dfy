/** The CSV row parser of ex_csv.c: a state machine that deletes doubled quotes from the text as it goes. */
module Csv {
  import opened Vstr

  datatype St = Pre | Beg | InQuote | EndQuote | Norm | Comma | Trash | Ret | Init

  predicate IsRet(c: char) {
    c == '\n' || c == '\r'
  }

  /** What a parse comes to: the text up to the end of the row data, the fields found, and how much was not
    looked at; or the program aborts. */
  datatype Result = Done(text: string, rows: seq<Sect>, left: nat) | Abort

  function Rank(st: St): nat {
    match st
    case Pre => 5
    case Norm => 5
    case Ret => 4
    case Init => 3
    case Beg => 2
    case Trash => 2
    case InQuote => 1
    case EndQuote => 6
    case Comma => 1
  }

  /** vcsv_end: the field from beg up to the end of pre. */
  function Field(pre: string, beg: nat): Sect {
    Sect(beg, if |pre| + 1 >= beg then |pre| + 1 - beg else 0)
  }

  /** The parse a byte at a time: pre has been dealt with, s has not, and the field begins at beg. */
  function Run(st: St, pre: string, s: string, beg: nat, rows: seq<Sect>, line: bool): Result
    requires st != EndQuote
    decreases |s|, Rank(st)
  {
    if s == [] then
      Done(pre, if st == Ret || st == Trash || st == Init then rows else rows + [Field(pre, beg)], 0)
    else
      var c := s[0];
      match st
      case Trash =>
        if c == ',' then Run(Comma, pre, s, 0, rows, line) else Run(Trash, pre + [c], s[1..], 0, rows, line)
      case Comma => Run(Pre, pre + [c], s[1..], |pre| + 2, rows, line)
      case Pre =>
        if IsRet(c) then Run(Ret, pre, s, 0, rows + [Field(pre, beg)], line)
        else Run(Beg, pre, s, |pre| + 1, rows, line)
      case Ret => if line then Done(pre + s, rows, |s|) else Run(Init, pre, s, 0, rows, line)
      case Init =>
        if IsRet(c) then Run(Init, pre + [c], s[1..], 0, rows, line)
        else Run(Beg, pre, s, |pre| + 1, rows, line)
      case Beg =>
        if c == '"' then Run(InQuote, pre + [c], s[1..], |pre| + 2, rows, line)
        else if c == ',' then Run(Comma, pre, s, 0, rows + [Field(pre, beg)], line)
        else Run(Norm, pre + [c], s[1..], |pre| + 1, rows, line)
      case InQuote =>
        if c != '"' then Run(InQuote, pre + [c], s[1..], beg, rows, line)
        else if |s| == 1 then Done(pre + [c], rows + [Field(pre, beg)], 0)
        else if s[1] == '"' then
          if |s| == 2 then Abort else Run(InQuote, pre + [c], s[2..], beg, rows, line)
        else if s[1] == ',' then Run(Comma, pre + [c], s[1..], 0, rows + [Field(pre, beg)], line)
        else if IsRet(s[1]) then Run(Ret, pre + [c], s[1..], 0, rows + [Field(pre, beg)], line)
        else Run(Trash, pre + [c], s[1..], 0, rows + [Field(pre, beg)], line)
      case Norm =>
        if c == ',' then Run(Comma, pre, s, 0, rows + [Field(pre, beg)], line)
        else if IsRet(c) then Run(Ret, pre, s, 0, rows + [Field(pre, beg)], line)
        else Run(Norm, pre + [c], s[1..], beg, rows, line)
  }

  /** The whole of a parse; nothing is done for no text. */
  function Parse(pre: string, s: string, rows: seq<Sect>, line: bool): Result {
    Run(Init, pre, s, 0, rows, line)
  }

  // ---------------------------------------------------------------- rows of RFC 4180

  /** A field of a row: as it is, or in quotes, with something behind the quotes that does not belong there. */
  datatype Cell = Plain(value: string) | Quoted(value: string, junk: string)

  predicate ValidCell(c: Cell) {
    match c
    case Plain(v) => (forall i :: 0 <= i < |v| ==> v[i] !in ",\n\r") && (v != [] ==> v[0] != '"')
    case Quoted(_, junk) => junk != [] ==> junk[0] !in "\"\n\r" && ',' !in junk
  }

  function Doubled(s: string): string {
    if s == [] then [] else (if s[0] == '"' then "\"\"" else [s[0]]) + Doubled(s[1..])
  }

  /** A field as it is written, section 2 of RFC 4180. */
  function CellText(c: Cell): string {
    match c
    case Plain(v) => v
    case Quoted(v, junk) => "\"" + (Doubled(v) + ("\"" + junk))
  }

  /** A field as the parse leaves it. */
  function CellLeft(c: Cell): string {
    match c
    case Plain(v) => v
    case Quoted(v, junk) => "\"" + (v + ("\"" + junk))
  }

  function RowText(cells: seq<Cell>): string {
    if cells == [] then []
    else if |cells| == 1 then CellText(cells[0])
    else CellText(cells[0]) + ("," + RowText(cells[1..]))
  }

  function RowLeft(cells: seq<Cell>): string {
    if cells == [] then []
    else if |cells| == 1 then CellLeft(cells[0])
    else CellLeft(cells[0]) + ("," + RowLeft(cells[1..]))
  }

  /** Where the value of a field is, in a field left at position p. */
  function CellSect(c: Cell, p: nat): Sect {
    Sect(if c.Quoted? then p + 1 else p, |c.value|)
  }

  function RowSects(cells: seq<Cell>, p: nat): seq<Sect> {
    if cells == [] then []
    else [CellSect(cells[0], p)] + RowSects(cells[1..], p + |CellLeft(cells[0])| + 1)
  }

  /** What can follow a field. */
  predicate Follows(rest: string) {
    rest == [] || rest[0] == ',' || IsRet(rest[0])
  }

  /** A field may be followed by the end of its line, unless there is something behind its quotes. */
  predicate FollowsCell(c: Cell, rest: string) {
    Follows(rest) && (c.Quoted? && c.junk != [] && rest != [] ==> rest[0] == ',')
  }

  /** The end of a field: nothing, a comma or the end of the line. */
  function AfterCell(pre: string, rest: string, rows: seq<Sect>, line: bool): Result {
    if rest == [] then Done(pre, rows, 0)
    else Run(if rest[0] == ',' then Comma else Ret, pre, rest, 0, rows, line)
  }

  lemma {:induction false} QuotedRun(pre: string, v: string, junk: string, rest: string, beg: nat, rows: seq<Sect>, line: bool)
    requires beg <= |pre| + 1 && ValidCell(Quoted(v, junk)) && FollowsCell(Quoted(v, junk), rest)
    ensures Run(InQuote, pre, Doubled(v) + ("\"" + (junk + rest)), beg, rows, line)
         == AfterCell(pre + v + "\"" + junk, rest, rows + [Sect(beg, |pre| + |v| + 1 - beg)], line)
    decreases |v|
  {
    hide AfterCell, Run, Doubled, Follows;
    var end := "\"" + (junk + rest);
    DoubledStep(v, end);
    if v == [] {
      assert pre + v == pre;
      QuoteEnds(pre, junk, rest, beg, rows, line);
    } else {
      assert pre + [v[0]] + v[1..] == pre + v;
      QuotedStep(pre, v[0], Doubled(v[1..]) + end, beg, rows, line);
      QuotedRun(pre + [v[0]], v[1..], junk, rest, beg, rows, line);
    }
  }

  lemma DoubledStep(v: string, end: string)
    ensures v == [] ==> Doubled(v) + end == end
    ensures v != [] ==> Doubled(v) + end == (if v[0] == '"' then "\"\"" else [v[0]]) + (Doubled(v[1..]) + end)
  {
  }

  lemma QuotedStep(pre: string, c: char, more: string, beg: nat, rows: seq<Sect>, line: bool)
    requires more != []
    ensures Run(InQuote, pre, (if c == '"' then "\"\"" else [c]) + more, beg, rows, line)
         == Run(InQuote, pre + [c], more, beg, rows, line)
  {
    if c == '"' {
      assert ("\"\"" + more)[2..] == more && ("\"\"" + more)[1] == '"';
    } else {
      assert ([c] + more)[1..] == more;
    }
  }

  lemma QuoteEnds(pre: string, junk: string, rest: string, beg: nat, rows: seq<Sect>, line: bool)
    requires beg <= |pre| + 1 && ValidCell(Quoted("", junk)) && FollowsCell(Quoted("", junk), rest)
    ensures Run(InQuote, pre, "\"" + (junk + rest), beg, rows, line)
         == AfterCell(pre + "\"" + junk, rest, rows + [Sect(beg, |pre| + 1 - beg)], line)
  {
    var s := "\"" + (junk + rest);
    assert s[1..] == junk + rest;
    if junk == [] {
      assert junk + rest == rest && pre + "\"" + junk == pre + "\"";
      assert rest != [] ==> s[1] == rest[0];
    } else {
      assert s[1] == junk[0];
      TrashRun(pre + "\"", junk, rest, rows + [Field(pre, beg)], line);
    }
  }

  /** What does not belong behind the quotes of a field is passed over up to the next comma. */
  lemma {:induction false} TrashRun(pre: string, junk: string, rest: string, rows: seq<Sect>, line: bool)
    requires ',' !in junk && (rest == [] || rest[0] == ',')
    ensures Run(Trash, pre, junk + rest, 0, rows, line) == AfterCell(pre + junk, rest, rows, line)
    decreases |junk|
  {
    if junk == [] {
      assert junk + rest == rest && pre + junk == pre;
    } else {
      assert (junk + rest)[1..] == junk[1..] + rest;
      assert pre + [junk[0]] + junk[1..] == pre + junk;
      TrashRun(pre + [junk[0]], junk[1..], rest, rows, line);
    }
  }

  /** A field in quotes that are not closed: it goes up to the end of the data, unless it ends in a doubled quote,
    at which the program aborts. */
  lemma {:induction false} Unclosed(pre: string, v: string, beg: nat, rows: seq<Sect>, line: bool)
    requires beg <= |pre| + 1
    ensures Run(InQuote, pre, Doubled(v), beg, rows, line)
         == if v != [] && v[|v| - 1] == '"' then Abort else Done(pre + v, rows + [Sect(beg, |pre| + |v| + 1 - beg)], 0)
    decreases |v|
  {
    var s := Doubled(v);
    if v == [] {
      assert pre + v == pre;
    } else {
      var c, more := v[0], Doubled(v[1..]);
      assert v == [c] + v[1..];
      assert pre + [c] + v[1..] == pre + v;
      if c == '"' {
        assert s == "\"\"" + more && s[2..] == more;
      } else {
        assert s == [c] + more && s[1..] == more;
      }
      if |v| > 1 {
        assert v[1..][|v| - 2] == v[|v| - 1];
        DoubledLonger(v[1..]);
        Unclosed(pre + [c], v[1..], beg, rows, line);
      }
    }
  }

  lemma {:induction false} PlainRun(pre: string, v: string, rest: string, beg: nat, rows: seq<Sect>, line: bool)
    requires Follows(rest) && beg <= |pre| + 1
    requires forall i :: 0 <= i < |v| ==> v[i] !in ",\n\r"
    ensures Run(Norm, pre, v + rest, beg, rows, line)
         == AfterCell(pre + v, rest, rows + [Sect(beg, |pre| + |v| + 1 - beg)], line)
    decreases |v|
  {
    if v == [] {
      assert v + rest == rest && pre + v == pre;
    } else {
      assert (v + rest)[1..] == v[1..] + rest;
      assert pre + [v[0]] + v[1..] == pre + v;
      PlainRun(pre + [v[0]], v[1..], rest, beg, rows, line);
    }
  }

  /** A field after a comma, or the first one. */
  lemma CellRun(st: St, pre: string, c: Cell, rest: string, beg: nat, rows: seq<Sect>, line: bool)
    requires ValidCell(c) && FollowsCell(c, rest)
    requires st == Init || (st == Pre && beg == |pre| + 1)
    requires st == Init ==> CellText(c) + rest != [] && !IsRet((CellText(c) + rest)[0])
    ensures Run(st, pre, CellText(c) + rest, beg, rows, line)
         == AfterCell(pre + CellLeft(c), rest, rows + [CellSect(c, |pre| + 1)], line)
  {
    hide AfterCell, Run;
    match c
    case Quoted(v, junk) => QuotedCell(st, pre, v, junk, rest, beg, rows, line);
    case Plain(v) =>
      if v == [] {
        assert CellText(c) + rest == rest && pre + CellLeft(c) == pre;
        EmptyFrom(st, pre, rest, beg, rows, line);
      } else {
        PlainCell(st, pre, v, rest, beg, rows, line);
      }
  }

  lemma QuotedCell(st: St, pre: string, v: string, junk: string, rest: string, beg: nat, rows: seq<Sect>, line: bool)
    requires ValidCell(Quoted(v, junk)) && FollowsCell(Quoted(v, junk), rest) && (st == Init || st == Pre)
    ensures Run(st, pre, ("\"" + (Doubled(v) + ("\"" + junk))) + rest, beg, rows, line)
         == AfterCell(pre + ("\"" + (v + ("\"" + junk))), rest, rows + [Sect(|pre| + 2, |v|)], line)
  {
    hide AfterCell, Run, Doubled, ValidCell, FollowsCell;
    var body := Doubled(v) + ("\"" + (junk + rest));
    var s := ("\"" + (Doubled(v) + ("\"" + junk))) + rest;
    assert s == "\"" + body;
    assert s[1..] == body;
    QuotedFrom(st, pre, s, beg, rows, line);
    QuotedRun(pre + "\"", v, junk, rest, |pre| + 2, rows, line);
    assert pre + "\"" + v + "\"" + junk == pre + ("\"" + (v + ("\"" + junk)));
  }

  lemma PlainCell(st: St, pre: string, v: string, rest: string, beg: nat, rows: seq<Sect>, line: bool)
    requires Follows(rest) && (st == Init || st == Pre) && v != [] && v[0] != '"'
    requires forall i :: 0 <= i < |v| ==> v[i] !in ",\n\r"
    ensures Run(st, pre, v + rest, beg, rows, line) == AfterCell(pre + v, rest, rows + [Sect(|pre| + 1, |v|)], line)
  {
    hide AfterCell, Run;
    var s := v + rest;
    assert s[0] == v[0] && s[1..] == v[1..] + rest;
    PlainFrom(st, pre, s, beg, rows, line);
    PlainRun(pre + [v[0]], v[1..], rest, |pre| + 1, rows, line);
    assert pre + [v[0]] + v[1..] == pre + v;
  }

  lemma QuotedFrom(st: St, pre: string, s: string, beg: nat, rows: seq<Sect>, line: bool)
    requires (st == Init || st == Pre) && s != [] && s[0] == '"'
    ensures Run(st, pre, s, beg, rows, line) == Run(InQuote, pre + "\"", s[1..], |pre| + 2, rows, line)
  {
    assert Run(st, pre, s, beg, rows, line) == Run(Beg, pre, s, |pre| + 1, rows, line);
  }

  lemma PlainFrom(st: St, pre: string, s: string, beg: nat, rows: seq<Sect>, line: bool)
    requires (st == Init || st == Pre) && s != [] && s[0] != '"' && s[0] != ',' && !IsRet(s[0])
    ensures Run(st, pre, s, beg, rows, line) == Run(Norm, pre + [s[0]], s[1..], |pre| + 1, rows, line)
  {
    assert Run(st, pre, s, beg, rows, line) == Run(Beg, pre, s, |pre| + 1, rows, line);
  }

  lemma EmptyFrom(st: St, pre: string, rest: string, beg: nat, rows: seq<Sect>, line: bool)
    requires st == Init || (st == Pre && beg == |pre| + 1)
    requires Follows(rest) && (st == Init ==> rest != [] && !IsRet(rest[0]))
    ensures Run(st, pre, rest, beg, rows, line) == AfterCell(pre, rest, rows + [Sect(|pre| + 1, 0)], line)
  {
    if rest != [] && !IsRet(rest[0]) {
      assert Run(st, pre, rest, beg, rows, line) == Run(Beg, pre, rest, |pre| + 1, rows, line);
    }
  }

  /** The fields of a row can be written one after the other, and the row be followed by tail. */
  predicate ValidRow(cells: seq<Cell>, tail: string) {
    && cells != [] && (forall i :: 0 <= i < |cells| ==> ValidCell(cells[i]))
    && (tail == [] || tail[0] == '\n' || tail[0] == '\r')
    && (var c := cells[|cells| - 1]; c.Quoted? && c.junk != [] ==> tail == [])
  }

  lemma RestValid(cells: seq<Cell>, tail: string)
    requires ValidRow(cells, tail) && |cells| > 1
    ensures ValidRow(cells[1..], tail)
  {
    hide ValidCell;
  }

  lemma {:induction false} CellsRun(st: St, pre: string, cells: seq<Cell>, tail: string, beg: nat, rows: seq<Sect>, line: bool)
    requires ValidRow(cells, tail)
    requires st == Init || (st == Pre && beg == |pre| + 1)
    requires st == Init ==> RowText(cells) != [] && !IsRet(RowText(cells)[0])
    ensures Run(st, pre, RowText(cells) + tail, beg, rows, line)
         == AfterCell(pre + RowLeft(cells), tail, rows + RowSects(cells, |pre| + 1), line)
    decreases |cells|
  {
    hide CellText, CellLeft, CellSect, ValidCell, Run, RowText, RowLeft, RowSects, AfterCell, Follows;
    var c := cells[0];
    var one := rows + [CellSect(c, |pre| + 1)];
    var left := pre + CellLeft(c);
    if |cells| == 1 {
      RowOne(cells, pre, rows);
      FollowsTail(tail, []);
      CellRun(st, pre, c, tail, beg, rows, line);
    } else {
      var rest := "," + (RowText(cells[1..]) + tail);
      RowMany(cells, pre, tail, rows);
      FollowsTail(tail, RowText(cells[1..]));
      CellRun(st, pre, c, rest, beg, rows, line);
      CommaRun(left, RowText(cells[1..]) + tail, one, line);
      RestValid(cells, tail);
      CellsRun(Pre, left + ",", cells[1..], tail, |left| + 2, one, line);
    }
  }

  lemma FollowsTail(tail: string, more: string)
    requires tail == [] || IsRet(tail[0])
    ensures Follows(tail) && Follows("," + (more + tail))
  {
  }

  lemma RowOne(cells: seq<Cell>, pre: string, rows: seq<Sect>)
    requires |cells| == 1
    ensures RowText(cells) == CellText(cells[0]) && RowLeft(cells) == CellLeft(cells[0])
    ensures rows + RowSects(cells, |pre| + 1) == rows + [CellSect(cells[0], |pre| + 1)]
  {
    hide CellText, CellLeft, CellSect;
    assert cells[1..] == [];
  }

  lemma RowMany(cells: seq<Cell>, pre: string, tail: string, rows: seq<Sect>)
    requires |cells| > 1
    ensures RowText(cells) + tail == CellText(cells[0]) + ("," + (RowText(cells[1..]) + tail))
    ensures var left := pre + CellLeft(cells[0]);
      && left + "," + RowLeft(cells[1..]) == pre + RowLeft(cells)
      && rows + [CellSect(cells[0], |pre| + 1)] + RowSects(cells[1..], |left| + 2) == rows + RowSects(cells, |pre| + 1)
  {
    hide CellText, CellLeft, CellSect, RowText, RowLeft, RowSects;
    RowTextIs(cells);
    Joined(CellText(cells[0]), ",", RowText(cells[1..]), tail);
    RowLeftStep(cells);
    Joined(pre, CellLeft(cells[0]), ",", RowLeft(cells[1..]));
    SectsStep(cells, |pre| + 1);
    var left := pre + CellLeft(cells[0]);
    assert |left| + 2 == |pre| + 1 + |CellLeft(cells[0])| + 1;
  }

  lemma RowTextIs(cells: seq<Cell>)
    requires |cells| > 1
    ensures RowText(cells) == CellText(cells[0]) + ("," + RowText(cells[1..]))
  {
    hide CellText;
  }

  lemma Joined(a: string, b: string, c: string, d: string)
    ensures (a + (b + c)) + d == a + (b + (c + d))
    ensures a + b + c + d == a + (b + (c + d))
  {
  }

  lemma RowEnds(left: string, tail: string, rows: seq<Sect>)
    requires tail == [] || IsRet(tail[0])
    ensures AfterCell(left, tail, rows, true) == Done(left + tail, rows, |tail|)
  {
    assert tail == [] ==> left + tail == left;
  }

  lemma CommaRun(left: string, more: string, rows: seq<Sect>, line: bool)
    ensures AfterCell(left, "," + more, rows, line) == Run(Pre, left + ",", more, |left| + 2, rows, line)
  {
    assert ("," + more)[1..] == more;
  }

  lemma {:induction false} SectsSlice(pre: string, cells: seq<Cell>, tail: string, i: nat)
    requires i < |cells|
    ensures |RowSects(cells, |pre| + 1)| == |cells|
    ensures var s := RowSects(cells, |pre| + 1)[i]; var text := pre + RowLeft(cells) + tail;
            Within(text, s.pos, s.len) && Slice(text, s.pos, s.len) == cells[i].value
    decreases |cells|
  {
    hide CellLeft, CellSect, RowSects, RowLeft, Slice;
    var c := cells[0];
    var rest := if |cells| == 1 then tail else "," + RowLeft(cells[1..]) + tail;
    LeftStep(pre, cells, tail);
    SectsStep(cells, |pre| + 1);
    if i == 0 {
      FirstSlice(pre, c, rest);
    } else {
      SectsSlice(pre + CellLeft(c) + ",", cells[1..], tail, i - 1);
    }
  }

  lemma LeftStep(pre: string, cells: seq<Cell>, tail: string)
    requires cells != []
    ensures var c := CellLeft(cells[0]);
      pre + RowLeft(cells) + tail ==
        if |cells| == 1 then pre + c + tail else pre + c + ("," + RowLeft(cells[1..]) + tail)
    ensures |cells| > 1 ==>
      pre + RowLeft(cells) + tail == (pre + CellLeft(cells[0]) + ",") + RowLeft(cells[1..]) + tail
  {
    hide CellLeft, RowLeft;
    RowLeftStep(cells);
    Regroup(pre, CellLeft(cells[0]), ",", RowLeft(cells[1..]), tail);
  }

  lemma RowLeftStep(cells: seq<Cell>)
    requires cells != []
    ensures RowLeft(cells) ==
      if |cells| == 1 then CellLeft(cells[0]) else CellLeft(cells[0]) + ("," + RowLeft(cells[1..]))
  {
    hide CellLeft;
  }

  lemma Regroup(a: string, b: string, c: string, d: string, e: string)
    ensures a + (b + (c + d)) + e == a + b + (c + d + e)
    ensures a + b + (c + d + e) == (a + b + c) + d + e
  {
    assert a + (b + (c + d)) + e == a + (b + (c + (d + e)));
  }

  lemma SectsStep(cells: seq<Cell>, p: nat)
    requires cells != []
    ensures var more := RowSects(cells[1..], p + |CellLeft(cells[0])| + 1);
      |RowSects(cells, p)| == |cells| == |more| + 1 && RowSects(cells, p) == [CellSect(cells[0], p)] + more
  {
    hide CellLeft, CellSect;
    SectsMany(cells[1..], p + |CellLeft(cells[0])| + 1);
  }

  lemma {:induction false} SectsMany(cells: seq<Cell>, p: nat)
    ensures |RowSects(cells, p)| == |cells|
  {
    if cells != [] {
      SectsMany(cells[1..], p + |CellLeft(cells[0])| + 1);
    }
  }

  lemma FirstSlice(pre: string, c: Cell, rest: string)
    ensures var s := CellSect(c, |pre| + 1); var text := pre + CellLeft(c) + rest;
            Within(text, s.pos, s.len) && Slice(text, s.pos, s.len) == c.value
  {
    if c.Quoted? {
      assert pre + CellLeft(c) + rest == (pre + "\"") + c.value + ("\"" + (c.junk + rest));
    }
  }

  /** A row begins with no line break, and only that of one empty field is empty. */
  lemma RowStarts(cells: seq<Cell>)
    requires cells != [] && (forall i :: 0 <= i < |cells| ==> ValidCell(cells[i])) && cells != [Plain("")]
    ensures RowText(cells) != [] && !IsRet(RowText(cells)[0])
  {
    hide Doubled, ValidCell, IsRet;
    var text := CellText(cells[0]);
    assert ValidCell(cells[0]);
    CellStarts(cells[0]);
    if |cells| == 1 {
      assert cells == [cells[0]];
    } else {
      var rest := RowText(cells[1..]);
      assert RowText(cells) == text + ("," + rest);
      assert RowText(cells)[0] == if text == [] then ',' else text[0];
      CommaIsNoRet();
    }
  }

  lemma CellStarts(c: Cell)
    requires ValidCell(c)
    ensures CellText(c) == [] ==> c == Plain("")
    ensures CellText(c) != [] ==> !IsRet(CellText(c)[0])
  {
    hide Doubled;
  }

  lemma CommaIsNoRet()
    ensures !IsRet(',')
  {
  }

  /** A row of one empty field is no row: nothing is recorded for it. */
  lemma EmptyRow(pre: string)
    ensures ValidCell(Plain("")) && Parse(pre, RowText([Plain("")]), [], true) == Done(pre, [], 0)
  {
  }

  /** The text holds values at sections. */
  ghost predicate HoldsAll(text: string, sects: seq<Sect>, values: seq<string>) {
    && |sects| == |values|
    && forall i :: 0 <= i < |sects| ==>
         Within(text, sects[i].pos, sects[i].len) && Slice(text, sects[i].pos, sects[i].len) == values[i]
  }

  function Values(cells: seq<Cell>): seq<string> {
    seq(|cells|, i requires 0 <= i < |cells| => cells[i].value)
  }

  lemma RowHolds(pre: string, cells: seq<Cell>, tail: string)
    ensures HoldsAll(pre + RowLeft(cells) + tail, RowSects(cells, |pre| + 1), Values(cells))
  {
    hide RowLeft, RowSects, Slice;
    SectsMany(cells, |pre| + 1);
    var sects := RowSects(cells, |pre| + 1);
    var text := pre + RowLeft(cells) + tail;
    forall i | 0 <= i < |cells|
      ensures Within(text, sects[i].pos, sects[i].len) && Slice(text, sects[i].pos, sects[i].len) == Values(cells)[i]
    {
      SectsSlice(pre, cells, tail, i);
    }
  }

  /** A row written by RFC 4180, alone or before the end of a line and anything more: one section for each
    field, and after the deletions each is the value of its field. Something behind the quotes of a
    field is no part of it. */
  lemma RowParsed(pre: string, cells: seq<Cell>, tail: string)
    requires ValidRow(cells, tail) && cells != [Plain("")]
    ensures var r := Parse(pre, RowText(cells) + tail, [], true);
      && r.Done? && r.text == pre + RowLeft(cells) + tail && r.left == |tail|
      && HoldsAll(r.text, r.rows, Values(cells))
  {
    hide Run, RowText, RowLeft, RowSects, ValidCell, HoldsAll;
    RowStarts(cells);
    CellsRun(Init, pre, cells, tail, 0, [], true);
    var sects := RowSects(cells, |pre| + 1);
    assert [] + sects == sects;
    RowEnds(pre + RowLeft(cells), tail, sects);
    RowHolds(pre, cells, tail);
  }

  // ---------------------------------------------------------------- all rows at once

  /** A row and the line ends behind it. */
  datatype Row = Row(cells: seq<Cell>, eol: string)

  predicate IsEol(eol: string) {
    forall i :: 0 <= i < |eol| ==> eol[i] == '\n' || eol[i] == '\r'
  }

  function RowsText(rs: seq<Row>): string {
    if rs == [] then [] else RowText(rs[0].cells) + (rs[0].eol + RowsText(rs[1..]))
  }

  function RowsLeft(rs: seq<Row>): string {
    if rs == [] then [] else RowLeft(rs[0].cells) + (rs[0].eol + RowsLeft(rs[1..]))
  }

  function RowsValues(rs: seq<Row>): seq<string> {
    if rs == [] then [] else Values(rs[0].cells) + RowsValues(rs[1..])
  }

  function RowsSects(rs: seq<Row>, p: nat): seq<Sect> {
    if rs == [] then []
    else RowSects(rs[0].cells, p) + RowsSects(rs[1..], p + |RowLeft(rs[0].cells) + rs[0].eol|)
  }

  /** Only the last row may have no line end behind it; no row is that of a single empty field. */
  predicate ValidRows(rs: seq<Row>) {
    rs != [] ==>
      && ValidRow(rs[0].cells, rs[0].eol) && rs[0].cells != [Plain("")] && IsEol(rs[0].eol)
      && (|rs| > 1 ==> rs[0].eol != [])
      && ValidRows(rs[1..])
  }

  /** Line ends before a row are skipped. */
  lemma {:induction false} EolRun(pre: string, eol: string, s: string, rows: seq<Sect>, line: bool)
    requires IsEol(eol)
    ensures Run(Init, pre, eol + s, 0, rows, line) == Run(Init, pre + eol, s, 0, rows, line)
    decreases |eol|
  {
    if eol == [] {
      assert eol + s == s && pre + eol == pre;
    } else {
      assert (eol + s)[1..] == eol[1..] + s;
      assert pre + [eol[0]] + eol[1..] == pre + eol;
      EolRun(pre + [eol[0]], eol[1..], s, rows, line);
    }
  }

  /** Between rows, when all of them are wanted. */
  lemma NextRun(left: string, eol: string, s: string, rows: seq<Sect>)
    requires IsEol(eol) && (eol == [] ==> s == [])
    ensures AfterCell(left, eol + s, rows, false) == Run(Init, left + eol, s, 0, rows, false)
  {
    EolRun(left, eol, s, rows, false);
    assert eol == [] ==> eol + s == [] && left + eol == left;
  }

  lemma ValidTail(cells: seq<Cell>, eol: string, more: string)
    requires ValidRow(cells, eol) && (eol == [] ==> more == [])
    ensures ValidRow(cells, eol + more)
  {
    hide ValidCell;
    assert eol == [] ==> eol + more == [];
  }

  lemma {:induction false} RowsRun(pre: string, rs: seq<Row>, rows: seq<Sect>)
    requires ValidRows(rs)
    ensures Run(Init, pre, RowsText(rs), 0, rows, false) == Done(pre + RowsLeft(rs), rows + RowsSects(rs, |pre| + 1), 0)
    decreases |rs|
  {
    hide Run, AfterCell, RowText, RowLeft, RowSects, ValidRow, IsEol;
    if rs == [] {
      assert pre + [] == pre && rows + [] == rows;
      InitEnds(pre, rows);
    } else {
      var cells, eol, more := rs[0].cells, rs[0].eol, RowsText(rs[1..]);
      assert |rs| == 1 ==> rs[1..] == [];
      ValidTail(cells, eol, more);
      RowBegins(cells, eol);
      CellsRun(Init, pre, cells, eol + more, 0, rows, false);
      var left, one := pre + RowLeft(cells), rows + RowSects(cells, |pre| + 1);
      NextRun(left, eol, more, one);
      RowsRun(left + eol, rs[1..], one);
      assert left + eol + RowsLeft(rs[1..]) == pre + RowsLeft(rs);
      assert one + RowsSects(rs[1..], |left + eol| + 1) == rows + RowsSects(rs, |pre| + 1) by {
        assert |left + eol| + 1 == |pre| + 1 + |RowLeft(cells) + eol|;
      }
    }
  }

  lemma RowBegins(cells: seq<Cell>, tail: string)
    requires ValidRow(cells, tail) && cells != [Plain("")]
    ensures RowText(cells) != [] && !IsRet(RowText(cells)[0])
  {
    hide ValidCell, RowText;
    RowStarts(cells);
  }

  lemma InitEnds(pre: string, rows: seq<Sect>)
    ensures Run(Init, pre, [], 0, rows, false) == Done(pre, rows, 0)
  {
  }

  lemma HoldsJoin(text: string, s: seq<Sect>, vs: seq<string>, s': seq<Sect>, vs': seq<string>)
    requires HoldsAll(text, s, vs) && HoldsAll(text, s', vs')
    ensures HoldsAll(text, s + s', vs + vs')
  {
    hide Slice;
  }

  lemma {:induction false} RowsHold(pre: string, rs: seq<Row>)
    ensures HoldsAll(pre + RowsLeft(rs), RowsSects(rs, |pre| + 1), RowsValues(rs))
    decreases |rs|
  {
    hide HoldsAll, RowLeft, RowSects, Values;
    if rs == [] {
      NothingHeld(pre + RowsLeft(rs));
    } else {
      var left, eol, more := RowLeft(rs[0].cells), rs[0].eol, RowsLeft(rs[1..]);
      RowHolds(pre, rs[0].cells, eol + more);
      RowsHold(pre + left + eol, rs[1..]);
      assert pre + RowsLeft(rs) == pre + left + (eol + more);
      assert pre + RowsLeft(rs) == pre + left + eol + more;
      assert |pre + left + eol| + 1 == |pre| + 1 + |left + eol|;
      HoldsJoin(pre + RowsLeft(rs), RowSects(rs[0].cells, |pre| + 1), Values(rs[0].cells),
        RowsSects(rs[1..], |pre| + 1 + |left + eol|), RowsValues(rs[1..]));
    }
  }

  lemma NothingHeld(text: string)
    ensures HoldsAll(text, [], [])
  {
  }

  /** All rows in one go, with line ends before the first: a section for each field of every row in order, and after
    the deletions each is the value of its field. */
  lemma RowsParsed(pre: string, lead: string, rs: seq<Row>)
    requires IsEol(lead) && ValidRows(rs)
    ensures var r := Parse(pre, lead + RowsText(rs), [], false);
      r.Done? && r.text == pre + lead + RowsLeft(rs) && r.left == 0 && HoldsAll(r.text, r.rows, RowsValues(rs))
  {
    hide Run, RowsText, RowsLeft, RowsSects, RowsValues, HoldsAll, ValidRows, IsEol;
    EolRun(pre, lead, RowsText(rs), [], false);
    RowsRun(pre + lead, rs, []);
    RowsHold(pre + lead, rs);
    assert [] + RowsSects(rs, |pre + lead| + 1) == RowsSects(rs, |pre + lead| + 1);
  }

  // ---------------------------------------------------------------- where the next row is

  lemma {:induction false} DoubledLonger(v: string)
    ensures |Doubled(v)| >= |v| && (|Doubled(v)| == |v| <==> '"' !in v)
  {
    if v != [] {
      DoubledLonger(v[1..]);
      assert v == [v[0]] + v[1..];
    }
  }

  /** A field that has a quote inside its quotes. */
  predicate HasQuote(c: Cell) {
    c.Quoted? && '"' in c.value
  }

  lemma {:induction false} RowLonger(cells: seq<Cell>)
    ensures |RowText(cells)| >= |RowLeft(cells)|
    ensures |RowText(cells)| == |RowLeft(cells)| <==> forall i :: 0 <= i < |cells| ==> !HasQuote(cells[i])
  {
    if cells != [] {
      CellLonger(cells[0]);
      RowLonger(cells[1..]);
      assert forall i :: 1 <= i < |cells| ==> cells[i] == cells[1..][i - 1];
    }
  }

  lemma CellLonger(c: Cell)
    ensures |CellText(c)| >= |CellLeft(c)| && (|CellText(c)| == |CellLeft(c)| <==> !HasQuote(c))
  {
    if c.Quoted? {
      DoubledLonger(c.value);
    }
  }

  /** After a row of one quote in quotes, with another row behind it, the count is one byte too many. */
  lemma NextRowMissed()
    ensures var r := Parse("", "\"\"\"\"" + "\nb", [], true);
            r.Done? && |r.text| == 5 && |"\"\"\"\"" + "\nb"| - r.left == |r.text| - |"\nb"| + 1
  {
    hide Parse;
    var cells := [Quoted("\"", "")];
    assert Doubled("\"") == "\"\"";
    assert CellText(cells[0]) == "\"" + ("\"\"" + ("\"" + "")) == "\"\"\"\"";
    assert RowText(cells) == CellText(cells[0]) && RowLeft(cells) == CellLeft(cells[0]);
    RowParsed("", cells, "\nb");
  }

  /** The number of bytes a parse of a row says it has used leads to the end of the row in the changed text
    exactly when no quote was deleted: it is counted in the text as it was. */
  lemma NextRow(pre: string, cells: seq<Cell>, tail: string)
    requires ValidRow(cells, tail) && cells != [Plain("")]
    ensures var s := RowText(cells) + tail; var r := Parse(pre, s, [], true);
      && r.Done? && |r.text| >= |tail|
      && (|pre| + (|s| - r.left) == |r.text| - |tail| <==> forall i :: 0 <= i < |cells| ==> !HasQuote(cells[i]))
  {
    hide Parse, RowText, RowLeft;
    RowParsed(pre, cells, tail);
    RowLonger(cells);
  }
}
