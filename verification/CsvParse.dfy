/** The loop of vcsv_row_parse over the nodes of a string, deleting from the string as it goes. */
module CsvParse {
  import opened Vstr
  import opened Csv

  /** The states in which the start of a field is known. */
  predicate InField(st: St) {
    st == Pre || st == Beg || st == InQuote || st == EndQuote || st == Norm
  }

  /** The parts of a text. */
  ghost predicate Laid(text: string, pre: string, s: string, post: string) {
    text == pre + s + post
  }

  lemma LaidOut(text: string, pre: string, post: string)
    requires Laid(text, pre, [], post)
    ensures text == pre + post
  {
    assert pre + [] == pre;
  }

  lemma LaidAll(text: string, pre: string, s: string, post: string)
    requires Laid(text, pre, s, post)
    ensures Laid(text, pre + s, [], post)
  {
  }

  /** vcsv_row_parse: its arguments, its local variables, and the string it works on. */
  class RowParser {
    var text: string
    var rows: seq<Sect>
    const pos: nat
    const line: bool
    /** How a node of the string is cut off what is left, each time the iterator moves on: any way at all. */
    const cuts: nat -> nat

    var dataLen: nat
    var len: nat
    var begLen: nat
    var iterLen: nat
    var state: St
    var nodes: nat

    /** The text before the iterator, the rest of the data, and what follows it; the parse of it all. */
    ghost var pre: string
    ghost var s: string
    ghost var post: string
    ghost var whole: Result

    ghost predicate Valid()
      reads this
    {
      && Laid(text, pre, s, post) && |s| == len && iterLen <= len
      && pos >= 1 && len <= dataLen && |pre| + 1 + len == pos + dataLen
      && (InField(state) ==> len <= begLen <= dataLen)
      && (state == Pre || state == Beg ==> begLen == len)
      && (state == Init || state == Ret ==> len > 0)
      && (state == Comma ==> len > 0 && s[0] == ',')
      && (state == EndQuote ==> len > 0 && len < begLen && pre != [] && pre[|pre| - 1] == '"')
      && whole == Ahead()
    }

    /** Where the field begins. */
    ghost function FieldPos(): nat
      reads this
    {
      if InField(state) && begLen <= pos + dataLen then pos + dataLen - begLen else 0
    }

    ghost function Ahead(): Result
      reads this
    {
      if state == EndQuote then
        if pre == [] then Abort else Run(InQuote, pre[..|pre| - 1], "\"" + s, FieldPos(), rows, line)
      else Run(state, pre, s, FieldPos(), rows, line)
    }

    constructor (text: string, pos: nat, len: nat, rows: seq<Sect>, line: bool, cuts: nat -> nat)
      requires Within(text, pos, len) && len > 0
      ensures Valid() && this.text == text && this.rows == rows && this.pos == pos && this.dataLen == this.len == len
      ensures pre == text[..pos - 1] && post == text[pos - 1 + len..] && this.line == line
      ensures whole == Parse(text[..pos - 1], Slice(text, pos, len), rows, line)
    {
      this.text, this.pos, this.len, this.rows, this.line, this.cuts := text, pos, len, rows, line, cuts;
      dataLen, begLen, iterLen, state, nodes := len, 0, 0, Init, 0;
      pre, s, post := text[..pos - 1], Slice(text, pos, len), text[pos - 1 + len..];
      whole := Parse(text[..pos - 1], Slice(text, pos, len), rows, line);
    }

    /** The byte at an offset from the iterator. */
    function At(i: nat): char
      reads this
      requires |text| >= i && pos + dataLen >= 1 + len && pos + dataLen - len - 1 + i < |text|
    {
      text[pos + dataLen - len - 1 + i]
    }

    /** vstr_iter_fwd_nxt */
    method Next()
      requires Valid() && len > 0
      modifies this`iterLen, this`nodes
      ensures Valid() && 0 < iterLen
    {
      iterLen := if cuts(nodes) < len then cuts(nodes) + 1 else len;
      nodes := nodes + 1;
    }

    /** The first n bytes of what is left are passed; the caller says what that means for the parse. */
    method Inc(n: nat)
      requires n <= iterLen <= len == |s| && Laid(text, pre, s, post) && |pre| + 1 + len == pos + dataLen
      modifies this`len, this`iterLen, this`pre, this`s
      ensures len == old(len) - n && iterLen == old(iterLen) - n && pre == old(pre) + old(s)[..n] && s == old(s)[n..]
      ensures |s| == len && Laid(text, pre, s, post) && |pre| + 1 + len == pos + dataLen
    {
      assert s == s[..n] + s[n..];
      assert pre + s[..n] + s[n..] + post == pre + s + post;
      len, iterLen := len - n, iterLen - n;
      pre, s := pre + s[..n], s[n..];
    }

    lemma Byte(i: nat)
      requires Valid() && i < len
      ensures pos + dataLen - len - 1 + i < |text| && At(i) == s[i]
    {
    }

    /** memchr over the rest of the node: how far the byte is, or the length of the node. */
    method Find(c: char) returns (n: nat)
      requires Valid()
      ensures n <= iterLen && (forall i :: 0 <= i < n ==> s[i] != c) && (n < iterLen ==> s[n] == c)
    {
      n := 0;
      while n < iterLen
        invariant n <= iterLen && forall i :: 0 <= i < n ==> s[i] != c
      {
        Byte(n);
        if At(n) == c {
          return;
        }
        n := n + 1;
      }
    }

    /** How far the end of a plain field is, or the length of the node. */
    method FindEnd() returns (n: nat)
      requires Valid()
      ensures n <= iterLen && (forall i :: 0 <= i < n ==> s[i] != ',' && !IsRet(s[i]))
      ensures n < iterLen ==> s[n] == ',' || IsRet(s[n])
    {
      n := 0;
      while n < iterLen
        invariant n <= iterLen && forall i :: 0 <= i < n ==> s[i] != ',' && !IsRet(s[i])
      {
        Byte(n);
        if At(n) == ',' || At(n) == '\r' || At(n) == '\n' {
          return;
        }
        n := n + 1;
      }
    }

    method StepTrash()
      requires Valid() && state == Trash && 0 < iterLen
      modifies this
      ensures Valid() && whole == old(whole) && post == old(post)
      ensures len < old(len) || (len == old(len) && Rank(state) < Rank(Trash))
    {
      hide Run, Laid;
      var tmp := Find(',');
      TrashSkips(pre, s, tmp, rows, line);
      ghost var found := tmp < iterLen;
      Inc(tmp);
      if found {
        TrashEnds(pre, s, rows, line);
      }
      if iterLen > 0 {
        state := Comma;
      }
    }

    method StepComma()
      requires Valid() && state == Comma && 0 < iterLen
      modifies this
      ensures Valid() && whole == old(whole) && post == old(post) && len < old(len)
    {
      hide Run, Laid;
      CommaStep(pre, s, rows, line);
      Inc(1);
      state, begLen := Pre, len;
    }

    /** vcsv_end; k is how much of what is left would be taken off the field. */
    method End(k: nat)
      requires k <= begLen <= pos + dataLen
      modifies this`rows
      ensures rows == old(rows) + [Sect(pos + dataLen - begLen, begLen - k)]
    {
      rows := rows + [Sect(pos + (dataLen as int - begLen as int), begLen - k)];
    }

    method StepPre()
      requires Valid() && state == Pre && 0 < iterLen
      modifies this
      ensures Valid() && whole == old(whole) && post == old(post) && len == old(len) && Rank(state) < Rank(Pre)
    {
      hide Run, Laid;
      PreStep(pre, s, FieldPos(), rows, line);
      Byte(0);
      if At(0) == '\n' || At(0) == '\r' {
        End(len);
        state := Ret;
      } else {
        state := Beg;
      }
    }

    method StepBeg()
      requires Valid() && state == Beg && 0 < iterLen
      modifies this
      ensures Valid() && whole == old(whole) && post == old(post)
      ensures len < old(len) || (len == old(len) && Rank(state) < Rank(Beg))
    {
      hide Run, Laid;
      BegStep(pre, s, FieldPos(), rows, line);
      Byte(0);
      var c := At(0);
      if c == '"' {
        state := InQuote;
        begLen := begLen - 1;
      } else if c == ',' {
        End(len);
        state := Comma;
        return;
      } else {
        begLen := len;
        state := Norm;
      }
      Inc(1);
    }

    /** Line ends are passed over, and a field begins; with nothing left the parse is over. */
    method StepInit() returns (over: bool)
      requires Valid() && state == Init && 0 < iterLen
      modifies this
      ensures whole == old(whole) && post == old(post) && len <= old(len)
      ensures !over ==> Valid() && (len < old(len) || Rank(state) < Rank(Init))
      ensures over ==> whole == Done(pre, rows, 0) && Laid(text, pre, [], post)
    {
      hide Run, Rank, Laid;
      while At0IsRet()
        invariant Valid() && state == Init && 0 < iterLen && whole == old(whole) && post == old(post) && len <= old(len)
        decreases len
      {
        Byte(0);
        InitStep(pre, s, rows, line);
        if len == 1 {
          InitOver(pre + s[..1], rows, line);
        }
        IncInit();
        if len == 0 {
          return true;
        }
        if iterLen == 0 {
          Next();
        }
      }
      Byte(0);
      InitStep(pre, s, rows, line);
      begLen := len;
      state := Beg;
      StepBeg();
      RankInit(state);
      over := false;
    }

    predicate At0IsRet()
      reads this
      requires Valid() && len > 0
    {
      Byte(0);
      At(0) == '\n' || At(0) == '\r'
    }

    /** A line end is passed over. */
    method IncInit()
      requires Valid() && state == Init && 0 < iterLen && IsRet(s[0])
      requires whole == Run(Init, pre + s[..1], s[1..], 0, rows, line)
      modifies this`len, this`iterLen, this`pre, this`s
      ensures len == old(len) - 1 && (len > 0 ==> Valid()) && pre == old(pre) + old(s)[..1] && s == old(s)[1..]
      ensures Laid(text, pre, s, post) && iterLen == old(iterLen) - 1
    {
      hide Run, Laid;
      Inc(1);
    }

    method StepRet() returns (over: bool)
      requires Valid() && state == Ret && 0 < iterLen
      modifies this
      ensures whole == old(whole) && post == old(post) && len <= old(len)
      ensures !over ==> Valid() && (len < old(len) || Rank(state) < Rank(Ret))
      ensures over ==> if line then whole == Done(pre + s, rows, len) && Laid(text, pre, s, post) && len == old(len)
                       else whole == Done(pre, rows, 0) && Laid(text, pre, [], post)
    {
      hide Run, Laid;
      RetStep(pre, s, rows, line);
      if line {
        return true;
      }
      state := Init;
      over := StepInit();
    }

    /** The closing quote, or half of a double one, is looked for. */
    method StepInQuote() returns (over: bool)
      requires Valid() && state == InQuote && 0 < iterLen
      modifies this
      ensures whole == old(whole) && post == old(post) && len < old(len)
      ensures !over ==> Valid()
      ensures over ==> whole == Done(pre, rows, 0) && Laid(text, pre, [], post)
    {
      hide Run, Laid;
      ghost var beg := FieldPos();
      var tmp := Find('"');
      QuoteSkips(pre, s, tmp, beg, rows, line);
      if tmp == iterLen {
        Inc(tmp);
        return false;
      }
      ghost var p := pre + s[..tmp];
      QuoteFound(pre, s, tmp);
      Inc(tmp + 1);
      state := EndQuote;
      if len == 0 {
        QuoteOver(p, s, beg, rows, line);
        End(1);
        assert s == [];
        return true;
      }
      return false;
    }

    /** The byte after a quote: the field ends, or one of two quotes is deleted; in the end of the data the
      iterator cannot be set up again and the program aborts. */
    method StepEndQuote() returns (aborts: bool)
      requires Valid() && state == EndQuote && 0 < iterLen
      modifies this
      ensures whole == old(whole) && post == old(post)
      ensures aborts ==> whole == Abort
      ensures !aborts ==> Valid() && (len < old(len) || (len == old(len) && Rank(state) < Rank(EndQuote)))
    {
      hide Run, Laid;
      ghost var p := pre[..|pre| - 1];
      assert pre == p + "\"";
      QuoteStep(p, s, FieldPos(), rows, line);
      Byte(0);
      var c := At(0);
      if c == '"' {
        DeleteOne(p);
        if len == 0 {
          return true;
        }
        state, iterLen := InQuote, if cuts(nodes) < len then cuts(nodes) + 1 else len;
        nodes := nodes + 1;
        return false;
      }
      EndQuoted(c, p);
      return false;
    }

    /** A field in quotes has ended. */
    method EndQuoted(c: char, ghost p: string)
      requires Valid() && state == EndQuote && c == s[0] != '"' && pre == p + "\""
      requires whole == Run(if c == ',' then Comma else if IsRet(c) then Ret else Trash,
                         pre, s, 0, rows + [Field(p, FieldPos())], line)
      modifies this`rows, this`begLen, this`state
      ensures Valid() && Rank(state) < Rank(EndQuote)
    {
      hide Run, Laid;
      End(len + 1);
      begLen := 0;
      state := if c == '\r' || c == '\n' then Ret else if c == ',' then Comma else Trash;
    }

    /** The first of two quotes is deleted, and the second one passed. */
    method DeleteOne(ghost p: string)
      requires Valid() && state == EndQuote && s[0] == '"' && pre == p + "\""
      modifies this`text, this`dataLen, this`begLen, this`len, this`s
      ensures Laid(text, pre, s, post) && s == old(s)[1..] && |s| == len == old(len) - 1
      ensures begLen == old(begLen) - 1 && dataLen == old(dataLen) - 1
    {
      hide Run;
      var tpos := pos + dataLen - (len + 1);
      DeleteQuote(p, s, post);
      text := text[..tpos - 1] + text[tpos..];
      dataLen, begLen, len := dataLen - 1, begLen - 1, len - 1;
      s := s[1..];
    }

    method StepNorm()
      requires Valid() && state == Norm && 0 < iterLen
      modifies this
      ensures Valid() && whole == old(whole) && post == old(post)
      ensures len < old(len) || (len == old(len) && Rank(state) < Rank(Norm))
    {
      hide Run, Laid, IsRet;
      ghost var beg := FieldPos();
      var tmp := FindEnd();
      NormSkips(pre, s, tmp, beg, rows, line);
      ghost var s0 := s;
      Inc(tmp);
      if iterLen == 0 {
        return;
      }
      assert s[0] == s0[tmp];
      Byte(0);
      var c := At(0);
      NormEnds(pre, s, beg, rows, line);
      End(len);
      state := if c == ',' then Comma else Ret;
    }

    /** One turn of the loop. */
    method Step() returns (over: bool, aborts: bool)
      requires Valid() && len > 0
      modifies this
      ensures whole == old(whole) && post == old(post)
      ensures aborts ==> whole == Abort
      ensures over && !aborts ==> Finished()
      ensures !over && !aborts ==> Valid() && (len < old(len) || (len == old(len) && Rank(state) < Rank(old(state))))
    {
      hide Run, Rank, Laid;
      if iterLen == 0 {
        Next();
      }
      over, aborts := false, false;
      match state
      case Trash => StepTrash();
      case Comma => StepComma();
      case Pre => StepPre();
      case Ret =>
        over := StepRet();
        left := if over && !line then 0 else len;
        if over && line {
          LaidAll(text, pre, s, post);
        }
      case Init =>
        over := StepInit();
        left := 0;
      case Beg => StepBeg();
      case InQuote =>
        over := StepInQuote();
        left := 0;
      case EndQuote => aborts := StepEndQuote();
      case Norm => StepNorm();
    }

    /** How much was not looked at when the parse was over. */
    var left: nat

    /** The parse has come to its result. */
    ghost predicate Finished()
      reads this
    {
      whole.Done? && rows == whole.rows && Laid(text, whole.text, [], post) && left == whole.left
    }

    /** What is recorded when the data ends. */
    method AtEnd()
      requires Valid() && len == 0
      modifies this`rows, this`left
      ensures Finished() && left == 0
    {
      hide Run, Laid;
      RunOver(state, pre, s, FieldPos(), rows, line);
      assert s == [];
      if state != Ret && state != Trash {
        End(len);
      }
      left := 0;
    }
  }

  /** vcsv_row_parse: however the string is cut into nodes, the result is that of the parse a byte at a time. */
  method RowParse(text: string, pos: nat, len: nat, rows: seq<Sect>, line: bool, cuts: nat -> nat)
    returns (aborts: bool, used: nat, newText: string, newRows: seq<Sect>)
    requires Within(text, pos, len)
    ensures match Parse(text[..pos - 1], Slice(text, pos, len), rows, line)
      case Abort => aborts
      case Done(t, r, left) =>
        !aborts && newText == t + text[pos - 1 + len..] && newRows == r && used == len - left && left <= len
  {
    hide Run, Rank, RowParser.Ahead, RowParser.FieldPos, Laid;
    if len == 0 {
      RunOver(Init, text[..pos - 1], [], 0, rows, line);
      assert text[..pos - 1] + text[pos - 1..] == text;
      return false, 0, text, rows;
    }
    var p := new RowParser(text, pos, len, rows, line, cuts);
    ghost var whole := p.whole;
    LeftFits(Init, text[..pos - 1], Slice(text, pos, len), 0, rows, line);
    while p.len > 0
      invariant p.Valid() && p.whole == whole && p.post == text[pos - 1 + len..] && fresh(p)
      decreases p.len, Rank(p.state)
    {
      var over, abort := p.Step();
      if abort {
        return true, 0, p.text, p.rows;
      }
      if over {
        LaidOut(p.text, whole.text, p.post);
        return false, len - p.left, p.text, p.rows;
      }
    }
    p.AtEnd();
    LaidOut(p.text, whole.text, p.post);
    return false, len, p.text, p.rows;
  }

  // ---------------------------------------------------------------- the steps of the parse

  lemma {:induction false} TrashSkips(pre: string, s: string, n: nat, rows: seq<Sect>, line: bool)
    requires n <= |s| && forall i :: 0 <= i < n ==> s[i] != ','
    ensures Run(Trash, pre, s, 0, rows, line) == Run(Trash, pre + s[..n], s[n..], 0, rows, line)
    decreases n
  {
    if n == 0 {
      assert pre + s[..0] == pre && s[0..] == s;
    } else {
      TrashSkips(pre + [s[0]], s[1..], n - 1, rows, line);
      assert pre + [s[0]] + s[1..][..n - 1] == pre + s[..n] && s[1..][n - 1..] == s[n..];
    }
  }

  lemma TrashEnds(pre: string, s: string, rows: seq<Sect>, line: bool)
    requires s != [] && s[0] == ','
    ensures Run(Trash, pre, s, 0, rows, line) == Run(Comma, pre, s, 0, rows, line)
  {
  }

  lemma CommaStep(pre: string, s: string, rows: seq<Sect>, line: bool)
    requires s != []
    ensures Run(Comma, pre, s, 0, rows, line) == Run(Pre, pre + s[..1], s[1..], |pre| + 2, rows, line)
  {
    assert s[..1] == [s[0]];
  }

  lemma PreStep(pre: string, s: string, beg: nat, rows: seq<Sect>, line: bool)
    requires s != []
    ensures Run(Pre, pre, s, beg, rows, line) ==
      if IsRet(s[0]) then Run(Ret, pre, s, 0, rows + [Field(pre, beg)], line)
      else Run(Beg, pre, s, |pre| + 1, rows, line)
  {
  }

  lemma BegStep(pre: string, s: string, beg: nat, rows: seq<Sect>, line: bool)
    requires s != []
    ensures Run(Beg, pre, s, beg, rows, line) ==
      if s[0] == '"' then Run(InQuote, pre + s[..1], s[1..], |pre| + 2, rows, line)
      else if s[0] == ',' then Run(Comma, pre, s, 0, rows + [Field(pre, beg)], line)
      else Run(Norm, pre + s[..1], s[1..], |pre| + 1, rows, line)
  {
    assert s[..1] == [s[0]];
  }

  lemma InitStep(pre: string, s: string, rows: seq<Sect>, line: bool)
    requires s != []
    ensures Run(Init, pre, s, 0, rows, line) ==
      if IsRet(s[0]) then Run(Init, pre + s[..1], s[1..], 0, rows, line)
      else Run(Beg, pre, s, |pre| + 1, rows, line)
  {
    assert s[..1] == [s[0]];
  }

  lemma InitOver(pre: string, rows: seq<Sect>, line: bool)
    ensures Run(Init, pre, [], 0, rows, line) == Done(pre, rows, 0)
  {
  }

  lemma RankInit(st: St)
    ensures Rank(st) < Rank(Beg) ==> Rank(st) < Rank(Init)
  {
  }

  lemma RetStep(pre: string, s: string, rows: seq<Sect>, line: bool)
    requires s != []
    ensures Run(Ret, pre, s, 0, rows, line) ==
      if line then Done(pre + s, rows, |s|) else Run(Init, pre, s, 0, rows, line)
  {
  }

  lemma {:induction false} QuoteSkips(pre: string, s: string, n: nat, beg: nat, rows: seq<Sect>, line: bool)
    requires n <= |s| && forall i :: 0 <= i < n ==> s[i] != '"'
    ensures Run(InQuote, pre, s, beg, rows, line) == Run(InQuote, pre + s[..n], s[n..], beg, rows, line)
    decreases n
  {
    if n == 0 {
      assert pre + s[..0] == pre && s[0..] == s;
    } else {
      QuoteSkips(pre + [s[0]], s[1..], n - 1, beg, rows, line);
      assert pre + [s[0]] + s[1..][..n - 1] == pre + s[..n] && s[1..][n - 1..] == s[n..];
    }
  }

  lemma QuoteFound(pre: string, s: string, n: nat)
    requires n < |s| && s[n] == '"'
    ensures var p := pre + s[..n];
      && pre + s[..n + 1] == p + "\"" && (p + "\"")[..|p|] == p
      && s[n..] == "\"" + s[n + 1..]
  {
    assert s[..n + 1] == s[..n] + "\"";
  }

  lemma QuoteOver(pre: string, s: string, beg: nat, rows: seq<Sect>, line: bool)
    requires s == []
    ensures Run(InQuote, pre, "\"" + s, beg, rows, line) == Done(pre + "\"", rows + [Field(pre, beg)], 0)
  {
  }

  lemma QuoteStep(pre: string, s: string, beg: nat, rows: seq<Sect>, line: bool)
    requires s != []
    ensures Run(InQuote, pre, "\"" + s, beg, rows, line) ==
      if s[0] == '"' then (if |s| == 1 then Abort else Run(InQuote, pre + "\"", s[1..], beg, rows, line))
      else Run(if s[0] == ',' then Comma else if IsRet(s[0]) then Ret else Trash,
             pre + "\"", s, 0, rows + [Field(pre, beg)], line)
  {
    var t := "\"" + s;
    assert t[1..] == s && t[2..] == s[1..] && t[1] == s[0];
  }

  /** Either of two quotes can be deleted. */
  lemma DeleteQuote(p: string, s: string, post: string)
    requires s != [] && s[0] == '"'
    ensures var t := p + "\"" + s + post; t[..|p|] + t[|p| + 1..] == p + "\"" + s[1..] + post
  {
    var t := p + "\"" + s + post;
    assert t[..|p|] == p && t[|p| + 1..] == s + post;
    assert s == "\"" + s[1..];
  }

  lemma {:induction false} NormSkips(pre: string, s: string, n: nat, beg: nat, rows: seq<Sect>, line: bool)
    requires n <= |s| && forall i :: 0 <= i < n ==> s[i] != ',' && !IsRet(s[i])
    ensures Run(Norm, pre, s, beg, rows, line) == Run(Norm, pre + s[..n], s[n..], beg, rows, line)
    decreases n
  {
    if n == 0 {
      assert pre + s[..0] == pre && s[0..] == s;
    } else {
      NormSkips(pre + [s[0]], s[1..], n - 1, beg, rows, line);
      assert pre + [s[0]] + s[1..][..n - 1] == pre + s[..n] && s[1..][n - 1..] == s[n..];
    }
  }

  lemma NormEnds(pre: string, s: string, beg: nat, rows: seq<Sect>, line: bool)
    requires s != [] && (s[0] == ',' || IsRet(s[0]))
    ensures Run(Norm, pre, s, beg, rows, line) ==
      Run(if s[0] == ',' then Comma else Ret, pre, s, 0, rows + [Field(pre, beg)], line)
  {
  }

  lemma RunOver(st: St, pre: string, s: string, beg: nat, rows: seq<Sect>, line: bool)
    requires st != EndQuote && s == []
    ensures Run(st, pre, s, beg, rows, line)
         == Done(pre, if st == Ret || st == Trash || st == Init then rows else rows + [Field(pre, beg)], 0)
  {
  }

  lemma {:induction false} LeftFits(st: St, pre: string, s: string, beg: nat, rows: seq<Sect>, line: bool)
    requires st != EndQuote
    ensures match Run(st, pre, s, beg, rows, line)
      case Abort => true
      case Done(_, _, left) => left <= |s|
    decreases |s|, Rank(st)
  {
    if s != [] {
      var c := s[0];
      match st
      case Trash => if c == ',' { LeftFits(Comma, pre, s, 0, rows, line); } else { LeftFits(Trash, pre + [c], s[1..], 0, rows, line); }
      case Comma => LeftFits(Pre, pre + [c], s[1..], |pre| + 2, rows, line);
      case Pre =>
        LeftFits(Ret, pre, s, 0, rows + [Field(pre, beg)], line);
        LeftFits(Beg, pre, s, |pre| + 1, rows, line);
      case Ret => LeftFits(Init, pre, s, 0, rows, line);
      case Init =>
        LeftFits(Init, pre + [c], s[1..], 0, rows, line);
        LeftFits(Beg, pre, s, |pre| + 1, rows, line);
      case Beg =>
        LeftFits(InQuote, pre + [c], s[1..], |pre| + 2, rows, line);
        LeftFits(Comma, pre, s, 0, rows + [Field(pre, beg)], line);
        LeftFits(Norm, pre + [c], s[1..], |pre| + 1, rows, line);
      case InQuote =>
        LeftFits(InQuote, pre + [c], s[1..], beg, rows, line);
        if |s| > 1 {
          LeftFits(InQuote, pre + [c], s[2..], beg, rows, line);
          LeftFits(Comma, pre + [c], s[1..], 0, rows + [Field(pre, beg)], line);
          LeftFits(Ret, pre + [c], s[1..], 0, rows + [Field(pre, beg)], line);
          LeftFits(Trash, pre + [c], s[1..], 0, rows + [Field(pre, beg)], line);
        }
      case Norm =>
        LeftFits(Comma, pre, s, 0, rows + [Field(pre, beg)], line);
        LeftFits(Ret, pre, s, 0, rows + [Field(pre, beg)], line);
        LeftFits(Norm, pre + [c], s[1..], beg, rows, line);
    }
  }
}
