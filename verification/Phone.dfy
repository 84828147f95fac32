/** ex_phone_names.c: all the words a telephone number can spell, by an odometer that works on the line. */
module Phone {

  /** The characters of a key, in the order of phone_state; any other character stays as it is. */
  function Cycle(c: char): (s: string)
    ensures s != [] && s[0] == c
  {
    match c
    case '2' => "2abc"
    case '3' => "3def"
    case '4' => "4ghi"
    case '5' => "5jkl"
    case '6' => "6mno"
    case '7' => "7prs"
    case '8' => "8tuv"
    case '9' => "9wxyz"
    case _ => [c]
  }

  /** phone_state */
  function Next(c: char): char {
    match c
    case '2' => 'a' case 'a' => 'b' case 'b' => 'c' case 'c' => '2'
    case '3' => 'd' case 'd' => 'e' case 'e' => 'f' case 'f' => '3'
    case '4' => 'g' case 'g' => 'h' case 'h' => 'i' case 'i' => '4'
    case '5' => 'j' case 'j' => 'k' case 'k' => 'l' case 'l' => '5'
    case '6' => 'm' case 'm' => 'n' case 'n' => 'o' case 'o' => '6'
    case '7' => 'p' case 'p' => 'r' case 'r' => 's' case 's' => '7'
    case '8' => 't' case 't' => 'u' case 'u' => 'v' case 'v' => '8'
    case '9' => 'w' case 'w' => 'x' case 'x' => 'y' case 'y' => 'z' case 'z' => '9'
    case _ => 0 as char
  }

  /** xisdigit */
  predicate IsKey(c: char) {
    '2' <= c <= '9'
  }

  /** The keys have the letters of the alphabet in order, all but q. */
  lemma KeyLetters()
    ensures Cycle('2')[1..] + Cycle('3')[1..] + Cycle('4')[1..] + Cycle('5')[1..] == "abcdefghijkl"
    ensures Cycle('6')[1..] + Cycle('7')[1..] + Cycle('8')[1..] + Cycle('9')[1..] == "mnoprstuvwxyz"
  {
    assert Cycle('2')[1..] == "abc" && Cycle('3')[1..] == "def" && Cycle('4')[1..] == "ghi" && Cycle('5')[1..] == "jkl";
    assert Cycle('6')[1..] == "mno" && Cycle('7')[1..] == "prs" && Cycle('8')[1..] == "tuv" && Cycle('9')[1..] == "wxyz";
  }

  lemma KeySizes(c: char)
    ensures |Cycle(c)| == if c == '9' then 5 else if '2' <= c <= '8' then 4 else 1
  {
  }

  lemma NextInCycle(c: char, v: nat)
    requires IsKey(c) && v < |Cycle(c)|
    ensures Next(Cycle(c)[v]) == Cycle(c)[if v + 1 < |Cycle(c)| then v + 1 else 0]
    ensures IsKey(Next(Cycle(c)[v])) <==> v + 1 == |Cycle(c)|
  {
  }

  lemma CycleDistinct(c: char, v: nat, w: nat)
    requires v < |Cycle(c)| && w < |Cycle(c)| && Cycle(c)[v] == Cycle(c)[w]
    ensures v == w
  {
  }

  // ---------------------------------------------------------------- the odometer

  /** A wheel for each character of the line; the wheel of a character that is no key has one place. */
  predicate Wheels(start: string, vs: seq<nat>) {
    |vs| == |start| && forall i :: 0 <= i < |vs| ==> vs[i] < |Cycle(start[i])|
  }

  function Shown(start: string, vs: seq<nat>): (s: string)
    requires Wheels(start, vs)
    ensures |s| == |start|
  {
    seq(|start|, i requires 0 <= i < |start| => Cycle(start[i])[vs[i]])
  }

  function Zeros(n: nat): (vs: seq<nat>)
    ensures |vs| == n
  {
    seq(n, _ => 0)
  }

  /** The next place of the wheels, the first wheel fastest; not more when they are all back at the start. */
  datatype Turned = Turned(more: bool, vs: seq<nat>)

  function Turn(start: string, vs: seq<nat>): (t: Turned)
    requires Wheels(start, vs)
    ensures Wheels(start, t.vs)
  {
    if start == [] then Turned(false, [])
    else if vs[0] + 1 < |Cycle(start[0])| then Turned(true, [vs[0] + 1] + vs[1..])
    else
      var t := Turn(start[1..], vs[1..]);
      Turned(t.more, [0] + t.vs)
  }

  /** The number of combinations: the product of the cycle lengths. */
  function Total(start: string): (n: nat)
    ensures n > 0
  {
    if start == [] then 1
    else
      Positive(|Cycle(start[0])|, Total(start[1..]));
      |Cycle(start[0])| * Total(start[1..])
  }

  /** How many turns lead to a place of the wheels. */
  function Value(start: string, vs: seq<nat>): nat
    requires Wheels(start, vs)
  {
    if start == [] then 0 else vs[0] + |Cycle(start[0])| * Value(start[1..], vs[1..])
  }

  /** The place of the wheels after n turns. */
  function Place(start: string, n: nat): (vs: seq<nat>)
    ensures Wheels(start, vs)
  {
    if start == [] then []
    else
      var b := |Cycle(start[0])|;
      [n % b] + Place(start[1..], n / b)
  }

  lemma Positive(a: nat, b: nat)
    requires a > 0 && b > 0
    ensures a * b > 0
  {
  }

  lemma Under(v: nat, b: nat, x: nat, t: nat)
    requires v < b && x < t
    ensures v + b * x < b * t
  {
    assert b * x + b == b * (x + 1);
    assert b * (x + 1) <= b * t;
  }

  lemma InOrder(b: nat, t: nat, x: nat)
    ensures x >= t ==> b * x >= b * t
  {
    if x >= t {
      assert b * x == b * t + b * (x - t);
    }
  }

  lemma {:induction false} ValueUnder(start: string, vs: seq<nat>)
    requires Wheels(start, vs)
    ensures Value(start, vs) < Total(start)
  {
    if start != [] {
      ValueUnder(start[1..], vs[1..]);
      Under(vs[0], |Cycle(start[0])|, Value(start[1..], vs[1..]), Total(start[1..]));
    }
  }

  /** Turning the wheels counts by one, and comes back to the start after the last combination only. */
  lemma {:induction false} TurnCounts(start: string, vs: seq<nat>)
    requires Wheels(start, vs)
    ensures var t := Turn(start, vs);
      && t.more == (Value(start, vs) + 1 < Total(start))
      && (t.more ==> Value(start, t.vs) == Value(start, vs) + 1)
      && (!t.more ==> Value(start, vs) + 1 == Total(start) && t.vs == Zeros(|start|))
  {
    hide Cycle, Turn, Value, Total, Wheels;
    ValueUnder(start, vs);
    if start == [] {
      NoWheels(start, vs);
    } else {
      ValueOne(start, vs);
      var b, x, rest := |Cycle(start[0])|, Value(start[1..], vs[1..]), Total(start[1..]);
      var t := Turn(start[1..], vs[1..]);
      TurnOne(start, vs);
      TurnCounts(start[1..], vs[1..]);
      ValueUnder(start[1..], vs[1..]);
      if vs[0] + 1 < b {
        Under(vs[0] + 1, b, x, rest);
        assert ([vs[0] + 1] + vs[1..])[1..] == vs[1..];
        ValueOne(start, [vs[0] + 1] + vs[1..]);
      } else {
        assert ([0] + t.vs)[1..] == t.vs;
        ValueOne(start, [0] + t.vs);
        assert b * (x + 1) == b * x + b;
        if t.more {
          Under(0, b, x + 1, rest);
        } else {
          assert [0] + Zeros(|start| - 1) == Zeros(|start|);
        }
      }
    }
  }

  lemma NoWheels(start: string, vs: seq<nat>)
    requires Wheels(start, vs) && start == []
    ensures Turn(start, vs) == Turned(false, []) && Value(start, vs) == 0 && Total(start) == 1
  {
  }

  lemma ValueOne(start: string, vs: seq<nat>)
    requires Wheels(start, vs) && start != []
    ensures Wheels(start[1..], vs[1..]) && vs != [] && vs[0] < |Cycle(start[0])|
    ensures Value(start, vs) == vs[0] + |Cycle(start[0])| * Value(start[1..], vs[1..])
    ensures Total(start) == |Cycle(start[0])| * Total(start[1..])
  {
    hide Cycle;
  }

  lemma SplitNumber(v: nat, w: nat, b: nat, x: nat, y: nat)
    requires v < b && w < b && v + b * x == w + b * y
    ensures v == w && x == y
  {
    InOrder(b, y + 1, x);
    InOrder(b, x + 1, y);
    assert b * (x + 1) == b * x + b && b * (y + 1) == b * y + b;
  }

  lemma {:induction false} ValueOnce(start: string, vs: seq<nat>, ws: seq<nat>)
    requires Wheels(start, vs) && Wheels(start, ws) && Value(start, vs) == Value(start, ws)
    ensures vs == ws
  {
    if start != [] {
      SplitNumber(vs[0], ws[0], |Cycle(start[0])|, Value(start[1..], vs[1..]), Value(start[1..], ws[1..]));
      ValueOnce(start[1..], vs[1..], ws[1..]);
      assert vs == [vs[0]] + vs[1..] && ws == [ws[0]] + ws[1..];
    }
  }

  lemma {:induction false} PlaceValue(start: string, n: nat)
    requires n < Total(start)
    ensures Value(start, Place(start, n)) == n
  {
    if start != [] {
      var b := |Cycle(start[0])|;
      assert n == n % b + b * (n / b);
      InOrder(b, Total(start[1..]), n / b);
      PlaceValue(start[1..], n / b);
      assert ([n % b] + Place(start[1..], n / b))[1..] == Place(start[1..], n / b);
    }
  }

  /** What the line shows tells the place of the wheels. */
  lemma ShownOnce(start: string, vs: seq<nat>, ws: seq<nat>)
    requires Wheels(start, vs) && Wheels(start, ws) && Shown(start, vs) == Shown(start, ws)
    ensures vs == ws
  {
    forall i | 0 <= i < |vs|
      ensures vs[i] == ws[i]
    {
      assert Shown(start, vs)[i] == Shown(start, ws)[i];
      CycleDistinct(start[i], vs[i], ws[i]);
    }
  }

  lemma StartShown(start: string)
    ensures Wheels(start, Zeros(|start|)) && Shown(start, Zeros(|start|)) == start
  {
  }

  lemma {:induction false} ZerosValue(start: string)
    ensures Wheels(start, Zeros(|start|)) && Value(start, Zeros(|start|)) == 0
  {
    if start != [] {
      ZerosValue(start[1..]);
      assert Zeros(|start|)[1..] == Zeros(|start| - 1);
    }
  }

  /** A line in which every key has been replaced by one of its characters. */
  predicate Spells(start: string, line: string) {
    |line| == |start| && forall i :: 0 <= i < |start| ==> line[i] in Cycle(start[i])
  }

  /** The lines that are put out: after one turn, after two, and so on. */
  function Names(start: string): seq<string> {
    seq(Total(start) - 1, k requires 0 <= k < Total(start) - 1 => Shown(start, Place(start, k + 1)))
  }

  lemma SpelledPlace(start: string, line: string) returns (vs: seq<nat>)
    requires Spells(start, line)
    ensures Wheels(start, vs) && Shown(start, vs) == line
  {
    vs := seq(|start|, i requires 0 <= i < |start| => PlaceOf(Cycle(start[i]), line[i]));
    assert forall i :: 0 <= i < |start| ==> Shown(start, vs)[i] == line[i];
  }

  function PlaceOf(s: string, c: char): (n: nat)
    requires c in s
    ensures n < |s| && s[n] == c
  {
    if s[0] == c then 0 else 1 + PlaceOf(s[1..], c)
  }

  /** Every word the line can spell, except the line itself, is put out, and nothing else and nothing twice. */
  lemma NamesAll(start: string)
    ensures |Names(start)| == Total(start) - 1
    ensures forall line :: line in Names(start) <==> Spells(start, line) && line != start
    ensures forall j, k :: 0 <= j < k < |Names(start)| ==> Names(start)[j] != Names(start)[k]
  {
    hide Shown, Place, Total, Value;
    var names := Names(start);
    forall line
      ensures line in names <==> Spells(start, line) && line != start
    {
      NameIff(start, line);
    }
    forall j, k | 0 <= j < k < |names|
      ensures names[j] != names[k]
    {
      PlaceValue(start, j + 1);
      PlaceValue(start, k + 1);
      if names[j] == names[k] {
        ShownOnce(start, Place(start, j + 1), Place(start, k + 1));
      }
    }
  }

  lemma ShownSpells(start: string, vs: seq<nat>)
    requires Wheels(start, vs)
    ensures Spells(start, Shown(start, vs))
  {
  }

  lemma NameIff(start: string, line: string)
    ensures line in Names(start) <==> Spells(start, line) && line != start
  {
    hide Shown, Place, Total, Value, Spells;
    var names := Names(start);
    StartShown(start);
    ZerosValue(start);
    if line in names {
      var k :| 0 <= k < |names| && names[k] == line;
      PlaceValue(start, k + 1);
      ShownSpells(start, Place(start, k + 1));
      if line == start {
        ShownOnce(start, Place(start, k + 1), Zeros(|start|));
      }
    }
    if Spells(start, line) && line != start {
      var vs := SpelledPlace(start, line);
      var n := Value(start, vs);
      ValueUnder(start, vs);
      PlaceValue(start, n);
      ValueOnce(start, vs, Place(start, n));
      if n == 0 {
        ValueOnce(start, vs, Zeros(|start|));
      } else {
        assert names[n - 1] == line;
      }
    }
  }

  // ---------------------------------------------------------------- the code

  /** split_num: the positions of the keys of a line. */
  ghost predicate Sections(start: string, sects: seq<nat>) {
    && (forall i :: 0 <= i < |sects| ==> 1 <= sects[i] <= |start| && IsKey(start[sects[i] - 1]))
    && (forall i, j :: 0 <= i < j < |sects| ==> sects[i] < sects[j])
    && (forall p :: 1 <= p <= |start| && IsKey(start[p - 1]) ==> p in sects)
  }

  method SplitNum(line: string) returns (sects: seq<nat>)
    ensures Sections(line, sects)
  {
    sects := [];
    var pos := 1;
    while pos <= |line|
      invariant 1 <= pos <= |line| + 1
      invariant forall i :: 0 <= i < |sects| ==> 1 <= sects[i] < pos && IsKey(line[sects[i] - 1])
      invariant forall i, j :: 0 <= i < j < |sects| ==> sects[i] < sects[j]
      invariant forall p :: 1 <= p < pos && IsKey(line[p - 1]) ==> p in sects
    {
      if IsKey(line[pos - 1]) {
        sects := sects + [pos];
      }
      pos := pos + 1;
    }
  }

  /** Where the part of the line begins that section number off and those after it are in, from 0. */
  function FromOff(sects: seq<nat>, off: nat): nat
    requires 1 <= off <= |sects| + 1
  {
    if off == 1 then 0 else sects[off - 2]
  }

  /** A stretch of the line without keys is passed by a turn. */
  lemma {:induction false} TurnPasses(start: string, vs: seq<nat>, n: nat)
    requires Wheels(start, vs) && n <= |start| && forall i :: 0 <= i < n ==> !IsKey(start[i])
    ensures Wheels(start[n..], vs[n..])
    ensures var t := Turn(start[n..], vs[n..]); Turn(start, vs) == Turned(t.more, vs[..n] + t.vs)
    decreases n
  {
    hide Cycle, Turn;
    if n == 0 {
      assert start[0..] == start && vs[0..] == vs;
    } else {
      OnePlace(start[0]);
      TurnOne(start, vs);
      TurnPasses(start[1..], vs[1..], n - 1);
      assert start[1..][n - 1..] == start[n..] && vs[1..][n - 1..] == vs[n..];
      assert vs[..n] == [vs[0]] + vs[1..][..n - 1];
    }
  }

  lemma OnePlace(c: char)
    requires !IsKey(c)
    ensures Cycle(c) == [c]
  {
  }

  lemma NoKeyBetween(start: string, sects: seq<nat>, off: nat, i: nat)
    requires Sections(start, sects) && 1 <= off <= |sects| + 1
    requires FromOff(sects, off) <= i < |start|
    requires off <= |sects| ==> i + 1 < sects[off - 1]
    ensures !IsKey(start[i])
  {
    forall j | 0 <= j < |sects|
      ensures sects[j] != i + 1
    {
      if j + 1 < off {
        assert sects[j] <= sects[off - 2];
      } else if off <= |sects| {
        assert sects[j] >= sects[off - 1];
      }
    }
    assert i + 1 !in sects;
  }

  class Line {
    /** The line, changed in place, and the positions of its keys. */
    var s2: string
    var sects: seq<nat>
    ghost var start: string
    ghost var vs: seq<nat>

    ghost predicate Valid()
      reads this
    {
      Sections(start, sects) && Wheels(start, vs) && s2 == Shown(start, vs)
    }

    constructor (line: string)
      ensures Valid() && start == line && vs == Zeros(|line|) && s2 == line
    {
      start, vs, s2 := line, Zeros(|line|), line;
      new;
      StartShown(line);
      sects := SplitNum(line);
    }

    /** prnt_phone_name: turns the wheels from section number off on. */
    method Prnt(off: nat) returns (more: bool)
      requires Valid() && 1 <= off <= |sects| + 1
      modifies this`s2, this`vs
      ensures Valid()
      ensures var f := FromOff(sects, off);
        && f <= |start| && Wheels(start[f..], old(vs)[f..])
        && var t := Turn(start[f..], old(vs)[f..]);
        && more == t.more && vs == old(vs)[..f] + t.vs
      decreases |sects| + 1 - off
    {
      hide Cycle, Next, Shown, Turn, Sections, Wheels, FromOff;
      ghost var f, vs0 := FromOff(sects, off), vs;
      if off > |sects| {
        LastTurn(start, vs, sects, off);
        return false;
      }
      SectionIs(start, sects, off);
      var cpos := sects[off - 1];
      ToSection(start, vs, sects, off);
      var chr := s2[cpos - 1];
      ShownAt(start, vs, cpos - 1);
      NextInCycle(start[cpos - 1], vs[cpos - 1]);
      var nxtChr := Next(chr);
      s2 := s2[cpos - 1 := nxtChr];
      ghost var v := if vs[cpos - 1] + 1 < |Cycle(start[cpos - 1])| then vs[cpos - 1] + 1 else 0;
      ShownSet(start, vs, cpos - 1, v);
      vs := vs[cpos - 1 := v];
      AfterSet(vs0, cpos - 1, v);
      more := true;
      if IsKey(nxtChr) {
        more := Prnt(off + 1);
        AfterTurn(vs0, cpos - 1, Turn(start[cpos..], vs0[cpos..]).vs);
      }
    }
  }

  /** Where section number off is. */
  lemma SectionIs(start: string, sects: seq<nat>, off: nat)
    requires Sections(start, sects) && 1 <= off <= |sects|
    ensures FromOff(sects, off) < sects[off - 1] <= |start| && FromOff(sects, off + 1) == sects[off - 1]
    ensures IsKey(start[sects[off - 1] - 1])
  {
  }

  /** No key is left: the wheels do not turn. */
  lemma LastTurn(start: string, vs: seq<nat>, sects: seq<nat>, off: nat)
    requires Sections(start, sects) && Wheels(start, vs) && off == |sects| + 1
    ensures var f := FromOff(sects, off);
      && f <= |start| && Wheels(start[f..], vs[f..])
      && var t := Turn(start[f..], vs[f..]); !t.more && vs == vs[..f] + t.vs
  {
    hide Turn, Cycle;
    var f := FromOff(sects, off);
    var n := |start| - f;
    forall i | 0 <= i < n
      ensures !IsKey(start[f..][i])
    {
      NoKeyBetween(start, sects, off, f + i);
    }
    TurnPasses(start[f..], vs[f..], n);
    TurnNone(start[f..][n..], vs[f..][n..]);
    assert vs[f..][..n] + [] == vs[f..];
  }

  lemma WheelsFrom(start: string, vs: seq<nat>, i: nat)
    requires Wheels(start, vs) && i <= |start|
    ensures |vs| == |start| && Wheels(start[i..], vs[i..])
    ensures i < |start| ==> vs[i] < |Cycle(start[i])|
  {
    hide Cycle;
  }

  /** The turn of the wheels from a section on, in terms of the wheel at its key and those after it. */
  lemma ToSection(start: string, vs: seq<nat>, sects: seq<nat>, off: nat)
    requires Sections(start, sects) && Wheels(start, vs) && 1 <= off <= |sects|
    ensures var f, c := FromOff(sects, off), sects[off - 1];
      && f < c <= |start| && |vs| == |start| && Wheels(start[f..], vs[f..]) && Wheels(start[c..], vs[c..])
      && vs[c - 1] < |Cycle(start[c - 1])|
      && var t := Turn(start[f..], vs[f..]); var u := Turn(start[c..], vs[c..]);
      && (vs[c - 1] + 1 < |Cycle(start[c - 1])| ==> t.more && vs[..f] + t.vs == vs[..c - 1] + ([vs[c - 1] + 1] + vs[c..]))
      && (vs[c - 1] + 1 == |Cycle(start[c - 1])| ==> t.more == u.more && vs[..f] + t.vs == vs[..c - 1] + ([0] + u.vs))
  {
    hide Turn, Cycle, Wheels, Sections, FromOff;
    SectionIs(start, sects, off);
    var f, c := FromOff(sects, off), sects[off - 1];
    WheelsFrom(start, vs, f);
    WheelsFrom(start, vs, c - 1);
    WheelsFrom(start, vs, c);
    var g := c - 1 - f;
    forall i | 0 <= i < g
      ensures !IsKey(start[f..][i])
    {
      NoKeyBetween(start, sects, off, f + i);
    }
    TurnPasses(start[f..], vs[f..], g);
    assert start[f..][g..] == start[c - 1..] && vs[f..][g..] == vs[c - 1..];
    FromParts(vs, f, g, Turn(start[c - 1..], vs[c - 1..]).vs);
    TurnOne(start[c - 1..], vs[c - 1..]);
    assert start[c - 1..][1..] == start[c..] && vs[c - 1..][1..] == vs[c..];
  }

  lemma AfterSet(vs: seq<nat>, i: nat, v: nat)
    requires i < |vs|
    ensures vs[i := v] == vs[..i] + ([v] + vs[i + 1..])
    ensures vs[i := v][i + 1..] == vs[i + 1..] && vs[i := v][..i + 1] == vs[..i] + [v]
  {
  }

  lemma AfterTurn(vs: seq<nat>, i: nat, t: seq<nat>)
    requires i < |vs|
    ensures vs[..i] + [0] + t == vs[..i] + ([0] + t)
  {
  }

  lemma FromParts(vs: seq<nat>, f: nat, g: nat, t: seq<nat>)
    requires f + g <= |vs|
    ensures vs[..f] + (vs[f..][..g] + t) == vs[..f + g] + t
  {
    assert vs[..f + g] == vs[..f] + vs[f..][..g];
  }

  lemma TurnNone(start: string, vs: seq<nat>)
    requires start == [] && vs == []
    ensures Turn(start, vs) == Turned(false, [])
  {
  }

  lemma TurnOne(start: string, vs: seq<nat>)
    requires Wheels(start, vs) && start != []
    ensures Wheels(start[1..], vs[1..])
    ensures Turn(start, vs) ==
      if vs[0] + 1 < |Cycle(start[0])| then Turned(true, [vs[0] + 1] + vs[1..])
      else Turned(Turn(start[1..], vs[1..]).more, [0] + Turn(start[1..], vs[1..]).vs)
  {
    hide Cycle;
  }

  lemma ShownAt(start: string, vs: seq<nat>, i: nat)
    requires Wheels(start, vs) && i < |start|
    ensures Shown(start, vs)[i] == Cycle(start[i])[vs[i]]
  {
  }

  lemma ShownSet(start: string, vs: seq<nat>, i: nat, v: nat)
    requires Wheels(start, vs) && i < |start| && v < |Cycle(start[i])|
    ensures Wheels(start, vs[i := v])
    ensures Shown(start, vs[i := v]) == Shown(start, vs)[i := Cycle(start[i])[v]]
  {
  }

  /** The names of one line, by calls that pause when there is enough output: limits[i] is how much there may be
    before call i pauses, and what a call has put out is taken away before the next call. However the calls
    pause, the output is that of all names, and the line is as it was. */
  method PrintNames(line: string, limits: seq<nat>) returns (out: seq<string>, done: bool, left: string)
    ensures out <= Names(line)
    ensures done ==> out == Names(line) && left == line
    ensures !done ==> |out| >= |limits|
  {
    hide Shown, Place, Total, Value, Cycle;
    var l := new Line(line);
    out, done := [], false;
    ZerosValue(line);
    var call := 0;
    while call < |limits| && !done
      invariant 0 <= call <= |limits| && l.Valid() && l.start == line && fresh(l)
      invariant out <= Names(line)
      invariant !done ==> Value(line, l.vs) == |out| && |out| >= call
      invariant done ==> out == Names(line) && l.s2 == line
      decreases |limits| - call
    {
      var names;
      names, done := Loop(l, limits[call], |out|);
      out := out + names;
      call := call + 1;
    }
    return out, done, l.s2;
  }

  function Length(names: seq<string>): nat {
    if names == [] then 0 else Length(names[..|names| - 1]) + |names[|names| - 1]|
  }

  /** PRNT_LOOP_NAMES: until there are no more names or there is too much output. */
  method Loop(l: Line, limit: nat, ghost before: nat) returns (names: seq<string>, done: bool)
    requires l.Valid() && Value(l.start, l.vs) == before && before <= |Names(l.start)|
    modifies l`s2, l`vs
    ensures l.Valid() && before + |names| <= |Names(l.start)|
    ensures names == Names(l.start)[before..before + |names|]
    ensures !done ==> names != [] && Length(names) > limit && Value(l.start, l.vs) == before + |names|
    ensures done ==> before + |names| == |Names(l.start)| && l.s2 == l.start
  {
    hide Shown, Place, Total, Value, Cycle, Length, Wheels, Sections;
    names, done := [], false;
    var len := 0;
    NoLength();
    while true
      invariant l.Valid() && before + |names| <= |Names(l.start)| && len == Length(names)
      invariant Value(l.start, l.vs) == before + |names|
      invariant names == Names(l.start)[before..before + |names|]
      decreases |Names(l.start)| - before - |names|
    {
      ghost var start, vs := l.start, l.vs;
      assert start[0..] == start && vs[0..] == vs;
      TurnCounts(start, vs);
      var more := l.Prnt(1);
      assert vs[..0] + Turn(start, vs).vs == Turn(start, vs).vs;
      if !more {
        StartShown(start);
        return names, true;
      }
      ghost var n := before + |names|;
      PlaceValue(start, n + 1);
      ValueOnce(start, l.vs, Place(start, n + 1));
      assert Names(start)[n] == l.s2;
      NextLength(names, l.s2);
      names := names + [l.s2];
      len := len + |l.s2|;
      if len > limit {
        return names, false;
      }
    }
  }

  lemma NoLength()
    ensures Length([]) == 0
  {
  }

  lemma NextLength(names: seq<string>, name: string)
    ensures Length(names + [name]) == Length(names) + |name|
  {
    assert (names + [name])[..|names|] == names;
  }
}
