/** Request headers that may be repeated: their values are joined, in the input or in a combined store. */
module MultiHdr {
  import opened Vstr

  /** The headers that may be repeated, in the order of the source; a header is its number. */
  const ACCEPT: nat := 0
  const ACCEPT_CHARSET: nat := 1
  const ACCEPT_ENCODING: nat := 2
  const ACCEPT_LANGUAGE: nat := 3
  const CONNECTION: nat := 4
  const IF_MATCH: nat := 5
  const IF_NONE_MATCH: nat := 6
  const RANGE: nat := 7
  const HDRS: nat := 8

  /** The values of one header as one: the latest first. */
  function Joined(values: seq<string>): string {
    if values == [] then []
    else if |values| == 1 then values[0]
    else values[|values| - 1] + "," + Joined(values[..|values| - 1])
  }

  /** A section that holds the joined values, or none for no values; one of no bytes may be anywhere. */
  ghost predicate Holds(text: string, sect: Sect, values: seq<string>) {
    if values == [] then sect == Sect(0, 0)
    else
      && sect.pos > 0 && sect.len == |Joined(values)|
      && (sect.len > 0 ==> Within(text, sect.pos, sect.len) && Slice(text, sect.pos, sect.len) == Joined(values))
  }

  predicate Apart(a: Sect, b: Sect) {
    a.len == 0 || b.len == 0 || a.pos + a.len <= b.pos || b.pos + b.len <= a.pos
  }

  ghost predicate AllApart(hdrs: seq<Sect>) {
    forall g, h :: 0 <= g < h < |hdrs| ==> Apart(hdrs[g], hdrs[h])
  }

  /** http__multi_hdr_fixup for one header. */
  function FixedUp(sect: Sect, pos: nat, len: nat): Sect {
    if sect.pos <= pos then sect else Sect(sect.pos + len, sect.len)
  }

  function Inserted(text: string, pos: nat, s: string): string
    requires pos <= |text|
  {
    text[..pos] + s + text[pos..]
  }

  /** A section that does not contain the place of an insertion is fixed up right. */
  lemma InsertHolds(text: string, pos: nat, s: string, sect: Sect, values: seq<string>)
    requires pos <= |text| && Holds(text, sect, values)
    requires sect.len == 0 || sect.pos + sect.len <= pos + 1 || sect.pos > pos
    ensures Holds(Inserted(text, pos, s), FixedUp(sect, pos, |s|), values)
  {
    hide Joined;
    var more := Inserted(text, pos, s);
    if sect.len > 0 {
      if sect.pos <= pos {
        assert Slice(more, sect.pos, sect.len) == Slice(text, sect.pos, sect.len);
      } else {
        assert Slice(more, sect.pos + |s|, sect.len) == Slice(text, sect.pos, sect.len);
      }
    }
  }

  /** The value put before a header's section makes it the section of one value more. */
  lemma InsertJoins(text: string, sect: Sect, values: seq<string>, v: string)
    requires values != [] && Holds(text, sect, values) && sect.pos - 1 <= |text|
    ensures Holds(Inserted(text, sect.pos - 1, v + ","), Sect(sect.pos, sect.len + |v| + 1), values + [v])
  {
    var p := sect.pos - 1;
    var more := Inserted(text, p, v + ",");
    var all := values + [v];
    assert all[..|all| - 1] == values;
    assert Joined(all) == v + "," + Joined(values);
    assert more[p..p + |v| + 1] == v + ",";
    assert more[p + |v| + 1..p + |v| + 1 + sect.len] == text[p..p + sect.len];
    assert Slice(more, sect.pos, sect.len + |v| + 1) == (v + ",") + Joined(values);
  }

  /** A value appended to the text. */
  lemma AppendHolds(text: string, v: string)
    ensures Holds(text + v, Sect(|text| + 1, |v|), [v])
  {
    assert Slice(text + v, |text| + 1, |v|) == v;
  }

  lemma StillHolds(text: string, more: string, sect: Sect, values: seq<string>)
    requires Holds(text, sect, values)
    ensures Holds(text + more, sect, values)
  {
    hide Joined;
    if sect.len > 0 {
      assert Slice(text + more, sect.pos, sect.len) == Slice(text, sect.pos, sect.len);
    }
  }

  /** The bytes of the first k sections. */
  function LenSum(hdrs: seq<Sect>, k: nat): nat
    requires k <= |hdrs|
  {
    if k == 0 then 0 else LenSum(hdrs, k - 1) + hdrs[k - 1].len
  }

  /** Where a header's section goes in the combined store; one of no bytes stays where it is. */
  function PackedAt(hdrs: seq<Sect>, h: nat): Sect
    requires h < |hdrs|
  {
    if hdrs[h].len == 0 then hdrs[h] else Sect(LenSum(hdrs, h) + 1, hdrs[h].len)
  }

  function Packed(hdrs: seq<Sect>): seq<Sect> {
    seq(|hdrs|, h requires 0 <= h < |hdrs| => PackedAt(hdrs, h))
  }

  /** A value can be put before a header's section: if the section has no bytes, it is not behind a store of
    n bytes, and not in the middle of the section of another header. */
  predicate Clear(hdrs: seq<Sect>, h: nat, n: nat)
    requires h < |hdrs|
  {
    || hdrs[h].len > 0
    || (hdrs[h].pos <= n + 1 && forall g :: 0 <= g < |hdrs| && hdrs[g].len > 0 ==>
          hdrs[h].pos <= hdrs[g].pos || hdrs[g].pos + hdrs[g].len <= hdrs[h].pos)
  }

  // ---------------------------------------------------------------- where the headers are

  /** Where the headers are, without what they hold: in the input or in a store of some bytes. */
  datatype Layout = Layout(combined: bool, hdrs: seq<Sect>, size: nat)

  function NoHeaders(): Layout {
    Layout(false, seq(HDRS, _ => Sect(0, 0)), 0)
  }

  /** After the switch of stores, if there has to be one. */
  function Combined(l: Layout): Layout {
    if l.combined then l else Layout(true, Packed(l.hdrs), LenSum(l.hdrs, |l.hdrs|))
  }

  /** After n bytes have been put before a header's section. */
  function Shifted(hdrs: seq<Sect>, h: nat, n: nat): (r: seq<Sect>)
    requires h < |hdrs| && hdrs[h].pos > 0
    ensures |r| == |hdrs|
  {
    seq(|hdrs|, g requires 0 <= g < |hdrs| =>
      if g == h then Sect(hdrs[h].pos, hdrs[h].len + n) else FixedUp(hdrs[g], hdrs[h].pos - 1, n))
  }

  /** After a value, a section of the input, has been added to a header. */
  function Added(l: Layout, h: nat, pos: nat, len: nat): (r: Layout)
    requires h < |l.hdrs|
    ensures |r.hdrs| == |l.hdrs|
  {
    if !l.combined && l.hdrs[h].pos == 0 then l.(hdrs := l.hdrs[h := Sect(pos, len)])
    else
      var c := Combined(l);
      if c.hdrs[h].pos == 0 then Layout(true, c.hdrs[h := Sect(c.size + 1, len)], c.size + len)
      else Layout(true, Shifted(c.hdrs, h, len + 1), c.size + len + 1)
  }

  /** A value can be added to a header. */
  predicate HasRoom(l: Layout, h: nat)
    requires h < |l.hdrs|
  {
    l.hdrs[h].pos == 0 || Clear(Combined(l).hdrs, h, Combined(l).size)
  }

  /** Two sections that overlap overlap still when bytes are put before any section, or else the section these
    are put before overlaps one of the two. */
  lemma OverlapStays(hdrs: seq<Sect>, h: nat, n: nat)
    requires h < |hdrs| && hdrs[h].pos > 0 && n > 0 && !AllApart(hdrs)
    requires forall g :: 0 <= g < |hdrs| && hdrs[g].len > 0 ==> hdrs[g].pos > 0
    ensures !AllApart(Shifted(hdrs, h, n))
  {
    var g, k :| 0 <= g < k < |hdrs| && !Apart(hdrs[g], hdrs[k]);
    var r := Shifted(hdrs, h, n);
    if Apart(r[g], r[k]) {
      var a := if hdrs[g].pos <= hdrs[k].pos then g else k;
      assert !Apart(r[a], r[h]) && !Apart(r[h], r[a]);
    }
  }

  lemma OverlapBeside(hdrs: seq<Sect>, h: nat, sect: Sect)
    requires h < |hdrs| && hdrs[h].len == 0 && !AllApart(hdrs)
    ensures !AllApart(hdrs[h := sect])
  {
    var g, k :| 0 <= g < k < |hdrs| && !Apart(hdrs[g], hdrs[k]);
    var r := hdrs[h := sect];
    assert r[g] == hdrs[g] && r[k] == hdrs[k];
  }

  /** The first k headers are in the store, one behind the other, and the others are still in the input. */
  ghost predicate CopiedTo(data: string, store: string, hdrs: seq<Sect>, values: seq<seq<string>>, was: seq<Sect>, k: nat) {
    && |hdrs| == |values| == |was| == HDRS && k <= HDRS && |store| == LenSum(was, k)
    && (forall h :: 0 <= h < HDRS && hdrs[h].pos == 0 ==> hdrs[h].len == 0)
    && (forall h :: 0 <= h < k ==> hdrs[h] == PackedAt(was, h) && Holds(store, hdrs[h], values[h]))
    && (forall h :: k <= h < HDRS ==> hdrs[h] == was[h] && Holds(data, hdrs[h], values[h]))
    && (forall g, h :: 0 <= g < h < k ==> Apart(hdrs[g], hdrs[h]))
  }

  lemma CopiedMore(data: string, store: string, hdrs: seq<Sect>, values: seq<seq<string>>, was: seq<Sect>, h: nat)
    requires h < HDRS && CopiedTo(data, store, hdrs, values, was, h)
    ensures |hdrs| == HDRS
    ensures hdrs[h].len == 0 ==> CopiedTo(data, store, hdrs, values, was, h + 1)
    ensures hdrs[h].len > 0 ==>
      && Within(data, hdrs[h].pos, hdrs[h].len)
      && var v := Slice(data, hdrs[h].pos, hdrs[h].len);
         CopiedTo(data, store + v, hdrs[h := Sect(|store| + 1, hdrs[h].len)], values, was, h + 1)
  {
    hide Joined;
    if hdrs[h].len > 0 {
      var v := Slice(data, hdrs[h].pos, hdrs[h].len);
      assert Slice(store + v, |store| + 1, |v|) == v;
      forall g | 0 <= g < h
        ensures Holds(store + v, hdrs[g], values[g])
        ensures hdrs[g].len > 0 ==> hdrs[g].pos + hdrs[g].len <= |store| + 1
      {
        StillHolds(store, v, hdrs[g], values[g]);
      }
    }
  }

  class Multi {
    /** The input, and the combined store; the sections are in one or the other. */
    const data: string
    var store: string
    var combined: bool
    var hdrs: seq<Sect>
    /** The values so far of each header, the first one first. */
    ghost var values: seq<seq<string>>

    constructor (data: string)
      ensures this.data == data && Valid() && !combined
      ensures hdrs == seq(HDRS, _ => Sect(0, 0)) && values == seq(HDRS, _ => [])
    {
      this.data, store, combined := data, [], false;
      hdrs := seq(HDRS, _ => Sect(0, 0));
      values := seq(HDRS, _ => []);
    }

    function Comb(): string
      reads this
    {
      if combined then store else data
    }

    ghost predicate Sized()
      reads this
    {
      |hdrs| == |values| == HDRS && forall h :: 0 <= h < HDRS && hdrs[h].pos == 0 ==> hdrs[h].len == 0
    }

    function Lay(): Layout
      reads this
    {
      Layout(combined, hdrs, |store|)
    }

    ghost predicate Valid()
      reads this
    {
      && Sized()
      && (forall h :: 0 <= h < HDRS ==> Holds(Comb(), hdrs[h], values[h]))
      && AllApart(hdrs)
      && (!combined ==> store == [])
    }

    ghost predicate Copied(k: nat, was: seq<Sect>)
      reads this
    {
      CopiedTo(data, store, hdrs, values, was, k)
    }

    /** http__multi_hdr_cp */
    method Cp(h: nat, ghost was: seq<Sect>)
      requires h < HDRS && Copied(h, was)
      modifies this`store, this`hdrs
      ensures Copied(h + 1, was)
    {
      hide CopiedTo, Slice;
      CopiedMore(data, store, hdrs, values, was, h);
      var sect := hdrs[h];
      if sect.len == 0 {
        return;
      }
      var pos := |store| + 1;
      store := store + Slice(data, sect.pos, sect.len);
      hdrs := hdrs[h := sect.(pos := pos)];
    }

    /** The switch to the combined store. */
    method Combine()
      requires Valid() && !combined
      modifies this`store, this`hdrs, this`combined
      ensures Valid() && combined && hdrs == Packed(old(hdrs)) && |store| == LenSum(old(hdrs), HDRS)
    {
      hide Holds, Copied, Packed, LenSum, AllApart;
      ghost var was := hdrs;
      HoldsAll();
      combined := true;
      CopiedNone();
      Cp(ACCEPT, was);
      Cp(ACCEPT_CHARSET, was);
      Cp(ACCEPT_ENCODING, was);
      Cp(ACCEPT_LANGUAGE, was);
      Cp(CONNECTION, was);
      Cp(IF_MATCH, was);
      Cp(IF_NONE_MATCH, was);
      Cp(RANGE, was);
      CopiedAll(was);
    }

    lemma HoldsAll()
      requires Valid() && !combined
      ensures store == [] && forall h :: 0 <= h < HDRS ==> Holds(data, hdrs[h], values[h])
    {
      hide Holds;
    }

    lemma CopiedNone()
      requires Sized() && store == [] && forall h :: 0 <= h < HDRS ==> Holds(data, hdrs[h], values[h])
      ensures Copied(0, hdrs)
    {
      hide Holds;
    }

    lemma CopiedAll(was: seq<Sect>)
      requires Copied(HDRS, was) && combined
      ensures Valid() && hdrs == Packed(was) && |store| == LenSum(was, HDRS)
    {
      hide Holds, LenSum;
    }

    /** The first k headers, other than one, have been fixed up. */
    ghost predicate FixedTo(k: nat, was: seq<Sect>, ignore: nat, pos: nat, len: nat)
      reads this
    {
      && |hdrs| == |was| == HDRS && k <= HDRS
      && (forall g :: 0 <= g < k ==> hdrs[g] == if g == ignore then was[g] else FixedUp(was[g], pos, len))
      && (forall g :: k <= g < HDRS ==> hdrs[g] == was[g])
    }

    /** http__multi_hdr_fixup */
    method Fixup(ignore: nat, h: nat, pos: nat, len: nat, ghost was: seq<Sect>)
      requires h < HDRS && FixedTo(h, was, ignore, pos, len)
      modifies this`hdrs
      ensures FixedTo(h + 1, was, ignore, pos, len)
    {
      if h == ignore {
        return;
      }
      if hdrs[h].pos <= pos {
        return;
      }
      hdrs := hdrs[h := Sect(hdrs[h].pos + len, hdrs[h].len)];
    }

    method FixupAll(ignore: nat, pos: nat, len: nat)
      requires |hdrs| == HDRS
      modifies this`hdrs
      ensures FixedTo(HDRS, old(hdrs), ignore, pos, len)
    {
      hide FixedUp;
      ghost var was := hdrs;
      Fixup(ignore, ACCEPT, pos, len, was);
      Fixup(ignore, ACCEPT_CHARSET, pos, len, was);
      Fixup(ignore, ACCEPT_ENCODING, pos, len, was);
      Fixup(ignore, ACCEPT_LANGUAGE, pos, len, was);
      Fixup(ignore, CONNECTION, pos, len, was);
      Fixup(ignore, IF_MATCH, pos, len, was);
      Fixup(ignore, IF_NONE_MATCH, pos, len, was);
      Fixup(ignore, RANGE, pos, len, was);
    }

    /** The place of a header's section is not behind the store. */
    predicate Reached(h: nat)
      reads this
      requires h < |hdrs|
    {
      hdrs[h].pos == 0 || Combined(Lay()).hdrs[h].pos <= Combined(Lay()).size + 1
    }

    /** http__app_multi_hdr: a value, a section of the input, is added to a header. That goes well exactly
      when there is room for it; there always is when the header has no value yet, or one that is not empty.
      When it does not go well and does not fail either, two headers overlap, and from then on two always do. */
    method App(h: nat, pos: nat, len: nat) returns (ok: bool)
      requires Sized() && h < HDRS && Within(data, pos, len)
      requires !combined ==> Valid() && forall g :: 0 <= g < HDRS ==> Apart(hdrs[g], Sect(pos, len))
      modifies this
      ensures Sized() && (!combined ==> Valid())
      ensures old(Valid()) ==> (ok <==> old(Reached(h))) && (old(HasRoom(Lay(), h)) <==> ok && Valid())
      ensures old(Valid()) && ok && !old(HasRoom(Lay(), h)) ==> !AllApart(hdrs)
      ensures !old(AllApart(hdrs)) && ok ==> !AllApart(hdrs)
      ensures ok ==> values == old(values)[h := old(values)[h] + [Slice(data, pos, len)]]
      ensures ok ==> Lay() == Added(old(Lay()), h, pos, len)
      ensures old(combined) ==> combined
    {
      hide Holds, Joined, Clear, AllApart, Slice, LenSum, Packed;
      ghost var room, reached, valid, was := HasRoom(Lay(), h), Reached(h), Valid(), Lay();
      if valid {
        HoldsNone(h);
      }
      if !combined && hdrs[h].pos == 0 {
        AppendInput(h, pos, len);
        return true;
      }
      if !combined {
        Combine();
        HoldsNone(h);
      }
      assert Lay() == Combined(was);
      assert valid ==> Valid();
      if hdrs[h].pos == 0 {
        AppendStore(h, Slice(data, pos, len));
        return true;
      }
      if valid {
        HoldsNone(h);
      }
      ok := Insert(h, Slice(data, pos, len));
    }

    lemma HoldsPos(h: nat)
      requires Valid() && h < HDRS
      ensures hdrs[h].len > 0 ==> values[h] != [] && 0 < hdrs[h].pos && Within(Comb(), hdrs[h].pos, hdrs[h].len)
    {
    }

    lemma HoldsNone(h: nat)
      requires Valid() && h < HDRS
      ensures hdrs[h].pos == 0 <==> values[h] == []
    {
    }

    method AppendInput(h: nat, pos: nat, len: nat)
      requires Valid() && h < HDRS && Within(data, pos, len) && !combined && values[h] == []
      requires forall g :: 0 <= g < HDRS ==> Apart(hdrs[g], Sect(pos, len))
      modifies this`hdrs, this`values
      ensures Valid() && values == old(values)[h := old(values)[h] + [Slice(data, pos, len)]]
      ensures hdrs == old(hdrs)[h := Sect(pos, len)]
    {
      assert Holds(data, Sect(pos, len), [Slice(data, pos, len)]);
      hide Holds;
      hdrs := hdrs[h := Sect(pos, len)];
      values := values[h := values[h] + [Slice(data, pos, len)]];
      assert values[h] == [Slice(data, pos, len)];
    }

    method AppendStore(h: nat, v: string)
      requires Sized() && h < HDRS && combined && hdrs[h].pos == 0
      modifies this`hdrs, this`values, this`store
      ensures Sized() && (old(Valid()) && old(values)[h] == [] ==> Valid())
      ensures !old(AllApart(hdrs)) ==> !AllApart(hdrs)
      ensures hdrs == old(hdrs)[h := Sect(old(|store|) + 1, |v|)] && |store| == old(|store|) + |v|
      ensures values == old(values)[h := old(values)[h] + [v]]
    {
      hide Joined;
      AppendHolds(store, v);
      if !AllApart(hdrs) {
        OverlapBeside(hdrs, h, Sect(|store| + 1, |v|));
      }
      if Valid() {
        forall g | 0 <= g < HDRS
          ensures Holds(store + v, hdrs[g], values[g])
          ensures hdrs[g].len == 0 || hdrs[g].pos + hdrs[g].len <= |store| + 1
        {
          StillHolds(store, v, hdrs[g], values[g]);
        }
      }
      hide Holds;
      hdrs := hdrs[h := Sect(|store| + 1, |v|)];
      store := store + v;
      values := values[h := values[h] + [v]];
      assert old(values)[h] == [] ==> values[h] == [v];
    }

    /** The value and a comma go before the header's section, and what follows moves. */
    method Insert(h: nat, v: string) returns (ok: bool)
      requires Sized() && h < HDRS && combined && hdrs[h].pos > 0
      modifies this`hdrs, this`values, this`store
      ensures Sized() && (ok <==> old(hdrs[h].pos <= |store| + 1))
      ensures old(Valid()) && old(values)[h] != [] ==> (old(Clear(hdrs, h, |store|)) <==> ok && Valid())
      ensures old(Valid()) && old(values)[h] != [] && ok && !old(Clear(hdrs, h, |store|)) ==> !AllApart(hdrs)
      ensures !old(AllApart(hdrs)) && ok ==> !AllApart(hdrs)
      ensures ok ==> hdrs == Shifted(old(hdrs), h, |v| + 1) && |store| == old(|store|) + |v| + 1
      ensures !ok ==> hdrs == old(hdrs)
      ensures ok ==> values == old(values)[h := old(values)[h] + [v]]
    {
      hide Joined, FixedUp, Apart, AllApart, Slice, Clear, Holds;
      ghost var was, text := hdrs, store;
      ghost var valid := Valid() && values[h] != [];
      var sect := hdrs[h];
      var pos := sect.pos - 1;
      if valid {
        HoldsPos(h);
      }
      if pos > |store| {
        if valid {
          NotBehind(hdrs, h, |store|);
        }
        return false;
      }
      store := Inserted(store, pos, ",");
      store := Inserted(store, pos, v);
      InsertedTwice(text, pos, v);
      hdrs := hdrs[h := Sect(sect.pos, sect.len + |v| + 1)];
      FixupAll(h, pos, |v| + 1);
      ShiftedIs(was, hdrs, h, |v| + 1);
      if !AllApart(was) {
        OverlapStays(was, h, |v| + 1);
      }
      if valid {
        InsertJoins(text, sect, values[h], v);
        if Clear(was, h, |text|) {
          forall g | 0 <= g < HDRS && g != h
            ensures Holds(store, hdrs[g], values[g])
          {
            ClearFrom(was, h, |text|, g);
            InsertHolds(text, pos, v + ",", was[g], values[g]);
          }
          MovedApart(was, hdrs, h, pos, |v| + 1, |text|);
        } else {
          MovedInto(was, hdrs, h, pos, |v| + 1, |text|);
        }
      }
      values := values[h := values[h] + [v]];
      ok := true;
    }
  }

  lemma ShiftedIs(was: seq<Sect>, now: seq<Sect>, h: nat, n: nat)
    requires |was| == |now| && h < |was| && was[h].pos > 0
    requires forall g :: 0 <= g < |was| ==>
      now[g] == if g == h then Sect(was[h].pos, was[h].len + n) else FixedUp(was[g], was[h].pos - 1, n)
    ensures now == Shifted(was, h, n)
    ensures forall g :: 0 <= g < |was| && (was[g].pos == 0 ==> was[g].len == 0) && now[g].pos == 0 ==> now[g].len == 0
  {
  }

  lemma NotBehind(hdrs: seq<Sect>, h: nat, n: nat)
    requires h < |hdrs| && hdrs[h].pos > n + 1 && (hdrs[h].len > 0 ==> hdrs[h].pos + hdrs[h].len <= n + 1)
    ensures !Clear(hdrs, h, n)
  {
  }

  /** What another header's section is to the place of an insertion. */
  lemma ClearFrom(hdrs: seq<Sect>, h: nat, n: nat, g: nat)
    requires AllApart(hdrs) && h < |hdrs| && g < |hdrs| && g != h && Clear(hdrs, h, n) && hdrs[h].pos > 0
    ensures hdrs[g].len == 0 || hdrs[g].pos + hdrs[g].len <= hdrs[h].pos || hdrs[g].pos > hdrs[h].pos - 1
  {
    BothApart(hdrs, g, h);
  }

  lemma InsertedTwice(text: string, pos: nat, v: string)
    requires pos <= |text|
    ensures Inserted(Inserted(text, pos, ","), pos, v) == Inserted(text, pos, v + ",")
  {
    var t := Inserted(text, pos, ",");
    assert t[..pos] == text[..pos] && t[pos..] == "," + text[pos..];
  }

  lemma BothApart(hdrs: seq<Sect>, g: nat, h: nat)
    requires AllApart(hdrs) && g < |hdrs| && h < |hdrs| && g != h
    ensures Apart(hdrs[g], hdrs[h])
  {
    assert Apart(hdrs[if g < h then g else h], hdrs[if g < h then h else g]);
  }

  /** Sections that do not overlap do not overlap after an insertion at the start of one. */
  lemma MovedApart(was: seq<Sect>, now: seq<Sect>, h: nat, pos: nat, len: nat, n: nat)
    requires |was| == |now| && h < |was| && AllApart(was) && was[h].pos == pos + 1 && Clear(was, h, n)
    requires forall g :: 0 <= g < |was| ==>
      now[g] == if g == h then Sect(was[h].pos, was[h].len + len) else FixedUp(was[g], pos, len)
    ensures AllApart(now)
  {
    hide Clear;
    forall g, k | 0 <= g < k < |was|
      ensures Apart(now[g], now[k])
    {
      assert Apart(was[g], was[k]);
      if g != h {
        ClearFrom(was, h, n, g);
        BothApart(was, g, h);
      }
      if k != h {
        ClearFrom(was, h, n, k);
        BothApart(was, k, h);
      }
    }
  }

  /** An insertion in the middle of another header's section is in both sections. */
  lemma MovedInto(was: seq<Sect>, now: seq<Sect>, h: nat, pos: nat, len: nat, n: nat)
    requires |was| == |now| && h < |was| && was[h].pos == pos + 1 <= n + 1 && !Clear(was, h, n) && len > 0
    requires forall g :: 0 <= g < |was| ==>
      now[g] == if g == h then Sect(was[h].pos, was[h].len + len) else FixedUp(was[g], pos, len)
    ensures !AllApart(now)
  {
    var g :| 0 <= g < |was| && was[g].len > 0 && was[g].pos < was[h].pos < was[g].pos + was[g].len;
    assert now[g] == was[g] && !Apart(now[g], now[h]) && !Apart(now[h], now[g]);
  }

  // ---------------------------------------------------------------- a whole request

  /** A header line: which header, and where its value is in the input. */
  datatype Line = Line(hdr: nat, pos: nat, len: nat)

  /** Lines as the request has them, one after the other. */
  ghost predicate InOrder(data: string, lines: seq<Line>) {
    && (forall i :: 0 <= i < |lines| ==> lines[i].hdr < HDRS && Within(data, lines[i].pos, lines[i].len))
    && (forall i, j :: 0 <= i < j < |lines| ==> lines[i].pos + lines[i].len <= lines[j].pos)
  }

  /** Where the headers are after some lines. */
  ghost function LayoutOf(data: string, lines: seq<Line>): (r: Layout)
    requires InOrder(data, lines)
    ensures |r.hdrs| == HDRS
  {
    if lines == [] then NoHeaders()
    else
      var n := |lines| - 1;
      Added(LayoutOf(data, lines[..n]), lines[n].hdr, lines[n].pos, lines[n].len)
  }

  /** There is room for line i where the lines before it have put the headers. */
  ghost predicate RoomAt(data: string, lines: seq<Line>, i: nat)
    requires InOrder(data, lines) && i < |lines|
  {
    HasRoom(LayoutOf(data, lines[..i]), lines[i].hdr)
  }

  ghost predicate AllRoom(data: string, lines: seq<Line>)
    requires InOrder(data, lines)
  {
    forall i :: 0 <= i < |lines| ==> RoomAt(data, lines, i)
  }

  /** No header that comes again begins with an empty value. */
  ghost predicate NoEmptyAgain(lines: seq<Line>) {
    forall i, j :: 0 <= i < j < |lines| && lines[i].hdr == lines[j].hdr && lines[i].len == 0 ==>
      exists k :: 0 <= k < i && lines[k].hdr == lines[i].hdr
  }

  /** The values of one header, in the order of the lines. */
  ghost function ValuesOf(data: string, lines: seq<Line>, h: nat): seq<string>
    requires InOrder(data, lines)
  {
    if lines == [] then []
    else
      var n := |lines| - 1;
      var rest := ValuesOf(data, lines[..n], h);
      if lines[n].hdr == h then rest + [Slice(data, lines[n].pos, lines[n].len)] else rest
  }

  /** Every header has its values joined, the latest first, and no two headers share a byte. */
  ghost predicate Joins(data: string, lines: seq<Line>, comb: string, hdrs: seq<Sect>)
    requires InOrder(data, lines)
  {
    |hdrs| == HDRS && AllApart(hdrs) && forall h :: 0 <= h < HDRS ==> Holds(comb, hdrs[h], ValuesOf(data, lines, h))
  }

  /** Whatever lines come in whatever order: the headers end up joined and apart exactly when there was room for
    every line, and there always is unless a header comes again after an empty first value. */
  method ParseHdrs(data: string, lines: seq<Line>) returns (ok: bool, comb: string, hdrs: seq<Sect>)
    requires InOrder(data, lines)
    ensures ok && Joins(data, lines, comb, hdrs) <==> AllRoom(data, lines)
    ensures NoEmptyAgain(lines) ==> AllRoom(data, lines)
  {
    hide Holds, Joined, AllApart, ValuesOf, InOrder, NoEmptyAgain, Clear, LayoutOf, Added, HasRoom, Combined;
    var m := new Multi(data);
    ghost var end, fine := 1, true;
    NoLines(data, lines);
    assert m.hdrs == NoHeaders().hdrs;
    for i := 0 to |lines|
      invariant m.data == data && m.Sized() && fresh(m)
      invariant !m.combined ==> m.Valid()
      invariant if fine then m.Valid() else m.combined && !AllApart(m.hdrs)
      invariant fine <==> forall j :: 0 <= j < i ==> RoomAt(data, lines, j)
      invariant NoEmptyAgain(lines) ==> fine
      invariant InOrder(data, lines[..i]) && m.Lay() == LayoutOf(data, lines[..i])
      invariant forall h :: 0 <= h < HDRS ==> m.values[h] == ValuesOf(data, lines[..i], h)
      invariant !m.combined ==> forall h :: 0 <= h < HDRS ==> m.hdrs[h].pos + m.hdrs[h].len <= end
      invariant i < |lines| ==> end <= lines[i].pos
    {
      var l := lines[i];
      NextLine(data, lines, i);
      NextLayout(data, lines, i);
      if NoEmptyAgain(lines) {
        RoomForMore(m, data, lines, i);
      }
      ghost var was := m.Lay();
      ok := m.App(l.hdr, l.pos, l.len);
      if !ok {
        assert !fine || !RoomAt(data, lines, i);
        return false, m.Comb(), m.hdrs;
      }
      if !m.combined {
        AddedInput(was, l.hdr, l.pos, l.len);
      }
      fine := fine && RoomAt(data, lines, i);
      end := l.pos + l.len;
    }
    assert lines[..|lines|] == lines;
    return true, m.Comb(), m.hdrs;
  }

  /** As long as nothing has been combined, a line changes one header. */
  lemma AddedInput(l: Layout, h: nat, pos: nat, len: nat)
    requires h < |l.hdrs| && !Added(l, h, pos, len).combined
    ensures !l.combined && Added(l, h, pos, len).hdrs == l.hdrs[h := Sect(pos, len)]
  {
  }

  lemma NextLayout(data: string, lines: seq<Line>, i: nat)
    requires InOrder(data, lines) && i < |lines|
    ensures InOrder(data, lines[..i]) && InOrder(data, lines[..i + 1])
    ensures LayoutOf(data, lines[..i + 1]) == Added(LayoutOf(data, lines[..i]), lines[i].hdr, lines[i].pos, lines[i].len)
  {
    hide Added;
    assert lines[..i + 1][..i] == lines[..i];
  }

  lemma RoomForMore(m: Multi, data: string, lines: seq<Line>, i: nat)
    requires m.Valid() && InOrder(data, lines) && NoEmptyAgain(lines) && i < |lines| && lines[i].hdr < HDRS
    requires InOrder(data, lines[..i]) && m.values[lines[i].hdr] == ValuesOf(data, lines[..i], lines[i].hdr)
    ensures HasRoom(m.Lay(), lines[i].hdr)
  {
    hide InOrder, ValuesOf, AllApart;
    var h := lines[i].hdr;
    if m.hdrs[h].pos > 0 && m.hdrs[h].len == 0 {
      var values := m.values[h];
      EmptyJoined(values);
      var k := FirstLine(data, lines[..i], h);
      assert false;
    }
  }

  lemma EmptyJoined(values: seq<string>)
    requires values != [] && Joined(values) == []
    ensures values == [[]]
  {
  }

  lemma {:induction false} FirstLine(data: string, lines: seq<Line>, h: nat) returns (k: nat)
    requires InOrder(data, lines) && ValuesOf(data, lines, h) != []
    ensures k < |lines| && lines[k].hdr == h && (forall j :: 0 <= j < k ==> lines[j].hdr != h)
    ensures |ValuesOf(data, lines, h)[0]| == lines[k].len
    decreases |lines|
  {
    var n := |lines| - 1;
    if ValuesOf(data, lines[..n], h) != [] {
      k := FirstLine(data, lines[..n], h);
    } else {
      NoneBefore(data, lines[..n], h);
      k := n;
    }
  }

  lemma {:induction false} NoneBefore(data: string, lines: seq<Line>, h: nat)
    requires InOrder(data, lines) && ValuesOf(data, lines, h) == []
    ensures forall j :: 0 <= j < |lines| ==> lines[j].hdr != h
  {
    if lines != [] {
      NoneBefore(data, lines[..|lines| - 1], h);
    }
  }

  lemma {:induction false} LenSumOne(hdrs: seq<Sect>, k: nat, c: nat)
    requires k <= |hdrs| && c < |hdrs| && forall g :: 0 <= g < |hdrs| && g != c ==> hdrs[g].len == 0
    ensures LenSum(hdrs, k) == if c < k then hdrs[c].len else 0
  {
    if k > 0 {
      LenSumOne(hdrs, k - 1, c);
    }
  }

  /** A header that comes first with nothing and then with a value: alone it makes the request fail, and when
    another header has been copied to where it was, it is put in the middle of that one. */
  method EmptyThenValue(data: string) returns (alone: bool, ok: bool, hdrs: seq<Sect>)
    requires |data| >= 11
    ensures !alone && ok && |hdrs| == HDRS && !AllApart(hdrs)
  {
    hide Holds, Joined, LenSum, AllApart;
    var m := new Multi(data);
    alone := m.App(ACCEPT, 3, 0);
    LenSumOne(m.hdrs, HDRS, ACCEPT);
    alone := m.App(ACCEPT, 5, 1);
    m := new Multi(data);
    ok := m.App(ACCEPT, 3, 0);
    ok := m.App(CONNECTION, 5, 6);
    LenSumOne(m.hdrs, HDRS, CONNECTION);
    LenSumOne(m.hdrs, CONNECTION, CONNECTION);
    assert Packed(m.hdrs)[CONNECTION] == Sect(1, 6) && Packed(m.hdrs)[ACCEPT] == Sect(3, 0);
    ok := m.App(ACCEPT, 11, 1);
    hdrs := m.hdrs;
  }

  lemma NoLines(data: string, lines: seq<Line>)
    requires InOrder(data, lines)
    ensures InOrder(data, lines[..0]) && forall h :: 0 <= h < HDRS ==> ValuesOf(data, lines[..0], h) == []
    ensures LayoutOf(data, lines[..0]) == NoHeaders()
    ensures lines != [] ==> lines[0].pos >= 1
  {
  }

  /** One line more. */
  lemma NextLine(data: string, lines: seq<Line>, i: nat)
    requires InOrder(data, lines) && i < |lines|
    ensures lines[i].hdr < HDRS && Within(data, lines[i].pos, lines[i].len)
    ensures i + 1 < |lines| ==> lines[i].pos + lines[i].len <= lines[i + 1].pos
    ensures InOrder(data, lines[..i]) && InOrder(data, lines[..i + 1])
    ensures forall h :: 0 <= h < HDRS && h != lines[i].hdr ==>
              ValuesOf(data, lines[..i + 1], h) == ValuesOf(data, lines[..i], h)
    ensures var h := lines[i].hdr;
            ValuesOf(data, lines[..i + 1], h) == ValuesOf(data, lines[..i], h) + [Slice(data, lines[i].pos, lines[i].len)]
  {
    assert lines[..i + 1][..i] == lines[..i];
  }

  // ---------------------------------------------------------------- the values again

  /** The parts of a text between its commas. */
  function Split(s: string): (r: seq<string>)
    ensures |r| > 0
  {
    var n := CSpan(s, ",");
    if n == |s| then [s] else [s[..n]] + Split(s[n + 1..])
  }

  function Reversed(values: seq<string>): seq<string> {
    if values == [] then [] else [values[|values| - 1]] + Reversed(values[..|values| - 1])
  }

  /** Values without commas can be told apart again in the joined text. */
  lemma {:induction false} SplitJoined(values: seq<string>)
    requires values != [] && forall i :: 0 <= i < |values| ==> ',' !in values[i]
    ensures Split(Joined(values)) == Reversed(values)
  {
    var n := |values| - 1;
    var v := values[n];
    if n == 0 {
      CSpanIs(v, ",", |v|);
      assert Reversed(values[..0]) == [];
    } else {
      var s := v + "," + Joined(values[..n]);
      assert s[|v|] == ',';
      CSpanIs(s, ",", |v|);
      assert s[..|v|] == v && s[|v| + 1..] == Joined(values[..n]);
      SplitJoined(values[..n]);
    }
  }
}
