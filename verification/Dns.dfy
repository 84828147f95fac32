/** DNS questions of dns.c: how they are written into a packet, and read back. */
module Dns {
  import opened Vstr

  const CLASS_IN: nat := 1
  const TYPE_IN_PTR: nat := 12
  const HDR_RD: nat := 256

  /** A question: a name with dots, and its class and type. */
  datatype Question = Question(name: string, cls: nat, typ: nat)

  // ---------------------------------------------------------------- the format

  /** Two bytes, the high one first; a number that is too large loses its top. */
  function B16(n: nat): (s: string)
    ensures |s| == 2
  {
    [(n / 256 % 256) as char, (n % 256) as char]
  }

  function Word(s: string, i: nat): nat
    requires i + 1 < |s|
  {
    s[i] as nat * 256 + s[i + 1] as nat
  }

  lemma WordB16(s: string, i: nat, n: nat)
    requires i + 2 <= |s| && s[i..i + 2] == B16(n)
    ensures Word(s, i) == n % 65536
  {
    assert s[i] == s[i..i + 2][0] && s[i + 1] == s[i..i + 2][1];
    assert n % 65536 == n / 256 % 256 * 256 + n % 256;
  }

  /** The labels of a name: the texts between its dots, without the empty ones. */
  function Labels(name: string): seq<string> {
    if name == [] then []
    else if name[0] == '.' then Labels(name[1..])
    else
      var n := CSpan(name, ".");
      [name[..n]] + Labels(name[n..])
  }

  /** A name with one dot after each label and no others. */
  function Collapsed(labels: seq<string>): string {
    if labels == [] then [] else labels[0] + "." + Collapsed(labels[1..])
  }

  /** Labels after their lengths, section 4.1.2 of RFC 1035; a length is a byte. */
  function LabelsText(labels: seq<string>): string {
    if labels == [] then [] else [(|labels[0]| % 256) as char] + labels[0] + LabelsText(labels[1..])
  }

  /** One question; ptr says what the name of a pointer question is changed to. */
  function QuestionText(q: Question, ptr: string -> string): string {
    LabelsText(Labels(Asked(q, ptr))) + [0 as char] + B16(q.typ) + B16(q.cls)
  }

  function Asked(q: Question, ptr: string -> string): string {
    if q.cls == CLASS_IN && q.typ == TYPE_IN_PTR then ptr(q.name) else q.name
  }

  function QuestionsText(qs: seq<Question>, ptr: string -> string): string {
    if qs == [] then [] else QuestionText(qs[0], ptr) + QuestionsText(qs[1..], ptr)
  }

  function Header(id: nat, recur: bool, count: nat): (s: string)
    ensures |s| == 12
  {
    B16(id) + B16(if recur then HDR_RD else 0) + B16(count) + B16(0) + B16(0) + B16(0)
  }

  function Message(qs: seq<Question>, ptr: string -> string, id: nat, recur: bool): string {
    Header(id, recur, |qs|) + QuestionsText(qs, ptr)
  }

  /** A message after its length, section 4.2.2 of RFC 1035. */
  function Packet(qs: seq<Question>, ptr: string -> string, id: nat, recur: bool): string {
    B16(|Message(qs, ptr, id, recur)|) + Message(qs, ptr, id, recur)
  }

  // ---------------------------------------------------------------- reading

  /** DNS_LABEL_IS_PTR */
  predicate IsPtr(c: char) {
    c as nat % 256 >= 192
  }

  /** What a name is shown as, and how much of the message it takes. */
  datatype Named = Named(text: string, len: nat)

  /** dns_app_label, on the rest of a message. */
  function NameAt(r: string): (n: Named)
    ensures n.len <= |r|
  {
    if |r| <= 1 || r[0] == 0 as char then Named([], if r == [] then 0 else 1)
    else if IsPtr(r[0]) then Named([], |r| - 1)
    else
      var k := if r[0] as nat < |r| - 1 then r[0] as nat else |r| - 1;
      var t := NameAt(r[1 + k..]);
      Named(r[1..1 + k] + "." + t.text, 1 + k + t.len)
  }

  /** A question as it is shown; known is whether the message had its class and type. */
  datatype Shown = Shown(name: string, known: bool, cls: nat, typ: nat)

  /** The questions of a message, on the rest of it behind the header. */
  function QuestionsAt(r: string, count: nat): seq<Shown>
    decreases count
  {
    if count == 0 || |r| < 6 then []
    else
      var n := NameAt(r);
      var t := r[n.len..];
      if |t| < 4 then [Shown(n.text, false, 0, 0)]
      else [Shown(n.text, true, Word(t, 2), Word(t, 0))] + QuestionsAt(t[4..], count - 1)
  }

  // ---------------------------------------------------------------- the round trip

  /** A name that can be asked: a byte that is not a dot, and labels of 63 bytes at most. */
  predicate ValidLabels(labels: seq<string>) {
    forall i :: 0 <= i < |labels| ==> 1 <= |labels[i]| <= 63
  }

  predicate ValidQuestion(q: Question, ptr: string -> string) {
    var labels := Labels(Asked(q, ptr));
    labels != [] && ValidLabels(labels) && q.cls < 65536 && q.typ < 65536
  }

  lemma {:induction false} NameDecodes(labels: seq<string>, rest: string)
    requires ValidLabels(labels) && rest != []
    ensures NameAt(LabelsText(labels) + ([0 as char] + rest)) == Named(Collapsed(labels), |LabelsText(labels)| + 1)
  {
    var end := [0 as char] + rest;
    if labels == [] {
      assert LabelsText(labels) + end == end;
    } else {
      var l, more := labels[0], LabelsText(labels[1..]) + end;
      var r := LabelsText(labels) + end;
      assert r == [|l| as char] + l + more;
      assert r[1..1 + |l|] == l && r[1 + |l|..] == more;
      NameDecodes(labels[1..], rest);
    }
  }

  lemma LabelsTextLong(labels: seq<string>)
    requires labels != [] && ValidLabels(labels)
    ensures |LabelsText(labels)| >= 2
  {
  }

  /** What a question should be shown as. */
  function ShownOf(q: Question, ptr: string -> string): Shown {
    Shown(Collapsed(Labels(Asked(q, ptr))), true, q.cls, q.typ)
  }

  function ShownAll(qs: seq<Question>, ptr: string -> string): seq<Shown> {
    if qs == [] then [] else [ShownOf(qs[0], ptr)] + ShownAll(qs[1..], ptr)
  }

  lemma {:induction false} QuestionsDecode(qs: seq<Question>, ptr: string -> string)
    requires forall i :: 0 <= i < |qs| ==> ValidQuestion(qs[i], ptr)
    ensures QuestionsAt(QuestionsText(qs, ptr), |qs|) == ShownAll(qs, ptr)
  {
    hide ShownOf, ValidQuestion, QuestionText, QuestionsAt;
    if qs == [] {
      Ended([], 0);
    } else {
      OneDecodes(qs[0], QuestionsText(qs[1..], ptr), |qs|, ptr);
      QuestionsDecode(qs[1..], ptr);
    }
  }

  lemma {:induction false} ShownAllAt(qs: seq<Question>, ptr: string -> string)
    ensures |ShownAll(qs, ptr)| == |qs|
    ensures forall i :: 0 <= i < |qs| ==> ShownAll(qs, ptr)[i] == ShownOf(qs[i], ptr)
  {
    hide ShownOf;
    if qs != [] {
      ShownAllAt(qs[1..], ptr);
    }
  }

  lemma OneDecodes(q: Question, rest: string, count: nat, ptr: string -> string)
    requires ValidQuestion(q, ptr) && count > 0
    ensures QuestionsAt(QuestionText(q, ptr) + rest, count)
         == [ShownOf(q, ptr)] + QuestionsAt(rest, count - 1)
  {
    hide Labels, NameAt, LabelsText, Collapsed, ValidLabels, B16, Word, Asked;
    var labels := Labels(Asked(q, ptr));
    var tail := B16(q.typ) + B16(q.cls) + rest;
    var r := QuestionText(q, ptr) + rest;
    assert r == LabelsText(labels) + ([0 as char] + tail);
    NameDecodes(labels, tail);
    LabelsTextLong(labels);
    assert r[|LabelsText(labels)| + 1..] == tail;
    assert tail[0..2] == B16(q.typ) && tail[2..4] == B16(q.cls) && tail[4..] == rest;
    WordB16(tail, 0, q.typ);
    WordB16(tail, 2, q.cls);
  }

  /** The header of a message, byte by byte: its number first, then the flags with nothing but the wish for
    recursion, then the number of questions, and no answers of any kind (section 4.1.1 of RFC 1035). */
  lemma HeaderBytes(qs: seq<Question>, ptr: string -> string, id: nat, recur: bool)
    ensures var m := Message(qs, ptr, id, recur);
      && |m| >= 12
      && m[0] as nat * 256 + m[1] as nat == id % 65536
      && m[2] as nat == (if recur then 1 else 0) && m[3] == 0 as char
      && m[4] as nat * 256 + m[5] as nat == |qs| % 65536
      && forall i :: 6 <= i < 12 ==> m[i] == 0 as char
  {
    hide QuestionsText;
    var m, h := Message(qs, ptr, id, recur), Header(id, recur, |qs|);
    assert m[..12] == h;
    assert forall i :: 0 <= i < 12 ==> m[i] == h[i];
    TwoBytes(id);
    TwoBytes(|qs|);
  }

  lemma TwoBytes(n: nat)
    ensures n / 256 % 256 * 256 + n % 256 == n % 65536
  {
  }

  /** A question ends with an empty label, its type and its class, the high byte of each first (section 4.1.2
    of RFC 1035). */
  lemma QuestionBytes(q: Question, ptr: string -> string)
    requires q.cls < 65536 && q.typ < 65536
    ensures var t := QuestionText(q, ptr); var n := |t|;
      && n >= 5 && t[n - 5] == 0 as char && t[..n - 5] == LabelsText(Labels(Asked(q, ptr)))
      && t[n - 4] as nat * 256 + t[n - 3] as nat == q.typ
      && t[n - 2] as nat * 256 + t[n - 1] as nat == q.cls
  {
    hide LabelsText, Labels;
    var name := LabelsText(Labels(Asked(q, ptr)));
    assert QuestionText(q, ptr) == name + ([0 as char] + B16(q.typ) + B16(q.cls));
    TwoBytes(q.typ);
    TwoBytes(q.cls);
  }

  /** The questions of a packet read back are the names asked, with runs of dots made one and one dot at the
    end, each with its class and type; and the length before the message is right when it fits. */
  lemma PacketDecodes(qs: seq<Question>, ptr: string -> string, id: nat, recur: bool)
    requires |qs| < 65536 && forall i :: 0 <= i < |qs| ==> ValidQuestion(qs[i], ptr)
    ensures var p := Packet(qs, ptr, id, recur); var m := p[2..];
      && m == Message(qs, ptr, id, recur)
      && Word(m, 0) == id % 65536 && Word(m, 2) == (if recur then 256 else 0)
      && Word(m, 4) == |qs| && Word(m, 6) == Word(m, 8) == Word(m, 10) == 0
      && var shown := QuestionsAt(m[12..], Word(m, 4));
      && |shown| == |qs| && forall i :: 0 <= i < |qs| ==> shown[i] == ShownOf(qs[i], ptr)
    ensures var p := Packet(qs, ptr, id, recur); 2 + Word(p, 0) == |p| <==> |p| - 2 < 65536
  {
    hide QuestionsText, QuestionsAt, ValidQuestion, ShownOf, ShownAll;
    ShownAllAt(qs, ptr);
    var m := Message(qs, ptr, id, recur);
    var p := Packet(qs, ptr, id, recur);
    assert p[2..] == m && p[0..2] == B16(|m|);
    WordB16(p, 0, |m|);
    HeaderBytes(qs, ptr, id, recur);
    assert m[12..] == QuestionsText(qs, ptr);
    QuestionsDecode(qs, ptr);
  }

  lemma {:induction false} LabelsOfCollapsed(labels: seq<string>)
    requires forall i :: 0 <= i < |labels| ==> labels[i] != [] && '.' !in labels[i]
    ensures Labels(Collapsed(labels)) == labels
  {
    if labels != [] {
      var l, more := labels[0], Collapsed(labels[1..]);
      var s := Collapsed(labels);
      assert s == l + ("." + more);
      assert s[|l|] == '.';
      CSpanIs(s, ".", |l|);
      assert s[..|l|] == l && s[|l|..] == "." + more;
      assert ("." + more)[1..] == more;
      LabelsOfCollapsed(labels[1..]);
    }
  }

  lemma {:induction false} LabelsPlain(name: string)
    ensures forall i :: 0 <= i < |Labels(name)| ==> Labels(name)[i] != [] && '.' !in Labels(name)[i]
    decreases |name|
  {
    if name != [] {
      if name[0] == '.' {
        LabelsPlain(name[1..]);
      } else {
        LabelsPlain(name[CSpan(name, ".")..]);
      }
    }
  }

  /** Asking again for a name as it is shown asks for the same labels. */
  lemma ShownAgain(name: string)
    ensures Labels(Collapsed(Labels(name))) == Labels(name)
  {
    LabelsPlain(name);
    LabelsOfCollapsed(Labels(name));
  }

  // ---------------------------------------------------------------- the code

  /** dns_get_msg_len */
  function MsgLen(s: string, pos: nat): nat
    requires pos > 0
  {
    if |s| < pos + 1 then 0 else 2 + Word(s, pos - 1)
  }

  /** The output to a server, io_w_serv. */
  class Out {
    var data: string

    constructor ()
      ensures data == []
    {
      data := [];
    }

    method AppB8(n: nat)
      modifies this
      ensures data == old(data) + [(n % 256) as char]
    {
      data := data + [(n % 256) as char];
    }

    method AppB16(n: nat)
      modifies this
      ensures data == old(data) + B16(n)
    {
      data := data + [(n / 256 % 256) as char, (n % 256) as char];
    }

    method AppVstr(s: string, pos: nat, len: nat)
      requires Within(s, pos, len)
      modifies this
      ensures data == old(data) + Slice(s, pos, len)
    {
      data := data + s[pos - 1..pos - 1 + len];
    }

    /** sub_b_uint16: two bytes are written over. */
    method SubB16(pos: nat, n: nat)
      requires Within(data, pos, 2)
      modifies this
      ensures data == old(data)[..pos - 1] + B16(n) + old(data)[pos + 1..]
    {
      data := data[..pos - 1] + B16(n) + data[pos + 1..];
    }

    /** A label and its length. */
    method AppLabel1(s1: string, pos: nat, len: nat)
      requires Within(s1, pos, len)
      modifies this
      ensures data == old(data) + ([(len % 256) as char] + s1[pos - 1..pos - 1 + len])
    {
      AppB8(len);
      AppVstr(s1, pos, len);
    }

    /** The labels of a name, and the empty label behind them. */
    method AppLabels(s1: string)
      requires Labels(s1) != []
      modifies this
      ensures data == old(data) + (LabelsText(Labels(s1)) + [0 as char])
    {
      hide Labels, LabelsText, CSpan, Span, Slice, Going;
      ghost var all := old(data) + LabelsText(Labels(s1));
      var pos: nat := Span(s1, ".") + 1;
      SpanShort(s1);
      var len: nat := |s1| + 1 - pos;
      LabelsSkip(s1, pos - 1);
      GoingIs(data, s1[pos - 1..], all);
      while len > 0
        invariant Within(s1, pos, len) && pos - 1 + len == |s1|
        invariant Going(data, s1[pos - 1..], all)
        decreases len
      {
        ghost var rest := s1[pos - 1..];
        assert Slice(s1, pos, len) == rest by { SliceIs(s1, pos, len); }
        SpansAre(rest);
        var diff := CSpan(Slice(s1, pos, len), ".");
        if diff == 0 {
          diff := Span(Slice(s1, pos, len), ".");
          GoDots(data, rest, all, diff);
        } else {
          GoLabel(data, rest, all, diff);
          AppLabel1(s1, pos, diff);
          assert rest[..diff] == s1[pos - 1..pos - 1 + diff];
          if diff != len {
            GoDot(data, rest, all, diff);
            diff := diff + 1;
          }
        }
        assert rest[diff..] == s1[pos - 1 + diff..];
        len, pos := len - diff, pos + diff;
      }
      GoEnd(data, s1[pos - 1..], all);
      AppB8(0);
      assert old(data) + LabelsText(Labels(s1)) + [0 as char] == old(data) + (LabelsText(Labels(s1)) + [0 as char]);
    }

    /** One question. */
    method AppQuestion(q: Question, ptr: string -> string)
      requires Labels(Asked(q, ptr)) != []
      modifies this
      ensures data == old(data) + QuestionText(q, ptr)
    {
      hide Labels, LabelsText, B16;
      var s1 := q.name;
      if q.cls == CLASS_IN && q.typ == TYPE_IN_PTR {
        s1 := ptr(s1);
      }
      AppLabels(s1);
      AppB16(q.typ);
      AppB16(q.cls);
      Assoc(old(data), LabelsText(Labels(s1)) + [0 as char], B16(q.typ), B16(q.cls));
    }

    /** dns_app_recq_pkt: the packet is behind what was there, with its length, which is filled in last. */
    method RecqPkt(qs: seq<Question>, ptr: string -> string, id: nat, recur: bool)
      requires forall i :: 0 <= i < |qs| ==> Labels(Asked(qs[i], ptr)) != []
      modifies this
      ensures data == old(data) + Packet(qs, ptr, id, recur)
      ensures MsgLen(data, |old(data)| + 1) == |Packet(qs, ptr, id, recur)| <==> |Packet(qs, ptr, id, recur)| - 2 < 65536
    {
      hide Labels, QuestionText, QuestionsText, B16, Header;
      ghost var before := data;
      var pos1 := |data| + 1;
      AppHeader(id, recur, |qs|);
      ghost var head := before + B16(0) + Header(id, recur, |qs|);
      NoQuestions(ptr);
      assert qs[..0] == [] && data == head + [];
      for i := 0 to |qs|
        invariant data == head + QuestionsText(qs[..i], ptr)
      {
        AppQuestion(qs[i], ptr);
        QuestionsNext(qs, i, ptr);
        Assoc2(head, QuestionsText(qs[..i], ptr), QuestionText(qs[i], ptr));
      }
      assert qs[..|qs|] == qs;
      ghost var m := Message(qs, ptr, id, recur);
      Laid(before, B16(0), Header(id, recur, |qs|), QuestionsText(qs, ptr));
      Patched(before, B16(0), B16(|m|), m);
      var len1 := |data| - (pos1 - 1);
      SubB16(pos1, len1 - 2);
      WordB16(data, pos1 - 1, |m|);
    }

    /** The room for the length, and the header of the message. */
    method AppHeader(id: nat, recur: bool, count: nat)
      modifies this
      ensures data == old(data) + B16(0) + Header(id, recur, count)
    {
      hide B16;
      AppB16(0);
      ghost var start := data;
      AppB16(id);
      AppB16(if recur then HDR_RD else 0);
      AppB16(count);
      AppB16(0);
      AppB16(0);
      AppB16(0);
      assert data == start + Header(id, recur, count);
    }
  }

  lemma Laid(a: string, b: string, c: string, d: string)
    ensures a + b + c + d == a + b + (c + d)
  {
  }

  /** The two bytes before a message are written over. */
  lemma Patched(before: string, room: string, len: string, m: string)
    requires |room| == |len| == 2
    ensures var data := before + room + m; var p := |before| + 1;
      && |data| - |before| - 2 == |m|
      && data[..p - 1] + len + data[p + 1..] == before + (len + m)
      && (before + (len + m))[p - 1..p + 1] == len
  {
    var data := before + room + m;
    assert data[..|before|] == before && data[|before| + 2..] == m;
    assert (before + (len + m))[|before|..] == len + m;
  }

  /** dns_app_label: what a name is shown as, and where the message goes on. */
  method AppLabel(pkt: string, pos0: nat, msgLen: nat) returns (out: string, pos: nat)
    requires 1 <= pos0 <= msgLen + 1 && msgLen == |pkt|
    ensures var n := NameAt(pkt[pos0 - 1..]); out == n.text && pos == pos0 + n.len
  {
    hide NameAt, IsPtr, SoFar;
    ghost var all := NameAt(pkt[pos0 - 1..]);
    pos, out := pos0, [];
    NothingYet(pkt[pos0 - 1..]);
    while pos < msgLen && pkt[pos - 1] != 0 as char
      invariant pos0 <= pos <= msgLen + 1
      invariant SoFar(all, out, pkt[pos - 1..], pos - pos0)
      decreases msgLen + 1 - pos
    {
      ghost var r := pkt[pos - 1..];
      var tmp := pkt[pos - 1] as nat;
      if IsPtr(pkt[pos - 1]) {
        PtrEnds(all, out, r, pos - pos0);
        return out, msgLen;
      }
      pos := pos + 1;
      if tmp > msgLen + 1 - pos {
        tmp := msgLen + 1 - pos;
      }
      LabelShown(all, out, r, pos - 1 - pos0, tmp);
      assert r[1..1 + tmp] == pkt[pos - 1..pos - 1 + tmp];
      assert r[1 + tmp..] == pkt[pos - 1 + tmp..];
      out := out + (pkt[pos - 1..pos - 1 + tmp] + ".");
      pos := pos + tmp;
    }
    NameEnds(all, out, pkt[pos - 1..], pos - pos0);
    if pos <= msgLen {
      pos := pos + 1;
    }
  }

  /** What has been shown of a name; r is the rest of it, k bytes on. */
  ghost predicate SoFar(all: Named, out: string, r: string, k: nat) {
    var n := NameAt(r); all == Named(out + n.text, k + n.len)
  }

  lemma NothingYet(r: string)
    ensures SoFar(NameAt(r), [], r, 0)
  {
    assert [] + NameAt(r).text == NameAt(r).text;
  }

  lemma LabelShown(all: Named, out: string, r: string, k: nat, n: nat)
    requires SoFar(all, out, r, k) && |r| > 1 && r[0] != 0 as char && !IsPtr(r[0])
    requires n == if r[0] as nat < |r| - 1 then r[0] as nat else |r| - 1
    ensures SoFar(all, out + (r[1..1 + n] + "."), r[1 + n..], k + 1 + n)
  {
    hide NameAt, IsPtr;
    NameStep(r);
    Joined(out, r[1..1 + n] + ".", NameAt(r[1 + n..]).text);
  }

  lemma PtrEnds(all: Named, out: string, r: string, k: nat)
    requires SoFar(all, out, r, k) && |r| > 1 && r[0] != 0 as char && IsPtr(r[0])
    ensures all == Named(out, k + |r| - 1)
  {
    hide NameAt, IsPtr;
    NameStep(r);
    assert out + [] == out;
  }

  lemma NameEnds(all: Named, out: string, r: string, k: nat)
    requires SoFar(all, out, r, k) && (|r| <= 1 || r[0] == 0 as char)
    ensures all == Named(out, k + if r == [] then 0 else 1)
  {
    hide NameAt;
    NameStep(r);
    assert out + [] == out;
  }

  lemma Joined(a: string, b: string, c: string)
    ensures a + (b + c) == a + b + c
  {
  }

  lemma NameStep(r: string)
    ensures |r| <= 1 || r[0] == 0 as char ==> NameAt(r) == Named([], if r == [] then 0 else 1)
    ensures |r| > 1 && r[0] != 0 as char && IsPtr(r[0]) ==> NameAt(r) == Named([], |r| - 1)
    ensures |r| > 1 && r[0] != 0 as char && !IsPtr(r[0]) ==>
      var k := if r[0] as nat < |r| - 1 then r[0] as nat else |r| - 1;
      NameAt(r) == Named((r[1..1 + k] + ".") + NameAt(r[1 + k..]).text, 1 + k + NameAt(r[1 + k..]).len)
  {
  }

  /** dns_app_class_type */
  method AppClassType(pkt: string, pos0: nat, msgLen: nat) returns (known: bool, cls: nat, typ: nat, pos: nat)
    requires 1 <= pos0 <= msgLen + 1 && msgLen == |pkt|
    ensures known == (|pkt[pos0 - 1..]| >= 4)
    ensures known ==> cls == Word(pkt[pos0 - 1..], 2) && typ == Word(pkt[pos0 - 1..], 0) && pos == pos0 + 4
    ensures !known ==> pos == msgLen && cls == typ == 0
  {
    pos := pos0;
    if 4 > msgLen + 1 - pos {
      return false, 0, 0, msgLen;
    }
    typ := Word(pkt, pos - 1);
    pos := pos + 2;
    cls := Word(pkt, pos - 1);
    pos := pos + 2;
    known := true;
  }

  /** The loop of dns_dbg_prnt_pkt over the questions of a message. */
  method PrintQuestions(pkt: string) returns (shown: seq<Shown>)
    ensures |pkt| >= 12 ==> shown == QuestionsAt(pkt[12..], Word(pkt, 4))
    ensures |pkt| < 12 ==> shown == []
  {
    if |pkt| >= 12 {
      shown := PrintSome(pkt, 13, Word(pkt, 4));
    } else {
      shown := PrintSome(pkt, 1, 0);
    }
  }

  method PrintSome(pkt: string, pos0: nat, qdc: nat) returns (shown: seq<Shown>)
    requires 1 <= pos0 <= |pkt| + 1
    ensures shown == QuestionsAt(pkt[pos0 - 1..], qdc)
  {
    hide NameAt, QuestionsAt, Word;
    var msgLen := |pkt|;
    var pos, scan: nat := pos0, 0;
    shown := [];
    ghost var all := QuestionsAt(pkt[pos - 1..], qdc);
    assert [] + all == all;
    while scan < qdc && 6 <= msgLen + 1 - pos
      invariant 1 <= pos <= msgLen + 1 && scan <= qdc
      invariant all == shown + QuestionsAt(pkt[pos - 1..], qdc - scan)
      decreases qdc - scan
    {
      ghost var r := pkt[pos - 1..];
      QuestionsStep(r, qdc - scan);
      scan := scan + 1;
      ghost var p := pos;
      var name, known, cls, typ;
      name, pos := AppLabel(pkt, pos, msgLen);
      ghost var t := pkt[pos - 1..];
      assert r[pos - p..] == t;
      ghost var q := pos;
      known, cls, typ, pos := AppClassType(pkt, pos, msgLen);
      var one := Shown(name, known, cls, typ);
      if known {
        assert t[4..] == pkt[pos - 1..];
      } else {
        Ended(pkt[pos - 1..], qdc - scan);
      }
      JoinedShown(shown, one, QuestionsAt(pkt[pos - 1..], qdc - scan));
      shown := shown + [one];
    }
    Ended(pkt[pos - 1..], qdc - scan);
    assert shown + [] == shown;
  }

  lemma JoinedShown(a: seq<Shown>, x: Shown, b: seq<Shown>)
    ensures a + ([x] + b) == a + [x] + b
  {
  }

  lemma Ended(r: string, count: nat)
    requires count == 0 || |r| < 6
    ensures QuestionsAt(r, count) == []
  {
  }

  lemma QuestionsStep(r: string, count: nat)
    requires count > 0 && |r| >= 6
    ensures var n := NameAt(r); var t := r[n.len..];
      QuestionsAt(r, count) ==
        if |t| < 4 then [Shown(n.text, false, 0, 0)] + []
        else [Shown(n.text, true, Word(t, 2), Word(t, 0))] + QuestionsAt(t[4..], count - 1)
  {
  }

  lemma Assoc(a: string, b: string, c: string, d: string)
    ensures a + b + c + d == a + (b + c + d)
  {
  }

  lemma Assoc2(a: string, b: string, c: string)
    ensures a + b + c == a + (b + c)
  {
  }

  lemma NoQuestions(ptr: string -> string)
    ensures QuestionsText([], ptr) == []
  {
  }

  lemma {:induction false} QuestionsNext(qs: seq<Question>, i: nat, ptr: string -> string)
    requires i < |qs|
    ensures QuestionsText(qs[..i + 1], ptr) == QuestionsText(qs[..i], ptr) + QuestionText(qs[i], ptr)
  {
    hide QuestionText;
    if i == 0 {
      assert qs[..1][1..] == [] && qs[..0] == [];
    } else {
      QuestionsNext(qs[1..], i - 1, ptr);
      assert qs[..i + 1][1..] == qs[1..][..i] && qs[..i][1..] == qs[1..][..i - 1];
      assert qs[..i + 1][0] == qs[..i][0] == qs[0];
    }
  }

  lemma SpanShort(s: string)
    ensures Span(s, ".") <= |s|
  {
  }

  lemma SliceIs(s: string, pos: nat, len: nat)
    requires Within(s, pos, len)
    ensures Slice(s, pos, len) == s[pos - 1..pos - 1 + len]
  {
  }

  /** A run of dots, or a run without. */
  lemma SpansAre(s: string)
    requires s != []
    ensures CSpan(s, ".") <= |s| && Span(s, ".") <= |s|
    ensures CSpan(s, ".") == 0 ==> 0 < Span(s, ".") && forall i :: 0 <= i < Span(s, ".") ==> s[i] == '.'
    ensures CSpan(s, ".") > 0 ==> s[0] != '.' && (CSpan(s, ".") < |s| ==> s[CSpan(s, ".")] == '.')
  {
  }

  lemma {:induction false} LabelsSkip(s: string, n: nat)
    requires n <= |s| && forall i :: 0 <= i < n ==> s[i] == '.'
    ensures Labels(s) == Labels(s[n..])
    decreases n
  {
    if n == 0 {
      assert s[0..] == s;
    } else {
      LabelsSkip(s[1..], n - 1);
      assert s[1..][n - 1..] == s[n..];
    }
  }

  lemma LabelsNext(s: string, n: nat)
    requires s != [] && n == CSpan(s, ".") > 0
    ensures LabelsText(Labels(s)) == ([(n % 256) as char] + s[..n]) + LabelsText(Labels(s[n..]))
    ensures s[n..] != [] ==> s[n] == '.'
  {
    assert ([s[..n]] + Labels(s[n..]))[1..] == Labels(s[n..]);
  }

  /** What has been written, and the name still to be written, come to all of it. */
  ghost predicate Going(data: string, rest: string, all: string) {
    data + LabelsText(Labels(rest)) == all
  }

  lemma GoingIs(data: string, rest: string, all: string)
    requires data + LabelsText(Labels(rest)) == all
    ensures Going(data, rest, all)
  {
  }

  lemma GoDots(data: string, rest: string, all: string, n: nat)
    requires Going(data, rest, all) && n <= |rest| && forall i :: 0 <= i < n ==> rest[i] == '.'
    ensures Going(data, rest[n..], all)
  {
    LabelsSkip(rest, n);
  }

  lemma GoLabel(data: string, rest: string, all: string, n: nat)
    requires Going(data, rest, all) && rest != [] && n == CSpan(rest, ".") > 0
    ensures Going(data + ([(n % 256) as char] + rest[..n]), rest[n..], all)
    ensures rest[n..] != [] ==> rest[n] == '.'
  {
    hide Labels, LabelsText, CSpan;
    LabelsNext(rest, n);
    Joined(data, [(n % 256) as char] + rest[..n], LabelsText(Labels(rest[n..])));
  }

  lemma GoDot(data: string, rest: string, all: string, n: nat)
    requires n < |rest| && rest[n] == '.' && Going(data, rest[n..], all)
    ensures Going(data, rest[n + 1..], all)
  {
    hide Labels, LabelsText;
    LabelsSkip(rest[n..], 1);
    assert rest[n..][1..] == rest[n + 1..];
  }

  lemma GoEnd(data: string, rest: string, all: string)
    requires Going(data, rest, all) && rest == []
    ensures data == all
  {
    assert LabelsText(Labels(rest)) == [];
  }
}
