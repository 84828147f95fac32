/** The control protocol of cntl.c as a state machine: a parent broadcasts each command to its children, and
  counts the terminators that come back. */
module CntlModel {

  /** The bag of waiters is made with room for four, and cannot grow. */
  const WAITERS: nat := 4

  /** A message of a child: data, or the terminator. The number of the command it answers is only for the
    model: no step looks at it. */
  datatype Msg = Data(cmd: nat, text: string) | Fin

  datatype Waiter = Waiter(conn: nat, num: nat)

  /** A message put on the output of a connection. */
  datatype Sent = Sent(conn: nat, msg: Msg)

  /** The parent's waiters; for each child the commands it has not worked on, its messages the parent has
    not read, and the terminators the parent has read; what connections were sent; who asked what. */
  datatype State = State(
    waiters: seq<Waiter>,
    cmds: seq<nat>,
    replies: seq<seq<Msg>>,
    got: seq<nat>,
    out: seq<Sent>,
    asked: seq<nat>)

  datatype Act = Ask(conn: nat) | Work(child: nat, texts: seq<string>) | Recv(child: nat)

  /** cntl_waiter_get_first: the first waiter that is owed something. */
  function FirstLive(waiters: seq<Waiter>): (f: nat)
    ensures f <= |waiters|
    ensures forall k :: 0 <= k < f ==> waiters[k].num == 0
    ensures f < |waiters| ==> waiters[f].num > 0
  {
    if waiters == [] then 0 else if waiters[0].num > 0 then 0 else 1 + FirstLive(waiters[1..])
  }

  function Sum(s: seq<nat>): nat {
    if s == [] then 0 else s[0] + Sum(s[1..])
  }

  function Nums(waiters: seq<Waiter>): seq<nat> {
    seq(|waiters|, k requires 0 <= k < |waiters| => waiters[k].num)
  }

  function Fins(msgs: seq<Msg>): nat {
    if msgs == [] then 0 else Fins(msgs[..|msgs| - 1]) + if msgs[|msgs| - 1] == Fin then 1 else 0
  }

  predicate Sized(s: State) {
    |s.cmds| == |s.replies| == |s.got| > 0
  }

  /** The terminators a child still has to send, or has sent and the parent has not read. */
  function OwedBy(s: State, i: nat): nat
    requires Sized(s) && i < |s.cmds|
  {
    s.cmds[i] + Fins(s.replies[i])
  }

  function Owed(s: State): seq<nat>
    requires Sized(s)
  {
    seq(|s.cmds|, i requires 0 <= i < |s.cmds| => OwedBy(s, i))
  }

  /** How many commands are complete. */
  function Done(s: State): int {
    |s.asked| - |s.waiters| + FirstLive(s.waiters)
  }

  predicate CanAct(s: State, a: Act) {
    && Sized(s)
    && match a
       case Ask(_) => |s.waiters| < WAITERS
       case Work(i, _) => i < |s.cmds| && s.cmds[i] > 0
       case Recv(i) => i < |s.cmds| && s.replies[i] != []
  }

  /** The answer of a child to command number cmd: data, then one terminator. */
  function Answer(cmd: nat, texts: seq<string>): seq<Msg> {
    seq(|texts|, k requires 0 <= k < |texts| => Data(cmd, texts[k])) + [Fin]
  }

  /** What a terminator does to the first waiter that is owed one. */
  function Count(s: State): State
    requires FirstLive(s.waiters) < |s.waiters|
  {
    var f := FirstLive(s.waiters);
    var w := s.waiters[f];
    var waiters := s.waiters[f := w.(num := w.num - 1)];
    if w.num > 1 then s.(waiters := waiters)
    else s.(out := s.out + [Sent(w.conn, Fin)],
            waiters := if FirstLive(waiters) < |waiters| then waiters else [])
  }

  function Act1(s: State, a: Act): State
    requires CanAct(s, a)
  {
    match a
    case Ask(conn) =>
      s.(waiters := s.waiters + [Waiter(conn, |s.cmds|)],
         cmds := seq(|s.cmds|, i requires 0 <= i < |s.cmds| => s.cmds[i] + 1),
         asked := s.asked + [conn])
    case Work(i, texts) =>
      s.(cmds := s.cmds[i := s.cmds[i] - 1],
         replies := s.replies[i := s.replies[i] + Answer(s.got[i] + Fins(s.replies[i]), texts)])
    case Recv(i) =>
      var msg := s.replies[i][0];
      var rest := s.(replies := s.replies[i := s.replies[i][1..]]);
      var f := FirstLive(s.waiters);
      if f == |s.waiters| then rest
      else if msg == Fin then Count(rest.(got := s.got[i := s.got[i] + 1]))
      else rest.(out := s.out + [Sent(s.waiters[f].conn, msg)])
  }

  /** A parent with n children, before any command. */
  function Start(n: nat): State
    requires n > 0
  {
    State([], seq(n, _ => 0), seq(n, _ => []), seq(n, _ => 0), [], [])
  }

  ghost predicate Reaches(s: State, acts: seq<Act>, r: State)
    decreases |acts|
  {
    if acts == [] then r == s
    else CanAct(s, acts[0]) && Reaches(Act1(s, acts[0]), acts[1..], r)
  }

  // ---------------------------------------------------------------- the invariant

  /** The messages of a child that answered command first next: data of a command, then its terminator. */
  predicate Tagged(msgs: seq<Msg>, first: nat) {
    && (msgs != [] ==> msgs[|msgs| - 1] == Fin)
    && (forall k :: 0 <= k < |msgs| && msgs[k].Data? ==> msgs[k].cmd == first + Fins(msgs[..k]))
  }

  /** Waiters are complete, then perhaps one is in part, then the others are owed by every child. */
  predicate InTurn(waiters: seq<Waiter>, n: nat) {
    var f := FirstLive(waiters);
    && (waiters != [] ==> f < |waiters| && waiters[f].num <= n)
    && (forall k :: f < k < |waiters| ==> waiters[k].num == n)
  }

  function Terminated(out: seq<Sent>): seq<nat> {
    if out == [] then []
    else if out[|out| - 1].msg == Fin then Terminated(out[..|out| - 1]) + [out[|out| - 1].conn]
    else Terminated(out[..|out| - 1])
  }

  /** What each child has answered, has sent and has still to do is all that was asked, in order. */
  ghost predicate Counted(s: State)
    requires Sized(s)
  {
    forall i :: 0 <= i < |s.cmds| ==> s.got[i] + OwedBy(s, i) == |s.asked| && Tagged(s.replies[i], s.got[i])
  }

  /** The waiters are those of the commands asked last. */
  ghost predicate Waiting(s: State) {
    && |s.waiters| <= |s.asked| && |s.waiters| <= WAITERS
    && (forall k :: 0 <= k < |s.waiters| ==> s.waiters[k].conn == s.asked[|s.asked| - |s.waiters| + k])
  }

  ghost predicate Inv(s: State) {
    && Sized(s) && Counted(s) && Waiting(s)
    && InTurn(s.waiters, |s.cmds|)
    && Sum(Nums(s.waiters)) == Sum(Owed(s))
    && Terminated(s.out) == s.asked[..Done(s)]
  }

  lemma {:induction false} SumSet(s: seq<nat>, i: nat, v: nat)
    requires i < |s|
    ensures Sum(s[i := v]) == Sum(s) - s[i] + v
  {
    if i > 0 {
      SumSet(s[1..], i - 1, v);
      assert s[i := v][1..] == s[1..][i - 1 := v];
    } else {
      assert s[i := v][1..] == s[1..];
    }
  }

  lemma {:induction false} SumAdd(s: seq<nat>, v: nat)
    ensures Sum(s + [v]) == Sum(s) + v
  {
    if s != [] {
      SumAdd(s[1..], v);
      assert (s + [v])[1..] == s[1..] + [v];
    } else {
      assert (s + [v])[1..] == [];
    }
  }

  lemma {:induction false} SumMore(s: seq<nat>, t: seq<nat>)
    requires |s| == |t| && forall i :: 0 <= i < |s| ==> t[i] == s[i] + 1
    ensures Sum(t) == Sum(s) + |s|
  {
    if s != [] {
      SumMore(s[1..], t[1..]);
    }
  }

  lemma {:induction false} SumZero(s: seq<nat>, i: nat)
    requires Sum(s) == 0 && i < |s|
    ensures s[i] == 0
  {
    if i > 0 {
      SumZero(s[1..], i - 1);
    }
  }

  lemma {:induction false} SumPart(s: seq<nat>, i: nat)
    requires i < |s|
    ensures Sum(s) >= s[i]
  {
    if i > 0 {
      SumPart(s[1..], i - 1);
    }
  }

  lemma {:induction false} FinsAdd(a: seq<Msg>, b: seq<Msg>)
    ensures Fins(a + b) == Fins(a) + Fins(b)
  {
    if b == [] {
      assert a + b == a;
    } else {
      FinsAdd(a, b[..|b| - 1]);
      assert (a + b)[..|a + b| - 1] == a + b[..|b| - 1];
    }
  }

  lemma {:induction false} NoFins(msgs: seq<Msg>)
    requires forall k :: 0 <= k < |msgs| ==> msgs[k].Data?
    ensures Fins(msgs) == 0
  {
    if msgs != [] {
      NoFins(msgs[..|msgs| - 1]);
    }
  }

  lemma {:induction false} FirstLiveIs(waiters: seq<Waiter>, f: nat)
    requires f <= |waiters| && (forall k :: 0 <= k < f ==> waiters[k].num == 0)
    requires f < |waiters| ==> waiters[f].num > 0
    ensures FirstLive(waiters) == f
  {
  }

  /** The data of an answer, which follows what the child sent before. */
  lemma DataTagged(msgs: seq<Msg>, first: nat, data: seq<Msg>, k: nat)
    requires Tagged(msgs, first) && k < |msgs + data| && (msgs + data)[k].Data?
    requires forall j :: 0 <= j < |data| ==> data[j].Data? && data[j].cmd == first + Fins(msgs)
    ensures (msgs + data)[k].cmd == first + Fins((msgs + data)[..k])
  {
    var all := msgs + data;
    if k < |msgs| {
      assert all[..k] == msgs[..k];
      assert all[k] == msgs[k];
    } else {
      var j := k - |msgs|;
      assert all[..k] == msgs + data[..j];
      assert all[k] == data[j];
      NoFins(data[..j]);
      FinsAdd(msgs, data[..j]);
    }
  }

  lemma AnswerTagged(msgs: seq<Msg>, first: nat, texts: seq<string>)
    requires Tagged(msgs, first)
    ensures var more := msgs + Answer(first + Fins(msgs), texts);
            Tagged(more, first) && Fins(more) == Fins(msgs) + 1
  {
    hide Fins;
    var data := seq(|texts|, k requires 0 <= k < |texts| => Data(first + Fins(msgs), texts[k]));
    var more := msgs + Answer(first + Fins(msgs), texts);
    assert more == (msgs + data) + [Fin];
    OneFin();
    NoFins(data);
    FinsAdd(msgs, data);
    FinsAdd(msgs + data, [Fin]);
    forall k | 0 <= k < |more| && more[k].Data?
      ensures more[k].cmd == first + Fins(more[..k])
    {
      DataTagged(msgs, first, data, k);
      assert more[..k] == (msgs + data)[..k];
    }
  }

  lemma OneFin()
    ensures Fins([Fin]) == 1
  {
    assert [Fin][..0] == [];
  }

  lemma RestTagged(msgs: seq<Msg>, first: nat)
    requires Tagged(msgs, first) && msgs != []
    ensures var d := if msgs[0] == Fin then 1 else 0;
            Tagged(msgs[1..], first + d) && Fins(msgs) == d + Fins(msgs[1..])
    ensures msgs[0].Data? ==> msgs[0].cmd == first && Fins(msgs) > 0
  {
    var rest := msgs[1..];
    var d := if msgs[0] == Fin then 1 else 0;
    assert msgs == [msgs[0]] + rest;
    assert [msgs[0]][..0] == [];
    FinsAdd([msgs[0]], rest);
    assert Fins([msgs[0]]) == d;
    forall k | 0 <= k < |rest| && rest[k].Data?
      ensures rest[k].cmd == first + d + Fins(rest[..k])
    {
      assert msgs[k + 1] == rest[k];
      assert msgs[..k + 1] == [msgs[0]] + rest[..k];
      FinsAdd([msgs[0]], rest[..k]);
    }
    assert msgs[..0] == [];
    if msgs[0].Data? {
      assert msgs[0].cmd == first + Fins(msgs[..0]);
    }
  }

  lemma StartInv(n: nat)
    requires n > 0
    ensures Inv(Start(n))
  {
    var s := Start(n);
    var owed := Owed(s);
    assert forall i :: 0 <= i < n ==> owed[i] == 0;
    ZeroSum(owed);
    assert Nums([]) == [];
  }

  lemma {:induction false} ZeroSum(s: seq<nat>)
    requires forall i :: 0 <= i < |s| ==> s[i] == 0
    ensures Sum(s) == 0
  {
    if s != [] {
      ZeroSum(s[1..]);
    }
  }

  lemma AskInv(s: State, conn: nat)
    requires Inv(s) && CanAct(s, Ask(conn))
    ensures Inv(Act1(s, Ask(conn)))
  {
    hide Tagged, Sum, Terminated, InTurn, FirstLive, Nums, Owed, Fins;
    var r := Act1(s, Ask(conn));
    AskTurn(s.waiters, conn, |s.cmds|);
    AskSums(s, conn);
    assert r.asked[..Done(s)] == s.asked[..Done(s)];
  }

  /** A waiter more, owed by everyone, is the last in turn. */
  lemma AskTurn(waiters: seq<Waiter>, conn: nat, n: nat)
    requires InTurn(waiters, n) && n > 0
    ensures var more := waiters + [Waiter(conn, n)]; InTurn(more, n) && FirstLive(more) == FirstLive(waiters)
  {
    hide FirstLive;
    FirstLiveIs(waiters + [Waiter(conn, n)], FirstLive(waiters));
  }

  lemma AskSums(s: State, conn: nat)
    requires Sized(s) && CanAct(s, Ask(conn)) && Sum(Nums(s.waiters)) == Sum(Owed(s))
    ensures var r := Act1(s, Ask(conn));
            Sized(r) && Sum(Nums(r.waiters)) == Sum(Owed(r)) && forall i :: 0 <= i < |s.cmds| ==> OwedBy(r, i) == OwedBy(s, i) + 1
  {
    hide Sum, Fins;
    var r := Act1(s, Ask(conn));
    assert Nums(r.waiters) == Nums(s.waiters) + [|s.cmds|];
    SumAdd(Nums(s.waiters), |s.cmds|);
    SumMore(Owed(s), Owed(r));
  }

  lemma WorkInv(s: State, i: nat, texts: seq<string>)
    requires Inv(s) && CanAct(s, Work(i, texts))
    ensures Inv(Act1(s, Work(i, texts)))
  {
    hide Tagged, Sum, Terminated, Fins, Answer, InTurn;
    var r := Act1(s, Work(i, texts));
    AnswerTagged(s.replies[i], s.got[i], texts);
    assert Owed(r) == Owed(s);
  }

  /** There is a waiter for every message. */
  lemma SomeLive(s: State, i: nat)
    requires Inv(s) && i < |s.cmds| && s.replies[i] != []
    ensures FirstLive(s.waiters) < |s.waiters| && OwedBy(s, i) > 0
  {
    hide Sum, Terminated;
    LastFin(s.replies[i], s.got[i]);
    SumPart(Owed(s), i);
    assert Owed(s)[i] == OwedBy(s, i);
    if s.waiters == [] {
      ZeroSum(Nums(s.waiters));
    }
  }

  lemma LastFin(msgs: seq<Msg>, first: nat)
    requires Tagged(msgs, first) && msgs != []
    ensures Fins(msgs) > 0
  {
  }

  lemma DataInv(s: State, i: nat)
    requires Inv(s) && CanAct(s, Recv(i)) && s.replies[i][0].Data?
    ensures Inv(Act1(s, Recv(i)))
  {
    hide Tagged, Sum, Fins, InTurn, FirstLive;
    SomeLive(s, i);
    RestTagged(s.replies[i], s.got[i]);
    var r := Act1(s, Recv(i));
    assert Owed(r) == Owed(s);
    assert r.out[..|s.out|] == s.out;
  }

  /** What counting a terminator does to the waiters. */
  lemma CountTurns(s: State, n: nat)
    requires InTurn(s.waiters, n) && n > 0 && s.waiters != [] && |s.waiters| <= |s.asked|
    ensures var f := FirstLive(s.waiters); var r := Count(s);
      && f < |s.waiters| && InTurn(r.waiters, n) && Sum(Nums(r.waiters)) == Sum(Nums(s.waiters)) - 1
      && (r.waiters == [] || (|r.waiters| == |s.waiters| && forall k :: 0 <= k < |s.waiters| ==> r.waiters[k].conn == s.waiters[k].conn))
      && Done(r) == Done(s) + (if s.waiters[f].num > 1 then 0 else 1)
      && r.out == (if s.waiters[f].num > 1 then s.out else s.out + [Sent(s.waiters[f].conn, Fin)])
  {
    hide Sum;
    var f := FirstLive(s.waiters);
    var w := s.waiters[f];
    var waiters := s.waiters[f := w.(num := w.num - 1)];
    SumSet(Nums(s.waiters), f, w.num - 1);
    assert Nums(waiters) == Nums(s.waiters)[f := w.num - 1];
    if w.num > 1 {
      FirstLiveIs(waiters, f);
    } else {
      FirstLiveIs(waiters, f + 1);
      if f + 1 == |waiters| {
        ZeroSum(Nums(waiters));
        assert Nums([]) == [];
        ZeroSum([]);
      }
    }
  }

  lemma FinInv(s: State, i: nat)
    requires Inv(s) && CanAct(s, Recv(i)) && s.replies[i][0] == Fin
    ensures Inv(Act1(s, Recv(i)))
  {
    hide Tagged, Sum, Fins, InTurn, FirstLive, Count, Done, Owed, Nums, Terminated, Counted, Waiting, Act1, OwedBy;
    SomeLive(s, i);
    FinRest(s, i);
    WaitingIs(s);
    var t := s.(replies := s.replies[i := s.replies[i][1..]], got := s.got[i := s.got[i] + 1]);
    CountTurns(t, |s.cmds|);
    var r := Count(t);
    FinIs(s, i);
    CountKeeps(t);
    FinOwed(s, r, i);
    FinCounted(s, r, i);
    FinWaiting(s, r);
    DoneIs(s);
    DoneIs(t);
    FinTerminated(s, t, r);
  }

  lemma FinRest(s: State, i: nat)
    requires Sized(s) && Counted(s) && CanAct(s, Recv(i)) && s.replies[i][0] == Fin
    ensures Tagged(s.replies[i][1..], s.got[i] + 1) && Fins(s.replies[i]) == 1 + Fins(s.replies[i][1..])
  {
    hide Tagged, Fins, OwedBy;
    RestTagged(s.replies[i], s.got[i]);
  }

  lemma WaitingIs(s: State)
    requires Waiting(s)
    ensures |s.waiters| <= |s.asked|
  {
  }

  lemma FinCounted(s: State, r: State, i: nat)
    requires Sized(s) && Counted(s) && i < |s.cmds| && s.replies[i] != [] && Tagged(s.replies[i][1..], s.got[i] + 1)
    requires r.cmds == s.cmds && r.replies == s.replies[i := s.replies[i][1..]] && r.got == s.got[i := s.got[i] + 1]
    requires r.asked == s.asked && Sized(r)
    requires forall k :: 0 <= k < |s.cmds| ==> r.got[k] + OwedBy(r, k) == s.got[k] + OwedBy(s, k)
    ensures Counted(r)
  {
    hide Tagged, OwedBy;
  }

  lemma FinWaiting(s: State, r: State)
    requires Waiting(s) && r.asked == s.asked
    requires r.waiters == [] ||
      (|r.waiters| == |s.waiters| && forall k :: 0 <= k < |s.waiters| ==> r.waiters[k].conn == s.waiters[k].conn)
    ensures Waiting(r)
  {
  }

  /** A terminator passed on completes the oldest command. */
  lemma FinTerminated(s: State, t: State, r: State)
    requires Waiting(s) && t.waiters == s.waiters && t.asked == s.asked && t.out == s.out && r.asked == s.asked
    requires FirstLive(s.waiters) < |s.waiters| && Terminated(s.out) == s.asked[..Done(s)]
    requires var done := s.waiters[FirstLive(s.waiters)].num > 1;
      && Done(r) == Done(t) + (if done then 0 else 1)
      && r.out == if done then t.out else t.out + [Sent(t.waiters[FirstLive(t.waiters)].conn, Fin)]
    ensures 0 <= Done(r) <= |r.asked| && Terminated(r.out) == r.asked[..Done(r)]
  {
    hide Terminated, FirstLive;
    var f := FirstLive(s.waiters);
    TerminatedMore(s.out, s.waiters[f].conn);
    assert s.waiters[f].conn == s.asked[Done(s)];
    assert s.asked[..Done(s) + 1] == s.asked[..Done(s)] + [s.asked[Done(s)]];
  }

  lemma FinIs(s: State, i: nat)
    requires CanAct(s, Recv(i)) && s.replies[i][0] == Fin && FirstLive(s.waiters) < |s.waiters|
    ensures Act1(s, Recv(i)) == Count(s.(replies := s.replies[i := s.replies[i][1..]], got := s.got[i := s.got[i] + 1]))
  {
    hide FirstLive, Count;
  }

  lemma TerminatedMore(out: seq<Sent>, conn: nat)
    ensures Terminated(out + [Sent(conn, Fin)]) == Terminated(out) + [conn]
  {
    assert (out + [Sent(conn, Fin)])[..|out|] == out;
  }

  /** A terminator less is owed by its child. */
  lemma FinOwed(s: State, r: State, i: nat)
    requires Sized(s) && i < |s.cmds| && s.replies[i] != [] && Fins(s.replies[i]) == 1 + Fins(s.replies[i][1..])
    requires r.cmds == s.cmds && r.replies == s.replies[i := s.replies[i][1..]] && r.got == s.got[i := s.got[i] + 1]
    ensures Sized(r) && Sum(Owed(r)) == Sum(Owed(s)) - 1
    ensures forall k :: 0 <= k < |s.cmds| ==> r.got[k] + OwedBy(r, k) == s.got[k] + OwedBy(s, k)
  {
    hide Sum, Fins;
    assert Owed(r) == Owed(s)[i := OwedBy(s, i) - 1];
    SumSet(Owed(s), i, OwedBy(s, i) - 1);
  }

  lemma DoneIs(s: State)
    ensures Done(s) == |s.asked| - |s.waiters| + FirstLive(s.waiters)
  {
  }

  lemma CountKeeps(s: State)
    requires FirstLive(s.waiters) < |s.waiters|
    ensures var r := Count(s); r.cmds == s.cmds && r.replies == s.replies && r.got == s.got && r.asked == s.asked
  {
  }

  lemma ActInv(s: State, a: Act)
    requires Inv(s) && CanAct(s, a)
    ensures Inv(Act1(s, a))
  {
    hide Inv, Act1;
    match a
    case Ask(conn) => AskInv(s, conn);
    case Work(i, texts) => WorkInv(s, i, texts);
    case Recv(i) =>
      if s.replies[i][0] == Fin {
        FinInv(s, i);
      } else {
        DataInv(s, i);
      }
  }

  lemma {:induction false} RunInv(s: State, acts: seq<Act>, r: State)
    requires Inv(s) && Reaches(s, acts, r)
    ensures Inv(r)
    decreases |acts|
  {
    hide Inv, Act1, CanAct;
    if acts != [] {
      ActInv(s, acts[0]);
      RunInv(Act1(s, acts[0]), acts[1..], r);
    }
  }

  // ---------------------------------------------------------------- the protocol

  /** In every run: the waiters are owed exactly the terminators still to come; commands complete in the
    order asked, and each connection has been sent one terminator for each complete command of its own. */
  lemma Accounting(n: nat, acts: seq<Act>, s: State)
    requires n > 0 && Reaches(Start(n), acts, s)
    ensures Sized(s) && Sum(Nums(s.waiters)) == Sum(Owed(s))
    ensures 0 <= Done(s) <= |s.asked| && Terminated(s.out) == s.asked[..Done(s)]
    ensures Sum(Owed(s)) == 0 <==> s.waiters == []
    ensures s.waiters == [] ==> Terminated(s.out) == s.asked
  {
    hide Sum, Terminated, Tagged;
    StartInv(n);
    RunInv(Start(n), acts, s);
    if s.waiters == [] {
      ZeroSum(Nums(s.waiters));
      assert s.asked[..|s.asked|] == s.asked;
    } else {
      var f := FirstLive(s.waiters);
      SumPart(Nums(s.waiters), f);
      assert Nums(s.waiters)[f] > 0;
    }
  }

  /** A message goes to the connection of the oldest command that is not complete; it answers the command
    after those its child has already answered. So it goes to the one that asked exactly when the same one
    asked both of these; when every connection asks once, that is when its child has answered as many
    commands as are complete. */
  lemma Routing(n: nat, acts: seq<Act>, s: State, i: nat)
    requires n > 0 && Reaches(Start(n), acts, s) && CanAct(s, Recv(i)) && s.replies[i][0].Data?
    ensures Inv(s) && 0 <= Done(s) < |s.asked| && s.replies[i][0].cmd == s.got[i] < |s.asked|
    ensures Act1(s, Recv(i)).out == s.out + [Sent(s.asked[Done(s)], s.replies[i][0])]
    ensures Act1(s, Recv(i)).out == s.out + [Sent(s.asked[s.replies[i][0].cmd], s.replies[i][0])] <==>
              s.asked[Done(s)] == s.asked[s.got[i]]
    ensures (forall j, k :: 0 <= j < k < |s.asked| ==> s.asked[j] != s.asked[k]) ==>
      (s.asked[Done(s)] == s.asked[s.replies[i][0].cmd] <==> s.got[i] == Done(s))
  {
    hide Sum, Terminated, Tagged;
    StartInv(n);
    RunInv(Start(n), acts, s);
    SomeLive(s, i);
    RestTagged(s.replies[i], s.got[i]);
    var d, c := Done(s), s.got[i];
    var msg := s.replies[i][0];
    SameSent(s.out, Sent(s.asked[d], msg), Sent(s.asked[c], msg));
    assert d != c ==> s.asked[if d < c then d else c] == s.asked[if d < c then d else c];
  }

  lemma SameSent(out: seq<Sent>, a: Sent, b: Sent)
    ensures out + [a] == out + [b] <==> a == b
  {
    assert (out + [a])[|out|] == a && (out + [b])[|out|] == b;
  }

  /** A run in which a command is asked only when none is outstanding. */
  ghost predicate OneByOne(s: State, acts: seq<Act>)
    decreases |acts|
  {
    acts != [] ==>
      && (acts[0].Ask? ==> s.waiters == [])
      && (CanAct(s, acts[0]) ==> OneByOne(Act1(s, acts[0]), acts[1..]))
  }

  ghost predicate Alone(s: State) {
    |s.waiters| <= 1 && forall i :: 0 <= i < |s.got| ==> s.got[i] + 1 >= |s.asked|
  }

  lemma AloneKept(s: State, a: Act)
    requires Inv(s) && Alone(s) && CanAct(s, a) && (a.Ask? ==> s.waiters == [])
    ensures Alone(Act1(s, a))
  {
    hide Sum, Terminated, Tagged;
    if a.Ask? {
      ZeroSum(Nums(s.waiters));
      forall i | 0 <= i < |s.got|
        ensures s.got[i] == |s.asked|
      {
        SumZero(Owed(s), i);
        assert Owed(s)[i] == OwedBy(s, i);
      }
    } else if a.Recv? {
      SomeLive(s, a.child);
    }
  }

  lemma {:induction false} AloneRun(s: State, acts: seq<Act>, r: State)
    requires Inv(s) && Alone(s) && OneByOne(s, acts) && Reaches(s, acts, r)
    ensures Inv(r) && Alone(r)
    decreases |acts|
  {
    hide Inv, Act1, CanAct, Alone;
    if acts != [] {
      ActInv(s, acts[0]);
      AloneKept(s, acts[0]);
      AloneRun(Act1(s, acts[0]), acts[1..], r);
    }
  }

  /** With one command outstanding at a time, every message goes to the connection that asked. */
  lemma AloneRouting(n: nat, acts: seq<Act>, s: State, i: nat)
    requires n > 0 && Reaches(Start(n), acts, s) && OneByOne(Start(n), acts)
    requires CanAct(s, Recv(i)) && s.replies[i][0].Data?
    ensures s.replies[i][0].cmd < |s.asked|
    ensures Act1(s, Recv(i)).out == s.out + [Sent(s.asked[s.replies[i][0].cmd], s.replies[i][0])]
  {
    hide Sum, Terminated, Tagged, Act1;
    Routing(n, acts, s, i);
    StartInv(n);
    AloneRun(Start(n), acts, s);
    SomeLive(s, i);
    RestTagged(s.replies[i], s.got[i]);
  }

  /** With one child, however many commands are outstanding, every message goes to the one that asked. */
  lemma OnlyChildRouting(acts: seq<Act>, s: State)
    requires Reaches(Start(1), acts, s) && CanAct(s, Recv(0)) && s.replies[0][0].Data?
    ensures s.replies[0][0].cmd < |s.asked|
    ensures Act1(s, Recv(0)).out == s.out + [Sent(s.asked[s.replies[0][0].cmd], s.replies[0][0])]
  {
    hide Sum, Terminated, Tagged, Act1;
    Routing(1, acts, s, 0);
    SizeRun(Start(1), acts, s);
    SumOne(Owed(s));
    LiveSum(s.waiters);
  }

  lemma {:induction false} SizeRun(s: State, acts: seq<Act>, r: State)
    requires Reaches(s, acts, r) && Sized(s)
    ensures Sized(r) && |r.cmds| == |s.cmds|
    decreases |acts|
  {
    if acts != [] {
      SizeRun(Act1(s, acts[0]), acts[1..], r);
    }
  }

  lemma SumOne(s: seq<nat>)
    requires |s| == 1
    ensures Sum(s) == s[0]
  {
    assert s[1..] == [];
  }

  /** With one child, what is owed is one for each waiter that is not complete. */
  lemma {:induction false} LiveSum(waiters: seq<Waiter>)
    requires InTurn(waiters, 1) && waiters != []
    ensures Sum(Nums(waiters)) == |waiters| - FirstLive(waiters)
  {
    hide Sum;
    OnesSum(Nums(waiters), FirstLive(waiters));
  }

  lemma {:induction false} OnesSum(s: seq<nat>, f: nat)
    requires f <= |s| && (forall k :: 0 <= k < f ==> s[k] == 0) && (forall k :: f <= k < |s| ==> s[k] == 1)
    ensures Sum(s) == |s| - f
  {
    if s != [] {
      OnesSum(s[1..], if f > 0 then f - 1 else 0);
    }
  }

  /** With two children and two commands outstanding, a message can go to the wrong connection: the race the
    author notes. */
  lemma RaceMisroutes() returns (acts: seq<Act>, s: State)
    ensures Reaches(Start(2), acts, s) && CanAct(s, Recv(0)) && s.replies[0] == [Data(1, "b"), Fin]
    ensures s.asked == [10, 20] && Act1(s, Recv(0)).out == [Sent(10, Data(1, "b"))]
  {
    hide Reaches, Act1, CanAct;
    var s0 := Start(2);
    RaceAsks();
    var s1 := Act1(s0, Ask(10));
    var s2 := Act1(s1, Ask(20));
    RaceFin();
    var s3 := Act1(s2, Work(0, []));
    var s4 := Act1(s3, Recv(0));
    RaceLast();
    s := Act1(s4, Work(0, ["b"]));
    acts := [Ask(10), Ask(20), Work(0, []), Recv(0), Work(0, ["b"])];
    ReachesSteps(s0, s1, s2, s3, s4, s, acts);
  }

  lemma RaceAsks()
    ensures CanAct(Start(2), Ask(10))
    ensures var s1 := Act1(Start(2), Ask(10));
      && CanAct(s1, Ask(20))
      && Act1(s1, Ask(20)) == State([Waiter(10, 2), Waiter(20, 2)], [2, 2], [[], []], [0, 0], [], [10, 20])
  {
    var s1 := Act1(Start(2), Ask(10));
    assert s1 == State([Waiter(10, 2)], [1, 1], [[], []], [0, 0], [], [10]);
  }

  lemma RaceLast()
    ensures var s4 := State([Waiter(10, 1), Waiter(20, 2)], [1, 2], [[], []], [1, 0], [], [10, 20]);
      && CanAct(s4, Work(0, ["b"]))
      && var s5 := Act1(s4, Work(0, ["b"]));
      && s5.asked == [10, 20] && s5.replies[0] == [Data(1, "b"), Fin]
      && CanAct(s5, Recv(0)) && Act1(s5, Recv(0)).out == [Sent(10, Data(1, "b"))]
  {
    var s4 := State([Waiter(10, 1), Waiter(20, 2)], [1, 2], [[], []], [1, 0], [], [10, 20]);
    assert Answer(1, ["b"]) == [Data(1, "b"), Fin] == [] + Answer(1, ["b"]);
    var s5 := Act1(s4, Work(0, ["b"]));
    assert FirstLive(s5.waiters) == 0;
    assert [] + [Sent(10, Data(1, "b"))] == [Sent(10, Data(1, "b"))];
  }

  lemma RaceFin()
    ensures var s2 := State([Waiter(10, 2), Waiter(20, 2)], [2, 2], [[], []], [0, 0], [], [10, 20]);
      && CanAct(s2, Work(0, []))
      && var s3 := Act1(s2, Work(0, []));
      && CanAct(s3, Recv(0))
      && Act1(s3, Recv(0)) == State([Waiter(10, 1), Waiter(20, 2)], [1, 2], [[], []], [1, 0], [], [10, 20])
  {
    var s2 := State([Waiter(10, 2), Waiter(20, 2)], [2, 2], [[], []], [0, 0], [], [10, 20]);
    assert Answer(0, []) == [Fin];
    assert [] + [Fin] == [Fin];
    var s3 := Act1(s2, Work(0, []));
    assert s3.replies == [[Fin], []];
    assert s3 == State([Waiter(10, 2), Waiter(20, 2)], [1, 2], [[Fin], []], [0, 0], [], [10, 20]);
    assert FirstLive(s3.waiters) == 0;
    assert [Fin][1..] == [];
  }

  lemma ReachesSteps(s0: State, s1: State, s2: State, s3: State, s4: State, s5: State, acts: seq<Act>)
    requires |acts| == 5
    requires CanAct(s0, acts[0]) && Act1(s0, acts[0]) == s1 && CanAct(s1, acts[1]) && Act1(s1, acts[1]) == s2
    requires CanAct(s2, acts[2]) && Act1(s2, acts[2]) == s3 && CanAct(s3, acts[3]) && Act1(s3, acts[3]) == s4
    requires CanAct(s4, acts[4]) && Act1(s4, acts[4]) == s5
    ensures Reaches(s0, acts, s5)
  {
    hide Act1, CanAct;
    assert Reaches(s5, acts[5..], s5);
    assert acts[4..][1..] == acts[5..] && Reaches(s4, acts[4..], s5);
    assert acts[3..][1..] == acts[4..] && Reaches(s3, acts[3..], s5);
    assert acts[2..][1..] == acts[3..] && Reaches(s2, acts[2..], s5);
    assert acts[1..][1..] == acts[2..] && Reaches(s1, acts[1..], s5);
  }
}
