/** The event engine: every event is on one of five queues, and may be on the send-now and closed lists. */
module EvntEngine {
  import opened EvntList
  import opened EvntConn

  /** One thing for each queue: the five queue heads, and what is on the five queues. */
  datatype Five<T> = Five(accept: T, connect: T, recv: T, sendRecv: T, idle: T)

  function Of<T>(f: Five<T>, q: Queue): T {
    match q
    case Accept => f.accept
    case Connect => f.connect
    case Recv => f.recv
    case SendRecv => f.sendRecv
    case Idle => f.idle
  }

  function With<T>(f: Five<T>, q: Queue, x: T): Five<T> {
    match q
    case Accept => f.(accept := x)
    case Connect => f.(connect := x)
    case Recv => f.(recv := x)
    case SendRecv => f.(sendRecv := x)
    case Idle => f.(idle := x)
  }

  type Queues = Five<seq<Evnt>>

  /** How many events are on the five queues. */
  ghost function Total(queues: Queues): nat {
    |queues.accept| + |queues.connect| + |queues.recv| + |queues.sendRecv| + |queues.idle|
  }

  /** The queues without some events. */
  ghost function Purged(queues: Queues, gone: set<Evnt>): Queues {
    Five(Keep(queues.accept, gone), Keep(queues.connect, gone), Keep(queues.recv, gone),
      Keep(queues.sendRecv, gone), Keep(queues.idle, gone))
  }

  /** The queues with an event more, at the head of one. */
  ghost function WithHead(queues: Queues, q: Queue, e: Evnt): Queues {
    With(queues, q, [e] + Of(queues, q))
  }

  lemma WithHeadAt(queues: Queues, q: Queue, e: Evnt, p: Queue)
    ensures Of(WithHead(queues, q, e), p) == if p == q then [e] + Of(queues, p) else Of(queues, p)
  {
  }

  /** Every event is on its queue, once, and on no other. */
  ghost predicate Partition(queues: Queues, home: map<Evnt, Queue>) {
    && (forall q: Queue :: Distinct(Of(queues, q)))
    && (forall q: Queue, i :: 0 <= i < |Of(queues, q)| ==> Of(queues, q)[i] in home && home[Of(queues, q)[i]] == q)
    && (forall e :: e in home ==> e in Of(queues, home[e]))
  }

  lemma PartitionBasics(queues: Queues, home: map<Evnt, Queue>, q: Queue)
    requires Partition(queues, home)
    ensures Distinct(Of(queues, q))
    ensures forall i :: 0 <= i < |Of(queues, q)| ==> Of(queues, q)[i] in home && home[Of(queues, q)[i]] == q
  {
  }

  lemma Apart(queues: Queues, home: map<Evnt, Queue>, p: Queue, q: Queue)
    requires Partition(queues, home) && p != q
    ensures forall i :: 0 <= i < |Of(queues, p)| ==> Of(queues, p)[i] in home && Of(queues, p)[i] !in Of(queues, q)
  {
  }

  /** The same partition, with one queue changed. */
  lemma PartitionWith(queues: Queues, home: map<Evnt, Queue>, more: Queues, home': map<Evnt, Queue>, q: Queue)
    requires Partition(queues, home) && Distinct(Of(more, q))
    requires forall p: Queue :: p != q ==> Of(more, p) == Of(queues, p)
    requires forall i :: 0 <= i < |Of(more, q)| ==> Of(more, q)[i] in home' && home'[Of(more, q)[i]] == q
    requires forall e :: e in home && home[e] != q ==> e in home' && home'[e] == home[e]
    requires forall e :: e in home' && home'[e] == q ==> e in Of(more, q)
    requires forall e :: e in home' && home'[e] != q ==> e in home && home[e] == home'[e]
    ensures Partition(more, home')
  {
    hide Distinct, Of;
  }

  lemma PartitionAdd(queues: Queues, home: map<Evnt, Queue>, q: Queue, e: Evnt)
    requires Partition(queues, home) && e !in home
    ensures Partition(WithHead(queues, q, e), home[e := q])
    ensures Total(WithHead(queues, q, e)) == Total(queues) + 1
  {
    hide *;
    var more := WithHead(queues, q, e);
    forall p: Queue
      ensures Of(more, p) == if p == q then [e] + Of(queues, p) else Of(queues, p)
    {
      WithHeadAt(queues, q, e, p);
    }
    PartitionBasics(queues, home, q);
    PartitionAll(queues, home, q);
    DistinctMore(Of(queues, q), e);
    HomeMore(Of(queues, q), home, q, e);
    PartitionWith(queues, home, more, home[e := q], q);
    TotalWith(queues, more, q, 1);
  }

  lemma HomeMore(all: seq<Evnt>, home: map<Evnt, Queue>, q: Queue, e: Evnt)
    requires e !in home
    requires forall i :: 0 <= i < |all| ==> all[i] in home && home[all[i]] == q
    requires forall x :: x in home && home[x] == q ==> x in all
    ensures var more, home' := [e] + all, home[e := q];
      && (forall i :: 0 <= i < |more| ==> more[i] in home' && home'[more[i]] == q)
      && (forall x :: x in home' && home'[x] == q ==> x in more)
  {
    var more := [e] + all;
    assert more[0] == e;
    assert forall x :: x in all ==> x in more;
  }

  lemma PartitionAll(queues: Queues, home: map<Evnt, Queue>, q: Queue)
    requires Partition(queues, home)
    ensures forall e :: e in home && home[e] == q ==> e in Of(queues, q)
  {
    hide Distinct;
  }

  lemma TotalWith(queues: Queues, queues': Queues, q: Queue, d: int)
    requires forall p: Queue :: |Of(queues', p)| == if p == q then |Of(queues, p)| + d else |Of(queues, p)|
    ensures Total(queues') == Total(queues) + d
  {
    assert |Of(queues', Accept)| + |Of(queues', Connect)| + |Of(queues', Recv)| + |Of(queues', SendRecv)| + |Of(queues', Idle)|
        == |Of(queues, Accept)| + |Of(queues, Connect)| + |Of(queues, Recv)| + |Of(queues, SendRecv)| + |Of(queues, Idle)| + d;
  }

  lemma DistinctMore(s: seq<Evnt>, e: Evnt)
    requires Distinct(s) && e !in s
    ensures Distinct([e] + s)
  {
  }

  lemma PurgedAt(queues: Queues, home: map<Evnt, Queue>, e: Evnt, p: Queue)
    requires Partition(queues, home) && e in home
    ensures Of(Purged(queues, {e}), p) == if p == home[e] then Keep(Of(queues, p), {e}) else Of(queues, p)
  {
    hide Distinct;
    if p != home[e] {
      KeepAll(Of(queues, p), {e});
    }
  }

  lemma PartitionPurge(queues: Queues, home: map<Evnt, Queue>, e: Evnt)
    requires Partition(queues, home) && e in home
    ensures Partition(Purged(queues, {e}), home - {e})
    ensures Total(Purged(queues, {e})) == Total(queues) - 1
  {
    hide Distinct, Keep, Purged, Of, Total, Partition;
    var q := home[e];
    var all := Of(queues, q);
    var rest := Keep(all, {e});
    forall p: Queue
      ensures Of(Purged(queues, {e}), p) == if p == q then rest else Of(queues, p)
    {
      PurgedAt(queues, home, e, p);
    }
    PartitionBasics(queues, home, q);
    PartitionAll(queues, home, q);
    KeepMembers(all, {e});
    KeepDistinct(all, {e});
    KeepLess(all, e);
    assert forall i :: 0 <= i < |rest| ==> rest[i] in all && rest[i] != e;
    PartitionWith(queues, home, Purged(queues, {e}), home - {e}, q);
    TotalWith(queues, Purged(queues, {e}), q, -1);
  }

  lemma KeepLess(s: seq<Evnt>, x: Evnt)
    requires Distinct(s) && x in s
    ensures |Keep(s, {x})| == |s| - 1
  {
    var i :| 0 <= i < |s| && s[i] == x;
    KeepAt(s, i);
  }

  /** A list after each of some events in turn is put at its head, unless it is on it. */
  ghost function Pushed(s: seq<Evnt>, closed: seq<Evnt>): seq<Evnt> {
    if s == [] then closed
    else
      var rest := Pushed(s[..|s| - 1], closed);
      var e := s[|s| - 1];
      if e in rest then rest else [e] + rest
  }

  lemma PushedNone(s: seq<Evnt>, closed: seq<Evnt>)
    requires s == []
    ensures Pushed(s, closed) == closed
  {
  }

  lemma PushedNext(s: seq<Evnt>, i: nat, closed: seq<Evnt>)
    requires i < |s|
    ensures Pushed(s[..i + 1], closed) ==
      var rest := Pushed(s[..i], closed); if s[i] in rest then rest else [s[i]] + rest
  {
    assert s[..i + 1][..i] == s[..i];
  }

  /** The queue whose flag is on, in the order evnt__del_whatever asks. */
  function Home(e: Evnt): Queue
    reads e`flagQ
  {
    if Accept in e.flagQ then Accept
    else if Connect in e.flagQ then Connect
    else if Recv in e.flagQ then Recv
    else if SendRecv in e.flagQ then SendRecv
    else Idle
  }

  ghost function View(e: Evnt): Conn
    reads e`flagQ, e`flagQPktMove, e`reqPut, e`reqGot, e`ioLen
  {
    Conn(Home(e), e.flagQPktMove, e.reqPut, e.reqGot, e.ioLen)
  }

  class Engine {
    var heads: Five<Evnt?>
    var qSendNow: Evnt?
    var qClosed: Evnt?
    var num: nat

    ghost var queues: Queues
    ghost var sendNow: seq<Evnt>
    ghost var closed: seq<Evnt>
    /** The events that have been made and not freed, and the queue each is on. */
    ghost var home: map<Evnt, Queue>

    ghost predicate Links()
      reads this`heads, this`queues, this`home, home.Keys`next, home.Keys`prev
      requires Partition(queues, home)
    {
      forall q: Queue :: Linked(Of(heads, q), Of(queues, q))
    }

    /** Each live event is on exactly the queue whose flag it has, and the queues are well formed. */
    ghost predicate QueuesOk()
      reads this`heads, this`queues, this`home, home.Keys`next, home.Keys`prev, home.Keys`flagQ
    {
      Partition(queues, home) && Links() && forall e :: e in home ==> e.flagQ == {home[e]}
    }

    /** A live event is on the send-now list exactly when its flag says so, and nothing else is. */
    ghost predicate SendOk(live: set<Evnt>)
      reads this`qSendNow, this`sendNow, live`sNext, live`flagQSendNow
    {
      && Distinct(sendNow)
      && (forall i :: 0 <= i < |sendNow| ==> sendNow[i] in live)
      && (forall e :: e in live ==> (e.flagQSendNow <==> e in sendNow))
      && SendChain(qSendNow, sendNow)
    }

    ghost predicate ClosedOk(live: set<Evnt>)
      reads this`qClosed, this`closed, live`cNext, live`flagQClosed
    {
      && Distinct(closed)
      && (forall i :: 0 <= i < |closed| ==> closed[i] in live)
      && (forall e :: e in live ==> (e.flagQClosed <==> e in closed))
      && CloseChain(qClosed, closed)
    }

    /** The invariant of evnt__valid, for all events at once. */
    ghost predicate Valid()
      reads this, home.Keys
    {
      QueuesOk() && SendOk(home.Keys) && ClosedOk(home.Keys) && num == Total(queues)
    }

    constructor ()
      ensures Valid() && home == map[] && sendNow == [] && closed == []
    {
      heads, queues := Five(null, null, null, null, null), Five([], [], [], [], []);
      qSendNow, qClosed, num, sendNow, closed, home := null, null, 0, [], [], map[];
    }

    // ---------------------------------------------------------------- queues

    method Enqueue(q: Queue, evnt: Evnt)
      requires QueuesOk() && evnt !in home
      modifies this`heads, this`queues, this`home, evnt`next, evnt`prev, evnt`flagQ, home.Keys`prev
      ensures QueuesOk() && home == old(home)[evnt := q]
      ensures queues == WithHead(old(queues), q, evnt) && Total(queues) == old(Total(queues)) + 1
    {
      hide Linked, Total, Distinct, Partition, WithHead;
      PartitionBasics(queues, home, q);
      PartitionAdd(queues, home, q, evnt);
      var h := Add(Of(heads, q), evnt, Of(queues, q));
      evnt.flagQ := {q};
      heads := With(heads, q, h);
      queues := WithHead(queues, q, evnt);
      home := home[evnt := q];
      forall p: Queue
        ensures Linked(Of(heads, p), Of(queues, p))
      {
        WithHeadAt(old(queues), q, evnt, p);
        if p != q {
          Apart(old(queues), old(home), p, q);
          assert old(Linked(Of(heads, p), Of(queues, p)));
        }
      }
    }

    /** evnt__del_whatever, or evnt_del where the queue is known. */
    method Unqueue(evnt: Evnt)
      requires QueuesOk() && evnt in home
      modifies this`heads, this`queues, this`home, home.Keys`next, home.Keys`prev
      ensures QueuesOk() && home == old(home) - {evnt}
      ensures queues == Purged(old(queues), {evnt}) && Total(queues) == old(Total(queues)) - 1
    {
      hide Linked, Total, Distinct, Partition, Purged, Keep;
      Placed(evnt);
      var q := Home(evnt);
      PartitionBasics(queues, home, q);
      PartitionPurge(queues, home, evnt);
      var h := Del(Of(heads, q), evnt, Of(queues, q));
      heads := With(heads, q, h);
      queues := Purged(queues, {evnt});
      home := home - {evnt};
      forall p: Queue
        ensures Linked(Of(heads, p), Of(queues, p))
      {
        PurgedAt(old(queues), old(home), evnt, p);
        if p != q {
          Apart(old(queues), old(home), p, q);
          assert old(Linked(Of(heads, p), Of(queues, p)));
        }
      }
    }

    /** The flag names the queue. */
    lemma Placed(e: Evnt)
      requires QueuesOk() && e in home
      ensures Home(e) == home[e] && e in Of(queues, home[e])
    {
      hide Linked;
    }

    method Move(evnt: Evnt, to: Queue)
      requires Valid() && evnt in home && to != home[evnt]
      modifies this`heads, this`queues, this`home, home.Keys`next, home.Keys`prev, evnt`flagQ
      ensures Valid() && home == old(home)[evnt := to]
      ensures queues == WithHead(Purged(old(queues), {evnt}), to, evnt)
    {
      hide Partition, Linked, Total, Links, SendOk, ClosedOk, Purged, QueuesOk, WithHead;
      Unqueue(evnt);
      Enqueue(to, evnt);
      assert home.Keys == old(home.Keys);
      assert old(SendOk(home.Keys) && ClosedOk(home.Keys));
    }

    // ---------------------------------------------------------------- making and freeing events

    /** evnt__make_end: a new event goes on its first queue. */
    method MakeEnd(q: Queue, evnt: Evnt)
      requires Valid() && evnt !in home && !evnt.flagQSendNow && !evnt.flagQClosed
      modifies this`heads, this`queues, this`home, this`num, evnt`next, evnt`prev, evnt`flagQ, home.Keys`prev
      ensures Valid() && home == old(home)[evnt := q] && queues == WithHead(old(queues), q, evnt)
    {
      hide Partition, Linked, Total, Links, QueuesOk, WithHead, Distinct, SendChain, CloseChain;
      Enqueue(q, evnt);
      num := num + 1;
      assert home.Keys == old(home.Keys) + {evnt};
    }

    /** evnt_send_del */
    method SendDelete(evnt: Evnt)
      requires SendOk(home.Keys) && evnt in home
      modifies this`qSendNow, this`sendNow, home.Keys`sNext, evnt`flagQSendNow
      ensures SendOk(home.Keys) && !evnt.flagQSendNow && sendNow == Keep(old(sendNow), {evnt})
    {
      hide Keep, SendChain;
      if !evnt.flagQSendNow {
        KeepAll(sendNow, {evnt});
        return;
      }
      KeepDistinct(sendNow, {evnt});
      KeepMembers(sendNow, {evnt});
      qSendNow := SendDel(qSendNow, evnt, sendNow);
      sendNow := Keep(sendNow, {evnt});
      evnt.flagQSendNow := false;
    }

    /** evnt_free: an event that is not to be closed leaves its queue and the send-now list. */
    method Free(evnt: Evnt)
      requires Valid() && evnt in home && !evnt.flagQClosed
      modifies this`heads, this`queues, this`home, this`num, this`qSendNow, this`sendNow
      modifies home.Keys`next, home.Keys`prev, home.Keys`sNext, evnt`flagQSendNow
      ensures Valid() && home == old(home) - {evnt} && evnt !in sendNow && evnt !in closed
      ensures queues == Purged(old(queues), {evnt}) && sendNow == Keep(old(sendNow), {evnt})
    {
      hide Partition, Linked, Total, Links, QueuesOk, Purged, Distinct, CloseChain, SendChain, Keep;
      SendDelete(evnt);
      Unqueue(evnt);
      num := num - 1;
      assert home.Keys == old(home.Keys) - {evnt};
    }

    /** evnt_close: the event is to be freed later. */
    method Close(evnt: Evnt)
      requires Valid() && evnt in home
      modifies this`qClosed, this`closed, evnt`cNext, evnt`flagQClosed
      ensures Valid() && evnt.flagQClosed
      ensures closed == if old(evnt.flagQClosed) then old(closed) else [evnt] + old(closed)
    {
      hide Partition, Linked, Total, Links, QueuesOk, SendOk;
      if evnt.flagQClosed {
        return;
      }
      evnt.flagQClosed := true;
      evnt.cNext := qClosed;
      qClosed := evnt;
      closed := [evnt] + closed;
    }

    /** evnt__close_now */
    method CloseNow(evnt: Evnt)
      requires Valid() && evnt in home
      modifies this`heads, this`queues, this`home, this`num, this`qSendNow, this`sendNow
      modifies home.Keys`next, home.Keys`prev, home.Keys`sNext, evnt`flagQSendNow
      ensures Valid()
      ensures var gone := if evnt.flagQClosed then {} else {evnt};
        && home == old(home) - gone
        && queues == Purged(old(queues), gone) && sendNow == Keep(old(sendNow), gone)
    {
      hide Partition, Linked, Total, Links, QueuesOk, SendOk, ClosedOk, Purged, Keep;
      if evnt.flagQClosed {
        PurgedNone(queues);
        KeepAll(sendNow, {});
        return;
      }
      Free(evnt);
    }

    // ---------------------------------------------------------------- the closed list

    method PopClosed() returns (scan: Evnt)
      requires Valid() && qClosed != null
      modifies this`qClosed, this`closed, home.Keys`flagQClosed
      ensures Valid() && old(closed) == [scan] + closed && scan in home && !scan.flagQClosed
    {
      hide Partition, Linked, Total, Links, QueuesOk, SendOk;
      scan := qClosed;
      scan.flagQClosed := false;
      qClosed := scan.cNext;
      closed := closed[1..];
    }

    /** evnt_scan_q_close: frees every event on the closed list. */
    method ScanQClose()
      requires Valid()
      modifies this, home.Keys`next, home.Keys`prev, home.Keys`sNext, home.Keys`flagQSendNow, home.Keys`flagQClosed
      ensures Valid() && closed == []
      ensures var gone := set e | e in old(closed);
        home == old(home) - gone && queues == Purged(old(queues), gone) && sendNow == Keep(old(sendNow), gone)
    {
      hide Partition, Linked, Total, Links, QueuesOk, SendOk, Purged, Keep, Distinct;
      ghost var gone: set<Evnt> := {};
      PurgedNone(queues);
      KeepAll(sendNow, {});
      while qClosed != null
        invariant Valid() && home.Keys <= old(home.Keys)
        invariant home == old(home) - gone
        invariant queues == Purged(old(queues), gone) && sendNow == Keep(old(sendNow), gone)
        invariant forall e :: e in old(closed) <==> e in gone || e in closed
        decreases |closed|
      {
        var scan := PopClosed();
        PurgedTwice(old(queues), gone, {scan});
        KeepTwice(old(sendNow), gone, {scan});
        Free(scan);
        gone := gone + {scan};
      }
      assert gone == set e | e in old(closed);
    }

    /** evnt_acpt_close_all: every accepting event goes on the closed list, once. */
    method AcptCloseAll()
      requires Valid()
      modifies this`qClosed, this`closed, home.Keys`cNext, home.Keys`flagQClosed
      ensures Valid() && closed == Pushed(queues.accept, old(closed))
    {
      hide Partition, Linked, Total, Links, QueuesOk, SendOk, ClosedOk, Distinct, Pushed;
      var evnt := heads.accept;
      ghost var i := 0;
      ghost var s := queues.accept;
      AcceptFirst();
      PushedNone(s[..0], closed);
      while evnt != null
        invariant 0 <= i <= |s| && evnt == At(s, i)
        invariant Valid() && closed == Pushed(s[..i], old(closed))
        decreases |s| - i
      {
        AcceptLinked(i);
        PushedNext(s, i, old(closed));
        Close(evnt);
        evnt := evnt.next;
        i := i + 1;
      }
      assert s[..i] == s;
    }

    lemma AcceptFirst()
      requires Valid()
      ensures heads.accept == At(queues.accept, 0)
    {
      assert Linked(Of(heads, Accept), Of(queues, Accept));
    }

    lemma AcceptLinked(i: nat)
      requires Valid() && i < |queues.accept|
      ensures queues.accept[i] in home && queues.accept[i].next == At(queues.accept, i + 1)
      ensures queues.accept[i].flagQClosed <==> queues.accept[i] in closed
    {
      assert Of(queues, Accept) == queues.accept;
      assert Linked(Of(heads, Accept), Of(queues, Accept));
    }

    // ---------------------------------------------------------------- packets and sends

    /** What a change of queue leaves of the engine: the event is at the head of its new queue. */
    ghost predicate Requeued(queues': Queues, home': map<Evnt, Queue>, evnt: Evnt)
      reads this`queues, this`home
      requires evnt in home && evnt in home'
    {
      && home == home'[evnt := home[evnt]]
      && queues == if home[evnt] == home'[evnt] then queues' else WithHead(Purged(queues', {evnt}), home[evnt], evnt)
    }

    /** evnt_put_pkt */
    method PutPkt(evnt: Evnt)
      requires Valid() && evnt in home
      modifies this`heads, this`queues, this`home, home.Keys`next, home.Keys`prev, evnt`flagQ, evnt`reqPut
      ensures Valid() && evnt in home && View(evnt) == AfterPut(old(View(evnt)))
      ensures Requeued(old(queues), old(home), evnt)
    {
      hide Partition, Linked, Total, Links, SendOk, ClosedOk, Purged, WithHead;
      Placed(evnt);
      if evnt.flagQPktMove && Idle in evnt.flagQ {
        Move(evnt, Recv);
        Placed(evnt);
      }
      evnt.reqPut := (evnt.reqPut + 1) % UINT;
    }

    /** A packet that comes is the last one outstanding, of an event that does not wait to send. */
    predicate LastComes(evnt: Evnt)
      reads evnt
    {
      evnt.flagQPktMove && SendRecv !in evnt.flagQ && evnt.reqPut == (evnt.reqGot + 1) % UINT
    }

    /** It can be taken off the receive queue: it is there, or on the idle queue but not at its head, in which
      case the deletion touches its neighbours alone. */
    predicate GotFits(evnt: Evnt)
      reads evnt
    {
      LastComes(evnt) ==> Home(evnt) == Recv || (Home(evnt) == Idle && evnt.prev != null)
    }

    /** evnt_got_pkt: with the last packet outstanding the event goes from the receive queue to the idle queue.
      A settled event is on the receive queue then (EvntConn.LastPacket). The engine stays as it should be
      exactly when the event fits; the head of the idle queue ends up as its own successor, and an event that
      accepts or connects with two queue flags. */
    method GotPkt(evnt: Evnt)
      requires Valid() && evnt in home
      modifies this`heads, this`queues, this`home, home.Keys`next, home.Keys`prev, evnt`flagQ, evnt`reqGot
      ensures Valid() <==> old(GotFits(evnt))
      ensures evnt in home && old(GotFits(evnt)) ==>
        && View(evnt) == AfterGot(old(View(evnt)))
        && home.Keys == old(home.Keys)
        && queues == if old(LastComes(evnt)) then WithHead(Purged(old(queues), {evnt}), Idle, evnt) else old(queues)
      ensures evnt in home && home.Keys == old(home.Keys)
      ensures !old(GotFits(evnt)) ==>
        if old(Home(evnt)) == Idle then heads.idle == evnt && evnt.next == evnt && heads.recv == old(evnt.next)
        else evnt.flagQ == {old(Home(evnt)), Idle}
    {
      hide Partition, Linked, Total, Links, SendOk, ClosedOk, Purged, WithHead;
      Placed(evnt);
      ghost var last := LastComes(evnt);
      evnt.reqGot := (evnt.reqGot + 1) % UINT;
      if evnt.flagQPktMove && SendRecv !in evnt.flagQ && evnt.reqPut == evnt.reqGot {
        if Recv in evnt.flagQ {
          Move(evnt, Idle);
          Placed(evnt);
        } else if Idle in evnt.flagQ && evnt.prev != null {
          Back(evnt);
          Placed(evnt);
        } else {
          Misplace(evnt);
        }
      }
    }

    /** From the middle of the idle queue to its head. */
    method Back(evnt: Evnt)
      requires Valid() && evnt in home && home[evnt] == Idle
      modifies this`heads, this`queues, this`home, home.Keys`next, home.Keys`prev, evnt`flagQ
      ensures Valid() && home == old(home)
      ensures queues == WithHead(Purged(old(queues), {evnt}), Idle, evnt)
    {
      hide Partition, Linked, Total, Links, SendOk, ClosedOk, Purged, QueuesOk, WithHead;
      Unqueue(evnt);
      Enqueue(Idle, evnt);
      assert home.Keys == old(home.Keys);
      assert old(SendOk(home.Keys) && ClosedOk(home.Keys));
    }

    /** evnt_del from the receive queue and evnt_add to the idle queue, for an event that is not on the first. */
    method Misplace(evnt: Evnt)
      requires Valid() && evnt in home && home[evnt] != Recv && (home[evnt] == Idle ==> evnt.prev == null)
      modifies this`heads, home.Keys`next, home.Keys`prev, evnt`flagQ
      ensures !Valid()
      ensures if home[evnt] == Idle then heads.idle == evnt && evnt.next == evnt && heads.recv == old(evnt.next)
              else evnt.flagQ == old(evnt.flagQ) + {Idle}
    {
      hide Partition, Total, SendOk, ClosedOk;
      Neighbours(evnt);
      ghost var q := home[evnt];
      var recv := heads.recv;
      if evnt.prev != null {
        evnt.prev.next := evnt.next;
      } else {
        recv := evnt.next;
      }
      if evnt.next != null {
        evnt.next.prev := evnt.prev;
      }
      heads := heads.(recv := recv);
      evnt.flagQ := evnt.flagQ - {Recv};
      evnt.next := heads.idle;
      if evnt.next != null {
        evnt.next.prev := evnt;
      }
      evnt.prev := null;
      heads := heads.(idle := evnt);
      evnt.flagQ := evnt.flagQ + {Idle};
      if q == Idle {
        NoLoop(evnt);
      } else {
        assert Idle in evnt.flagQ && q in evnt.flagQ;
      }
    }

    /** The events next to one in its queue are live, and so is the head of the idle queue. */
    lemma Neighbours(e: Evnt)
      requires QueuesOk() && e in home
      ensures e.prev != null ==> e.prev in home
      ensures e.next != null ==> e.next in home && e.next != e
      ensures heads.idle != null ==> heads.idle in home
      ensures home[e] == Idle && e.prev == null ==> heads.idle == e
      ensures e.flagQ == {home[e]}
    {
      var q := home[e];
      Placed(e);
      PartitionBasics(queues, home, q);
      PartitionBasics(queues, home, Idle);
      assert Linked(Of(heads, q), Of(queues, q)) && Linked(Of(heads, Idle), Of(queues, Idle));
      var i := LinkedAt(Of(heads, q), Of(queues, q), e);
    }

    /** No event of a well-formed engine comes after itself. */
    lemma NoLoop(e: Evnt)
      requires e in home && e.next == e
      ensures !QueuesOk()
    {
      if QueuesOk() {
        Neighbours(e);
      }
    }

    /** evnt__send_fin: an event with output waits to send, one without does not. */
    method SendFin(evnt: Evnt)
      requires Valid() && evnt in home && (evnt.ioLen > 0 ==> Established(View(evnt)))
      modifies this`heads, this`queues, this`home, home.Keys`next, home.Keys`prev, evnt`flagQ
      ensures Valid() && evnt in home && View(evnt) == AfterSendFin(old(View(evnt)))
      ensures old(Established(View(evnt))) ==> (Home(evnt) == SendRecv <==> evnt.ioLen > 0)
      ensures old(Home(evnt)) == SendRecv && evnt.ioLen == 0 ==>
        Home(evnt) == if evnt.flagQPktMove && evnt.reqPut == evnt.reqGot then Idle else Recv
      ensures Requeued(old(queues), old(home), evnt)
    {
      hide Partition, Linked, Total, Links, SendOk, ClosedOk, Purged, WithHead;
      Placed(evnt);
      if SendRecv in evnt.flagQ && evnt.ioLen == 0 {
        if evnt.flagQPktMove && evnt.reqPut == evnt.reqGot {
          Move(evnt, Idle);
        } else {
          Move(evnt, Recv);
        }
      } else if SendRecv !in evnt.flagQ && evnt.ioLen > 0 {
        Move(evnt, SendRecv);
      }
      Placed(evnt);
    }

    /** evnt_shutdown_w: all output is dropped; shut is whether shutdown worked. */
    method ShutdownW(evnt: Evnt, shut: bool) returns (ok: bool)
      requires Valid() && evnt in home
      modifies this`heads, this`queues, this`home, home.Keys`next, home.Keys`prev
      modifies evnt`flagQ, evnt`ioLen, evnt`ioWShutdown
      ensures ok == (shut && !old(evnt.ioRShutdown) && !old(evnt.ioWShutdown))
      ensures Valid() && evnt in home && Requeued(old(queues), old(home), evnt)
      ensures ok ==> evnt.ioWShutdown && View(evnt) == AfterSendFin(old(View(evnt)).(len := 0))
      ensures ok ==> Home(evnt) != SendRecv
      ensures !ok ==> View(evnt) == old(View(evnt))
    {
      hide Partition, Linked, Total, Links, SendOk, ClosedOk, Purged, WithHead;
      if evnt.ioRShutdown || evnt.ioWShutdown || !shut {
        return false;
      }
      evnt.ioWShutdown := true;
      evnt.ioLen := 0;
      SendFin(evnt);
      return true;
    }

    /** The end of a connect in evnt_scan_fds: worked is whether it did, and wanted is what its callback
      says of the connection. The connection goes idle or is freed; one already closed is passed over, and
      stays queued for evnt_scan_q_close to free. */
    method ConnectDone(evnt: Evnt, worked: bool, wanted: bool)
      requires Valid() && evnt in home && home[evnt] == Connect
      modifies this`heads, this`queues, this`home, this`num, this`qSendNow, this`sendNow
      modifies home.Keys`next, home.Keys`prev, home.Keys`sNext, evnt`flagQSendNow, evnt`flagQ
      ensures Valid()
      ensures !evnt.flagQClosed && !(worked && wanted) ==>
        && home == old(home) - {evnt} && queues == Purged(old(queues), {evnt})
        && sendNow == Keep(old(sendNow), {evnt})
      ensures evnt.flagQClosed ==>
        && home == old(home) && View(evnt) == old(View(evnt)) && queues == old(queues) && sendNow == old(sendNow)
      ensures !evnt.flagQClosed && worked && wanted ==>
        && home == old(home)[evnt := Idle] && View(evnt) == old(View(evnt)).(queue := Idle)
        && queues == WithHead(Purged(old(queues), {evnt}), Idle, evnt) && sendNow == old(sendNow)
    {
      hide Partition, Linked, Total, Links, SendOk, ClosedOk, Purged, WithHead, Keep;
      if evnt.flagQClosed {
        return;
      }
      Placed(evnt);
      PurgedHead(queues, evnt, Idle);
      if !worked {
        CloseNow(evnt);
      } else {
        Move(evnt, Idle);
        Placed(evnt);
        if !wanted {
          CloseNow(evnt);
        }
      }
    }

    method PushSendNow(evnt: Evnt)
      requires Valid() && evnt in home && !evnt.flagQSendNow
      modifies this`qSendNow, this`sendNow, evnt`sNext, evnt`flagQSendNow
      ensures Valid() && evnt.flagQSendNow && sendNow == [evnt] + old(sendNow)
    {
      hide Partition, Linked, Total, Links, QueuesOk, ClosedOk;
      evnt.sNext := qSendNow;
      qSendNow := evnt;
      evnt.flagQSendNow := true;
      sendNow := [evnt] + sendNow;
    }

    /** evnt_send_add: sends at once when there is enough output, and otherwise, or if anything is left,
      puts the event on the send-now list; sent and left are the result of the write. */
    method SendAdd(evnt: Evnt, force: bool, maxSz: nat, sent: bool, left: nat) returns (ok: bool)
      requires Valid() && evnt in home
      modifies this`qSendNow, this`sendNow, evnt`sNext, evnt`flagQSendNow, evnt`ioLen
      ensures Valid()
      ensures var writes := SendRecv !in evnt.flagQ && old(evnt.ioLen) > maxSz;
        && (ok <==> !writes || sent)
        && evnt.ioLen == (if writes && sent then left else old(evnt.ioLen))
        && evnt.flagQSendNow == (old(evnt.flagQSendNow) ||
             (ok && (force || SendRecv !in evnt.flagQ) && (writes ==> left > 0 || force)))
        && sendNow == if evnt.flagQSendNow == old(evnt.flagQSendNow) then old(sendNow) else [evnt] + old(sendNow)
    {
      hide Partition, Linked, Total, Links, QueuesOk, SendOk, ClosedOk;
      if SendRecv !in evnt.flagQ && evnt.ioLen > maxSz {
        if !sent {
          return false;
        }
        evnt.ioLen := left;
        if left == 0 && !force {
          return true;
        }
      }
      if evnt.flagQSendNow || (SendRecv in evnt.flagQ && !force) {
        return true;
      }
      PushSendNow(evnt);
      return true;
    }

    // ---------------------------------------------------------------- the requeue scan

    /** What a callback may do with its own event; packets that come and writes that end are taken as far as
      the event is where those functions ask for it. */
    method Do(evnt: Evnt, act: Act)
      requires Valid() && evnt in home
      modifies this`heads, this`queues, this`home, home.Keys`next, home.Keys`prev
      modifies evnt`flagQ, evnt`ioLen, evnt`reqPut, evnt`reqGot
      ensures Valid() && home.Keys == old(home.Keys)
      ensures act.Put? || (act.Got? && old(GotFits(evnt))) || (act.SendFin? && old(Established(View(evnt)))) || act.Len? ==>
                View(evnt) == After(old(View(evnt)), act)
    {
      hide Partition, Linked, Total, Links, SendOk, ClosedOk, Purged, WithHead;
      Placed(evnt);
      match act
      case Put => PutPkt(evnt);
      case Got =>
        if GotFits(evnt) {
          GotPkt(evnt);
        }
      case Len(len) => evnt.ioLen := len;
      case SendFin =>
        if Home(evnt) != Accept && Home(evnt) != Connect {
          SendFin(evnt);
        }
    }

    /** A send callback: it may put and get packets, have more or less output and end a write, in any order,
      and it may put its own event back on the send-now list. */
    method CallSend(evnt: Evnt, r: Reply) returns (ok: bool)
      requires Valid() && evnt in home && !evnt.flagQSendNow
      modifies this`heads, this`queues, this`home, home.Keys`next, home.Keys`prev
      modifies evnt`flagQ, evnt`ioLen, evnt`reqPut, evnt`reqGot
      modifies this`qSendNow, this`sendNow, evnt`sNext, evnt`flagQSendNow
      ensures Valid() && ok == r.ok && home.Keys == old(home.Keys)
      ensures evnt.flagQSendNow == r.requeue
      ensures sendNow == if r.requeue then [evnt] + old(sendNow) else old(sendNow)
    {
      hide Partition, Linked, Total, Links, QueuesOk, SendOk, ClosedOk;
      for i := 0 to |r.acts|
        invariant Valid() && home.Keys == old(home.Keys) && sendNow == old(sendNow) && !evnt.flagQSendNow
      {
        Do(evnt, r.acts[i]);
      }
      if r.requeue {
        PushSendNow(evnt);
      }
      return r.ok;
    }

    /** The event the scan's link holds comes off the send-now list. */
    method PopNow(after: Evnt?, tmp: Evnt, ghost back: seq<Evnt>, ghost rest: seq<Evnt>)
      requires Valid() && sendNow == back + [tmp] + rest && after == At(back, |back| - 1)
      modifies this`qSendNow, this`sendNow, home.Keys`sNext, tmp`flagQSendNow
      ensures Valid() && sendNow == back + rest && tmp in home && !tmp.flagQSendNow && tmp !in rest && tmp !in back
    {
      hide Partition, Linked, Total, Links, QueuesOk, ClosedOk, Keep, SendChain, Distinct;
      ghost var i := |back|;
      Pieces(sendNow, back, tmp, rest);
      KeepDistinct(sendNow, {tmp});
      KeepMembers(sendNow, {tmp});
      tmp.flagQSendNow := false;
      qSendNow := Unlink(qSendNow, after, tmp, sendNow, i);
      sendNow := Keep(sendNow, {tmp});
    }

    /** What the scan's link holds. */
    ghost predicate LinkHolds(after: Evnt?, back: seq<Evnt>, rest: seq<Evnt>)
      reads this, home.Keys, after
    {
      && sendNow == back + rest && after == At(back, |back| - 1)
      && (if after == null then qSendNow else after.sNext) == At(rest, 0)
    }

    lemma LinkIs(after: Evnt?, back: seq<Evnt>, rest: seq<Evnt>)
      requires SendOk(home.Keys) && sendNow == back + rest && after == At(back, |back| - 1)
      ensures LinkHolds(after, back, rest)
    {
      if back != [] {
        assert sendNow[|back| - 1] == after;
        assert At(sendNow, |back|) == At(rest, 0);
      }
    }

    /** The event whose callback failed is freed; the link stays where it is. */
    method DropFailed(tmp: Evnt, requeue: bool, after: Evnt?, ghost back: seq<Evnt>, ghost tail: seq<Evnt>)
      requires Valid() && closed == [] && tmp in home && tmp !in back && tmp !in tail
      requires sendNow == (if requeue then [tmp] + (back + tail) else back + tail) && after == At(back, |back| - 1)
      modifies this, home.Keys
      ensures Valid() && closed == [] && LinkHolds(after, back, tail) && home.Keys == old(home.Keys) - {tmp}
    {
      hide Partition, Linked, Total, Links, QueuesOk, SendOk, ClosedOk, Distinct, Keep, Purged, LinkHolds;
      KeepFirst(tmp, requeue, back + tail);
      NotClosed(tmp);
      CloseNow(tmp);
      LinkIs(after, back, tail);
    }

    /** Where the link is after a callback that did not fail: behind its event, if that is what it holds. */
    method NextLink(tmp: Evnt, requeue: bool, after: Evnt?, ghost back: seq<Evnt>, ghost tail: seq<Evnt>)
      returns (newAfter: Evnt?, ghost newBack: seq<Evnt>)
      requires SendOk(home.Keys) && tmp !in tail && after == At(back, |back| - 1)
      requires sendNow == if requeue then [tmp] + (back + tail) else back + tail
      ensures newBack == (if requeue then [tmp] + back else back) && LinkHolds(newAfter, newBack, tail)
    {
      hide SendOk;
      newAfter, newBack := after, back;
      if requeue {
        newBack := [tmp] + back;
        assert sendNow == newBack + tail;
        LinkAt(after, back, tail, tmp);
      } else {
        LinkIs(after, back, tail);
      }
      if tmp == (if after == null then qSendNow else after.sNext) {
        newAfter := tmp;
      }
      LinkIs(newAfter, newBack, tail);
    }

    /** One turn of the scan: the event is called, and goes, stays off the list, or is back at its head. */
    method ScanOne(after: Evnt?, r: Reply, ghost back: seq<Evnt>, ghost rest: seq<Evnt>)
      returns (tmp: Evnt, newAfter: Evnt?, ghost newBack: seq<Evnt>)
      requires Valid() && closed == [] && rest != [] && LinkHolds(after, back, rest)
      modifies this, home.Keys
      ensures Valid() && closed == [] && tmp == rest[0]
      ensures newBack == (if r.ok && r.requeue then [tmp] + back else back) && LinkHolds(newAfter, newBack, rest[1..])
      ensures home.Keys == if r.ok then old(home.Keys) else old(home.Keys) - {tmp}
    {
      hide Partition, Linked, Total, Links, QueuesOk, SendOk, ClosedOk, Distinct, Keep, Purged;
      tmp := if after == null then qSendNow else after.sNext;
      ghost var tail := rest[1..];
      assert sendNow == back + [tmp] + tail;
      SendLive(|back|);
      hide LinkHolds;
      PopNow(after, tmp, back, tail);
      var ok := CallSend(tmp, r);
      assert sendNow == if r.requeue then [tmp] + (back + tail) else back + tail;
      if ok {
        newAfter, newBack := NextLink(tmp, r.requeue, after, back, tail);
      } else {
        DropFailed(tmp, r.requeue, after, back, tail);
        newAfter, newBack := after, back;
      }
    }

    /** After its event is put at the head, the link holds the event only if nothing was put back before. */
    lemma LinkAt(after: Evnt?, back: seq<Evnt>, rest: seq<Evnt>, tmp: Evnt)
      requires SendOk(home.Keys) && sendNow == [tmp] + (back + rest) && after == At(back, |back| - 1)
      ensures (if after == null then qSendNow else after.sNext) == if back == [] then tmp else At(rest, 0)
      ensures tmp !in rest
    {
      assert sendNow[0] == tmp;
      if back != [] {
        assert sendNow[|back|] == after;
        assert At(sendNow, |back| + 1) == At(rest, 0);
      }
      TailFresh(sendNow, [], tmp, back + rest);
      assert sendNow == [] + [tmp] + (back + rest);
    }

    /** evnt_scan_send_fds: each event that was on the list, and was not to be closed, has its callback
      called once, in order; the list is then those that put themselves back, the last one first. */
    method ScanSendFds(replies: nat -> Reply) returns (called: seq<Evnt>)
      requires Valid()
      modifies this, home.Keys
      ensures Valid() && closed == []
      ensures var gone := set e | e in old(closed);
        && called == Keep(old(sendNow), gone)
        && home.Keys == old(home.Keys) - gone - Failed(called, replies)
      ensures sendNow == PutBack(called, replies)
    {
      hide Partition, Linked, Total, Links, QueuesOk, SendOk, ClosedOk, Distinct, Keep, Purged;
      hide Failed, PutBack, LinkHolds;
      ghost var gone := set e | e in closed;
      ScanQClose();
      NoneCalled(replies);
      ghost var start, rest, back: seq<Evnt> := sendNow, sendNow, [];
      var after: Evnt? := null;
      called := [];
      LinkIs(after, back, rest);
      LinkRest(after, back, rest);
      while (if after == null then qSendNow else after.sNext) != null
        invariant Valid() && closed == [] && home.Keys == old(home.Keys) - gone - Failed(called, replies)
        invariant home.Keys <= old(home.Keys)
        invariant start == called + rest && back == PutBack(called, replies)
        invariant LinkHolds(after, back, rest)
        invariant (if after == null then qSendNow else after.sNext) == null <==> rest == []
        decreases |rest|
      {
        var tmp;
        var r := replies(|called|);
        tmp, after, back := ScanOne(after, r, back, rest);
        FailedNext(called, tmp, replies);
        PutBackNext(called, tmp, replies);
        called := called + [tmp];
        rest := rest[1..];
        LinkRest(after, back, rest);
      }
      LinkSends(after, back, rest);
    }

    lemma LinkRest(after: Evnt?, back: seq<Evnt>, rest: seq<Evnt>)
      requires LinkHolds(after, back, rest)
      ensures (if after == null then qSendNow else after.sNext) == null <==> rest == []
    {
    }

    lemma LinkSends(after: Evnt?, back: seq<Evnt>, rest: seq<Evnt>)
      requires LinkHolds(after, back, rest) && rest == []
      ensures sendNow == back
    {
    }

    lemma SendLive(i: nat)
      requires SendOk(home.Keys) && i < |sendNow|
      ensures sendNow[i] in home.Keys
    {
    }

    lemma NotClosed(e: Evnt)
      requires Valid() && closed == [] && e in home
      ensures !e.flagQClosed
    {
    }
  }

  /** What a send callback does: its result, what it does with its event, and whether the event goes back. */
  datatype Reply = Reply(ok: bool, acts: seq<Act>, requeue: bool)

  /** Of the events whose callbacks were called, those that are on the list again, the last one first. */
  ghost function PutBack(called: seq<Evnt>, replies: nat -> Reply): seq<Evnt> {
    if called == [] then []
    else
      var n := |called| - 1;
      if replies(n).ok && replies(n).requeue then [called[n]] + PutBack(called[..n], replies)
      else PutBack(called[..n], replies)
  }

  /** Of the events whose callbacks were called, those that are freed. */
  ghost function Failed(called: seq<Evnt>, replies: nat -> Reply): set<Evnt> {
    set i | 0 <= i < |called| && !replies(i).ok :: called[i]
  }

  lemma NoneCalled(replies: nat -> Reply)
    ensures Failed([], replies) == {} && PutBack([], replies) == []
  {
  }

  lemma FailedNext(called: seq<Evnt>, e: Evnt, replies: nat -> Reply)
    ensures Failed(called + [e], replies) ==
      if replies(|called|).ok then Failed(called, replies) else Failed(called, replies) + {e}
  {
    var more := called + [e];
    var gone := if replies(|called|).ok then Failed(called, replies) else Failed(called, replies) + {e};
    forall x
      ensures x in Failed(more, replies) <==> x in gone
    {
      if x in Failed(called, replies) {
        var i :| 0 <= i < |called| && !replies(i).ok && called[i] == x;
        assert more[i] == x;
      }
      if x in gone && x !in Failed(called, replies) {
        assert more[|called|] == x;
      }
    }
  }

  lemma PutBackNext(called: seq<Evnt>, e: Evnt, replies: nat -> Reply)
    ensures PutBack(called + [e], replies) ==
      if replies(|called|).ok && replies(|called|).requeue then [e] + PutBack(called, replies)
      else PutBack(called, replies)
  {
    assert (called + [e])[..|called|] == called;
  }

  lemma TailFresh(s: seq<Evnt>, a: seq<Evnt>, e: Evnt, b: seq<Evnt>)
    requires Distinct(s) && s == a + [e] + b
    ensures e !in a && e !in b
  {
    assert s[|a|] == e;
    assert forall i :: 0 <= i < |b| ==> s[|a| + 1 + i] == b[i];
    assert forall i :: 0 <= i < |a| ==> s[i] == a[i];
  }

  lemma Pieces(s: seq<Evnt>, a: seq<Evnt>, e: Evnt, b: seq<Evnt>)
    requires Distinct(s) && s == a + [e] + b
    ensures |a| < |s| && s[|a|] == e && s[..|a|] == a && s[|a| + 1..] == b && e !in a && e !in b
  {
    TailFresh(s, a, e, b);
  }

  lemma KeepFirst(e: Evnt, first: bool, s: seq<Evnt>)
    requires e !in s
    ensures Keep(if first then [e] + s else s, {e}) == s
  {
    KeepAll(s, {e});
    assert ([e] + s)[1..] == s;
  }

  lemma PurgedTwice(queues: Queues, a: set<Evnt>, b: set<Evnt>)
    ensures Purged(Purged(queues, a), b) == Purged(queues, a + b)
  {
    KeepTwice(queues.accept, a, b);
    KeepTwice(queues.connect, a, b);
    KeepTwice(queues.recv, a, b);
    KeepTwice(queues.sendRecv, a, b);
    KeepTwice(queues.idle, a, b);
  }

  lemma PurgedHead(queues: Queues, e: Evnt, q: Queue)
    ensures Purged(WithHead(Purged(queues, {e}), q, e), {e}) == Purged(queues, {e})
  {
    var less := Purged(queues, {e});
    PurgedTwice(queues, {e}, {e});
    assert {e} + {e} == {e};
    assert ([e] + Of(less, q))[1..] == Of(less, q);
  }

  lemma PurgedNone(queues: Queues)
    ensures Purged(queues, {}) == queues
  {
    KeepAll(queues.accept, {});
    KeepAll(queues.connect, {});
    KeepAll(queues.recv, {});
    KeepAll(queues.sendRecv, {});
    KeepAll(queues.idle, {});
  }
}
