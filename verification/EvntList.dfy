/** The linked lists of the event engine: five doubly linked queues, and two singly linked lists. */
module EvntList {

  /** A queue of the engine; also the flag that says an event is on it. */
  datatype Queue = Accept | Connect | Recv | SendRecv | Idle

  class Evnt {
    var next: Evnt?
    var prev: Evnt?
    var sNext: Evnt?
    var cNext: Evnt?

    /** Those of the five queue flags that are on. */
    var flagQ: set<Queue>
    var flagQSendNow: bool
    var flagQClosed: bool
    var flagQPktMove: bool
    var ioRShutdown: bool
    var ioWShutdown: bool

    /** Packets put and got: unsigned int counters, which wrap. */
    var reqPut: nat
    var reqGot: nat

    /** The number of bytes waiting to be sent, io_w->len. */
    var ioLen: nat

    /** evnt_init: an event that is on no queue and no list. */
    constructor (pktMove: bool)
      ensures flagQ == {} && !flagQSendNow && !flagQClosed && flagQPktMove == pktMove
      ensures reqPut == reqGot == 0 && ioLen == 0 && !ioRShutdown && !ioWShutdown
    {
      next, prev, sNext, cNext := null, null, null, null;
      flagQ, flagQSendNow, flagQClosed, flagQPktMove := {}, false, false, pktMove;
      ioRShutdown, ioWShutdown := false, false;
      reqPut, reqGot, ioLen := 0, 0, 0;
    }
  }

  ghost predicate Distinct<T>(s: seq<T>) {
    forall i, j :: 0 <= i < j < |s| ==> s[i] != s[j]
  }

  /** Member i of s, null when there is none. */
  function At(s: seq<Evnt>, i: int): Evnt? {
    if 0 <= i < |s| then s[i] else null
  }

  /** The events from head along next are s, and prev leads back. */
  ghost predicate Linked(head: Evnt?, s: seq<Evnt>)
    reads s`next, s`prev
  {
    && head == At(s, 0)
    && (forall i {:trigger s[i].next} :: 0 <= i < |s| ==> s[i].next == At(s, i + 1))
    && (forall i {:trigger s[i].prev} :: 0 <= i < |s| ==> s[i].prev == At(s, i - 1))
  }

  /** The events from head along s_next are s. */
  ghost predicate SendChain(head: Evnt?, s: seq<Evnt>)
    reads s`sNext
  {
    && head == At(s, 0)
    && (forall i {:trigger s[i].sNext} :: 0 <= i < |s| ==> s[i].sNext == At(s, i + 1))
  }

  /** The events from head along c_next are s. */
  ghost predicate CloseChain(head: Evnt?, s: seq<Evnt>)
    reads s`cNext
  {
    && head == At(s, 0)
    && (forall i {:trigger s[i].cNext} :: 0 <= i < |s| ==> s[i].cNext == At(s, i + 1))
  }

  /** s without the members of gone. */
  ghost function Keep(s: seq<Evnt>, gone: set<Evnt>): (r: seq<Evnt>)
    ensures |r| <= |s|
  {
    if s == [] then []
    else if s[0] in gone then Keep(s[1..], gone)
    else [s[0]] + Keep(s[1..], gone)
  }

  lemma {:induction false} KeepMembers(s: seq<Evnt>, gone: set<Evnt>)
    ensures forall i :: 0 <= i < |Keep(s, gone)| ==> Keep(s, gone)[i] in s && Keep(s, gone)[i] !in gone
    ensures forall e :: e in s && e !in gone ==> e in Keep(s, gone)
  {
    if s != [] {
      KeepMembers(s[1..], gone);
    }
  }

  lemma {:induction false} KeepAll(s: seq<Evnt>, gone: set<Evnt>)
    requires forall i :: 0 <= i < |s| ==> s[i] !in gone
    ensures Keep(s, gone) == s
  {
    if s != [] {
      KeepAll(s[1..], gone);
    }
  }

  lemma {:induction false} KeepAt(s: seq<Evnt>, i: nat)
    requires Distinct(s) && i < |s|
    ensures Keep(s, {s[i]}) == s[..i] + s[i + 1..]
  {
    if i == 0 {
      KeepAll(s[1..], {s[0]});
    } else {
      KeepAt(s[1..], i - 1);
      assert s[1..][..i - 1] == s[1..i] && s[1..][i..] == s[i + 1..];
      assert s[..i] == [s[0]] + s[1..i];
    }
  }

  lemma {:induction false} KeepDistinct(s: seq<Evnt>, gone: set<Evnt>)
    requires Distinct(s)
    ensures Distinct(Keep(s, gone))
  {
    if s != [] {
      KeepDistinct(s[1..], gone);
      KeepMembers(s[1..], gone);
      assert s[0] !in s[1..];
    }
  }

  lemma {:induction false} KeepTwice(s: seq<Evnt>, a: set<Evnt>, b: set<Evnt>)
    ensures Keep(Keep(s, a), b) == Keep(s, a + b)
  {
    if s != [] {
      KeepTwice(s[1..], a, b);
      if s[0] !in a {
        assert ([s[0]] + Keep(s[1..], a))[1..] == Keep(s[1..], a);
      }
    }
  }

  /** Which old member comes at j when member i of s is taken out. */
  lemma Around(s: seq<Evnt>, i: nat, j: int)
    requires i < |s|
    ensures At(s[..i] + s[i + 1..], j) == if j < i then At(s, j) else At(s, j + 1)
  {
  }

  /** evnt_add: puts node at the head of a queue. */
  method Add(head: Evnt?, node: Evnt, ghost s: seq<Evnt>) returns (newHead: Evnt)
    requires Linked(head, s) && Distinct(s) && node !in s
    modifies node`next, node`prev, s`prev
    ensures newHead == node && Linked(newHead, [node] + s)
  {
    node.next := head;
    if node.next != null {
      node.next.prev := node;
    }
    node.prev := null;
    newHead := node;
    ghost var t := [node] + s;
    forall j | 0 <= j < |t|
      ensures t[j].next == At(t, j + 1) && t[j].prev == At(t, j - 1)
    {
      if j > 0 {
        assert t[j] == s[j - 1] && At(t, j + 1) == At(s, j) && s[j - 1].next == At(s, j);
      }
    }
  }

  /** evnt_del: takes node out of a queue. */
  method Del(head: Evnt?, node: Evnt, ghost s: seq<Evnt>) returns (newHead: Evnt?)
    requires Linked(head, s) && Distinct(s) && node in s
    modifies s`next, s`prev
    ensures Linked(newHead, Keep(s, {node}))
  {
    hide Keep;
    ghost var i := LinkedAt(head, s, node);
    KeepAt(s, i);
    newHead := head;
    if node.prev != null {
      node.prev.next := node.next;
    } else {
      newHead := node.next;
    }
    if node.next != null {
      node.next.prev := node.prev;
    }
    LinkedWithout(newHead, s, i);
  }

  /** A member of a queue and its neighbours. */
  lemma LinkedAt(head: Evnt?, s: seq<Evnt>, node: Evnt) returns (i: nat)
    requires Linked(head, s) && node in s
    ensures i < |s| && s[i] == node
    ensures node.prev == At(s, i - 1) && node.next == At(s, i + 1)
    ensures head == At(s, 0)
    ensures i > 0 ==> node.prev != null && node.prev in s
    ensures i == 0 ==> node.prev == null
    ensures node.next != null ==> node.next in s
  {
    i :| 0 <= i < |s| && s[i] == node;
  }

  /** What evnt_del does to the links. */
  lemma LinkedWithout(newHead: Evnt?, s: seq<Evnt>, i: nat)
    requires i < |s| && newHead == At(s, if i == 0 then 1 else 0)
    requires forall j :: 0 <= j < |s| ==> s[j].next == if j + 1 == i then At(s, i + 1) else At(s, j + 1)
    requires forall j :: 0 <= j < |s| ==> s[j].prev == if j == i + 1 then At(s, i - 1) else At(s, j - 1)
    ensures Linked(newHead, s[..i] + s[i + 1..])
  {
    var t := s[..i] + s[i + 1..];
    Around(s, i, 0);
    forall j | 0 <= j < |t|
      ensures t[j].next == At(t, j + 1) && t[j].prev == At(t, j - 1)
    {
      Around(s, i, j);
      Around(s, i, j + 1);
      Around(s, i, j - 1);
      assert t[j] == s[if j < i then j else j + 1];
    }
  }

  /** The step of a list scan that drops the event a link holds: the link is `after`'s, or the list's
    head when there is no `after`. */
  method Unlink(head: Evnt?, after: Evnt?, node: Evnt, ghost s: seq<Evnt>, ghost i: nat)
    returns (newHead: Evnt?)
    requires SendChain(head, s) && Distinct(s) && i < |s| && s[i] == node
    requires after == At(s, i - 1)
    modifies s`sNext
    ensures SendChain(newHead, Keep(s, {node}))
    ensures Keep(s, {node}) == s[..i] + s[i + 1..]
  {
    KeepAt(s, i);
    newHead := head;
    if after == null {
      newHead := node.sNext;
    } else {
      after.sNext := node.sNext;
    }
    ghost var t := s[..i] + s[i + 1..];
    Around(s, i, 0);
    forall j | 0 <= j < |t|
      ensures t[j].sNext == At(t, j + 1)
    {
      Around(s, i, j);
      Around(s, i, j + 1);
    }
  }

  /** The loop of evnt_send_del: takes node out of the send-now list. */
  method SendDel(head: Evnt?, node: Evnt, ghost s: seq<Evnt>) returns (newHead: Evnt?)
    requires SendChain(head, s) && Distinct(s) && node in s
    modifies s`sNext
    ensures SendChain(newHead, Keep(s, {node}))
  {
    ghost var i := 0;
    var scan := head;
    var last: Evnt? := null;
    while scan != null && scan != node
      invariant 0 <= i <= |s|
      invariant scan == At(s, i)
      invariant last == At(s, i - 1)
      invariant node !in s[..i]
      decreases |s| - i
    {
      last := scan;
      scan := scan.sNext;
      i := i + 1;
    }
    assert s == s[..i] + s[i..];
    newHead := Unlink(head, last, node, s, i);
  }
}
