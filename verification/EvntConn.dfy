/** One connection of the event engine, as its counters and its queue: when it is idle. */
module EvntConn {
  import opened EvntList

  const UINT := 0x1_0000_0000

  /** An event as evnt_put_pkt, evnt_got_pkt and evnt__send_fin see it. */
  datatype Conn = Conn(queue: Queue, pktMove: bool, put: nat, got: nat, len: nat)

  predicate Established(c: Conn) {
    c.queue != Accept && c.queue != Connect
  }

  /** A connection that moves with its packets is idle exactly when nothing is to be sent and every
    packet put has been got. */
  predicate Settled(c: Conn) {
    c.pktMove && Established(c) ==> (c.queue == Idle <==> c.queue != SendRecv && c.put == c.got)
  }

  function AfterPut(c: Conn): Conn {
    c.(queue := if c.pktMove && c.queue == Idle then Recv else c.queue, put := (c.put + 1) % UINT)
  }

  function AfterGot(c: Conn): Conn {
    var got := (c.got + 1) % UINT;
    c.(queue := if c.pktMove && c.queue != SendRecv && c.put == got then Idle else c.queue, got := got)
  }

  function AfterSendFin(c: Conn): Conn {
    if c.queue == SendRecv && c.len == 0 then
      c.(queue := if c.pktMove && c.put == c.got then Idle else Recv)
    else if c.queue != SendRecv && c.len > 0 then c.(queue := SendRecv)
    else c
  }

  /** evnt__send_fin: a connection with output waits to send, and one without does not. When its output has ended
    it is idle if it moves with its packets and has none outstanding, and receives otherwise, also
    when it does not move with its packets. */
  lemma SendFinMoves(c: Conn)
    requires Established(c)
    ensures var r := AfterSendFin(c);
      && r == c.(queue := r.queue) && Established(r)
      && (r.queue == SendRecv <==> c.len > 0)
      && (c.queue == SendRecv && c.len == 0 ==> (r.queue == Idle <==> c.pktMove && c.put == c.got))
      && (c.queue == SendRecv && c.len == 0 && r.queue != Idle ==> r.queue == Recv)
      && (c.queue != SendRecv && c.len == 0 ==> r == c)
  {
  }

  /** What can happen to a connection; Len is the bytes waiting after a write or after more output. */
  datatype Act = Put | Got | Len(len: nat) | SendFin

  function After(c: Conn, a: Act): Conn {
    match a
    case Put => AfterPut(c)
    case Got => AfterGot(c)
    case Len(len) => c.(len := len)
    case SendFin => AfterSendFin(c)
  }

  function AfterAll(c: Conn, acts: seq<Act>): Conn {
    if acts == [] then c else After(AfterAll(c, acts[..|acts| - 1]), acts[|acts| - 1])
  }

  function Count(acts: seq<Act>, a: Act): nat {
    if acts == [] then 0
    else Count(acts[..|acts| - 1], a) + if acts[|acts| - 1] == a then 1 else 0
  }

  /** Got never overtakes put, and fewer packets are outstanding than an unsigned int can count. */
  ghost predicate Sane(acts: seq<Act>) {
    forall k :: 0 <= k <= |acts| ==> Count(acts[..k], Got) <= Count(acts[..k], Put) < Count(acts[..k], Got) + UINT
  }

  lemma SanePrefix(acts: seq<Act>)
    requires Sane(acts) && acts != []
    ensures Sane(acts[..|acts| - 1])
    ensures Count(acts, Got) <= Count(acts, Put) < Count(acts, Got) + UINT
    ensures Count(acts[..|acts| - 1], Got) <= Count(acts[..|acts| - 1], Put)
  {
    var init := acts[..|acts| - 1];
    assert acts[..|acts|] == acts;
    forall k | 0 <= k <= |init|
      ensures Count(init[..k], Got) <= Count(init[..k], Put) < Count(init[..k], Got) + UINT
    {
      assert init[..k] == acts[..k];
    }
  }

  /** After every run from a fresh established connection, whatever the order: the connection is idle
    exactly when it is not waiting to send and all packets put have been got, and the wrapped counters
    never take a connection with packets outstanding for one without. */
  lemma {:induction false} RunSettled(c: Conn, acts: seq<Act>)
    requires Established(c) && Settled(c) && c.put == c.got == 0 && Sane(acts)
    ensures var r := AfterAll(c, acts);
            && Settled(r) && Established(r) && r.pktMove == c.pktMove
            && r.put == Count(acts, Put) % UINT && r.got == Count(acts, Got) % UINT
            && (r.put == r.got <==> Count(acts, Put) == Count(acts, Got))
            && (c.pktMove ==> (r.queue == Idle <==> r.queue != SendRecv && Count(acts, Put) == Count(acts, Got)))
  {
    hide Settled, After, Sane, Established, AfterAll, Count;
    if acts == [] {
      NoActs(c);
      StartSettled(c);
    } else {
      var n := |acts| - 1;
      LastAct(c, acts);
      SanePrefix(acts);
      RunSettled(c, acts[..n]);
      StepSettled(AfterAll(c, acts[..n]), acts[n], Count(acts[..n], Put), Count(acts[..n], Got));
      SameWrapped(Count(acts, Put), Count(acts, Got));
      IdleIs(AfterAll(c, acts));
    }
  }

  /** The output that waits after a run. */
  function Waiting(acts: seq<Act>, len: nat): nat {
    if acts == [] then len
    else
      var n := |acts| - 1;
      if acts[n].Len? then acts[n].len else Waiting(acts[..n], len)
  }

  /** The output that waited when evnt__send_fin was last called. */
  function Asked(acts: seq<Act>, len: nat): nat {
    if acts == [] then len
    else
      var n := |acts| - 1;
      if acts[n].SendFin? then Waiting(acts[..n], len) else Asked(acts[..n], len)
  }

  /** Some output has been waited for. */
  predicate EverAsked(acts: seq<Act>, len: nat) {
    Asked(acts, len) > 0 || (acts != [] && EverAsked(acts[..|acts| - 1], len))
  }

  /** After every run the queue of a connection is known: it waits to send exactly when there was output at the
    last call of evnt__send_fin; otherwise one that moves with its packets is idle when none is
    outstanding and receives when some are, and one that does not stays where it began until it has
    had output to wait for, and receives from then on. */
  lemma {:induction false} RunQueue(c: Conn, acts: seq<Act>)
    requires Established(c) && Settled(c) && c.put == c.got == 0 && Sane(acts) && (c.queue == SendRecv <==> c.len > 0)
    ensures var r := AfterAll(c, acts);
      && r.len == Waiting(acts, c.len)
      && r.queue ==
           if Asked(acts, c.len) > 0 then SendRecv
           else if c.pktMove then if Count(acts, Put) == Count(acts, Got) then Idle else Recv
           else if EverAsked(acts, c.len) then Recv
           else c.queue
  {
    hide Settled, After, Sane, Established, AfterAll, Count, Waiting, Asked, EverAsked;
    RunSettled(c, acts);
    QueueKinds(AfterAll(c, acts));
    if acts == [] {
      NoActs(c);
      NoneAsked(c.len);
    } else {
      var n := |acts| - 1;
      LastAct(c, acts);
      LastAsked(acts, c.len);
      SanePrefix(acts);
      RunSettled(c, acts[..n]);
      RunQueue(c, acts[..n]);
      var before := AfterAll(c, acts[..n]);
      QueueKinds(before);
      if c.len > 0 {
        AskedFirst(acts[..n], c.len);
      }
      SendQueue(before, acts[n]);
      if !c.pktMove && Asked(acts, c.len) == 0 {
        StillQueue(before, acts[n]);
      }
    }
  }

  lemma QueueKinds(c: Conn)
    requires Established(c)
    ensures c.queue == Idle || c.queue == Recv || c.queue == SendRecv
  {
  }

  lemma NoneAsked(len: nat)
    ensures Waiting([], len) == Asked([], len) == len && (EverAsked([], len) <==> len > 0)
  {
  }

  lemma LastAsked(acts: seq<Act>, len: nat)
    requires acts != []
    ensures var n := |acts| - 1; var a := acts[n];
      && Waiting(acts, len) == (if a.Len? then a.len else Waiting(acts[..n], len))
      && Asked(acts, len) == (if a.SendFin? then Waiting(acts[..n], len) else Asked(acts[..n], len))
      && (EverAsked(acts, len) <==> Asked(acts, len) > 0 || EverAsked(acts[..n], len))
      && (Asked(acts[..n], len) > 0 ==> EverAsked(acts[..n], len))
  {
  }

  lemma {:induction false} AskedFirst(acts: seq<Act>, len: nat)
    requires len > 0
    ensures EverAsked(acts, len)
  {
    hide Asked;
    if acts == [] {
      NoneAsked(len);
    } else {
      AskedFirst(acts[..|acts| - 1], len);
    }
  }

  /** Only evnt__send_fin begins and ends the wait for output. */
  lemma SendQueue(c: Conn, a: Act)
    requires Established(c)
    ensures After(c, a).len == if a.Len? then a.len else c.len
    ensures After(c, a).queue == SendRecv <==> if a.SendFin? then c.len > 0 else c.queue == SendRecv
  {
  }

  /** A connection that does not move with its packets only leaves its queue to send, and then receives. */
  lemma StillQueue(c: Conn, a: Act)
    requires Established(c) && !c.pktMove && After(c, a).queue != SendRecv
    ensures After(c, a).queue == if c.queue == SendRecv then Recv else c.queue
  {
  }

  lemma NoActs(c: Conn)
    ensures AfterAll(c, []) == c && Count([], Put) == Count([], Got) == 0
  {
  }

  lemma LastAct(c: Conn, acts: seq<Act>)
    requires acts != []
    ensures var n := |acts| - 1;
      && AfterAll(c, acts) == After(AfterAll(c, acts[..n]), acts[n])
      && Count(acts, Put) == Count(acts[..n], Put) + (if acts[n] == Put then 1 else 0)
      && Count(acts, Got) == Count(acts[..n], Got) + (if acts[n] == Got then 1 else 0)
  {
    hide After;
  }

  lemma StartSettled(c: Conn)
    requires Established(c) && Settled(c) && c.put == c.got == 0
    ensures c.pktMove ==> (c.queue == Idle <==> c.queue != SendRecv)
  {
  }

  lemma IdleIs(c: Conn)
    requires Established(c) && Settled(c)
    ensures c.pktMove ==> (c.queue == Idle <==> c.queue != SendRecv && c.put == c.got)
  {
  }

  /** One step, with the counts of packets put and got before it. */
  lemma StepSettled(c: Conn, a: Act, puts: nat, gots: nat)
    requires Settled(c) && Established(c) && c.put == puts % UINT && c.got == gots % UINT && gots <= puts
    requires a == Put ==> puts + 1 < gots + UINT
    requires a == Got ==> gots < puts < gots + UINT
    ensures var r := After(c, a);
            && Settled(r) && Established(r) && r.pktMove == c.pktMove
            && r.put == (if a == Put then puts + 1 else puts) % UINT
            && r.got == (if a == Got then gots + 1 else gots) % UINT
  {
    Wrap(puts);
    Wrap(gots);
    if a == Put {
      SameWrapped(puts + 1, gots);
    } else if a == Got {
      SameWrapped(puts, gots);
    }
  }

  lemma Wrap(n: nat)
    ensures (n % UINT + 1) % UINT == (n + 1) % UINT
  {
  }

  /** Counts less than 2^32 apart are equal when they are equal modulo 2^32. */
  lemma SameWrapped(a: nat, b: nat)
    requires b <= a < b + UINT
    ensures a % UINT == b % UINT <==> a == b
  {
    var d := a - b;
    assert a % UINT == (b % UINT + d) % UINT;
  }

  /** A connection that becomes established goes to the idle queue: that is right exactly when all
    packets put while it was connecting have been got. */
  lemma ConnectedSettled(c: Conn)
    requires c.queue == Connect
    ensures Settled(c.(queue := Idle)) <==> !c.pktMove || c.put == c.got
  {
  }

  /** When the last packet outstanding has been got, a settled connection that does not send is waiting to
    receive. */
  lemma LastPacket(c: Conn)
    requires c.pktMove && Established(c) && Settled(c) && c.got < UINT
    requires c.queue != SendRecv && c.put == (c.got + 1) % UINT
    ensures c.queue == Recv
  {
  }

  /** A packet put on a connection that is not yet made, and the connection idle with it outstanding. */
  lemma ConnectedUnsettled()
    ensures var c := Conn(Connect, true, 0, 0, 0);
            Settled(c) && AfterPut(c) == c.(put := 1) && !Settled(AfterPut(c).(queue := Idle))
  {
  }

  /** evnt_put_pkt settles a settled connection unless the counter wraps round to the other one. */
  lemma PutSettled(c: Conn)
    requires Settled(c) && Established(c) && c.pktMove && c.queue != SendRecv
    ensures Settled(AfterPut(c)) <==> (c.put + 1) % UINT != c.got
  {
  }
}
