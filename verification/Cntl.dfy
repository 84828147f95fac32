/** The parent's side of the control protocol, as its callbacks run. */
module Cntl {
  import opened CntlModel

  /** All the messages of a child are read, one after the other. */
  function RecvAll(s: State, child: nat): State
    requires Sized(s) && child < |s.replies|
    decreases if child < |s.replies| then |s.replies[child]| else 0
  {
    if s.replies[child] == [] then s
    else
      RecvShorter(s, child);
      RecvAll(Act1(s, Recv(child)), child)
  }

  lemma RecvShorter(s: State, child: nat)
    requires CanAct(s, Recv(child))
    ensures var r := Act1(s, Recv(child));
      && Sized(r) && |r.replies| == |s.replies| && r.replies[child] == s.replies[child][1..]
  {
  }

  class Parent {
    /** The bag of waiters, whose numbers are updated in place. */
    var waiters: seq<Waiter>
    /** For each child, the commands on its output and the messages on its input. */
    var ioW: seq<nat>
    var ioR: seq<seq<Msg>>
    var out: seq<Sent>
    ghost var got: seq<nat>
    ghost var asked: seq<nat>

    ghost function View(): State
      reads this
    {
      State(waiters, ioW, ioR, got, out, asked)
    }

    /** cntl_child_make */
    constructor (n: nat)
      requires n > 0
      ensures View() == Start(n)
    {
      waiters, ioW, ioR, out := [], seq(n, _ => 0), seq(n, _ => []), [];
      got, asked := seq(n, _ => 0), [];
    }

    /** cntl_waiter_get_first: the place of the waiter in the bag, or the end of the bag. */
    method WaiterGetFirst() returns (f: nat)
      ensures f == FirstLive(waiters)
    {
      f := 0;
      while f < |waiters|
        invariant 0 <= f <= |waiters|
        invariant forall k :: 0 <= k < f ==> waiters[k].num == 0
      {
        if waiters[f].num > 0 {
          break;
        }
        f := f + 1;
      }
      FirstLiveIs(waiters, f);
    }

    /** cntl_waiter_add: the command goes to every child, if there is room for its waiter. */
    method WaiterAdd(conn: nat) returns (ok: bool)
      requires Inv(View())
      modifies this
      ensures ok == (|old(waiters)| < WAITERS)
      ensures ok ==> View() == Act1(old(View()), Ask(conn))
      ensures !ok ==> View() == old(View())
      ensures Inv(View())
    {
      hide Inv;
      assert Sized(View()) by { InvSized(View()); }
      if |waiters| >= WAITERS {
        return false;
      }
      ghost var s := View();
      waiters := waiters + [Waiter(conn, |ioW|)];
      for i := 0 to |ioW|
        invariant |ioW| == |old(ioW)| && waiters == old(waiters) + [Waiter(conn, |ioW|)]
        invariant forall k :: 0 <= k < i ==> ioW[k] == old(ioW)[k] + 1
        invariant forall k :: i <= k < |ioW| ==> ioW[k] == old(ioW)[k]
        invariant ioR == old(ioR) && out == old(out) && got == old(got) && asked == old(asked)
      {
        ioW := ioW[i := ioW[i] + 1];
      }
      asked := asked + [conn];
      AskInv(s, conn);
      return true;
    }

    /** cntl_waiter_del: a child has sent its terminator to waiter f. */
    method WaiterDel(f: nat)
      requires f == FirstLive(waiters) < |waiters|
      modifies this`waiters, this`out
      ensures View() == Count(old(View()))
    {
      var w := waiters[f];
      waiters := waiters[f := w.(num := w.num - 1)];
      if waiters[f].num == 0 {
        out := out + [Sent(w.conn, Fin)];
        var next := WaiterGetFirst();
        if next == |waiters| {
          waiters := [];
        }
      }
    }

    /** cntl__cb_func_child_recv: all the child has sent is passed on. The asserted waiter is always there. */
    method ChildRecv(child: nat)
      requires Inv(View()) && child < |ioR|
      modifies this
      ensures Inv(View()) && Sized(old(View())) && View() == RecvAll(old(View()), child)
    {
      hide Inv, Act1, FirstLive, Count;
      InvSized(View());
      ghost var all := RecvAll(View(), child);
      var val := WaiterGetFirst();
      while ioR[child] != []
        invariant Inv(View()) && Sized(View()) && child < |ioR| && val == FirstLive(waiters)
        invariant RecvAll(View(), child) == all
        decreases |ioR[child]|
      {
        ghost var s := View();
        RecvShorter(s, child);
        ActInv(s, Recv(child));
        SomeLive(s, child);
        InvSized(Act1(s, Recv(child)));
        RecvIs(s, child);
        var msg := ioR[child][0];
        ioR := ioR[child := ioR[child][1..]];
        if msg == Fin {
          got := got[child := got[child] + 1];
          WaiterDel(val);
          val := WaiterGetFirst();
        } else {
          out := out + [Sent(waiters[val].conn, msg)];
        }
        assert View() == Act1(s, Recv(child));
      }
    }
  }

  lemma InvSized(s: State)
    requires Inv(s)
    ensures Sized(s)
  {
  }

  /** What reading one message comes to, when there is a waiter. */
  lemma RecvIs(s: State, i: nat)
    requires CanAct(s, Recv(i)) && FirstLive(s.waiters) < |s.waiters|
    ensures var rest := s.replies[i := s.replies[i][1..]];
      Act1(s, Recv(i)) ==
        if s.replies[i][0] == Fin then Count(s.(replies := rest, got := s.got[i := s.got[i] + 1]))
        else s.(replies := rest, out := s.out + [Sent(s.waiters[FirstLive(s.waiters)].conn, s.replies[i][0])])
  {
    hide FirstLive, Count;
  }
}
