/** The token walker of conf.h: it rebuilds the nesting of the flat token array with a stack of the
  numbers at which the lists it is inside end.
 */
module ConfWalk {
  import opened Vstr
  import opened ConfLexer
  import opened ConfStructure

  const UINT_MAX := 0xFFFF_FFFF

  /** Which of the first m tokens are lists that token k is inside, outermost first. */
  function Inside(sects: seq<Sect>, types: seq<nat>, k: nat, m: nat): (r: seq<nat>)
    requires m <= |sects| == |types|
    ensures forall j :: 0 <= j < |r| ==> r[j] < m && IsList(types[r[j]]) && End(sects, r[j]) >= k
  {
    if m == 0 then []
    else if IsList(types[m - 1]) && End(sects, m - 1) >= k then Inside(sects, types, k, m - 1) + [m - 1]
    else Inside(sects, types, k, m - 1)
  }

  /** The lists around token k, outermost first. */
  function Enclosing(sects: seq<Sect>, types: seq<nat>, k: nat): seq<nat>
    requires k <= |sects| == |types|
  {
    Inside(sects, types, k, k)
  }

  /** The lists that are open when token number num has just been read: those around it, and itself. */
  function Stack(sects: seq<Sect>, types: seq<nat>, num: nat): seq<nat>
    requires num <= |sects| == |types|
  {
    if num == 0 then []
    else if IsList(types[num - 1]) then Enclosing(sects, types, num - 1) + [num - 1]
    else Enclosing(sects, types, num - 1)
  }

  /** Tokens of the array, each list among them ending no later than the one before. */
  ghost predicate Shrinking(sects: seq<Sect>, lists: seq<nat>) {
    && (forall j :: 0 <= j < |lists| ==> lists[j] < |sects|)
    && (forall h, j :: 0 <= h < j < |lists| ==> End(sects, lists[j]) <= End(sects, lists[h]))
  }

  /** What is left of a stack of lists when those that end before token k are taken off. */
  ghost function Live(sects: seq<Sect>, lists: seq<nat>, k: nat): (r: seq<nat>)
    requires forall j :: 0 <= j < |lists| ==> lists[j] < |sects|
    ensures forall j :: 0 <= j < |r| ==> r[j] < |sects|
  {
    if lists == [] then []
    else
      var n := |lists| - 1;
      if End(sects, lists[n]) >= k then Live(sects, lists[..n], k) + [lists[n]] else Live(sects, lists[..n], k)
  }

  /** A list that counts token k is one that encloses it in the array, and conversely. */
  lemma {:induction false} InsideIff(sects: seq<Sect>, types: seq<nat>, k: nat, m: nat, i: nat)
    requires m <= |sects| == |types|
    ensures i in Inside(sects, types, k, m) <==> i < m && IsList(types[i]) && End(sects, i) >= k
  {
    hide IsList, End;
    if m > 0 {
      InsideIff(sects, types, k, m - 1, i);
      var before := Inside(sects, types, k, m - 1);
      assert i in before + [m - 1] <==> i in before || i == m - 1;
    }
  }

  /** The depth of a token is the number of lists it is inside. */
  lemma {:induction false} InsideIsNesting(sects: seq<Sect>, types: seq<nat>, k: nat, m: nat)
    requires WellNested(sects, types) && m <= |sects|
    ensures |Inside(sects, types, k, m)| == Nesting(sects, types, k, m)
  {
    if m > 0 {
      InsideIsNesting(sects, types, k, m - 1);
    }
  }

  lemma ListInside(sects: seq<Sect>, types: seq<nat>, lists: seq<nat>, k: nat)
    requires WellNested(sects, types) && Shrinking(sects, lists) && k < |sects| && IsList(types[k])
    requires forall j :: 0 <= j < |lists| ==> lists[j] < k && IsList(types[lists[j]]) && End(sects, lists[j]) >= k
    ensures Shrinking(sects, lists + [k])
  {
  }

  lemma {:induction false} InsideShrinks(sects: seq<Sect>, types: seq<nat>, k: nat, m: nat)
    requires WellNested(sects, types) && m <= k <= |sects|
    ensures Shrinking(sects, Inside(sects, types, k, m))
  {
    hide WellNested;
    NestedSizes(sects, types);
    if m > 0 {
      InsideShrinks(sects, types, k, m - 1);
      if IsList(types[m - 1]) {
        ListInside(sects, types, Inside(sects, types, k, m - 1), m - 1);
      }
    }
  }

  lemma NestedSizes(sects: seq<Sect>, types: seq<nat>)
    requires WellNested(sects, types)
    ensures |sects| == |types|
    ensures forall i :: 0 <= i < |types| && IsList(types[i]) ==> End(sects, i) < |sects|
  {
  }

  lemma {:induction false} LiveInsideAt(sects: seq<Sect>, types: seq<nat>, k: nat, m: nat, e: nat)
    requires m <= |sects| == |types| && k <= e
    ensures Live(sects, Inside(sects, types, k, m), e) == Inside(sects, types, e, m)
  {
    hide *;
    if m > 0 {
      LiveInsideAt(sects, types, k, m - 1, e);
      LiveInsideStep(sects, types, k, m - 1, e);
    } else {
      InsideNone(sects, types, k);
      InsideNone(sects, types, e);
      LiveNone(sects, e);
    }
  }

  lemma LiveInsideStep(sects: seq<Sect>, types: seq<nat>, k: nat, m: nat, e: nat)
    requires m < |sects| == |types| && k <= e
    requires Live(sects, Inside(sects, types, k, m), e) == Inside(sects, types, e, m)
    ensures Live(sects, Inside(sects, types, k, m + 1), e) == Inside(sects, types, e, m + 1)
  {
    hide *;
    InsideStep(sects, types, k, m);
    InsideStep(sects, types, e, m);
    if IsList(types[m]) && End(sects, m) >= k {
      LiveSnoc(sects, Inside(sects, types, k, m), m, e);
    }
  }

  /** No list from token n on reaches token k, exactly when the lists around k all began before n. */
  lemma {:induction false} InsideGap(sects: seq<Sect>, types: seq<nat>, k: nat, n: nat, m: nat)
    requires n <= m <= |sects| == |types|
    ensures |Inside(sects, types, k, n)| <= |Inside(sects, types, k, m)|
    ensures |Inside(sects, types, k, n)| == |Inside(sects, types, k, m)|
       <==> (forall i :: n <= i < m ==> !(IsList(types[i]) && End(sects, i) >= k))
    ensures |Inside(sects, types, k, n)| == |Inside(sects, types, k, m)| ==>
      Inside(sects, types, k, n) == Inside(sects, types, k, m)
  {
    if n < m {
      InsideGap(sects, types, k, n, m - 1);
    }
  }

  /** Inside list i every list ends where i does or before. */
  lemma ListsInside(sects: seq<Sect>, types: seq<nat>, e: nat, lists: seq<nat>, depth: nat)
    requires WellNested(sects, types) && depth <= |lists| && e <= |sects|
    requires depth == 0 ==> e == |sects|
    requires depth > 0 ==> lists[depth - 1] < e && IsList(types[lists[depth - 1]]) && End(sects, lists[depth - 1]) + 1 == e
    ensures forall i :: (if depth == 0 then 0 else lists[depth - 1]) <= i < e && IsList(types[i]) ==> End(sects, i) < e
  {
  }

  /** Leaving the lists that end at a token leaves those around the next one. */
  lemma StackFollows(sects: seq<Sect>, types: seq<nat>, num: nat)
    requires num <= |sects| == |types|
    ensures forall j :: 0 <= j < |Stack(sects, types, num)| ==> Stack(sects, types, num)[j] < |sects|
    ensures Live(sects, Stack(sects, types, num), num) == Enclosing(sects, types, num)
  {
    hide *;
    StackIs(sects, types, num);
    EnclosingIs(sects, types, num);
    if num > 0 {
      var r := Inside(sects, types, num - 1, num - 1);
      LiveInsideAt(sects, types, num - 1, num - 1, num);
      InsideStep(sects, types, num, num - 1);
      if IsList(types[num - 1]) {
        LiveSnoc(sects, r, num - 1, num);
      }
    } else {
      InsideNone(sects, types, 0);
      LiveNone(sects, 0);
    }
  }

  lemma EnclosingIs(sects: seq<Sect>, types: seq<nat>, k: nat)
    requires k <= |sects| == |types|
    ensures Enclosing(sects, types, k) == Inside(sects, types, k, k)
  {
  }

  lemma StackIs(sects: seq<Sect>, types: seq<nat>, num: nat)
    requires num <= |sects| == |types|
    ensures num == 0 ==> Stack(sects, types, num) == []
    ensures num > 0 && IsList(types[num - 1]) ==>
              Stack(sects, types, num) == Inside(sects, types, num - 1, num - 1) + [num - 1]
    ensures num > 0 && !IsList(types[num - 1]) ==> Stack(sects, types, num) == Inside(sects, types, num - 1, num - 1)
    ensures forall j :: 0 <= j < |Stack(sects, types, num)| ==> Stack(sects, types, num)[j] < |sects|
  {
    hide Inside, End, IsList;
  }

  lemma InsideStep(sects: seq<Sect>, types: seq<nat>, k: nat, m: nat)
    requires m < |sects| == |types|
    ensures Inside(sects, types, k, m + 1)
         == if IsList(types[m]) && End(sects, m) >= k then Inside(sects, types, k, m) + [m] else Inside(sects, types, k, m)
  {
  }

  lemma InsideNone(sects: seq<Sect>, types: seq<nat>, k: nat)
    requires |sects| == |types|
    ensures Inside(sects, types, k, 0) == []
  {
  }

  lemma LiveNone(sects: seq<Sect>, k: nat)
    ensures Live(sects, [], k) == []
  {
  }

  lemma LiveSnoc(sects: seq<Sect>, lists: seq<nat>, x: nat, k: nat)
    requires x < |sects| && forall j :: 0 <= j < |lists| ==> lists[j] < |sects|
    ensures Live(sects, lists + [x], k) == if End(sects, x) >= k then Live(sects, lists, k) + [x] else Live(sects, lists, k)
  {
    assert (lists + [x])[..|lists|] == lists;
  }

  lemma {:induction false} AllLive(sects: seq<Sect>, lists: seq<nat>, k: nat)
    requires Shrinking(sects, lists)
    requires lists == [] || End(sects, lists[|lists| - 1]) >= k
    ensures Live(sects, lists, k) == lists
  {
    hide Live, End;
    LiveStep(sects, lists, k);
    if lists != [] {
      var n := |lists| - 1;
      if n > 0 {
        assert End(sects, lists[n - 1]) >= End(sects, lists[n]);
      }
      AllLive(sects, lists[..n], k);
    }
  }

  lemma ShrinkingNone(sects: seq<Sect>)
    ensures Shrinking(sects, [])
  {
  }

  lemma ShrinkingEnds(sects: seq<Sect>, lists: seq<nat>)
    requires Shrinking(sects, lists)
    ensures forall j :: 0 <= j < |lists| ==> lists[j] < |sects| && End(sects, lists[j]) >= End(sects, lists[|lists| - 1])
  {
  }

  lemma LiveDrop(sects: seq<Sect>, lists: seq<nat>, k: nat)
    requires Shrinking(sects, lists) && lists != [] && End(sects, lists[|lists| - 1]) < k
    ensures Live(sects, lists, k) == Live(sects, lists[..|lists| - 1], k)
    ensures Shrinking(sects, lists[..|lists| - 1])
  {
  }

  lemma StackFits(sects: seq<Sect>, types: seq<nat>, num: nat)
    requires WellNested(sects, types) && Shallow(sects, types) && num <= |sects|
    ensures |Stack(sects, types, num)| <= LIST_DEPTH_SZ
  {
    hide Inside, Nesting, End, WellNested, Stack, Shallow, IsList;
    NestedSizes(sects, types);
    StackIs(sects, types, num);
    if num > 0 {
      InsideIsNesting(sects, types, num - 1, num - 1);
      ShallowAt(sects, types, num - 1);
    }
  }

  lemma ShallowAt(sects: seq<Sect>, types: seq<nat>, k: nat)
    requires |sects| == |types| && Shallow(sects, types) && k < |sects|
    ensures Nesting(sects, types, k, k) + (if IsList(types[k]) then 1 else 0) <= LIST_DEPTH_SZ
  {
    hide Nesting;
  }

  lemma {:induction false} LiveLive(sects: seq<Sect>, lists: seq<nat>, k: nat, e: nat)
    requires forall j :: 0 <= j < |lists| ==> lists[j] < |sects|
    requires k <= e
    ensures Live(sects, Live(sects, lists, k), e) == Live(sects, lists, e)
  {
    hide Live;
    LiveStep(sects, lists, k);
    LiveStep(sects, lists, e);
    if lists != [] {
      var n := |lists| - 1;
      LiveLive(sects, lists[..n], k, e);
      LiveSnoc(sects, Live(sects, lists[..n], k), lists[n], e);
    } else {
      LiveNone(sects, e);
    }
  }

  lemma LiveStep(sects: seq<Sect>, lists: seq<nat>, k: nat)
    requires forall j :: 0 <= j < |lists| ==> lists[j] < |sects|
    ensures lists == [] ==> Live(sects, lists, k) == []
    ensures lists != [] ==>
      var n := |lists| - 1; var r := Live(sects, lists[..n], k);
      Live(sects, lists, k) == if End(sects, lists[n]) >= k then r + [lists[n]] else r
  {
  }

  /** A path is made of lists that have begun and not ended at token number num. */
  ghost predicate OnPath(sects: seq<Sect>, types: seq<nat>, path: seq<nat>, num: nat)
    requires |sects| == |types|
  {
    forall j :: 0 <= j < |path| ==>
      path[j] < num && path[j] < |sects| && IsList(types[path[j]]) && End(sects, path[j]) + 1 >= num
  }

  lemma OnPathLive(sects: seq<Sect>, types: seq<nat>, path: seq<nat>, n: nat, num: nat)
    requires |sects| == |types| && n - 1 <= num < |sects| && OnPath(sects, types, path, n)
    ensures forall j :: 0 <= j < |path| ==> path[j] < |sects|
    ensures var live := Live(sects, path, num);
            OnPath(sects, types, if IsList(types[num]) then live + [num] else live, num + 1)
  {
    hide Live;
    var live := Live(sects, path, num);
    forall j | 0 <= j < |live|
      ensures live[j] < n && IsList(types[live[j]]) && End(sects, live[j]) >= num
    {
      LiveFrom(sects, path, num, j);
    }
  }

  lemma {:induction false} LiveFrom(sects: seq<Sect>, lists: seq<nat>, k: nat, j: nat)
    requires forall j :: 0 <= j < |lists| ==> lists[j] < |sects|
    requires j < |Live(sects, lists, k)|
    ensures Live(sects, lists, k)[j] in lists && End(sects, Live(sects, lists, k)[j]) >= k
  {
    var n := |lists| - 1;
    if j < |Live(sects, lists[..n], k)| {
      LiveFrom(sects, lists[..n], k, j);
    }
  }

  lemma {:induction false} LiveShrinks(sects: seq<Sect>, lists: seq<nat>, k: nat)
    requires Shrinking(sects, lists)
    ensures Shrinking(sects, Live(sects, lists, k))
    ensures forall j :: 0 <= j < |Live(sects, lists, k)| ==> End(sects, Live(sects, lists, k)[j]) >= k
  {
    if lists != [] {
      var n := |lists| - 1;
      LiveShrinks(sects, lists[..n], k);
      forall j | 0 <= j < |Live(sects, lists[..n], k)|
        ensures End(sects, lists[n]) <= End(sects, Live(sects, lists[..n], k)[j])
      {
        LiveFrom(sects, lists[..n], k, j);
      }
    }
  }

  /** Going on to the next token: the path becomes its stack, and follows from there. */
  lemma NextFollows(sects: seq<Sect>, types: seq<nat>, path: seq<nat>, num: nat)
    requires WellNested(sects, types) && Shallow(sects, types) && num < |sects|
    requires OnPath(sects, types, path, num) && Live(sects, path, num) == Enclosing(sects, types, num)
    ensures var live := Live(sects, path, num);
            var path' := if IsList(types[num]) then live + [num] else live;
            && |path'| <= LIST_DEPTH_SZ
            && path' == Stack(sects, types, num + 1)
            && |live| == |Enclosing(sects, types, num)|
            && (forall j :: 0 <= j < |path| ==> path[j] < |sects|)
            && Shrinking(sects, path')
            && OnPath(sects, types, path', num + 1)
            && Live(sects, path', num + 1) == Enclosing(sects, types, num + 1)
  {
    hide Shrinking, Live, WellNested, Shallow, Inside, OnPath;
    NestedSizes(sects, types);
    OnPathLive(sects, types, path, num, num);
    StackShrinks(sects, types, num);
    StackFits(sects, types, num + 1);
    StackFollows(sects, types, num + 1);
  }

  lemma StackShrinks(sects: seq<Sect>, types: seq<nat>, num: nat)
    requires WellNested(sects, types) && num < |sects|
    ensures Shrinking(sects, Stack(sects, types, num + 1))
  {
    hide Shrinking, WellNested, Inside;
    NestedSizes(sects, types);
    InsideShrinks(sects, types, num, num);
    if IsList(types[num]) {
      ListInside(sects, types, Enclosing(sects, types, num), num);
    }
  }

  /** A list of the path ends at token number e, or e is the number of all tokens. */
  ghost predicate EndsAt(sects: seq<Sect>, path: seq<nat>, depth: nat, e: nat) {
    && depth <= |path|
    && (depth > 0 ==> path[depth - 1] < |sects|)
    && e == if depth == 0 then |sects| else End(sects, path[depth - 1]) + 1
  }

  ghost predicate Walking(sects: seq<Sect>, types: seq<nat>, path: seq<nat>, n: nat) {
    && |sects| == |types|
    && Shrinking(sects, path)
    && n <= |sects|
    && OnPath(sects, types, path, n)
    && Live(sects, path, n) == Enclosing(sects, types, n)
  }

  /** No list that begins after token number n and before its end goes on after it. */
  lemma EndGap(sects: seq<Sect>, types: seq<nat>, path: seq<nat>, n: nat, e: nat, depth: nat)
    requires WellNested(sects, types) && 0 < n <= e <= |sects|
    requires OnPath(sects, types, path, n) && EndsAt(sects, path, depth, e)
    ensures forall i :: n - 1 <= i < e && IsList(types[i]) ==> End(sects, i) < e
  {
    ListsInside(sects, types, e, path, depth);
  }

  lemma LiveEnclosing(sects: seq<Sect>, types: seq<nat>, n: nat, k: nat)
    requires n <= k <= |sects| == |types|
    ensures forall j :: 0 <= j < |Enclosing(sects, types, n)| ==> Enclosing(sects, types, n)[j] < |sects|
    ensures |Live(sects, Enclosing(sects, types, n), k)| <= |Enclosing(sects, types, k)|
  {
    hide Live, Inside;
    LiveInsideAt(sects, types, n, n, k);
    InsideGap(sects, types, k, n, k);
  }

  lemma StackSize(sects: seq<Sect>, types: seq<nat>, num: nat)
    requires 0 < num <= |sects| == |types|
    ensures |Stack(sects, types, num)| == |Enclosing(sects, types, num - 1)| + if IsList(types[num - 1]) then 1 else 0
  {
  }

  /** Going to the end of a list: the path left then. */
  ghost function EndPath(sects: seq<Sect>, types: seq<nat>, path: seq<nat>, e: nat): (r: seq<nat>)
    requires 0 < e <= |sects| == |types|
    requires forall j :: 0 <= j < |path| ==> path[j] < |sects|
    ensures forall j :: 0 <= j < |r| ==> r[j] < |sects|
  {
    if IsList(types[e - 1]) then Live(sects, path, e - 1) + [e - 1] else Live(sects, path, e - 1)
  }

  lemma EndFollows(sects: seq<Sect>, types: seq<nat>, path: seq<nat>, n: nat, e: nat, depth: nat)
    requires WellNested(sects, types) && 0 < n <= e <= |sects|
    requires Walking(sects, types, path, n) && EndsAt(sects, path, depth, e)
    ensures Live(sects, EndPath(sects, types, path, e), e) == Enclosing(sects, types, e)
  {
    hide *;
    WalkingIs(sects, types, path, n);
    GapIs(sects, types, path, n, e, depth);
    LiveLive(sects, path, e - 1, e);
    LiveLive(sects, path, n, e);
    EnclosingIs(sects, types, n);
    EnclosingIs(sects, types, e);
    LiveInsideAt(sects, types, n, n, e);
    EndPathIs(sects, types, path, e);
    if IsList(types[e - 1]) {
      LiveSnoc(sects, Live(sects, path, e - 1), e - 1, e);
    }
  }

  lemma WalkingIs(sects: seq<Sect>, types: seq<nat>, path: seq<nat>, n: nat)
    requires Walking(sects, types, path, n)
    ensures |sects| == |types| && n <= |sects| && OnPath(sects, types, path, n) && Shrinking(sects, path)
    ensures (forall j :: 0 <= j < |path| ==> path[j] < |sects|) && Live(sects, path, n) == Enclosing(sects, types, n)
  {
    hide Live, Enclosing;
  }

  lemma GapIs(sects: seq<Sect>, types: seq<nat>, path: seq<nat>, n: nat, e: nat, depth: nat)
    requires |sects| == |types| && WellNested(sects, types) && 0 < n <= e <= |sects|
    requires OnPath(sects, types, path, n) && EndsAt(sects, path, depth, e)
    ensures Inside(sects, types, e, n) == Inside(sects, types, e, e)
    ensures IsList(types[e - 1]) ==> End(sects, e - 1) < e
  {
    hide Inside, IsList, End, WellNested, OnPath, EndsAt;
    EndGap(sects, types, path, n, e, depth);
    InsideGap(sects, types, e, n, e);
  }

  lemma EndPathIs(sects: seq<Sect>, types: seq<nat>, path: seq<nat>, e: nat)
    requires 0 < e <= |sects| == |types| && forall j :: 0 <= j < |path| ==> path[j] < |sects|
    ensures EndPath(sects, types, path, e) ==
      if IsList(types[e - 1]) then Live(sects, path, e - 1) + [e - 1] else Live(sects, path, e - 1)
  {
    hide Live, IsList;
  }

  lemma EndWalks(sects: seq<Sect>, types: seq<nat>, path: seq<nat>, n: nat, e: nat, depth: nat)
    requires WellNested(sects, types) && 0 < n <= e <= |sects|
    requires Walking(sects, types, path, n) && EndsAt(sects, path, depth, e)
    ensures Walking(sects, types, EndPath(sects, types, path, e), e)
  {
    hide *;
    WalkingIs(sects, types, path, n);
    EndPathIs(sects, types, path, e);
    EndFollows(sects, types, path, n, e, depth);
    OnPathLive(sects, types, path, n, e - 1);
    LiveShrinks(sects, path, e - 1);
    if IsList(types[e - 1]) {
      GapIs(sects, types, path, n, e, depth);
      ShrinkingMore(sects, Live(sects, path, e - 1), e - 1);
    }
    WalkingOf(sects, types, EndPath(sects, types, path, e), e);
  }

  lemma WalkingOf(sects: seq<Sect>, types: seq<nat>, path: seq<nat>, n: nat)
    requires |sects| == |types| && n <= |sects| && Shrinking(sects, path) && OnPath(sects, types, path, n)
    requires forall j :: 0 <= j < |path| ==> path[j] < |sects|
    requires Live(sects, path, n) == Enclosing(sects, types, n)
    ensures Walking(sects, types, path, n)
  {
  }

  lemma ShrinkingMore(sects: seq<Sect>, lists: seq<nat>, i: nat)
    requires Shrinking(sects, lists) && i < |sects|
    requires forall j :: 0 <= j < |lists| ==> End(sects, lists[j]) >= End(sects, i)
    ensures Shrinking(sects, lists + [i])
  {
  }

  lemma EndFits(sects: seq<Sect>, types: seq<nat>, path: seq<nat>, n: nat, e: nat)
    requires |sects| == |types| && WellNested(sects, types) && Shallow(sects, types) && 0 < n < e <= |sects|
    requires forall j :: 0 <= j < |path| ==> path[j] < |sects|
    requires Live(sects, path, n) == Enclosing(sects, types, n)
    ensures |EndPath(sects, types, path, e)| <= LIST_DEPTH_SZ
  {
    hide Live, Inside, WellNested, Shallow, Stack, Enclosing;
    NestedSizes(sects, types);
    LiveLive(sects, path, n, e - 1);
    LiveEnclosing(sects, types, n, e - 1);
    StackFits(sects, types, e);
    StackSize(sects, types, e);
  }

  /** What going there needs of the path, and what the path is then. */
  lemma EndReady(sects: seq<Sect>, types: seq<nat>, path: seq<nat>, n: nat, e: nat, depth: nat)
    requires WellNested(sects, types) && Shallow(sects, types) && Walking(sects, types, path, n)
    requires 0 < n <= e <= |sects| && EndsAt(sects, path, depth, e) && |path| <= LIST_DEPTH_SZ
    requires n == e && IsList(types[e - 1]) ==> |path| < LIST_DEPTH_SZ
    ensures forall j :: 0 <= j < |path| ==> path[j] < |sects|
    ensures var p := EndPath(sects, types, path, e); var live := Live(sects, path, e - 1);
      && p == (if IsList(types[e - 1]) then live + [e - 1] else live)
      && (IsList(types[e - 1]) ==> |live| < LIST_DEPTH_SZ)
      && Shrinking(sects, p) && OnPath(sects, types, p, e) && Live(sects, p, e) == Enclosing(sects, types, e)
  {
    hide Live, WellNested, Shallow, Inside, EndsAt, Enclosing;
    EndRoom(sects, types, path, n);
    if n < e {
      EndFits(sects, types, path, n, e);
    }
    EndWalks(sects, types, path, n, e, depth);
  }

  /** Going to the last token e of a list from token n: the depth reported for e is right exactly when no
    list that begins after n contains e, and when e is n itself, exactly when it is not a list. */
  lemma EndDepth(sects: seq<Sect>, types: seq<nat>, n: nat, e: nat)
    requires |sects| == |types| && WellNested(sects, types) && 0 < n <= e <= |sects|
    ensures forall j :: 0 <= j < |Stack(sects, types, n)| ==> Stack(sects, types, n)[j] < |sects|
    ensures var reported := |EndPath(sects, types, Stack(sects, types, n), e)| - if IsList(types[e - 1]) then 1 else 0;
            reported == |Enclosing(sects, types, e - 1)| <==>
              if e > n then forall i :: n <= i < e - 1 && IsList(types[i]) ==> End(sects, i) < e - 1
              else !IsList(types[n - 1])
  {
    hide Live, Inside, WellNested;
    NestedSizes(sects, types);
    StackFollows(sects, types, n);
    if e > n {
      LiveLive(sects, Stack(sects, types, n), n, e - 1);
      LiveInsideAt(sects, types, n, n, e - 1);
      InsideGap(sects, types, e - 1, n, e - 1);
    } else {
      LiveInsideAt(sects, types, n - 1, n - 1, n - 1);
      if IsList(types[n - 1]) {
        LiveSnoc(sects, Enclosing(sects, types, n - 1), n - 1, n - 1);
      }
    }
  }

  /** A list in a list: going to the end of the outer one from its start, its last token is reported with the
    depth of the outer list, though it is in the inner one too. */
  lemma EndDepthWrong()
    ensures var sects, types := [Sect(1, 2), Sect(2, 1), Sect(3, 1)], [TYPE_CLIST, TYPE_CLIST, TYPE_SYMBOL];
      && WellNested(sects, types) && EndsAt(sects, Stack(sects, types, 1), 1, 3)
      && |EndPath(sects, types, Stack(sects, types, 1), 3)| == 1 && |Enclosing(sects, types, 2)| == 2
  {
    hide Live, Inside, WellNested, Stack, Enclosing, EndPath;
    var sects, types := [Sect(1, 2), Sect(2, 1), Sect(3, 1)], [TYPE_CLIST, TYPE_CLIST, TYPE_SYMBOL];
    TwoListsNest(sects, types);
    TwoListsEnd(sects, types);
  }

  lemma TwoListsEnd(sects: seq<Sect>, types: seq<nat>)
    requires |sects| == |types| == 3 && IsList(types[0]) && IsList(types[1]) && !IsList(types[2])
    requires End(sects, 0) == End(sects, 1) == 2
    ensures Stack(sects, types, 1) == [0] && |Enclosing(sects, types, 2)| == 2
    ensures |EndPath(sects, types, [0], 3)| == 1
  {
    hide *;
    StackIs(sects, types, 1);
    InsideNone(sects, types, 0);
    InsideTwo(sects, types);
    OneStays(sects, types);
  }

  lemma InsideTwo(sects: seq<Sect>, types: seq<nat>)
    requires |sects| == |types| == 3 && IsList(types[0]) && IsList(types[1]) && End(sects, 0) == End(sects, 1) == 2
    ensures |Enclosing(sects, types, 2)| == 2
  {
    hide Inside, IsList, End;
    InsideNone(sects, types, 2);
    InsideStep(sects, types, 2, 0);
    InsideStep(sects, types, 2, 1);
  }

  lemma OneStays(sects: seq<Sect>, types: seq<nat>)
    requires |sects| == |types| == 3 && !IsList(types[2]) && End(sects, 0) == 2
    ensures |EndPath(sects, types, [0], 3)| == 1
  {
    hide Live, IsList, End;
    LiveNone(sects, 2);
    LiveStep(sects, [0], 2);
    assert [0][..0] == [];
  }

  lemma TwoListsNest(sects: seq<Sect>, types: seq<nat>)
    requires sects == [Sect(1, 2), Sect(2, 1), Sect(3, 1)] && types == [TYPE_CLIST, TYPE_CLIST, TYPE_SYMBOL]
    ensures WellNested(sects, types)
  {
  }

  lemma {:induction false} EndRoom(sects: seq<Sect>, types: seq<nat>, path: seq<nat>, n: nat)
    requires |sects| == |types| && n > 0 && Shrinking(sects, path)
    requires OnPath(sects, types, path, n)
    ensures Live(sects, path, n - 1) == path
  {
    AllLive(sects, path, n - 1);
  }

  /** Going to the end of a list from its own last token, when that token is a list: it is entered again,
    though it has not been left. */
  lemma EndAgain(sects: seq<Sect>, types: seq<nat>, path: seq<nat>, n: nat)
    requires Walking(sects, types, path, n) && n > 0 && IsList(types[n - 1])
    ensures EndPath(sects, types, path, n) == path + [n - 1]
  {
    hide Live, Inside, Shrinking, OnPath;
    EndRoom(sects, types, path, n);
  }

  /** Going to the end of a list so many times. */
  ghost function EndTimes(sects: seq<Sect>, types: seq<nat>, path: seq<nat>, e: nat, times: nat): seq<nat>
    requires 0 < e <= |sects| == |types|
    requires forall j :: 0 <= j < |path| ==> path[j] < |sects|
    decreases times
  {
    if times == 0 then path else EndTimes(sects, types, EndPath(sects, types, path, e), e, times - 1)
  }

  /** Nothing else changes, so the stack grows by one each time, from any depth. */
  lemma {:induction false} EndGrows(sects: seq<Sect>, types: seq<nat>, path: seq<nat>, n: nat, depth: nat, times: nat)
    requires WellNested(sects, types) && Walking(sects, types, path, n) && n > 0 && IsList(types[n - 1])
    requires EndsAt(sects, path, depth, n)
    ensures forall j :: 0 <= j < |path| ==> path[j] < |sects|
    ensures var r := EndTimes(sects, types, path, n, times);
            |r| == |path| + times && Walking(sects, types, r, n) && EndsAt(sects, r, depth, n)
    decreases times
  {
    hide Live, Inside, WellNested, EndPath;
    if times > 0 {
      EndWalks(sects, types, path, n, n, depth);
      EndAgain(sects, types, path, n);
      hide Shrinking, OnPath;
      EndGrows(sects, types, path + [n - 1], n, depth, times - 1);
    }
  }

  /** The stack has room for going to the end of a list exactly when the current token is not a list that
    ends there, or there is room for one list more. */
  lemma EndFitsIff(sects: seq<Sect>, types: seq<nat>, path: seq<nat>, n: nat, e: nat, depth: nat)
    requires WellNested(sects, types) && Shallow(sects, types) && Walking(sects, types, path, n)
    requires 0 < n <= e <= |sects| && EndsAt(sects, path, depth, e) && |path| <= LIST_DEPTH_SZ
    ensures (forall j :: 0 <= j < |path| ==> path[j] < |sects|)
         && (|EndPath(sects, types, path, e)| <= LIST_DEPTH_SZ <==>
               !(n == e && IsList(types[n - 1])) || |path| < LIST_DEPTH_SZ)
  {
    hide Live, Inside, Shallow;
    if n < e {
      EndFits(sects, types, path, n, e);
    } else if IsList(types[n - 1]) {
      EndAgain(sects, types, path, n);
    } else {
      EndRoom(sects, types, path, n);
    }
  }

  /** As many lists as there may be, each inside the one before, the last one empty. */
  function DeepSects(): seq<Sect> {
    seq(LIST_DEPTH_SZ, i requires 0 <= i < LIST_DEPTH_SZ => Sect(i + 1, LIST_DEPTH_SZ - 1 - i))
  }

  function DeepTypes(): seq<nat> {
    seq(LIST_DEPTH_SZ, _ => TYPE_CLIST)
  }

  lemma {:induction false} DeepInside(k: nat, m: nat)
    requires m <= LIST_DEPTH_SZ && k < LIST_DEPTH_SZ
    ensures |Inside(DeepSects(), DeepTypes(), k, m)| == m
  {
    if m > 0 {
      DeepInside(k, m - 1);
    }
  }

  /** The stack has no room for the end of the innermost of them, once its first token has been read. */
  lemma EndOverruns()
    ensures var sects, types, n := DeepSects(), DeepTypes(), LIST_DEPTH_SZ;
      && WellNested(sects, types) && Shallow(sects, types) && Walking(sects, types, Stack(sects, types, n), n)
      && EndsAt(sects, Stack(sects, types, n), LIST_DEPTH_SZ, n)
      && |Stack(sects, types, n)| == LIST_DEPTH_SZ && |EndPath(sects, types, Stack(sects, types, n), n)| == LIST_DEPTH_SZ + 1
  {
    hide Live, Inside, Nesting, Shrinking, OnPath;
    var sects, types, n := DeepSects(), DeepTypes(), LIST_DEPTH_SZ;
    forall k | 0 <= k < n
      ensures Nesting(sects, types, k, k) == k
    {
      InsideIsNesting(sects, types, k, k);
      DeepInside(k, k);
    }
    StackSize(sects, types, n);
    DeepInside(n - 1, n - 1);
    StackShrinks(sects, types, n - 1);
    StackFollows(sects, types, n);
    DeepOnPath();
    EndAgain(sects, types, Stack(sects, types, n), n);
  }

  lemma DeepOnPath()
    ensures OnPath(DeepSects(), DeepTypes(), Stack(DeepSects(), DeepTypes(), LIST_DEPTH_SZ), LIST_DEPTH_SZ)
  {
    hide Inside;
  }

  /** What a walk reports of a token: its number, its depth and what it is. */
  datatype Visit = Visit(num: nat, depth: nat, typ: nat, sect: Sect)

  class Token {
    var typ: nat
    var num: nat
    var depthNum: nat
    var depthNums: array<nat>
    var node: Sect
    var listNum: nat
    var uvalNum: nat
    /** The lists whose ends are on the stack. */
    ghost var path: seq<nat>

    /** CONF_TOKEN_INIT */
    constructor (sects: seq<Sect>, types: seq<nat>)
      requires |sects| == |types| < UINT_MAX
      ensures num == 0 && depthNum == 0 && Exact(sects, types) && fresh(depthNums)
    {
      typ, num, depthNum, node, listNum, uvalNum := TYPE_ERR, 0, 0, Sect(0, 0), 0, 0;
      depthNums := new nat[LIST_DEPTH_SZ + 1](_ => 0);
      path := [];
    }

    /** The stack holds the ends of the lists of the path, above the number of all tokens. */
    ghost predicate OnStack(sects: seq<Sect>)
      reads this, depthNums
    {
      && depthNums.Length == LIST_DEPTH_SZ + 1
      && depthNum == |path| <= LIST_DEPTH_SZ
      && depthNums[0] == |sects|
      && Shrinking(sects, path)
      && (forall j :: 0 <= j < |path| ==> depthNums[j + 1] == End(sects, path[j]) + 1)
    }

    /** The path is made of lists that have begun and not ended. */
    ghost predicate Tracks(sects: seq<Sect>, types: seq<nat>)
      reads this, depthNums
    {
      && depthNums.Length == LIST_DEPTH_SZ + 1
      && num <= |sects| == |types| < UINT_MAX
      && (num == 0 ==> path == [] && depthNum == 0 && depthNums[0] == 0)
      && (num > 0 ==> OnStack(sects))
      && OnPath(sects, types, path, num)
    }

    /** As far as later tokens are concerned the path is right. */
    ghost predicate Follows(sects: seq<Sect>, types: seq<nat>)
      reads this, depthNums
    {
      Tracks(sects, types) && Live(sects, path, num) == Enclosing(sects, types, num)
    }

    /** The path is the lists around the current token, and that token if it is a list. */
    ghost predicate Exact(sects: seq<Sect>, types: seq<nat>)
      reads this, depthNums
    {
      && Tracks(sects, types)
      && path == Stack(sects, types, num)
      && (num > 0 ==> typ == types[num - 1])
    }

    /** conf_token_at_depth */
    function AtDepth(): nat
      reads this
      requires IsList(typ) ==> depthNum > 0
    {
      if IsList(typ) then depthNum - 1 else depthNum
    }

    /** The loop of conf_parse_token that leaves the lists that have ended. */
    method LeaveLists(sects: seq<Sect>)
      requires OnStack(sects) && 0 < num <= |sects|
      modifies this`depthNum, this`path
      ensures OnStack(sects) && path == Live(sects, old(path), num - 1)
      ensures |path| <= |old(path)| && forall j :: 0 <= j < |path| ==> path[j] == old(path)[j] && End(sects, path[j]) + 1 >= num
    {
      hide Live;
      while depthNums[depthNum] < num
        invariant OnStack(sects) && Live(sects, path, num - 1) == Live(sects, old(path), num - 1)
        invariant |path| <= |old(path)| && forall j :: 0 <= j < |path| ==> path[j] == old(path)[j]
        decreases depthNum
      {
        LiveDrop(sects, path, num - 1);
        depthNum := depthNum - 1;
        path := path[..depthNum];
      }
      AllLive(sects, path, num - 1);
      ShrinkingEnds(sects, path);
    }

    method EnterList(sects: seq<Sect>)
      requires OnStack(sects) && 0 < num <= |sects| && |path| < LIST_DEPTH_SZ
      requires listNum == sects[num - 1].len && Shrinking(sects, path + [num - 1])
      modifies this`depthNum, this`path, depthNums
      ensures OnStack(sects) && path == old(path) + [num - 1]
    {
      depthNum := depthNum + 1;
      depthNums[depthNum] := num + listNum;
      path := path + [num - 1];
    }

    /** The end of conf_parse_token: what the token is, and one more open list if it is one. */
    method Describe(sects: seq<Sect>, types: seq<nat>)
      requires OnStack(sects) && 0 < num <= |sects| == |types|
      requires IsList(types[num - 1]) ==> |path| < LIST_DEPTH_SZ && Shrinking(sects, path + [num - 1])
      modifies this`typ, this`node, this`listNum, this`uvalNum, this`depthNum, this`path, depthNums
      ensures OnStack(sects) && typ == types[num - 1]
      ensures path == if IsList(typ) then old(path) + [num - 1] else old(path)
      ensures IsList(typ) ==> listNum == sects[num - 1].len
      ensures TYPE_QUOTE_D <= typ <= TYPE_SYMBOL ==> node == sects[num - 1]
    {
      typ := types[num - 1];
      if TYPE_QUOTE_D <= typ <= TYPE_SYMBOL {
        node := sects[num - 1];
      } else if IsList(typ) {
        listNum := sects[num - 1].len;
        EnterList(sects);
      } else {
        uvalNum := sects[num - 1].pos;
      }
    }

    /** conf_parse_token: leaves the lists that have ended and enters the token if it is a list. */
    method ParseToken(sects: seq<Sect>, types: seq<nat>) returns (ok: bool)
      requires |sects| == |types| && depthNums.Length == LIST_DEPTH_SZ + 1
      requires (num == 0 && path == [] && depthNum == 0) || (num <= |sects| && OnStack(sects))
      requires num < |sects| && IsList(types[num]) ==>
        && (forall j :: 0 <= j < |path| ==> path[j] < |sects|)
        && |Live(sects, path, num)| < LIST_DEPTH_SZ
        && Shrinking(sects, Live(sects, path, num) + [num])
      modifies this, depthNums
      ensures depthNums == old(depthNums) && OnStack(sects)
      ensures ok == (old(num) < |sects|)
      ensures !ok ==> num == old(num) && typ == old(typ) && path == old(path)
      ensures ok ==> num == old(num) + 1 && typ == types[num - 1]
      ensures ok ==> && (forall j :: 0 <= j < |old(path)| ==> old(path)[j] < |sects|)
                     && var live := Live(sects, old(path), old(num)); path == if IsList(typ) then live + [num - 1] else live
      ensures ok && IsList(typ) ==> listNum == sects[num - 1].len
      ensures ok && TYPE_QUOTE_D <= typ <= TYPE_SYMBOL ==> node == sects[num - 1]
    {
      hide Shrinking, Live;
      if num == 0 {
        depthNums[0] := |sects|;
        ShrinkingNone(sects);
      }
      ShrinkingEnds(sects, path);
      if num >= |sects| {
        return false;
      }
      num := num + 1;
      LeaveLists(sects);
      Describe(sects, types);
      return true;
    }

    /** Once the path follows the lists, the next token has exactly the right one: the reported depth is
      the number of lists the token is inside. */
    method NextToken(sects: seq<Sect>, types: seq<nat>) returns (ok: bool)
      requires WellNested(sects, types) && Shallow(sects, types) && Follows(sects, types)
      modifies this, depthNums
      ensures depthNums == old(depthNums)
      ensures ok == (old(num) < |sects|)
      ensures !ok ==> num == old(num) && typ == old(typ) && path == old(path) && Follows(sects, types)
      ensures !ok && old(Exact(sects, types)) ==> Exact(sects, types)
      ensures ok ==> num == old(num) + 1 && Exact(sects, types) && Follows(sects, types)
      ensures ok ==> AtDepth() == |Enclosing(sects, types, num - 1)|
      ensures ok && IsList(typ) ==> listNum == sects[num - 1].len
      ensures ok && TYPE_QUOTE_D <= typ <= TYPE_SYMBOL ==> node == sects[num - 1]
    {
      hide Shrinking, Live, WellNested, Shallow, Inside, OnPath, Stack;
      if num < |sects| {
        NextFollows(sects, types, path, num);
      }
      ok := ParseToken(sects, types);
    }

    /** conf_token_list_num: what remains in the lists of the stack; before the first token, nothing. */
    method ListNum(sects: seq<Sect>, types: seq<nat>, depth: nat) returns (left: nat)
      requires Tracks(sects, types)
      ensures depth > depthNum || num == 0 ==> left == 0
      ensures num > 0 && depth == 0 ==> num + left == |sects|
      ensures 0 < depth <= depthNum ==> num + left == End(sects, path[depth - 1]) + 1
    {
      if depth > depthNum {
        return 0;
      }
      assert depth > 0 ==> End(sects, path[depth - 1]) + 1 >= num;
      return depthNums[depth] - num;
    }

    /** The rest of conf_parse_end_token, for a list that ends at token number e. */
    method GoTo(sects: seq<Sect>, types: seq<nat>, depth: nat, e: nat)
      requires WellNested(sects, types) && Shallow(sects, types) && Walking(sects, types, path, num)
      requires OnStack(sects) && |sects| < UINT_MAX
      requires 0 < num <= e <= |sects| && EndsAt(sects, path, depth, e)
      requires num == e && IsList(types[e - 1]) ==> depthNum < LIST_DEPTH_SZ
      modifies this, depthNums
      ensures depthNums == old(depthNums) && num == e && typ == types[e - 1] && Follows(sects, types)
      ensures (forall j :: 0 <= j < |old(path)| ==> old(path)[j] < |sects|)
           && path == EndPath(sects, types, old(path), e)
    {
      hide Live, WellNested, Shallow, Inside, EndsAt, Shrinking, OnPath, EndPath, Enclosing;
      EndReady(sects, types, path, num, e, depth);
      num := e - 1;
      var found := ParseToken(sects, types);
    }

    /** conf_parse_end_token: goes to the last token of the depth-th list of the stack, from where the walk
      goes on as it should. With nothing left in that list it describes the current token once more, and
      before the first token the number wraps round, after which there is no next token. When an empty list
      is described once more on a full stack, the code writes behind the stack: overrun says so. */
    method EndToken(sects: seq<Sect>, types: seq<nat>, depth: nat) returns (ok: bool, overrun: bool)
      requires WellNested(sects, types) && Shallow(sects, types) && Follows(sects, types)
      modifies this, depthNums
      ensures depthNums == old(depthNums)
      ensures depth > old(depthNum) ==> !ok && num == old(num) && path == old(path)
      ensures depth <= old(depthNum) && old(num) == 0 ==> !ok && num == UINT_MAX
      ensures overrun <==> depth <= old(depthNum) && old(num) > 0 && old(depthNums[depth]) == old(num) &&
                           IsList(types[old(num) - 1]) && old(depthNum) == LIST_DEPTH_SZ
      ensures depth <= old(depthNum) && old(num) > 0 && !overrun ==>
        var e := old(depthNums[depth]);
        && ok && num == e && 0 < e <= |sects| && typ == types[e - 1] && Follows(sects, types)
        && (forall j :: 0 <= j < |old(path)| ==> old(path)[j] < |sects|)
        && path == EndPath(sects, types, old(path), e)
    {
      hide Live, WellNested, Shallow, Inside, EndPath, Shrinking;
      ok, overrun := false, false;
      if depth > depthNum {
        return;
      }
      NestedSizes(sects, types);
      assert depth > 0 ==> End(sects, path[depth - 1]) + 1 >= num;
      if depthNums[depth] >= num {
        if depthNums[depth] == 0 {
          num := UINT_MAX;
          return;
        }
        if depthNums[depth] == num && IsList(types[num - 1]) && depthNum == LIST_DEPTH_SZ {
          overrun := true;
          return;
        }
        GoTo(sects, types, depth, depthNums[depth]);
        ok := true;
      }
    }

    /** conf_parse_num_token: goes on to token n. Asked for token 0 before the first one, the code looks at the
      type before the array: underrun says so. */
    method NumToken(sects: seq<Sect>, types: seq<nat>, n: nat) returns (ok: bool, underrun: bool)
      requires WellNested(sects, types) && Shallow(sects, types) && Exact(sects, types)
      modifies this, depthNums
      ensures depthNums == old(depthNums) && Exact(sects, types)
      ensures underrun <==> n == 0 && old(num) == 0
      ensures ok == (!underrun && old(num) <= n <= |sects|)
      ensures num == if n < old(num) then old(num) else if n <= |sects| then n else |sects|
    {
      hide Live, WellNested, Shallow, Inside, Stack;
      ok, underrun := false, false;
      if num == n {
        if n == 0 {
          underrun := true;
          return;
        }
        typ := types[num - 1];
        if IsList(typ) {
          listNum := sects[num - 1].len;
        } else if !(TYPE_QUOTE_D <= typ <= TYPE_SYMBOL) {
          uvalNum := sects[num - 1].pos;
        }
        ok := true;
        return;
      }
      if num > n {
        return;
      }
      StackFollows(sects, types, num);
      while num < n
        invariant depthNums == old(depthNums) && Exact(sects, types) && Follows(sects, types)
        invariant old(num) <= num <= n
        decreases n - num
      {
        ok := NextToken(sects, types);
        if !ok {
          return;
        }
      }
      ok := true;
    }
  }

  /** Reading all the tokens, as a caller of conf_parse_token does. */
  method Walk(sects: seq<Sect>, types: seq<nat>) returns (visits: seq<Visit>)
    requires WellNested(sects, types) && Shallow(sects, types) && |sects| < UINT_MAX
    ensures |visits| == |sects|
    ensures forall k :: 0 <= k < |sects| ==> visits[k] == Visit(k + 1, |Enclosing(sects, types, k)|, types[k], sects[k])
  {
    hide Live, WellNested, Shallow, Inside, Stack;
    NestedSizes(sects, types);
    var token := new Token(sects, types);
    StackFollows(sects, types, 0);
    visits := [];
    var ok := true;
    while ok
      invariant fresh(token) && fresh(token.depthNums) && token.Follows(sects, types)
      invariant |visits| == token.num <= |sects|
      invariant forall k :: 0 <= k < |visits| ==>
        visits[k] == Visit(k + 1, |Enclosing(sects, types, k)|, types[k], sects[k])
      invariant !ok ==> token.num == |sects|
      decreases |sects| - token.num, ok
    {
      ok := token.NextToken(sects, types);
      if ok {
        visits := visits + [Visit(token.num, token.AtDepth(), token.typ, sects[token.num - 1])];
      }
    }
  }
}
