/** ByeDPI's strategy groups (extend.c): the doubly linked list of groups that is reordered in
    place, and the retry machine of one client over it. */
module Groups {
  import opened Sequences

  datatype Auto = OnReconn | NoReconn | Sort

  /** A group; it is named by its id, which is also its bit in the masks.  Flag words are sets. */
  datatype Group = Group(detect: set<int>, auto: set<Auto>, pri: int, fails: int, prev: int, next: int)

  // ----- the list -----

  ghost predicate Linked(gs: seq<Group>, order: seq<int>, k: int) {
    && 0 <= k < |order| && 0 <= order[k] < |gs|
    && gs[order[k]].prev == At(order, k - 1) && gs[order[k]].next == At(order, k + 1)
  }

  /** The groups form a doubly linked list in the given order, which holds each of them once. */
  ghost predicate ListOk(gs: seq<Group>, order: seq<int>, head: int) {
    && |order| == |gs| > 0 && Distinct(order) && head == order[0]
    && (forall k :: 0 <= k < |order| ==> 0 <= order[k] < |gs|)
    && (forall x :: 0 <= x < |gs| ==> x in order)
    && (forall k :: 0 <= k < |order| ==> Linked(gs, order, k))
  }

  ghost function Swapped(s: seq<int>, i: int, j: int): (r: seq<int>)
    requires 0 <= i < |s| && 0 <= j < |s|
    ensures |r| == |s|
  {
    s[i := s[j]][j := s[i]]
  }

  /** What a position of the list asks for: it stays with the position. */
  ghost function Rule(g: Group): (set<int>, set<Auto>) { (g.detect, g.auto) }

  ghost function Rules(gs: seq<Group>, order: seq<int>): seq<(set<int>, set<Auto>)>
    requires forall k :: 0 <= k < |order| ==> 0 <= order[k] < |gs|
  {
    seq(|order|, k requires 0 <= k < |order| => Rule(gs[order[k]]))
  }

  /** The links swop_groups leaves behind, group by group: c and n have exchanged neighbours. */
  ghost function NextOf(gs: seq<Group>, c: int, n: int, x: int): int
    requires 0 <= c < |gs| && 0 <= n < |gs| && 0 <= x < |gs|
  {
    if x == c then gs[n].next
    else if x == n then (if gs[c].next == n then c else gs[c].next)
    else if x == gs[c].prev then n
    else if x == gs[n].prev then c
    else gs[x].next
  }

  ghost function PrevOf(gs: seq<Group>, c: int, n: int, x: int): int
    requires 0 <= c < |gs| && 0 <= n < |gs| && 0 <= x < |gs|
  {
    if x == n then gs[c].prev
    else if x == c then (if gs[c].next == n then n else gs[n].prev)
    else if x == gs[n].next then c
    else if x == gs[c].next then n
    else gs[x].prev
  }

  ghost predicate Swop(gs: seq<Group>, gs': seq<Group>, c: int, n: int) {
    && 0 <= c < |gs| == |gs'| && 0 <= n < |gs|
    && forall x :: 0 <= x < |gs| ==>
         gs'[x] == gs[x].(next := NextOf(gs, c, n, x), prev := PrevOf(gs, c, n, x),
                          detect := if x == c then gs[n].detect else if x == n then gs[c].detect else gs[x].detect,
                          auto := if x == c then gs[n].auto else if x == n then gs[c].auto else gs[x].auto)
  }

  lemma {:induction false} SwappedAt(s: seq<int>, i: int, j: int, k: int)
    requires 0 <= i < |s| && 0 <= j < |s|
    ensures At(Swapped(s, i, j), k) == if k == i then s[j] else if k == j then s[i] else At(s, k)
  {
  }

  lemma {:induction false} SwopLink(gs: seq<Group>, gs': seq<Group>, order: seq<int>, head: int, i: int, j: int, k: int)
    requires ListOk(gs, order, head) && 0 <= i < j < |order| && 0 <= k < |order| && Swop(gs, gs', order[i], order[j])
    ensures Linked(gs', Swapped(order, i, j), k)
  {
    var m := if k == i then j else if k == j then i else k;
    assert Linked(gs, order, i) && Linked(gs, order, j) && Linked(gs, order, m);
    SwappedAt(order, i, j, k);
    SwappedAt(order, i, j, k - 1);
    SwappedAt(order, i, j, k + 1);
    assert Swapped(order, i, j)[k] == order[m];
  }

  /** The list after swop_groups is the old one with two positions exchanged; what the positions
      ask for is unchanged. */
  lemma {:induction false} SwopExchanges(gs: seq<Group>, gs': seq<Group>, order: seq<int>, head: int, i: int, j: int)
    requires ListOk(gs, order, head) && 0 <= i < j < |order| && Swop(gs, gs', order[i], order[j])
    ensures ListOk(gs', Swapped(order, i, j), if head == order[i] then order[j] else head)
    ensures Rules(gs', Swapped(order, i, j)) == Rules(gs, order)
  {
    var r := Swapped(order, i, j);
    forall k | 0 <= k < |r| ensures Linked(gs', r, k) { SwopLink(gs, gs', order, head, i, j, k); }
    forall x | 0 <= x < |gs| ensures x in r {
      assert x in order;
      var k :| 0 <= k < |order| && order[k] == x;
      assert r[if k == i then j else if k == j then i else k] == x;
    }
  }

  /** The entries after the assignments of swop_groups, in their order. */
  ghost function AfterSwop(gs: seq<Group>, c: int, n: int): seq<Group>
    requires 0 <= c < |gs| && 0 <= n < |gs| && c != n
    requires Link(gs, gs[c].prev) && Link(gs, gs[c].next) && Link(gs, gs[n].prev) && Link(gs, gs[n].next)
    requires gs[c].next != n ==> gs[c].next != NIL && gs[n].prev != NIL
  {
    var cp := gs[c];
    var a := gs[c := gs[c].(next := gs[n].next, prev := gs[n].prev)][n := gs[n].(prev := cp.prev, next := cp.next)];
    var b := if cp.prev != NIL then a[cp.prev := a[cp.prev].(next := n)] else a;
    var d := if gs[n].next != NIL then b[gs[n].next := b[gs[n].next].(prev := c)] else b;
    var e := if cp.next != n then
               var f := d[cp.next := d[cp.next].(prev := n)];
               f[gs[n].prev := f[gs[n].prev].(next := c)]
             else
               var f := d[c := d[c].(prev := n)];
               f[n := f[n].(next := c)];
    e[c := e[c].(detect := gs[n].detect, auto := gs[n].auto)][n := e[n].(detect := cp.detect, auto := cp.auto)]
  }

  ghost predicate Link(gs: seq<Group>, p: int) { p == NIL || 0 <= p < |gs| }

  /** Two groups of a list of which the first comes earlier, seen through their links. */
  ghost predicate Apart(gs: seq<Group>, c: int, n: int) {
    && 0 <= c < |gs| && 0 <= n < |gs| && c != n
    && Link(gs, gs[c].prev) && Link(gs, gs[c].next) && Link(gs, gs[n].prev) && Link(gs, gs[n].next)
    && (if gs[c].next == n then gs[n].prev == c else gs[c].next != NIL && gs[n].prev != NIL && gs[n].prev != c && gs[n].prev != n)
    && gs[c].prev != c && gs[c].prev != n && gs[n].next != c && gs[n].next != n && gs[c].next != c
    && (gs[c].prev == NIL || (gs[c].prev != gs[c].next && gs[c].prev != gs[n].prev && gs[c].prev != gs[n].next))
    && (gs[n].next == NIL || (gs[n].next != gs[c].next && gs[n].next != gs[n].prev))
  }

  lemma {:induction false} SwopFacts(gs: seq<Group>, order: seq<int>, head: int, i: int, j: int)
    requires ListOk(gs, order, head) && 0 <= i < j < |order|
    ensures Apart(gs, order[i], order[j])
  {
    assert Linked(gs, order, i) && Linked(gs, order, j);
  }

  lemma {:induction false} SwopPoint(gs: seq<Group>, c: int, n: int, x: int)
    requires Apart(gs, c, n) && 0 <= x < |gs|
    ensures var r := AfterSwop(gs, c, n);
            |r| == |gs| && r[x].next == NextOf(gs, c, n, x) && r[x].prev == PrevOf(gs, c, n, x) && r[x].pri == gs[x].pri && r[x].fails == gs[x].fails
  {
    if gs[c].next == n { SwopAdjacent(gs, c, n, x); } else { SwopDistant(gs, c, n, x); }
  }

  lemma {:induction false} SwopAdjacent(gs: seq<Group>, c: int, n: int, x: int)
    requires Apart(gs, c, n) && 0 <= x < |gs| && gs[c].next == n
    ensures var r := AfterSwop(gs, c, n);
            |r| == |gs| && r[x].next == NextOf(gs, c, n, x) && r[x].prev == PrevOf(gs, c, n, x) && r[x].pri == gs[x].pri && r[x].fails == gs[x].fails
  {
  }

  lemma {:induction false} SwopDistant(gs: seq<Group>, c: int, n: int, x: int)
    requires Apart(gs, c, n) && 0 <= x < |gs| && gs[c].next != n
    ensures var r := AfterSwop(gs, c, n);
            |r| == |gs| && r[x].next == NextOf(gs, c, n, x) && r[x].prev == PrevOf(gs, c, n, x) && r[x].pri == gs[x].pri && r[x].fails == gs[x].fails
  {
  }

  lemma {:induction false} SwopFlags(gs: seq<Group>, c: int, n: int, x: int)
    requires Apart(gs, c, n) && 0 <= x < |gs|
    ensures var r := AfterSwop(gs, c, n);
            && |r| == |gs|
            && r[x].detect == (if x == c then gs[n].detect else if x == n then gs[c].detect else gs[x].detect)
            && r[x].auto == (if x == c then gs[n].auto else if x == n then gs[c].auto else gs[x].auto)
  {
  }

  lemma {:induction false} AfterSwopSwops(gs: seq<Group>, c: int, n: int)
    requires Apart(gs, c, n)
    ensures Swop(gs, AfterSwop(gs, c, n), c, n)
  {
    forall x | 0 <= x < |gs| ensures
      var r := AfterSwop(gs, c, n);
      && |r| == |gs| && r[x].next == NextOf(gs, c, n, x) && r[x].prev == PrevOf(gs, c, n, x) && r[x].pri == gs[x].pri && r[x].fails == gs[x].fails
      && r[x].detect == (if x == c then gs[n].detect else if x == n then gs[c].detect else gs[x].detect)
      && r[x].auto == (if x == c then gs[n].auto else if x == n then gs[c].auto else gs[x].auto)
    {
      SwopPoint(gs, c, n, x);
      SwopFlags(gs, c, n, x);
    }
    assert |AfterSwop(gs, c, n)| == |gs| by { SwopFlags(gs, c, n, c); }
  }

  // ----- the circular walk -----

  /** The order as seen from position k. */
  ghost function From(order: seq<int>, k: int): (r: seq<int>)
    requires 0 <= k <= |order|
    ensures |r| == |order|
  {
    order[k..] + order[..k]
  }

  lemma {:induction false} FromAll(order: seq<int>, k: int)
    requires 0 <= k <= |order| && Distinct(order)
    ensures Distinct(From(order, k)) && forall x :: x in From(order, k) <==> x in order
  {
    assert order == order[..k] + order[k..];
  }

  /** Following `next`, and starting over at its end, walks around the order. */
  lemma {:induction false} FromNext(gs: seq<Group>, order: seq<int>, head: int, k: int, t: int)
    requires ListOk(gs, order, head) && 0 <= k < |order| && 0 <= t < |order| - 1
    ensures var r := From(order, k);
            0 <= r[t] < |gs| && r[t + 1] == if gs[r[t]].next == NIL then head else gs[r[t]].next
  {
    var m := if k + t < |order| then k + t else k + t - |order|;
    assert From(order, k)[t] == order[m];
    assert Linked(gs, order, m);
  }

  function Full(n: nat): (r: set<int>)
    ensures forall x :: x in r <==> 0 <= x < n
  {
    if n == 0 then {} else Full(n - 1) + {n - 1}
  }

  ghost function Elems(s: seq<int>): set<int> { set x | x in s }

  lemma {:induction false} ElemsSnoc(s: seq<int>, t: int)
    requires 0 <= t < |s|
    ensures Elems(s[..t + 1]) == Elems(s[..t]) + {s[t]}
  {
    assert s[..t + 1] == s[..t] + [s[t]];
  }

  lemma {:induction false} NotBefore(s: seq<int>, t: int)
    requires 0 <= t < |s| && Distinct(s)
    ensures s[t] !in Elems(s[..t])
  {
  }

  // ----- the list object -----

  class GroupList {
    var groups: seq<Group>
    var head: int
    ghost var order: seq<int>

    ghost predicate Valid() reads this { ListOk(groups, order, head) }

    /** The first add_group of main.c. */
    constructor (detect: set<int>, auto: set<Auto>)
      ensures Valid() && order == [0] && groups == [Group(detect, auto, 0, 0, NIL, NIL)]
    {
      groups := [Group(detect, auto, 0, 0, NIL, NIL)];
      head := 0;
      order := [0];
    }

    /** add_group (main.c) after the last group. */
    method AddGroup(prev: int, detect: set<int>, auto: set<Auto>)
      requires Valid() && prev == order[|order| - 1]
      modifies this
      ensures Valid() && order == old(order) + [|old(groups)|] && head == old(head)
      ensures groups == old(groups)[prev := old(groups)[prev].(next := |old(groups)|)] + [Group(detect, auto, 0, 0, prev, NIL)]
    {
      ghost var gs := groups;
      var id := |groups|;
      groups := groups[prev := groups[prev].(next := id)] + [Group(detect, auto, 0, 0, prev, NIL)];
      order := order + [id];
      AppendOk(gs, groups, order[..|order| - 1], head);
    }

    /** Counts a failure, or raises the priority number. */
    method Bump(x: int, pri: int, fails: int)
      requires Valid() && 0 <= x < |groups|
      modifies this`groups
      ensures Valid() && groups == old(groups)[x := old(groups)[x].(pri := old(groups)[x].pri + pri, fails := old(groups)[x].fails + fails)]
      ensures Rules(groups, order) == old(Rules(groups, order))
    {
      ghost var gs := groups;
      groups := groups[x := groups[x].(pri := groups[x].pri + pri, fails := groups[x].fails + fails)];
      ListFrame(gs, groups, order, head);
    }

    /** swop_groups on two groups of which the first comes earlier: the two positions of the list
        are exchanged, and the positions keep their detect and auto settings. */
    method SwopGroups(c: int, n: int, ghost i: int, ghost j: int)
      requires Valid() && 0 <= i < j < |order| && c == order[i] && n == order[j]
      modifies this
      ensures Valid() && order == Swapped(old(order), i, j) && |groups| == |old(groups)|
      ensures Rules(groups, order) == old(Rules(groups, order))
      ensures forall x :: 0 <= x < |groups| ==> groups[x].pri == old(groups)[x].pri && groups[x].fails == old(groups)[x].fails
      ensures forall x :: 0 <= x < |groups| ==> Rule(groups[x]) == Rule(old(groups)[if x == c then n else if x == n then c else x])
    {
      ghost var gs := groups;
      SwopFacts(gs, order, head, i, j);
      AfterSwopSwops(gs, c, n);
      SwopExchanges(gs, AfterSwop(gs, c, n), order, head, i, j);
      Exchange(c, n);
      if head == c { head := n; }
      order := Swapped(order, i, j);
    }

    /** The assignments of swop_groups to the two groups and their neighbours. */
    method Exchange(c: int, n: int)
      requires Apart(groups, c, n)
      modifies this`groups
      ensures groups == AfterSwop(old(groups), c, n)
    {
      var cp := groups[c];
      groups := groups[c := groups[c].(next := groups[n].next, prev := groups[n].prev)];
      groups := groups[n := groups[n].(prev := cp.prev, next := cp.next)];
      if groups[n].prev != NIL { groups := groups[groups[n].prev := groups[groups[n].prev].(next := n)]; }
      if groups[c].next != NIL { groups := groups[groups[c].next := groups[groups[c].next].(prev := c)]; }
      if cp.next != n {
        groups := groups[groups[n].next := groups[groups[n].next].(prev := n)];
        groups := groups[groups[c].prev := groups[groups[c].prev].(next := c)];
      } else {
        groups := groups[c := groups[c].(prev := n)];
        groups := groups[n := groups[n].(next := c)];
      }
      groups := groups[c := groups[c].(detect := groups[n].detect, auto := groups[n].auto)];
      groups := groups[n := groups[n].(detect := cp.detect, auto := cp.auto)];
    }
  }

  lemma {:induction false} ListFrame(gs: seq<Group>, gs': seq<Group>, order: seq<int>, head: int)
    requires ListOk(gs, order, head) && |gs'| == |gs|
    requires forall x :: 0 <= x < |gs| ==> gs'[x] == gs[x].(pri := gs'[x].pri, fails := gs'[x].fails)
    ensures ListOk(gs', order, head) && Rules(gs', order) == Rules(gs, order)
  {
    forall k | 0 <= k < |order| ensures Linked(gs', order, k) { assert Linked(gs, order, k); }
  }

  lemma {:induction false} AppendOk(gs: seq<Group>, gs': seq<Group>, order: seq<int>, head: int)
    requires ListOk(gs, order, head)
    requires var prev := order[|order| - 1];
             |gs'| == |gs| + 1 && gs'[..|gs|] == gs[prev := gs[prev].(next := |gs|)] && gs'[|gs|].prev == prev && gs'[|gs|].next == NIL
    ensures ListOk(gs', order + [|gs|], head)
  {
    var r := order + [|gs|];
    forall k | 0 <= k < |r| ensures Linked(gs', r, k) {
      if k < |order| {
        assert Linked(gs, order, k);
        assert gs'[r[k]] == gs'[..|gs|][order[k]];
      }
    }
    forall x | 0 <= x < |gs'| ensures x in r {
      assert x < |gs| ==> x in order;
    }
  }
}
