/** Sequences of addresses as the models use them to spell out linked structures. */
module Sequences {
  /** A null pointer where objects are named by numbers from 0 on. */
  const NIL := -1

  ghost predicate Distinct<T>(s: seq<T>) { forall i, j :: 0 <= i < j < |s| ==> s[i] != s[j] }

  /** The neighbour at place k, null beyond the ends. */
  ghost function At(s: seq<int>, k: int): int { if 0 <= k < |s| then s[k] else NIL }
}

/** Doubly linked lists by pointer: appending at the tail, deleting anywhere, and the order kept. */
module LinkedLists {
  import opened Sequences

  datatype Link = Link(prev: int, next: int)

  ghost predicate Linked(links: map<int, Link>, order: seq<int>, k: int) {
    && 0 <= k < |order| && order[k] in links && order[k] >= 0
    && links[order[k]] == Link(At(order, k - 1), At(order, k + 1))
  }

  /** head, tail and the links spell out the order. */
  ghost predicate ListOk(links: map<int, Link>, order: seq<int>, head: int, tail: int) {
    && Distinct(order) && head == At(order, 0) && tail == At(order, |order| - 1)
    && forall k :: 0 <= k < |order| ==> Linked(links, order, k)
  }

  ghost function AfterAdd(links: map<int, Link>, tail: int, p: int): map<int, Link>
    requires tail == NIL || tail in links
  {
    (if tail != NIL then links[tail := links[tail].(next := p)] else links)[p := Link(tail, NIL)]
  }

  ghost predicate DelOk(links: map<int, Link>, p: int) {
    && p in links && links[p].prev != p && links[p].next != p
    && (links[p].prev == NIL || links[p].prev in links) && (links[p].next == NIL || links[p].next in links)
    && (links[p].prev == NIL || links[p].prev != links[p].next)
  }

  ghost function AfterDel(links: map<int, Link>, p: int): map<int, Link>
    requires DelOk(links, p)
  {
    var a := links[p];
    var b := if a.prev != NIL then links[a.prev := links[a.prev].(next := a.next)] else links;
    if a.next != NIL then b[a.next := b[a.next].(prev := a.prev)] else b
  }

  lemma {:induction false} AddKeeps(links: map<int, Link>, order: seq<int>, head: int, tail: int, p: int)
    requires ListOk(links, order, head, tail) && p !in order && p >= 0
    ensures tail == NIL || tail in links
    ensures ListOk(AfterAdd(links, tail, p), order + [p], if tail == NIL then p else head, p)
  {
    var r := order + [p];
    if order != [] { assert Linked(links, order, |order| - 1); }
    forall k | 0 <= k < |r| ensures Linked(AfterAdd(links, tail, p), r, k) {
      if k < |order| { assert Linked(links, order, k) && order[k] in order; }
    }
  }

  lemma {:induction false} DelLegal(links: map<int, Link>, order: seq<int>, head: int, tail: int, k: int)
    requires ListOk(links, order, head, tail) && 0 <= k < |order|
    ensures DelOk(links, order[k])
  {
    assert Linked(links, order, k);
    if k > 0 { assert Linked(links, order, k - 1); }
    if k + 1 < |order| { assert Linked(links, order, k + 1); }
  }

  lemma {:induction false} DelStep(links: map<int, Link>, order: seq<int>, k: int, j: int)
    requires 0 <= k < |order| && 0 <= j < |order| - 1 && Distinct(order) && DelOk(links, order[k])
    requires forall i :: 0 <= i < |order| ==> Linked(links, order, i)
    ensures Linked(AfterDel(links, order[k]), order[..k] + order[k + 1..], j)
  {
    var r := order[..k] + order[k + 1..];
    var i := if j < k then j else j + 1;
    assert Linked(links, order, k) && Linked(links, order, i);
    assert r[j] == order[i];
    assert At(r, j + 1) == if j + 1 < k then At(order, j + 1) else At(order, j + 2);
    assert At(r, j - 1) == if j - 1 < k then At(order, j - 1) else At(order, j);
    assert i != k - 1 && k > 0 ==> order[i] != order[k - 1];
    assert i != k + 1 && k + 1 < |order| ==> order[i] != order[k + 1];
  }

  lemma {:induction false} DelKeeps(links: map<int, Link>, order: seq<int>, head: int, tail: int, k: int)
    requires ListOk(links, order, head, tail) && 0 <= k < |order|
    ensures DelOk(links, order[k])
    ensures var a := links[order[k]];
            ListOk(AfterDel(links, order[k]), order[..k] + order[k + 1..], if a.prev == NIL then a.next else head, if a.next == NIL then a.prev else tail)
  {
    var r := order[..k] + order[k + 1..];
    DelLegal(links, order, head, tail, k);
    assert Linked(links, order, k);
    if k > 0 { assert Linked(links, order, k - 1); }
    if k + 1 < |order| { assert Linked(links, order, k + 1); }
    forall j | 0 <= j < |r| ensures Linked(AfterDel(links, order[k]), r, j) { DelStep(links, order, k, j); }
    assert At(r, 0) == if k == 0 then At(order, 1) else At(order, 0);
    assert At(r, |r| - 1) == if k == |r| then At(order, k - 1) else At(order, |r|);
    forall i, j | 0 <= i < j < |r| ensures r[i] != r[j] {}
  }
}
