/** The in-order iterator of kavl.h: an explicit stack of nodes still to be visited. */
module KavlIter {
  import opened KavlModel
  import opened Kavl

  /** The subtrees on the iterator's stack, top first; the left part of each is already done. */
  datatype Todo = Done | Pend(t: Tree, rest: Todo)

  ghost function Rest(w: Todo): seq<Ptr> {
    if w.Done? || w.t.Leaf? then [] else [w.t.n] + InOrder(w.t.r) + Rest(w.rest)
  }

  /** itr->stack for `w`, bottom first. */
  ghost function Nodes(w: Todo): (r: seq<Ptr>)
    ensures |r| == Len(w)
  {
    if w.Done? then [] else Nodes(w.rest) + [RootOf(w.t)]
  }

  ghost function Len(w: Todo): nat { if w.Done? then 0 else 1 + Len(w.rest) }

  /** Memory holds the subtrees, and each lies inside the one below it. */
  ghost predicate Sound(m: Store, w: Todo, limit: int) {
    w.Pend? ==>
      && w.t.Bin? && Holds(m, w.t) && Height(w.t) < limit && Sound(m, w.rest, limit)
      && (w.rest.Pend? ==> Height(w.t) < Height(w.rest.t))
  }

  lemma {:induction false} SoundDepth(m: Store, w: Todo, limit: int)
    requires Sound(m, w, limit)
    ensures w.Pend? ==> Len(w) + Height(w.t) <= limit
  {
    if w.Pend? { SoundDepth(m, w.rest, limit); }
  }

  /** The walk down a left spine from `sub` with `w` already on the stack. */
  ghost predicate Pushing(m: Store, p: Ptr, sub: Tree, w: Todo, limit: int, all: seq<Ptr>) {
    && Holds(m, sub) && p == RootOf(sub) && Sound(m, w, limit)
    && Height(sub) < limit && (w.Pend? ==> Height(sub) < Height(w.t))
    && InOrder(sub) + Rest(w) == all
  }

  lemma {:induction false} PushStep(m: Store, p: Ptr, sub: Tree, w: Todo, limit: int, all: seq<Ptr>)
    requires Pushing(m, p, sub, w, limit, all) && p != 0
    ensures p in m && sub.Bin? && Pushing(m, m[p].p0, sub.l, Pend(sub, w), limit, all) && Len(w) < limit
    ensures Nodes(Pend(sub, w)) == Nodes(w) + [p]
  {
    SoundDepth(m, w, limit);
    assert InOrder(sub) + Rest(w) == InOrder(sub.l) + ([sub.n] + InOrder(sub.r) + Rest(w));
  }

  /** Pushes a subtree's left spine. */
  method PushLeft(m: Store, p0: Ptr, stack0: seq<Ptr>, ghost t: Tree, ghost w0: Todo, ghost limit: int)
    returns (stack: seq<Ptr>, ghost w: Todo)
    requires Pushing(m, p0, t, w0, limit, InOrder(t) + Rest(w0)) && stack0 == Nodes(w0) && limit <= KAVL_MAX_DEPTH
    ensures stack == Nodes(w) && Sound(m, w, limit) && Rest(w) == InOrder(t) + Rest(w0)
  {
    var p := p0;
    stack, w := stack0, w0;
    ghost var sub := t;
    while p != 0
      invariant Pushing(m, p, sub, w, limit, InOrder(t) + Rest(w0)) && stack == Nodes(w)
      decreases sub
    {
      PushStep(m, p, sub, w, limit, InOrder(t) + Rest(w0));
      assert |stack| < KAVL_MAX_DEPTH;
      stack, w := stack + [p], Pend(sub, w);
      sub := sub.l;
      p := m[p].p0;
    }
    NullRoot(m, sub);
    assert [] + Rest(w) == Rest(w);
  }

  /** The top of the stack is the next node, and its right subtree comes after it. */
  lemma {:induction false} TopFacts(m: Store, w: Todo, limit: int)
    requires Sound(m, w, limit) && w.Pend?
    ensures Nodes(w)[Len(w) - 1] == w.t.n && Nodes(w)[..Len(w) - 1] == Nodes(w.rest)
    ensures w.t.n in m && m[w.t.n].p1 == RootOf(w.t.r)
    ensures Rest(w) == [w.t.n] + (InOrder(w.t.r) + Rest(w.rest))
    ensures Pushing(m, RootOf(w.t.r), w.t.r, w.rest, limit, InOrder(w.t.r) + Rest(w.rest))
  {
  }

  lemma {:induction false} Shift(a: seq<Ptr>, n: Ptr, b: seq<Ptr>)
    ensures a + ([n] + b) == (a + [n]) + b
  {
  }

  /** kavl_itr_first followed by kavl_itr_next until it returns 0, as the callers do: every node
      is visited once, in order. */
  method Traverse(m: Store, root: Ptr, ghost t: Tree) returns (visited: seq<Ptr>)
    requires Holds(m, t) && root == RootOf(t) && root != 0 && Avl(t) && Size(t) < SIZE_LIMIT
    ensures visited == InOrder(t)
  {
    AvlDepth(t);
    ghost var limit := Height(t) + 1;
    ghost var w;
    var stack;
    stack, w := PushLeft(m, root, [], t, Done, limit);
    assert InOrder(t) + [] == InOrder(t) && InOrder(t) != [];
    visited := [];
    assert visited + Rest(w) == InOrder(t);
    while stack != []
      invariant stack == Nodes(w) && Sound(m, w, limit) && visited + Rest(w) == InOrder(t)
      decreases |Rest(w)|
    {
      TopFacts(m, w, limit);
      var top := stack[|stack| - 1];
      Shift(visited, top, InOrder(w.t.r) + Rest(w.rest));
      visited := visited + [top];
      stack, w := PushLeft(m, m[top].p1, stack[..|stack| - 1], w.t.r, w.rest, limit);
    }
    assert visited + [] == visited;
  }
}
