/** The iterative AVL tree of kavl.h: find, rotations, insert and erase on nodes in memory. */
module Kavl {
  import opened KavlModel
  import Sequences

  // ----- how a model tree lies in memory -----

  ghost predicate Fields(m: Store, n: Ptr, d: Dir, near: Ptr, far: Ptr, b: int, s: int) {
    && n != 0 && n in m
    && m[n].Child(d) == near && m[n].Child(!d) == far && m[n].balance == b && m[n].size == s
  }

  /** Memory holds the tree `t`, each node once. */
  ghost predicate Holds(m: Store, t: Tree) {
    t.Bin? ==>
      && Fields(m, t.n, false, RootOf(t.l), RootOf(t.r), t.b, t.s)
      && t.n !in Ptrs(t.l) && t.n !in Ptrs(t.r) && Ptrs(t.l) !! Ptrs(t.r)
      && Holds(m, t.l) && Holds(m, t.r)
  }

  ghost predicate SameOn(m: Store, m': Store, ps: set<Ptr>) {
    forall p :: p in ps && p in m ==> p in m' && m'[p] == m[p]
  }

  lemma {:induction false} HoldsFrame(m: Store, m': Store, t: Tree)
    requires Holds(m, t) && SameOn(m, m', Ptrs(t))
    ensures Holds(m', t)
  {
    if t.Bin? {
      HoldsFrame(m, m', t.l);
      HoldsFrame(m, m', t.r);
    }
  }

  lemma {:induction false} MkHolds(m: Store, n: Ptr, d: Dir, near: Tree, far: Tree, b: int, s: int)
    ensures var t := Mk(n, d, near, far, b, s);
            && (Holds(m, t) <==>
                  && Holds(m, near) && Holds(m, far) && Fields(m, n, d, RootOf(near), RootOf(far), b, s)
                  && n !in Ptrs(near) && n !in Ptrs(far) && Ptrs(near) !! Ptrs(far))
            && Ptrs(t) == {n} + Ptrs(near) + Ptrs(far) && RootOf(t) == n
  {
  }

  lemma {:induction false} NullRoot(m: Store, t: Tree)
    requires Holds(m, t)
    ensures RootOf(t) == 0 <==> t == Leaf
  {
  }

  lemma {:induction false} PlugPtrs(c: Ctx, t: Tree)
    ensures Ptrs(t) <= Ptrs(Plug(c, t))
  {
    if c.In? {
      MkFacts(c.f.n, c.f.d, t, c.f.sib, c.f.b, c.f.s);
      PlugPtrs(c.up, Up(c.f, t));
    }
  }

  ghost function CtxPtrs(c: Ctx): set<Ptr> {
    if c.Top? then {} else {c.f.n} + Ptrs(c.f.sib) + CtxPtrs(c.up)
  }

  lemma {:induction false} PtrsOfPlug(c: Ctx, t: Tree)
    ensures Ptrs(Plug(c, t)) == CtxPtrs(c) + Ptrs(t)
  {
    if c.In? {
      MkFacts(c.f.n, c.f.d, t, c.f.sib, c.f.b, c.f.s);
      PtrsOfPlug(c.up, Up(c.f, t));
    }
  }

  lemma {:induction false} PlugHoldsHole(m: Store, c: Ctx, t: Tree)
    requires Holds(m, Plug(c, t))
    ensures Holds(m, t)
  {
    if c.In? {
      PlugHoldsHole(m, c.up, Up(c.f, t));
      MkHolds(m, c.f.n, c.f.d, t, c.f.sib, c.f.b, c.f.s);
    }
  }

  /** `m` agrees with `m0` outside `ps`. */
  ghost predicate Frame0(m0: Store, m: Store, ps: set<Ptr>) {
    m.Keys == m0.Keys && forall p :: p in m0 && p !in ps ==> m[p] == m0[p]
  }

  /** Another tree under the same root address may take the place of `t`. */
  lemma {:induction false} Replug(m0: Store, m: Store, c: Ctx, t: Tree, t': Tree)
    requires Holds(m0, Plug(c, t)) && Holds(m, t') && RootOf(t') == RootOf(t)
    requires SameOn(m0, m, Ptrs(Plug(c, t)) - Ptrs(t)) && Ptrs(t') !! Ptrs(Plug(c, t)) - Ptrs(t)
    ensures Holds(m, Plug(c, t'))
  {
    if c.In? {
      var f, u, u' := c.f, Up(c.f, t), Up(c.f, t');
      PlugHoldsHole(m0, c.up, u);
      PlugPtrs(c.up, u);
      MkHolds(m0, f.n, f.d, t, f.sib, f.b, f.s);
      HoldsFrame(m0, m, f.sib);
      MkHolds(m, f.n, f.d, t', f.sib, f.b, f.s);
      Replug(m0, m, c.up, u, u');
    }
  }

  /** Storing the root of `t'` in the node above the hole puts `t'` in the place of `t`. */
  lemma {:induction false} Relink(m0: Store, m: Store, c: Ctx, t: Tree, t': Tree)
    requires c.In? && Holds(m0, Plug(c, t)) && Holds(m, t')
    requires c.f.n in m0 && c.f.n in m && m[c.f.n] == m0[c.f.n].SetChild(c.f.d, RootOf(t'))
    requires SameOn(m0, m, Ptrs(Plug(c, t)) - Ptrs(t) - {c.f.n}) && Ptrs(t') !! Ptrs(Plug(c, t)) - Ptrs(t)
    ensures Holds(m, Plug(c, t'))
  {
    var f, u, u' := c.f, Up(c.f, t), Up(c.f, t');
    PlugHoldsHole(m0, c.up, u);
    PlugPtrs(c.up, u);
    MkHolds(m0, f.n, f.d, t, f.sib, f.b, f.s);
    HoldsFrame(m0, m, f.sib);
    MkHolds(m, f.n, f.d, t', f.sib, f.b, f.s);
    Replug(m0, m, c.up, u, u');
  }

  /** The address of the node above the hole. */
  ghost function Parent(c: Ctx): Ptr { if c.Top? then 0 else c.f.n }

  lemma {:induction false} ParentFacts(m: Store, c: Ctx, t: Tree)
    requires Holds(m, Plug(c, t)) && c.In?
    ensures Fields(m, c.f.n, c.f.d, RootOf(t), RootOf(c.f.sib), c.f.b, c.f.s)
    ensures c.f.n !in Ptrs(t) && c.f.n in Ptrs(Plug(c, t)) && Ptrs(t) !! Ptrs(c.f.sib)
  {
    PlugHoldsHole(m, c.up, Up(c.f, t));
    PlugPtrs(c.up, Up(c.f, t));
    MkHolds(m, c.f.n, c.f.d, t, c.f.sib, c.f.b, c.f.s);
  }

  // ----- rotations -----

  lemma {:induction false} TurnHolds(m0: Store, m: Store, t: Tree, d: Dir, pb: int, ps: int, qb: int, qs: int)
    requires Holds(m0, t) && t.Bin? && Sub(t, !d).Bin?
    requires SameOn(m0, m, Ptrs(t) - {t.n, Sub(t, !d).n})
    requires var q := Sub(t, !d);
             && Fields(m, t.n, d, RootOf(Sub(t, d)), RootOf(Sub(q, d)), pb, ps)
             && Fields(m, q.n, d, t.n, RootOf(Sub(q, !d)), qb, qs)
    ensures Holds(m, Turn(t, d, pb, ps, qb, qs)) && Ptrs(Turn(t, d, pb, ps, qb, qs)) == Ptrs(t)
  {
    var a, q := Sub(t, d), Sub(t, !d);
    var b, c := Sub(q, d), Sub(q, !d);
    MkHolds(m0, t.n, d, a, q, t.b, t.s);
    MkHolds(m0, q.n, d, b, c, q.b, q.s);
    HoldsFrame(m0, m, a);
    HoldsFrame(m0, m, b);
    HoldsFrame(m0, m, c);
    MkHolds(m, t.n, d, a, b, pb, ps);
    MkHolds(m, q.n, d, Mk(t.n, d, a, b, pb, ps), c, qb, qs);
  }

  method Rotate1(m0: Store, p: Ptr, d: Dir, ghost t: Tree) returns (m: Store, q: Ptr)
    requires Holds(m0, t) && t.Bin? && t.n == p && Sub(t, !d).Bin?
    ensures var u := Rot1(t, d, t.b, Sub(t, !d).b); Holds(m, u) && q == RootOf(u)
    ensures m.Keys == m0.Keys && (forall n :: n in m0 && n !in Ptrs(t) ==> m[n] == m0[n])
  {
    ghost var tq := Sub(t, !d);
    MkHolds(m0, p, d, Sub(t, d), tq, t.b, t.s);
    MkHolds(m0, tq.n, d, Sub(tq, d), Sub(tq, !d), tq.b, tq.s);

    m := m0;
    q := m[p].Child(!d);
    var inner := m[q].Child(d);
    var sizeP := m[p].size;
    m := m[p := m[p].(size := m[p].size - (m[q].size - (if inner == 0 then 0 else m[inner].size)))];
    m := m[q := m[q].(size := sizeP)];
    m := m[p := m[p].SetChild(!d, inner)];
    m := m[q := m[q].SetChild(d, p)];
    TurnHolds(m0, m, t, d, t.b, m[p].size, tq.b, m[q].size);
  }

  /** A double rotation is a rotation of the child away followed by one of the root. */
  lemma {:induction false} Rot2Holds(m0: Store, m: Store, t: Tree, d: Dir)
    requires Holds(m0, t) && CanRot2(t, d)
    requires SameOn(m0, m, Ptrs(t) - {t.n, Sub(t, !d).n, Sub(Sub(t, !d), d).n})
    requires var q := Sub(t, !d);
             var r := Sub(q, d);
             var p', q' := Rot2Near(t, d), Rot2Far(t, d);
             && Fields(m, r.n, d, t.n, q.n, 0, t.s)
             && Fields(m, t.n, d, RootOf(Sub(t, d)), RootOf(Sub(r, d)), p'.b, p'.s)
             && Fields(m, q.n, d, RootOf(Sub(r, !d)), RootOf(Sub(q, !d)), q'.b, q'.s)
    ensures Holds(m, Rot2(t, d)) && Ptrs(Rot2(t, d)) == Ptrs(t)
  {
    var a, q := Sub(t, d), Sub(t, !d);
    var r, e := Sub(q, d), Sub(q, !d);
    var b, c := Sub(r, d), Sub(r, !d);
    var p', q' := Rot2Near(t, d), Rot2Far(t, d);
    MkHolds(m0, t.n, d, a, q, t.b, t.s);
    MkHolds(m0, q.n, d, r, e, q.b, q.s);
    MkHolds(m0, r.n, d, b, c, r.b, r.s);
    var m1 := m0[t.n := m0[t.n].SetChild(!d, r.n)][q.n := m[q.n]][r.n := m[r.n].SetChild(d, RootOf(b))];
    var q1 := Turn(q, !d, q'.b, q'.s, 0, t.s);
    TurnHolds(m0, m1, q, !d, q'.b, q'.s, 0, t.s);
    HoldsFrame(m0, m1, a);
    var t1 := Mk(t.n, d, a, q1, t.b, t.s);
    MkHolds(m1, t.n, d, a, q1, t.b, t.s);
    TurnHolds(m1, m, t1, d, p'.b, p'.s, 0, t.s);
    assert Rot2(t, d) == Turn(t1, d, p'.b, p'.s, 0, t.s);
  }

  method Rotate2(m0: Store, p: Ptr, d: Dir, ghost t: Tree) returns (m: Store, r: Ptr)
    requires Holds(m0, t) && CanRot2(t, d) && t.n == p
    ensures Holds(m, Rot2(t, d)) && r == RootOf(Rot2(t, d))
    ensures m.Keys == m0.Keys && (forall n :: n in m0 && n !in Ptrs(t) ==> m[n] == m0[n])
  {
    ghost var tq := Sub(t, !d);
    ghost var tr := Sub(tq, d);
    MkHolds(m0, p, d, Sub(t, d), tq, t.b, t.s);
    MkHolds(m0, tq.n, d, tr, Sub(tq, !d), tq.b, tq.s);
    MkHolds(m0, tr.n, d, Sub(tr, d), Sub(tr, !d), tr.b, tr.s);

    var q := m0[p].Child(!d);
    r := m0[q].Child(d);
    var cp, cq, cr := m0[p], m0[q], m0[r];
    var inner := cr.Child(d);
    var sizeXDir := if inner == 0 then 0 else m0[inner].size;
    cr := cr.(size := cp.size);
    cp := cp.(size := cp.size - (cq.size - sizeXDir));
    cq := cq.(size := cq.size - (sizeXDir + 1));
    cp := cp.SetChild(!d, inner);
    cq := cq.SetChild(d, cr.Child(!d));
    cr := cr.SetChild(d, p);
    cr := cr.SetChild(!d, q);
    var b1 := if !d then 1 else -1;
    if cr.balance == b1 {
      cq, cp := cq.(balance := 0), cp.(balance := -b1);
    } else if cr.balance == 0 {
      cq, cp := cq.(balance := 0), cp.(balance := 0);
    } else {
      cq, cp := cq.(balance := b1), cp.(balance := 0);
    }
    cr := cr.(balance := 0);
    m := m0[p := cp][q := cq][r := cr];
    Rot2Holds(m0, m, t, d);
  }

  // ----- find -----

  /** Where `p` stands among the nodes `s` for a search by `cmp`: at the `cnt`-th place if it
      compares equal, or, when null, `cnt` nodes are to the left of x and the rest to the right. */
  ghost predicate FoundAt(cmp: Ptr -> int, s: seq<Ptr>, p: Ptr, cnt: int) {
    if p != 0 then 0 < cnt <= |s| && s[cnt - 1] == p && cmp(p) == 0
    else 0 <= cnt <= |s| && AllAbove(cmp, s[..cnt]) && AllBelow(cmp, s[cnt..])
  }

  /** A search through `t` has reached `p`, the root of `sub`, with `cnt` nodes on its left. */
  ghost predicate At(cmp: Ptr -> int, m: Store, t: Tree, c: Ctx, sub: Tree, p: Ptr, cnt: int) {
    && Plug(c, sub) == t && Holds(m, sub) && Avl(sub) && p == RootOf(sub)
    && Narrowed(cmp, c) && cnt == |Before(c)|
  }

  lemma {:induction false} SearchEnd(cmp: Ptr -> int, m: Store, t: Tree, c: Ctx, sub: Tree, p: Ptr, cnt: int)
    requires At(cmp, m, t, c, sub, p, cnt) && (p == 0 || cmp(p) == 0)
    ensures FoundAt(cmp, InOrder(t), p, cnt + (if p == 0 then 0 else Size(sub.l) + 1))
  {
    PlugInOrder(c, sub);
    if sub.Bin? {
      InOrderFacts(sub.l);
    } else {
      var s := InOrder(Plug(c, sub));
      assert s[..|Before(c)|] == Before(c) && s[|Before(c)|..] == After(c);
    }
  }

  lemma {:induction false} SearchStep(cmp: Ptr -> int, m: Store, t: Tree, c: Ctx, sub: Tree, p: Ptr, cnt: int)
    requires At(cmp, m, t, c, sub, p, cnt) && p != 0 && cmp(p) != 0 && Monotone(cmp, InOrder(t))
    ensures var d := cmp(p) > 0;
            At(cmp, m, t, In(FrameOf(sub, d), c), Sub(sub, d), m[p].Child(d),
               cnt + (if d then Size(sub.l) + 1 else 0))
  {
    DescendNarrows(cmp, c, sub);
    InOrderFacts(sub.l);
  }

  function SizeChild(m: Store, p: Ptr): int
    requires p in m && (m[p].p0 == 0 || m[p].p0 in m)
  {
    if m[p].p0 == 0 then 0 else m[m[p].p0].size
  }

  lemma {:induction false} NodeFacts(m: Store, t: Tree)
    requires Holds(m, t) && Avl(t) && t.Bin?
    ensures t.n in m && (m[t.n].p0 == 0 || m[t.n].p0 in m)
    ensures SizeChild(m, t.n) == Size(t.l) && m[t.n].balance == t.b
  {
    AvlSizeField(t.l);
  }

  method Find(cmp: Ptr -> int, m: Store, root: Ptr, ghost t: Tree) returns (p: Ptr, cnt: int)
    requires Holds(m, t) && root == RootOf(t) && Avl(t) && Monotone(cmp, InOrder(t))
    ensures FoundAt(cmp, InOrder(t), p, cnt)
  {
    p, cnt := root, 0;
    ghost var c, sub := Top, t;
    while p != 0
      invariant At(cmp, m, t, c, sub, p, cnt)
      decreases sub
    {
      NodeFacts(m, sub);
      var r := cmp(p);
      if r == 0 {
        SearchEnd(cmp, m, t, c, sub, p, cnt);
        cnt := cnt + SizeChild(m, p) + 1;
        return;
      }
      SearchStep(cmp, m, t, c, sub, p, cnt);
      if r > 0 { cnt := cnt + SizeChild(m, p) + 1; }
      p := m[p].Child(r > 0);
      c, sub := In(FrameOf(sub, r > 0), c), Sub(sub, r > 0);
    }
    SearchEnd(cmp, m, t, c, sub, p, cnt);
  }

  // ----- the loops over a recorded path -----

  /** What is known of the recorded path of `c` around `t` in memory. */
  lemma {:induction false} PathFacts(m: Store, c: Ctx, t: Tree)
    requires Holds(m, Plug(c, t))
    ensures Sequences.Distinct(PathOf(c))
    ensures forall i :: 0 <= i < Depth(c) ==>
              PathOf(c)[i] in m && PathOf(c)[i] in Ptrs(Plug(c, t)) && PathOf(c)[i] !in Ptrs(t)
  {
    if c.In? {
      var u := Up(c.f, t);
      PathFacts(m, c.up, u);
      ParentFacts(m, c, t);
      MkFacts(c.f.n, c.f.d, t, c.f.sib, c.f.b, c.f.s);
    }
  }

  ghost function Next(path: seq<Ptr>, i: nat, end: Ptr): Ptr { if i < |path| then path[i] else end }

  ghost predicate LinkAt(m: Store, path: seq<Ptr>, dirs: seq<Dir>, i: nat, end: Ptr)
    requires i < |path| && |dirs| == |path|
  {
    path[i] in m && m[path[i]].Child(dirs[i]) == Next(path, i + 1, end)
  }

  lemma {:induction false} PathLinked(m: Store, c: Ctx, t: Tree)
    requires Holds(m, Plug(c, t))
    ensures forall i :: 0 <= i < Depth(c) ==> LinkAt(m, PathOf(c), DirsOf(c), i, RootOf(t))
  {
    if c.In? {
      PathLinked(m, c.up, Up(c.f, t));
      ParentFacts(m, c, t);
      assert RootOf(Up(c.f, t)) == c.f.n;
      forall i | 0 <= i < Depth(c) ensures LinkAt(m, PathOf(c), DirsOf(c), i, RootOf(t)) {
        assert i < Depth(c.up) ==> LinkAt(m, PathOf(c.up), DirsOf(c.up), i, c.f.n);
      }
    }
  }

  /** Changes the size field of every node on the path. */
  method AddSizes(m0: Store, path: seq<Ptr>, delta: int) returns (m: Store)
    requires Sequences.Distinct(path) && forall i :: 0 <= i < |path| ==> path[i] in m0
    ensures m.Keys == m0.Keys
    ensures forall n :: n in m0 && n in path ==> m[n] == m0[n].(size := m0[n].size + delta)
    ensures forall n :: n in m0 && n !in path ==> m[n] == m0[n]
  {
    m := m0;
    for i := 0 to |path|
      invariant m.Keys == m0.Keys
      invariant forall j :: 0 <= j < i ==> m[path[j]] == m0[path[j]].(size := m0[path[j]].size + delta)
      invariant forall j :: i <= j < |path| ==> m[path[j]] == m0[path[j]]
      invariant forall n :: n in m0 && n !in path ==> m[n] == m0[n]
    {
      m := m[path[i] := m[path[i]].(size := m[path[i]].size + delta)];
    }
  }

  /** The loop of kavl_insert that follows the recorded directions from bp down to x. */
  method TiltPath(m0: Store, bp: Ptr, x: Ptr, stack: seq<Dir>, ghost path: seq<Ptr>) returns (m: Store)
    requires |path| == |stack| > 0 && bp == path[0] && Sequences.Distinct(path) && x !in path
    requires forall i :: 0 <= i < |path| ==> LinkAt(m0, path, stack, i, x)
    ensures m.Keys == m0.Keys
    ensures forall i :: 0 <= i < |path| ==>
              path[i] in m0 && m[path[i]] == m0[path[i]].(balance := m0[path[i]].balance + (if stack[i] then 1 else -1))
    ensures forall n :: n in m0 && n !in path ==> m[n] == m0[n]
  {
    m := m0;
    var p, top := bp, 0;
    while p != x
      invariant 0 <= top <= |path| && p == Next(path, top, x) && m.Keys == m0.Keys
      invariant forall j :: 0 <= j < top ==>
                  path[j] in m0 && m[path[j]] == m0[path[j]].(balance := m0[path[j]].balance + (if stack[j] then 1 else -1))
      invariant forall j :: top <= j < |path| ==> path[j] in m0 ==> m[path[j]] == m0[path[j]]
      invariant forall n :: n in m0 && n !in path ==> m[n] == m0[n]
      decreases |path| - top
    {
      assert LinkAt(m0, path, stack, top, x);
      m := m[p := m[p].(balance := m[p].balance + (if stack[top] then 1 else -1))];
      p := m[p].Child(stack[top]);
      top := top + 1;
    }
  }

  /** `c'` is `c` with the balance and size fields that memory has changed to. */
  ghost predicate Retagged(m0: Store, m: Store, c: Ctx, c': Ctx) {
    if c.Top? then c'.Top?
    else
      && c'.In? && c'.f.n == c.f.n && c'.f.d == c.f.d && c'.f.sib == c.f.sib
      && c.f.n in m0 && c.f.n in m
      && m[c.f.n] == m0[c.f.n].(balance := c'.f.b, size := c'.f.s)
      && Retagged(m0, m, c.up, c'.up)
  }

  lemma {:induction false} RetagHolds(m0: Store, m: Store, c: Ctx, c': Ctx, t: Tree, t': Tree, path: set<Ptr>)
    requires Holds(m0, Plug(c, t)) && Holds(m, t') && RootOf(t') == RootOf(t) && Ptrs(t') == Ptrs(t)
    requires Retagged(m0, m, c, c') && (forall n :: n in PathOf(c) ==> n in path)
    requires (forall n :: n in path && n !in Ptrs(t) ==> n in PathOf(c))
    requires SameOn(m0, m, Ptrs(Plug(c, t)) - Ptrs(t) - path)
    ensures Holds(m, Plug(c', t')) && Ptrs(Plug(c', t')) == Ptrs(Plug(c, t))
  {
    if c.In? {
      var f, f', u := c.f, c'.f, Up(c.f, t);
      ParentFacts(m0, c, t);
      PlugPtrs(c.up, u);
      PlugHoldsHole(m0, c.up, u);
      MkHolds(m0, f.n, f.d, t, f.sib, f.b, f.s);
      PathFacts(m0, c.up, u);
      assert forall n :: n in PathOf(c.up) ==> n !in Ptrs(u);
      assert PathOf(c) == PathOf(c.up) + [f.n] && Ptrs(u) == {f.n} + Ptrs(t) + Ptrs(f.sib);
      assert forall n :: n in Ptrs(f.sib) ==> n !in PathOf(c) && n !in Ptrs(t);
      HoldsFrame(m0, m, f.sib);
      MkHolds(m, f.n, f.d, t', f.sib, f'.b, f'.s);
      RetagHolds(m0, m, c.up, c'.up, u, Up(f', t'), path);
    }
  }

  lemma {:induction false} BumpRetag(m0: Store, m: Store, c: Ctx, t: Tree, delta: int)
    requires Holds(m0, Plug(c, t)) && m.Keys == m0.Keys
    requires forall n :: n in PathOf(c) && n in m0 ==> m[n] == m0[n].(size := m0[n].size + delta)
    ensures Retagged(m0, m, c, BumpAll(c, delta))
  {
    if c.In? {
      ParentFacts(m0, c, t);
      BumpRetag(m0, m, c.up, Up(c.f, t), delta);
    }
  }

  lemma {:induction false} TiltRetag(m0: Store, m: Store, c: Ctx, t: Tree)
    requires Holds(m0, Plug(c, t)) && m.Keys == m0.Keys
    requires forall i :: 0 <= i < Depth(c) ==>
               var n := PathOf(c)[i];
               n in m0 && m[n] == m0[n].(balance := m0[n].balance + (if DirsOf(c)[i] then 1 else -1))
    ensures Retagged(m0, m, c, TiltAll(c))
  {
    if c.In? {
      ParentFacts(m0, c, t);
      assert PathOf(c)[Depth(c.up)] == c.f.n && DirsOf(c)[Depth(c.up)] == c.f.d;
      forall i | 0 <= i < Depth(c.up)
        ensures var n := PathOf(c.up)[i];
                n in m0 && m[n] == m0[n].(balance := m0[n].balance + (if DirsOf(c.up)[i] then 1 else -1))
      {
        assert PathOf(c)[i] == PathOf(c.up)[i] && DirsOf(c)[i] == DirsOf(c.up)[i];
      }
      TiltRetag(m0, m, c.up, Up(c.f, t));
    }
  }

  /** kavl_rotate1 followed by the caller's two balance assignments. */
  method RotateOnce(m0: Store, p: Ptr, d: Dir, pb: int, qb: int, ghost t: Tree) returns (m: Store, q: Ptr)
    requires Holds(m0, t) && t.Bin? && t.n == p && Sub(t, !d).Bin?
    ensures Holds(m, Rot1(t, d, pb, qb)) && q == RootOf(Rot1(t, d, pb, qb))
    ensures Frame0(m0, m, Ptrs(t))
  {
    MkHolds(m0, p, d, Sub(t, d), Sub(t, !d), t.b, t.s);
    ghost var a, tq := Sub(t, d), Sub(t, !d);
    m, q := Rotate1(m0, p, d, t);
    ghost var u := Rot1(t, d, t.b, tq.b);
    ghost var v := Sub(u, d);
    MkHolds(m, q, d, v, Sub(u, !d), u.b, u.s);
    MkHolds(m, p, d, a, Sub(tq, d), v.b, v.s);
    ghost var m1 := m;
    m := m[q := m[q].(balance := qb)];
    m := m[p := m[p].(balance := pb)];
    HoldsFrame(m1, m, a);
    HoldsFrame(m1, m, Sub(tq, d));
    HoldsFrame(m1, m, Sub(u, !d));
    MkHolds(m, p, d, a, Sub(tq, d), pb, v.s);
    MkHolds(m, q, d, Mk(p, d, a, Sub(tq, d), pb, v.s), Sub(u, !d), qb, u.s);
  }

  /** The re-balancing step of kavl_insert at the node bp that has become two levels askew. */
  method InsertRepair(m0: Store, bp: Ptr, ghost u: Tree) returns (m: Store, r: Ptr, ghost u': Tree)
    requires Holds(m0, u) && u.Bin? && u.n == bp && (u.b == 2 || u.b == -2)
    requires Heavy(u, u.b < 0) && Sub(u, u.b > 0).b != 0
    ensures Holds(m, u') && r == RootOf(u') && Frame0(m0, m, Ptrs(u))
    ensures Avl(u') && Height(u') == Height(u) - 1 && Size(u') == Size(u)
    ensures InOrder(u') == InOrder(u) && Ptrs(u') == Ptrs(u)
  {
    var which := m0[bp].balance < 0;
    var b1 := if which then -1 else 1;
    ghost var tq := Sub(u, !which);
    MkHolds(m0, bp, which, Sub(u, which), tq, u.b, u.s);
    MkHolds(m0, tq.n, which, Sub(tq, which), Sub(tq, !which), tq.b, tq.s);
    var q := m0[bp].Child(!which);
    if m0[q].balance == b1 {
      Rot1Avl(u, which);
      Rot1Facts(u, which, 0, 0);
      m, r := RotateOnce(m0, bp, which, 0, 0, u);
      u' := Rot1(u, which, 0, 0);
    } else {
      Rot2Avl(u, which);
      Rot2Facts(u, which);
      m, r := Rotate2(m0, bp, which, u);
      u' := Rot2(u, which);
    }
  }

  /** The sizes along a recorded path, in memory and in the model. */
  method ResizePath(m0: Store, path: seq<Ptr>, delta: int, ghost c: Ctx, ghost t: Tree) returns (m: Store)
    requires Holds(m0, Plug(c, t)) && path == PathOf(c)
    ensures Holds(m, Plug(BumpAll(c, delta), t)) && Ptrs(Plug(BumpAll(c, delta), t)) == Ptrs(Plug(c, t))
    ensures Frame0(m0, m, Ptrs(Plug(c, t)) - Ptrs(t))
    ensures c.In? ==> RootOf(Plug(BumpAll(c, delta), t)) == RootOf(Plug(c, t))
  {
    PathFacts(m0, c, t);
    PlugHoldsHole(m0, c, t);
    m := AddSizes(m0, path, delta);
    HoldsFrame(m0, m, t);
    BumpRetag(m0, m, c, t, delta);
    RetagHolds(m0, m, c, BumpAll(c, delta), t, t, set n | n in PathOf(c));
    RootBump(c, t, t, delta);
  }

  lemma {:induction false} RootBump(a: Ctx, t: Tree, t': Tree, delta: int)
    requires RootOf(t) == RootOf(t') || a.In?
    ensures RootOf(Plug(BumpAll(a, delta), t')) == RootOf(Plug(a, t))
  {
    if a.In? { RootBump(a.up, Up(a.f, t), Up(Bump(a.f, delta), t'), delta); }
  }

  // ----- insert -----

  /** The pointers and directions the walk carries: the parent q of the hole and the side taken,
      the deepest node bp that is not level (or the root), its parent bq, and the directions
      taken from bp on. */
  ghost predicate Trail(c: Ctx, a: Ctx, f: Frame, b: Ctx, root: Ptr,
                        q: Ptr, which: Dir, bp: Ptr, bq: Ptr, stack: seq<Dir>) {
    if c.Top? then q == 0 && bp == root && bq == 0 && stack == []
    else
      && c == Join(b, In(f, a)) && Level(b) && (a.Top? || f.b != 0)
      && q == c.f.n && which == c.f.d && bp == f.n && bq == Parent(a)
      && stack == [f.d] + DirsOf(b)
  }

  lemma {:induction false} TrailStep(c: Ctx, a: Ctx, f: Frame, b: Ctx, root: Ptr,
                                     q: Ptr, which: Dir, bp: Ptr, bq: Ptr, stack: seq<Dir>, g: Frame)
    requires Trail(c, a, f, b, root, q, which, bp, bq, stack) && (c.Top? ==> g.n == root)
    ensures g.b != 0 ==> Trail(In(g, c), c, g, Top, root, g.n, g.d, g.n, q, [] + [g.d])
    ensures g.b == 0 && c.In? ==> Trail(In(g, c), a, f, In(g, b), root, g.n, g.d, bp, bq, stack + [g.d])
    ensures g.b == 0 && c.Top? ==> Trail(In(g, c), c, g, Top, root, g.n, g.d, bp, bq, stack + [g.d])
  {
    assert DirsOf(Top) == [] && [g.d] + [] == [g.d];
  }

  /** State of the search loop of kavl_insert. */
  ghost predicate Walking(cmp: Ptr -> int, m: Store, t: Tree, c: Ctx, a: Ctx, f: Frame, b: Ctx, sub: Tree, v: Ptr, cnt: int,
                          path: seq<Ptr>, q: Ptr, which: Dir, bp: Ptr, bq: Ptr, stack: seq<Dir>) {
    && At(cmp, m, t, c, sub, v, cnt) && path == PathOf(c) && |stack| <= |path|
    && Trail(c, a, f, b, RootOf(t), q, which, bp, bq, stack)
  }

  lemma {:induction false} WalkStep(cmp: Ptr -> int, m: Store, t: Tree, c: Ctx, a: Ctx, f: Frame, b: Ctx, sub: Tree, v: Ptr, cnt: int,
                                    path: seq<Ptr>, q: Ptr, which: Dir, bp: Ptr, bq: Ptr, stack: seq<Dir>)
    returns (a': Ctx, f': Frame, b': Ctx)
    requires Walking(cmp, m, t, c, a, f, b, sub, v, cnt, path, q, which, bp, bq, stack)
    requires v != 0 && cmp(v) != 0 && Monotone(cmp, InOrder(t)) && Height(t) < KAVL_MAX_DEPTH
    ensures |path| < KAVL_MAX_DEPTH && |stack| < KAVL_MAX_DEPTH
    ensures sub.Bin? && v in m
    ensures var d := cmp(v) > 0;
            var (bp', bq', stack') := if sub.b != 0 then (v, q, []) else (bp, bq, stack);
            Walking(cmp, m, t, In(FrameOf(sub, d), c), a', f', b', Sub(sub, d), m[v].Child(d),
                    cnt + (if d then Size(sub.l) + 1 else 0), path + [v], v, d, bp', bq', stack' + [d])
  {
    var g := FrameOf(sub, cmp(v) > 0);
    SearchStep(cmp, m, t, c, sub, v, cnt);
    CtxDepth(c, sub);
    TrailStep(c, a, f, b, RootOf(t), q, which, bp, bq, stack, g);
    a', f', b' := if g.b != 0 || c.Top? then c else a, if g.b != 0 || c.Top? then g else f,
    if g.b != 0 || c.Top? then Top else In(g, b);
  }

  /** The search loop of kavl_insert: either a node comparing equal, or the place for x. */
  method InsertSearch(cmp: Ptr -> int, m: Store, root: Ptr, ghost t: Tree)
    returns (v: Ptr, cnt: int, q: Ptr, which: Dir, bp: Ptr, bq: Ptr, stack: seq<Dir>, path: seq<Ptr>,
             ghost a: Ctx, ghost f: Frame, ghost b: Ctx, ghost c: Ctx)
    requires Holds(m, t) && root == RootOf(t) && Avl(t) && Size(t) < SIZE_LIMIT
    requires Monotone(cmp, InOrder(t))
    ensures FoundAt(cmp, InOrder(t), v, cnt)
    ensures v == 0 ==>
              && Plug(c, Leaf) == t && path == PathOf(c) && cnt == |Before(c)|
              && Trail(c, a, f, b, root, q, which, bp, bq, stack)
  {
    AvlDepth(t);
    v, cnt, q, which, stack, path, bp, bq := root, 0, 0, false, [], [], root, 0;
    c, a, f, b := Top, Top, Frame(0, false, Leaf, 0, 0), Top;
    ghost var sub := t;
    while v != 0
      invariant Walking(cmp, m, t, c, a, f, b, sub, v, cnt, path, q, which, bp, bq, stack)
      decreases sub
    {
      NodeFacts(m, sub);
      var r := cmp(v);
      if r == 0 {
        SearchEnd(cmp, m, t, c, sub, v, cnt);
        cnt := cnt + SizeChild(m, v) + 1;
        return;
      }
      a, f, b := WalkStep(cmp, m, t, c, a, f, b, sub, v, cnt, path, q, which, bp, bq, stack);
      assert |path| < KAVL_MAX_DEPTH && |stack| < KAVL_MAX_DEPTH;
      ghost var g := FrameOf(sub, r > 0);
      if r > 0 { cnt := cnt + SizeChild(m, v) + 1; }
      if m[v].balance != 0 { bq, bp, stack := q, v, []; }
      which := r > 0;
      stack := stack + [which];
      path := path + [v];
      c, sub := In(g, c), Sub(sub, which);
      q, v := v, m[v].Child(which);
    }
    SearchEnd(cmp, m, t, c, sub, v, cnt);
  }

  /** The balances along the lower part `d` of the path. */
  method InsertTilt(m0: Store, bp: Ptr, x: Ptr, stack: seq<Dir>, ghost d: Ctx, ghost a: Ctx) returns (m: Store)
    requires Holds(m0, Plug(a, Plug(d, Single(x)))) && d.In?
    requires stack == DirsOf(d) && bp == PathOf(d)[0]
    ensures Holds(m, Plug(a, Plug(TiltAll(d), Single(x))))
    ensures Ptrs(Plug(a, Plug(TiltAll(d), Single(x)))) == Ptrs(Plug(a, Plug(d, Single(x))))
    ensures Frame0(m0, m, Ptrs(Plug(d, Single(x))))
  {
    ghost var X, u := Single(x), Plug(d, Single(x));
    PlugHoldsHole(m0, a, u);
    PathFacts(m0, d, X);
    PathLinked(m0, d, X);
    PlugHoldsHole(m0, d, X);
    assert RootOf(X) == x && x in Ptrs(X);
    m := TiltPath(m0, bp, x, stack, PathOf(d));
    TiltRetag(m0, m, d, X);
    RetagHolds(m0, m, d, TiltAll(d), X, X, set n | n in PathOf(d));
    PtrsOfPlug(a, u);
    PtrsOfPlug(a, Plug(TiltAll(d), X));
    RootsAgree(d, X);
    Replug(m0, m, a, u, Plug(TiltAll(d), X));
  }

  lemma {:induction false} RootsAgree(d: Ctx, t: Tree)
    requires d.In?
    ensures RootOf(Plug(TiltAll(d), t)) == RootOf(Plug(d, t)) == PathOf(d)[0]
  {
    if d.up.In? { RootsAgreeUnder(d.up, Up(d.f, t), Up(Tilt(d.f), t)); }
  }

  lemma {:induction false} RootsAgreeUnder(d: Ctx, t: Tree, t': Tree)
    requires d.In?
    ensures RootOf(Plug(TiltAll(d), t')) == RootOf(Plug(d, t)) == PathOf(d)[0]
  {
    if d.up.In? { RootsAgreeUnder(d.up, Up(d.f, t), Up(Tilt(d.f), t')); }
  }

  /** Links x into the empty place and brings the sizes along the path up to date. */
  method InsertLink(m0: Store, x: Ptr, q: Ptr, which: Dir, path: seq<Ptr>, ghost c: Ctx) returns (m: Store)
    requires Holds(m0, Plug(c, Leaf)) && x != 0 && x in m0 && x !in Ptrs(Plug(c, Leaf))
    requires c.In? && path == PathOf(c) && q == c.f.n && which == c.f.d
    ensures Holds(m, Plug(BumpAll(c, 1), Single(x)))
    ensures Ptrs(Plug(BumpAll(c, 1), Single(x))) == Ptrs(Plug(c, Leaf)) + {x}
    ensures Frame0(m0, m, Ptrs(Plug(c, Leaf)) + {x})
  {
    ghost var X := Single(x);
    ParentFacts(m0, c, Leaf);
    m := m0[x := Cell(0, 0, 0, 1)];
    m := m[q := m[q].SetChild(which, x)];
    Relink(m0, m, c, Leaf, X);
    PtrsOfPlug(c, Leaf);
    PtrsOfPlug(c, X);
    m := ResizePath(m, path, 1, c, X);
  }

  /** The path after the sizes were bumped, cut at the deepest node that was not level. */
  lemma {:induction false} InsertCut(x: Ptr, a: Ctx, f: Frame, b: Ctx)
    ensures var d := Join(BumpAll(b, 1), In(Bump(f, 1), Top));
            && Plug(BumpAll(Join(b, In(f, a)), 1), Single(x)) == Plug(BumpAll(a, 1), Plug(d, Single(x)))
            && Plug(TiltAll(d), Single(x)) == Regrown(x, f, b)
            && d.In? && DirsOf(d) == [f.d] + DirsOf(b) && PathOf(d)[0] == f.n
  {
    var X, a1, f1, b1 := Single(x), BumpAll(a, 1), Bump(f, 1), BumpAll(b, 1);
    var d := Join(b1, In(f1, Top));
    BumpJoin(b, In(f, a), 1);
    PlugJoin(b1, In(f1, a1), X);
    PlugJoin(b1, In(f1, Top), X);
    TiltJoin(b1, In(f1, Top));
    PlugJoin(TiltAll(b1), In(Tilt(f1), Top), X);
    PathJoin(b1, In(f1, Top));
    BumpPath(b, 1);
  }

  /** The tail of kavl_insert: re-balance at bp if needed and hang the result below bq. */
  method InsertFinish(m0: Store, root0: Ptr, x: Ptr, bp: Ptr, bq: Ptr, ghost a: Ctx, ghost f: Frame, ghost b: Ctx)
    returns (m: Store, root: Ptr, ghost t': Tree)
    requires InsertPath(a, f, b) && Holds(m0, Plug(BumpAll(a, 1), Regrown(x, f, b)))
    requires root0 == RootOf(Plug(BumpAll(a, 1), Regrown(x, f, b))) && bp == f.n && bq == Parent(a)
    ensures Holds(m, t') && root == RootOf(t') && Avl(t')
    ensures var c := Join(b, In(f, a)); InOrder(t') == Before(c) + [x] + After(c)
    ensures Frame0(m0, m, Ptrs(Plug(BumpAll(a, 1), Regrown(x, f, b))))
  {
    ghost var u, a1 := Regrown(x, f, b), BumpAll(a, 1);
    PlugHoldsHole(m0, a1, u);
    PlugPtrs(a1, u);
    MkFacts(f.n, f.d, Plug(TiltAll(BumpAll(b, 1)), Single(x)), f.sib, Tilt(f).b, f.s + 1);
    m, root, t' := m0, root0, Plug(a1, u);
    if -2 < m[bp].balance < 2 {
      InsertLight(x, a, f, b);
      InsertOrder(x, a, f, b, u);
      return;
    }
    InsertHeavy(x, a, f, b);
    var r;
    ghost var u';
    m, r, u' := InsertRepair(m0, bp, u);
    InsertOrder(x, a, f, b, u');
    PlugAvl(a1, u');
    t' := Plug(a1, u');
    if a1.In? { ParentFacts(m0, a1, u); }
    if bq == 0 {
      root := r;
    } else {
      m := Hang(m0, m, bq, bp, r, a1, u, u');
      SameRoot(a1, u, u');
    }
  }

  lemma {:induction false} SameRoot(c: Ctx, t: Tree, t': Tree)
    requires c.In?
    ensures RootOf(Plug(c, t')) == RootOf(Plug(c, t))
  {
    if c.up.In? { SameRoot(c.up, Up(c.f, t), Up(c.f, t')); }
  }

  /** The parent bq takes the rebuilt subtree with root r where it had bp. */
  method Hang(m0: Store, m1: Store, bq: Ptr, bp: Ptr, r: Ptr, ghost a: Ctx, ghost u: Tree, ghost u': Tree)
    returns (m: Store)
    requires Holds(m0, Plug(a, u)) && a.In? && a.f.n == bq && RootOf(u) == bp && u.Bin?
    requires Holds(m1, u') && RootOf(u') == r && Ptrs(u') == Ptrs(u) && Frame0(m0, m1, Ptrs(u))
    ensures Holds(m, Plug(a, u')) && Frame0(m0, m, Ptrs(Plug(a, u)))
  {
    ParentFacts(m0, a, u);
    PlugPtrs(a, u);
    PlugHoldsHole(m0, a, u);
    assert (bp != m1[bq].p0) == a.f.d;
    m := m1[bq := m1[bq].SetChild(bp != m1[bq].p0, r)];
    HoldsFrame(m1, m, u');
    Relink(m0, m, a, u, u');
  }

  /** kavl_insert: x enters the tree unless a node compares equal, which is then returned.
      The tree stays AVL with exact balance and size fields; in order, x stands after the
      `cnt` nodes on its left and before all the others. */
  method Insert(cmp: Ptr -> int, m0: Store, root0: Ptr, x: Ptr, ghost t: Tree)
    returns (m: Store, root: Ptr, v: Ptr, cnt: int, ghost t': Tree)
    requires Holds(m0, t) && root0 == RootOf(t) && Avl(t) && Size(t) < SIZE_LIMIT - 1
    requires x != 0 && x in m0 && x !in Ptrs(t) && Monotone(cmp, InOrder(t))
    ensures Holds(m, t') && root == RootOf(t') && Avl(t') && Frame0(m0, m, Ptrs(t) + {x})
    ensures FoundAt(cmp, InOrder(t), if v == x then 0 else v, cnt)
    ensures v != x ==> v != 0 && m == m0 && t' == t
    ensures v == x ==> InOrder(t') == InOrder(t)[..cnt] + [x] + InOrder(t)[cnt..]
  {
    m, root, t' := m0, root0, t;
    var q, which, bp, bq, stack, path;
    ghost var a, f, b, c;
    v, cnt, q, which, bp, bq, stack, path, a, f, b, c := InsertSearch(cmp, m0, root0, t);
    if v != 0 {
      InOrderFacts(t);
      return;
    }
    v := x;
    PlugInOrder(c, Leaf);
    assert InOrder(t)[..cnt] == Before(c) && InOrder(t)[cnt..] == After(c);
    if c.In? { ParentFacts(m0, c, Leaf); }
    if q == 0 {
      m, root, t' := m0[x := Cell(0, 0, 0, 1)], x, Single(x);
      return;
    }
    m := InsertLink(m0, x, q, which, path, c);
    InsertCut(x, a, f, b);
    ghost var d := Join(BumpAll(b, 1), In(Bump(f, 1), Top));
    PlugPtrs(BumpAll(a, 1), Plug(d, Single(x)));
    m := InsertTilt(m, bp, x, stack, d, BumpAll(a, 1));
    RootKept(x, a, f, b);
    m, root, t' := InsertFinish(m, root0, x, bp, bq, a, f, b);
  }

  lemma {:induction false} RootKept(x: Ptr, a: Ctx, f: Frame, b: Ctx)
    ensures RootOf(Plug(BumpAll(a, 1), Regrown(x, f, b))) == RootOf(Plug(Join(b, In(f, a)), Leaf))
  {
    PlugJoin(b, In(f, a), Leaf);
    RootBump(a, Up(f, Plug(b, Leaf)), Regrown(x, f, b), 1);
  }
}
