/** The value-level model behind the intrusive AVL tree of kavl.h.
    A `Tree` records, for every node, the pointer and the fields the C code keeps in it;
    a context (`seq<Frame>`, root first) is the path the iterative code walks, with a hole at
    its end.  Nothing in this module reads or writes the heap. */
module KavlModel {
  import opened Bytes

  type Dir = bool  // false: child p[0], true: child p[1]

  /** What an element is compared by: its bytes and a length (bits or bytes, by comparator). */
  datatype Key = Key(data: seq<Byte>, len: nat)

  /** Ptr addresses; 0 is the null pointer. */
  type Ptr = int

  /** The intrusive head of a node: `p[2], balance, size`. */
  datatype Cell = Cell(p0: Ptr, p1: Ptr, balance: int, size: int) {
    function Child(d: Dir): Ptr { if !d then p0 else p1 }

    function SetChild(d: Dir, c: Ptr): (r: Cell)
      ensures r.Child(d) == c && r.Child(!d) == Child(!d)
      ensures r.balance == balance && r.size == size
    {
      if !d then this.(p0 := c) else this.(p1 := c)
    }
  }

  /** Memory: the heads of the nodes that exist, in or out of a tree. */
  type Store = map<Ptr, Cell>

  datatype Tree = Leaf | Bin(n: Ptr, l: Tree, r: Tree, b: int, s: int)

  /** The node `n` whose child `d` is `near` and whose other child is `far`. */
  ghost function Mk(n: Ptr, d: Dir, near: Tree, far: Tree, b: int, s: int): Tree {
    if !d then Bin(n, near, far, b, s) else Bin(n, far, near, b, s)
  }

  ghost function Sub(t: Tree, d: Dir): Tree
    requires t.Bin?
  {
    if !d then t.l else t.r
  }

  ghost function RootOf(t: Tree): Ptr {
    if t.Leaf? then 0 else t.n
  }

  ghost function SizeField(t: Tree): int {
    if t.Leaf? then 0 else t.s
  }

  ghost function Max(a: int, b: int): int { if a < b then b else a }

  ghost function Height(t: Tree): nat {
    if t.Leaf? then 0 else 1 + Max(Height(t.l), Height(t.r))
  }

  ghost function Size(t: Tree): nat {
    if t.Leaf? then 0 else Size(t.l) + 1 + Size(t.r)
  }

  ghost function InOrder(t: Tree): seq<Ptr> {
    if t.Leaf? then [] else InOrder(t.l) + [t.n] + InOrder(t.r)
  }

  ghost function Ptrs(t: Tree): set<Ptr> {
    if t.Leaf? then {} else Ptrs(t.l) + {t.n} + Ptrs(t.r)
  }

  lemma {:induction false} InOrderFacts(t: Tree)
    ensures |InOrder(t)| == Size(t)
    ensures forall n :: n in InOrder(t) <==> n in Ptrs(t)
  {
    if t.Bin? {
      InOrderFacts(t.l);
      InOrderFacts(t.r);
    }
  }

  /** Balance factor of a node whose child `d` has height `near` and whose other child has
      height `far`: right height minus left height. */
  ghost function Lean(d: Dir, near: int, far: int): int {
    if !d then far - near else near - far
  }

  /** Every balance factor is the height difference and lies in {-1, 0, 1}; every size field
      is the number of nodes below. */
  ghost predicate Avl(t: Tree) {
    t.Bin? ==>
      && Avl(t.l) && Avl(t.r)
      && t.b == Height(t.r) - Height(t.l)
      && -1 <= t.b <= 1
      && t.s == Size(t)
  }

  // ----- contexts -----

  /** A node on the path with the subtree that the path does not enter. */
  datatype Frame = Frame(n: Ptr, d: Dir, sib: Tree, b: int, s: int)

  /** A tree with a hole: the frame just above the hole and what lies above that. */
  datatype Ctx = Top | In(f: Frame, up: Ctx)

  ghost function Up(f: Frame, t: Tree): Tree {
    Mk(f.n, f.d, t, f.sib, f.b, f.s)
  }

  ghost function Plug(c: Ctx, t: Tree): Tree {
    if c.Top? then t else Plug(c.up, Up(c.f, t))
  }

  /** `b` below `a`. */
  ghost function Join(b: Ctx, a: Ctx): Ctx {
    if b.Top? then a else In(b.f, Join(b.up, a))
  }

  ghost function Depth(c: Ctx): nat { if c.Top? then 0 else 1 + Depth(c.up) }

  /** The nodes and directions of the path, root first. */
  ghost function PathOf(c: Ctx): (r: seq<Ptr>)
    ensures |r| == Depth(c)
  {
    if c.Top? then [] else PathOf(c.up) + [c.f.n]
  }

  ghost function DirsOf(c: Ctx): (r: seq<Dir>)
    ensures |r| == Depth(c)
  {
    if c.Top? then [] else DirsOf(c.up) + [c.f.d]
  }

  ghost function Before(c: Ctx): seq<Ptr> {
    if c.Top? then []
    else Before(c.up) + (if c.f.d then InOrder(c.f.sib) + [c.f.n] else [])
  }

  ghost function After(c: Ctx): seq<Ptr> {
    if c.Top? then []
    else (if c.f.d then [] else [c.f.n] + InOrder(c.f.sib)) + After(c.up)
  }

  /** Height and node count of a context around a hole of height `h`, of `k` nodes. */
  ghost function CtxHeight(c: Ctx, h: nat): nat {
    if c.Top? then h else CtxHeight(c.up, 1 + Max(h, Height(c.f.sib)))
  }

  ghost function CtxCount(c: Ctx, k: nat): nat {
    if c.Top? then k else CtxCount(c.up, k + 1 + Size(c.f.sib))
  }

  /** The context is balanced around a hole of height `h`. */
  ghost predicate CtxBal(c: Ctx, h: nat) {
    c.In? ==>
      && Avl(c.f.sib) && c.f.b == Lean(c.f.d, h, Height(c.f.sib)) && -1 <= c.f.b <= 1
      && CtxBal(c.up, 1 + Max(h, Height(c.f.sib)))
  }

  /** The size fields of the context are exact around a hole of `k` nodes. */
  ghost predicate CtxSize(c: Ctx, k: nat) {
    c.In? ==> c.f.s == k + 1 + Size(c.f.sib) && CtxSize(c.up, k + 1 + Size(c.f.sib))
  }

  lemma {:induction false} MkAvl(n: Ptr, d: Dir, near: Tree, far: Tree, b: int, s: int)
    ensures var t := Mk(n, d, near, far, b, s);
            && (Avl(t) <==>
                  && Avl(near) && Avl(far)
                  && b == Lean(d, Height(near), Height(far)) && -1 <= b <= 1
                  && s == Size(near) + 1 + Size(far))
            && Height(t) == 1 + Max(Height(near), Height(far))
            && Size(t) == Size(near) + 1 + Size(far)
  {
  }

  lemma {:induction false} PlugInOrder(c: Ctx, t: Tree)
    ensures InOrder(Plug(c, t)) == Before(c) + InOrder(t) + After(c)
  {
    if c.In? { PlugInOrder(c.up, Up(c.f, t)); }
  }

  lemma {:induction false} PlugMeasure(c: Ctx, t: Tree)
    ensures Height(Plug(c, t)) == CtxHeight(c, Height(t)) && Size(Plug(c, t)) == CtxCount(c, Size(t))
  {
    if c.In? { PlugMeasure(c.up, Up(c.f, t)); }
  }

  lemma {:induction false} PlugAvl(c: Ctx, t: Tree)
    ensures Avl(Plug(c, t)) <==> Avl(t) && CtxBal(c, Height(t)) && CtxSize(c, Size(t))
  {
    if c.In? {
      var f, u := c.f, Up(c.f, t);
      PlugAvl(c.up, u);
      MkAvl(f.n, f.d, t, f.sib, f.b, f.s);
      var h, k := Height(t), Size(t);
      assert CtxBal(c, h) <==> Avl(f.sib) && f.b == Lean(f.d, h, Height(f.sib)) && -1 <= f.b <= 1 && CtxBal(c.up, Height(u));
      assert CtxSize(c, k) <==> f.s == k + 1 + Size(f.sib) && CtxSize(c.up, Size(u));
    }
  }

  lemma {:induction false} PlugJoin(b: Ctx, a: Ctx, t: Tree)
    ensures Plug(Join(b, a), t) == Plug(a, Plug(b, t))
  {
    if b.In? { PlugJoin(b.up, a, Up(b.f, t)); }
  }

  lemma {:induction false} CtxJoin(b: Ctx, a: Ctx, h: nat, k: nat)
    ensures CtxBal(Join(b, a), h) <==> CtxBal(b, h) && CtxBal(a, CtxHeight(b, h))
    ensures CtxSize(Join(b, a), k) <==> CtxSize(b, k) && CtxSize(a, CtxCount(b, k))
    ensures CtxHeight(Join(b, a), h) == CtxHeight(a, CtxHeight(b, h))
  {
    if b.In? { CtxJoin(b.up, a, 1 + Max(h, Height(b.f.sib)), k + 1 + Size(b.f.sib)); }
  }

  lemma {:induction false} SidesJoin(b: Ctx, a: Ctx)
    ensures Before(Join(b, a)) == Before(a) + Before(b)
    ensures After(Join(b, a)) == After(b) + After(a)
  {
    if b.In? { SidesJoin(b.up, a); }
  }

  lemma {:induction false} PathJoin(b: Ctx, a: Ctx)
    ensures PathOf(Join(b, a)) == PathOf(a) + PathOf(b) && DirsOf(Join(b, a)) == DirsOf(a) + DirsOf(b)
  {
    if b.In? { PathJoin(b.up, a); }
  }

  // ----- the depth bound -----

  ghost function Fib(n: nat): nat {
    if n < 2 then n else Fib(n - 1) + Fib(n - 2)
  }

  lemma {:induction false} FibMonotone(m: nat, n: nat)
    requires m <= n
    ensures Fib(m) <= Fib(n)
    decreases n
  {
    if 2 <= n && m < n { FibMonotone(m, n - 1); }
  }

  lemma {:induction false} FibStep(n: nat)
    requires 2 <= n
    ensures Fib(n) == Fib(n - 1) + Fib(n - 2)
  {
  }

  /** An AVL tree of height h has at least Fib(h+2)-1 nodes. */
  lemma {:induction false} AvlMinSize(t: Tree)
    requires Avl(t)
    ensures Fib(Height(t) + 2) - 1 <= Size(t)
  {
    if t.Leaf? {
      assert Fib(2) == 1;
    } else {
      AvlMinSize(t.l);
      AvlMinSize(t.r);
      var h, lo, hi := Height(t), Height(t.l), Height(t.r);
      FibStep(h + 2);
      FibMonotone(h, lo + 2);
      FibMonotone(h, hi + 2);
      assert lo + 2 == h + 1 || hi + 2 == h + 1;
    }
  }

  const SIZE_LIMIT := 0x1_0000_0000
  const KAVL_MAX_DEPTH := 64

  lemma {:induction false} FibJump(n: nat)
    ensures Fib(n + 8) == 13 * Fib(n) + 21 * Fib(n + 1)
    ensures Fib(n + 9) == 21 * Fib(n) + 34 * Fib(n + 1)
  {
    FibStep(n + 2); FibStep(n + 3); FibStep(n + 4); FibStep(n + 5);
    FibStep(n + 6); FibStep(n + 7); FibStep(n + 8); FibStep(n + 9);
  }

  lemma {:induction false} Fib48()
    ensures Fib(48) == 4807526976
  {
    FibJump(0); FibJump(8); FibJump(16); FibJump(24); FibJump(32); FibJump(40);
  }

  /** A tree whose node count fits the 32-bit size field has height at most 45. */
  lemma {:induction false} AvlDepth(t: Tree)
    requires Avl(t) && Size(t) < SIZE_LIMIT
    ensures Height(t) <= 45
  {
    AvlMinSize(t);
    if Height(t) > 45 {
      FibMonotone(48, Height(t) + 2);
      Fib48();
    }
  }

  lemma {:induction false} CtxDepth(c: Ctx, t: Tree)
    ensures Height(Plug(c, t)) >= Depth(c) + Height(t)
  {
    if c.In? { CtxDepth(c.up, Up(c.f, t)); }
  }

  // ----- rotations -----

  ghost function Toward(d: Dir): int { if !d then 1 else -1 }

  /** The shape after rotating the root p of `t` towards `d`: its other child q takes its
      place.  The balance and size fields of the two are given. */
  ghost function Turn(t: Tree, d: Dir, pb: int, ps: int, qb: int, qs: int): Tree
    requires t.Bin? && Sub(t, !d).Bin?
  {
    var q := Sub(t, !d);
    Mk(q.n, d, Mk(t.n, d, Sub(t, d), Sub(q, d), pb, ps), Sub(q, !d), qb, qs)
  }

  /** One rotation, (a,(b,c)q)p => ((a,b)p,c)q, with the size fields kavl computes. */
  ghost function Rot1(t: Tree, d: Dir, pb: int, qb: int): Tree
    requires t.Bin? && Sub(t, !d).Bin?
  {
    var q := Sub(t, !d);
    Turn(t, d, pb, t.s - (q.s - SizeField(Sub(q, d))), qb, t.s)
  }

  ghost predicate CanRot2(t: Tree, d: Dir) {
    t.Bin? && Sub(t, !d).Bin? && Sub(Sub(t, !d), d).Bin?
  }

  /** Two rotations ((a,((b,c)r,e)q)p => ((a,b)p,(c,e)q)r); the balance fields are set too. */
  ghost function Rot2(t: Tree, d: Dir): Tree
    requires CanRot2(t, d)
  {
    var r := Sub(Sub(t, !d), d);
    Mk(r.n, d, Rot2Near(t, d), Rot2Far(t, d), 0, t.s)
  }

  ghost function Rot2Near(t: Tree, d: Dir): Tree
    requires CanRot2(t, d)
  {
    var q := Sub(t, !d);
    var r := Sub(q, d);
    Mk(t.n, d, Sub(t, d), Sub(r, d), if r.b == Toward(d) then -Toward(d) else 0,
       t.s - (q.s - SizeField(Sub(r, d))))
  }

  ghost function Rot2Far(t: Tree, d: Dir): Tree
    requires CanRot2(t, d)
  {
    var q := Sub(t, !d);
    var r := Sub(q, d);
    Mk(q.n, d, Sub(r, !d), Sub(q, !d), if r.b == Toward(d) || r.b == 0 then 0 else Toward(d),
       q.s - (SizeField(Sub(r, d)) + 1))
  }

  lemma {:induction false} MkFacts(n: Ptr, d: Dir, near: Tree, far: Tree, b: int, s: int)
    ensures var t := Mk(n, d, near, far, b, s);
            && Sub(t, d) == near && Sub(t, !d) == far && t.n == n && t.b == b && t.s == s
            && Ptrs(t) == {n} + Ptrs(near) + Ptrs(far)
            && Height(t) == 1 + Max(Height(near), Height(far))
            && Size(t) == Size(near) + 1 + Size(far)
            && InOrder(t) == (if !d then InOrder(near) + [n] + InOrder(far)
                              else InOrder(far) + [n] + InOrder(near))
  {
  }

  lemma {:induction false} Rot1Facts(t: Tree, d: Dir, pb: int, qb: int)
    requires t.Bin? && Sub(t, !d).Bin?
    ensures InOrder(Rot1(t, d, pb, qb)) == InOrder(t)
    ensures Ptrs(Rot1(t, d, pb, qb)) == Ptrs(t)
    ensures Size(Rot1(t, d, pb, qb)) == Size(t)
  {
  }

  lemma {:induction false} Rot2Facts(t: Tree, d: Dir)
    requires CanRot2(t, d)
    ensures InOrder(Rot2(t, d)) == InOrder(t) && Ptrs(Rot2(t, d)) == Ptrs(t)
    ensures Size(Rot2(t, d)) == Size(t)
  {
    var q := Sub(t, !d);
    var r := Sub(q, d);
    if !d {
      Rearrange(InOrder(t.l), t.n, InOrder(r.l), r.n, InOrder(r.r), q.n, InOrder(q.r));
      assert InOrder(q) == (InOrder(r.l) + [r.n] + InOrder(r.r)) + [q.n] + InOrder(q.r);
    } else {
      Rearrange(InOrder(q.l), q.n, InOrder(r.l), r.n, InOrder(r.r), t.n, InOrder(t.r));
      assert InOrder(q) == InOrder(q.l) + [q.n] + (InOrder(r.l) + [r.n] + InOrder(r.r));
    }
    assert Ptrs(q) == Ptrs(Sub(q, !d)) + {q.n} + (Ptrs(r.l) + {r.n} + Ptrs(r.r));
    assert Size(q) == Size(Sub(q, !d)) + 1 + (Size(r.l) + 1 + Size(r.r));
  }

  lemma {:induction false} Rearrange(a: seq<Ptr>, m: Ptr, b: seq<Ptr>, n: Ptr, c: seq<Ptr>, o: Ptr, e: seq<Ptr>)
    ensures a + [m] + ((b + [n] + c) + [o] + e) == (a + [m] + b) + [n] + (c + [o] + e)
    ensures (a + [m] + (b + [n] + c)) + [o] + e == (a + [m] + b) + [n] + (c + [o] + e)
  {
  }

  /** `t` is AVL except that the side away from `d` is two levels higher. */
  ghost predicate Heavy(t: Tree, d: Dir) {
    && t.Bin? && Avl(t.l) && Avl(t.r) && t.s == Size(t)
    && t.b == 2 * Toward(d)
    && Height(Sub(t, !d)) == Height(Sub(t, d)) + 2
  }

  lemma {:induction false} AvlSizeField(t: Tree)
    requires Avl(t)
    ensures SizeField(t) == Size(t)
  {
  }

  /** A single rotation repairs a node whose heavy child leans the same way or not at all. */
  lemma {:induction false} Rot1Avl(t: Tree, d: Dir)
    requires Heavy(t, d) && Sub(t, !d).b != -Toward(d)
    ensures var q := Sub(t, !d);
            var pb := if q.b == 0 then Toward(d) else 0;
            var u := Rot1(t, d, pb, -pb);
            Avl(u) && Height(u) == Height(t) - (if q.b == 0 then 0 else 1)
  {
    var a, q := Sub(t, d), Sub(t, !d);
    var b, c := Sub(q, d), Sub(q, !d);
    var pb := if q.b == 0 then Toward(d) else 0;
    MkAvl(q.n, d, b, c, q.b, q.s);
    AvlSizeField(b);
    var ps := t.s - (q.s - SizeField(b));
    MkAvl(t.n, d, a, b, pb, ps);
    MkAvl(q.n, d, Mk(t.n, d, a, b, pb, ps), c, -pb, t.s);
  }

  lemma {:induction false} Rot2Pieces(d: Dir, t: Tree, a: Tree, q: Tree, r: Tree, b: Tree, c: Tree, e: Tree)
    requires CanRot2(t, d)
    requires a == Sub(t, d) && q == Sub(t, !d) && r == Sub(q, d)
    requires b == Sub(r, d) && c == Sub(r, !d) && e == Sub(q, !d)
    requires Avl(a) && Avl(b) && Avl(c) && Avl(e)
    requires Height(a) == Height(e) == Max(Height(b), Height(c))
    requires r.b == Lean(d, Height(b), Height(c)) && -1 <= r.b <= 1
    requires q.s == Size(b) + 1 + Size(c) + 1 + Size(e) && t.s == Size(a) + 1 + q.s
    ensures Avl(Rot2(t, d)) && Height(Rot2(t, d)) == Height(a) + 2
  {
    AvlSizeField(b);
    var p, v := Rot2Near(t, d), Rot2Far(t, d);
    assert Avl(p) && Height(p) == Height(a) + 1 && Size(p) == Size(a) + 1 + Size(b) by {
      MkAvl(t.n, d, a, b, p.b, p.s);
    }
    assert Avl(v) && Height(v) == Height(e) + 1 && Size(v) == Size(c) + 1 + Size(e) by {
      MkAvl(q.n, d, c, e, v.b, v.s);
    }
    MkAvl(r.n, d, p, v, 0, t.s);
  }

  /** A double rotation repairs a node whose heavy child leans the other way. */
  lemma {:induction false} Rot2Avl(t: Tree, d: Dir)
    requires Heavy(t, d) && Sub(t, !d).b == -Toward(d)
    ensures CanRot2(t, d) && Avl(Rot2(t, d)) && Height(Rot2(t, d)) == Height(t) - 1
  {
    var q := Sub(t, !d);
    var r := Sub(q, d);
    MkAvl(q.n, d, r, Sub(q, !d), q.b, q.s);
    assert r.Bin?;
    MkAvl(r.n, d, Sub(r, d), Sub(r, !d), r.b, r.s);
    Rot2Pieces(d, t, Sub(t, d), q, r, Sub(r, d), Sub(r, !d), Sub(q, !d));
  }

  // ----- searching -----

  ghost function Sgn(i: int): int { if i < 0 then -1 else if i == 0 then 0 else 1 }

  /** What a binary search for x needs of the comparator `p => cmp(x, p)`: along the nodes in
      order its sign only falls.  (It need not come from an equivalence.) */
  ghost predicate Monotone(cmp: Ptr -> int, s: seq<Ptr>) {
    forall i, j :: 0 <= i < j < |s| ==> Sgn(cmp(s[i])) >= Sgn(cmp(s[j]))
  }

  ghost predicate AllAbove(cmp: Ptr -> int, s: seq<Ptr>) { forall i :: 0 <= i < |s| ==> cmp(s[i]) > 0 }
  ghost predicate AllBelow(cmp: Ptr -> int, s: seq<Ptr>) { forall i :: 0 <= i < |s| ==> cmp(s[i]) < 0 }

  /** The nodes before the hole of `c` are on the left of x and those after it on the right. */
  ghost predicate Narrowed(cmp: Ptr -> int, c: Ctx) {
    AllAbove(cmp, Before(c)) && AllBelow(cmp, After(c))
  }

  /** The frame left behind when the walk goes from `t` to its child `d`. */
  ghost function FrameOf(t: Tree, d: Dir): Frame
    requires t.Bin?
  {
    Frame(t.n, d, Sub(t, !d), t.b, t.s)
  }

  lemma {:induction false} MonotoneParts(cmp: Ptr -> int, a: seq<Ptr>, l: seq<Ptr>, n: Ptr, r: seq<Ptr>, b: seq<Ptr>)
    requires Monotone(cmp, a + (l + [n] + r) + b)
    ensures cmp(n) > 0 ==> AllAbove(cmp, l)
    ensures cmp(n) < 0 ==> AllBelow(cmp, r)
  {
    var s, k := a + (l + [n] + r) + b, |a| + |l|;
    assert s[k] == n;
    forall i | 0 <= i < |l| ensures cmp(n) > 0 ==> cmp(l[i]) > 0 {
      assert s[|a| + i] == l[i];
    }
    forall i | 0 <= i < |r| ensures cmp(n) < 0 ==> cmp(r[i]) < 0 {
      assert s[k + 1 + i] == r[i];
    }
  }

  lemma {:induction false} DescendNarrows(cmp: Ptr -> int, c: Ctx, t: Tree)
    requires t.Bin? && cmp(t.n) != 0 && Narrowed(cmp, c) && Monotone(cmp, InOrder(Plug(c, t)))
    ensures Narrowed(cmp, In(FrameOf(t, cmp(t.n) > 0), c))
  {
    PlugInOrder(c, t);
    MonotoneParts(cmp, Before(c), InOrder(t.l), t.n, InOrder(t.r), After(c));
  }

  // ----- the balance argument of an insertion -----

  ghost function Bump(f: Frame, delta: int): Frame { f.(s := f.s + delta) }
  ghost function Tilt(f: Frame): Frame { f.(b := f.b + (if f.d then 1 else -1)) }

  ghost function BumpAll(c: Ctx, delta: int): Ctx {
    if c.Top? then Top else In(Bump(c.f, delta), BumpAll(c.up, delta))
  }

  ghost function TiltAll(c: Ctx): Ctx {
    if c.Top? then Top else In(Tilt(c.f), TiltAll(c.up))
  }

  ghost predicate Level(c: Ctx) {
    c.In? ==> c.f.b == 0 && Level(c.up)
  }

  lemma {:induction false} BumpCtx(c: Ctx, h: nat, k: nat, delta: int)
    requires k + delta >= 0
    ensures CtxBal(BumpAll(c, delta), h) <==> CtxBal(c, h)
    ensures CtxHeight(BumpAll(c, delta), h) == CtxHeight(c, h)
    ensures CtxSize(BumpAll(c, delta), k + delta) <==> CtxSize(c, k)
    ensures Before(BumpAll(c, delta)) == Before(c) && After(BumpAll(c, delta)) == After(c)
  {
    if c.In? { BumpCtx(c.up, 1 + Max(h, Height(c.f.sib)), k + 1 + Size(c.f.sib), delta); }
  }

  lemma {:induction false} BumpJoin(b: Ctx, a: Ctx, delta: int)
    ensures BumpAll(Join(b, a), delta) == Join(BumpAll(b, delta), BumpAll(a, delta))
  {
    if b.In? { BumpJoin(b.up, a, delta); }
  }

  lemma {:induction false} TiltJoin(b: Ctx, a: Ctx)
    ensures TiltAll(Join(b, a)) == Join(TiltAll(b), TiltAll(a))
  {
    if b.In? { TiltJoin(b.up, a); }
  }

  lemma {:induction false} BumpPath(c: Ctx, delta: int)
    ensures PathOf(BumpAll(c, delta)) == PathOf(c) && DirsOf(BumpAll(c, delta)) == DirsOf(c)
  {
    if c.In? { BumpPath(c.up, delta); }
  }

  lemma {:induction false} TiltCtx(c: Ctx, k: nat)
    ensures CtxSize(TiltAll(c), k) <==> CtxSize(c, k)
    ensures CtxCount(TiltAll(c), k) == CtxCount(c, k)
    ensures Before(TiltAll(c)) == Before(c) && After(TiltAll(c)) == After(c)
  {
    if c.In? { TiltCtx(c.up, k + 1 + Size(c.f.sib)); }
  }

  /** Level frames below the growing hole lean towards it and grow by one themselves. */
  lemma {:induction false} GrowLevel(c: Ctx, h: nat)
    requires Level(c) && CtxBal(c, h)
    ensures CtxBal(TiltAll(c), h + 1) && CtxHeight(TiltAll(c), h + 1) == CtxHeight(c, h) + 1
  {
    if c.In? { GrowLevel(c.up, 1 + Max(h, Height(c.f.sib))); }
  }

  ghost function Single(x: Ptr): Tree { Bin(x, Leaf, Leaf, 0, 1) }

  /** The root of a tree that has a frame is one of the frames. */
  lemma {:induction false} TiltedTop(c: Ctx, t: Tree)
    requires Level(c) && c.In?
    ensures Plug(TiltAll(c), t).Bin? && Plug(TiltAll(c), t).b != 0
  {
    if c.up.In? { TiltedTop(c.up, Up(Tilt(c.f), t)); }
  }

  /** The subtree below the deepest node that was not level has grown by one level. */
  lemma {:induction false} GrownBelow(x: Ptr, b: Ctx)
    requires Level(b) && CtxBal(b, 0) && CtxSize(b, 0)
    ensures var v, h := Plug(TiltAll(BumpAll(b, 1)), Single(x)), CtxHeight(b, 0);
            && Avl(v) && Height(v) == h + 1 && Size(v) == CtxCount(b, 0) + 1 && (h > 0 ==> v.b != 0)
  {
    var b1 := BumpAll(b, 1);
    BumpCtx(b, 0, 0, 1);
    LevelBump(b);
    GrowLevel(b1, 0);
    TiltCtx(b1, 1);
    CountBump(b, 0);
    PlugAvl(TiltAll(b1), Single(x));
    PlugMeasure(TiltAll(b1), Single(x));
    if b.In? { TiltedTop(b1, Single(x)); }
  }

  lemma {:induction false} LevelBump(c: Ctx)
    requires Level(c)
    ensures Level(BumpAll(c, 1))
  {
    if c.In? { LevelBump(c.up); }
  }

  lemma {:induction false} CountBump(c: Ctx, k: nat)
    ensures CtxCount(BumpAll(c, 1), k + 1) == CtxCount(c, k) + 1
  {
    if c.In? { CountBump(c.up, k + 1 + Size(c.f.sib)); }
  }

  /** The deepest node that was not level, once the subtree on its path has grown from height
      `h`: it is within bounds, or two levels askew. */
  lemma {:induction false} InsertTop(f: Frame, v: Tree, h: nat)
    requires Avl(f.sib) && f.b == Lean(f.d, h, Height(f.sib)) && -1 <= f.b <= 1
    requires Avl(v) && Height(v) == h + 1 && f.s == Size(v) + 1 + Size(f.sib)
    ensures var u, was := Up(Tilt(f), v), 1 + Max(h, Height(f.sib));
            && u.b == Tilt(f).b && -2 <= u.b <= 2 && Size(u) == f.s
            && (-2 < u.b < 2 ==> Avl(u) && (f.b != 0 ==> Height(u) == was))
            && (u.b == 2 || u.b == -2 ==>
                  Heavy(u, u.b < 0) && Height(u) - 1 == was && Sub(u, u.b > 0) == v && h > 0)
  {
    var g := Tilt(f);
    MkAvl(g.n, g.d, v, g.sib, g.b, g.s);
    MkFacts(g.n, g.d, v, g.sib, g.b, g.s);
  }

  /** The subtree at the deepest node that was not level, after sizes and balances were updated. */
  ghost function Regrown(x: Ptr, f: Frame, b: Ctx): Tree {
    Up(Tilt(Bump(f, 1)), Plug(TiltAll(BumpAll(b, 1)), Single(x)))
  }

  /** The path to the empty place: `a`, then `f`, then the level frames `b`; `f` is the deepest
      frame that is not level, or the first. */
  ghost predicate InsertPath(a: Ctx, f: Frame, b: Ctx) {
    Avl(Plug(Join(b, In(f, a)), Leaf)) && Level(b) && (a.Top? || f.b != 0)
  }

  /** If the node of `f` is within bounds after the update, the whole tree is AVL. */
  lemma {:induction false} InsertLight(x: Ptr, a: Ctx, f: Frame, b: Ctx)
    requires InsertPath(a, f, b) && -2 < Tilt(f).b < 2
    ensures Avl(Plug(BumpAll(a, 1), Regrown(x, f, b)))
  {
    InsertPieces(a, f, b);
    GrownBelow(x, b);
    var h := CtxHeight(b, 0);
    InsertTop(Bump(f, 1), Plug(TiltAll(BumpAll(b, 1)), Single(x)), h);
    var u := Regrown(x, f, b);
    if a.In? { assert Height(u) == 1 + Max(h, Height(f.sib)); }
    PlugAvl(BumpAll(a, 1), u);
  }

  /** Otherwise it is two levels askew, and the frames above suit a subtree one level lower. */
  lemma {:induction false} InsertHeavy(x: Ptr, a: Ctx, f: Frame, b: Ctx)
    requires InsertPath(a, f, b) && !(-2 < Tilt(f).b < 2)
    ensures var u, a1 := Regrown(x, f, b), BumpAll(a, 1);
            && Heavy(u, u.b < 0) && Sub(u, u.b > 0).b != 0
            && CtxBal(a1, Height(u) - 1) && CtxSize(a1, Size(u))
  {
    InsertPieces(a, f, b);
    GrownBelow(x, b);
    InsertTop(Bump(f, 1), Plug(TiltAll(BumpAll(b, 1)), Single(x)), CtxHeight(b, 0));
  }

  lemma {:induction false} InsertPieces(a: Ctx, f: Frame, b: Ctx)
    requires Avl(Plug(Join(b, In(f, a)), Leaf))
    ensures var h, k := CtxHeight(b, 0), CtxCount(b, 0);
            && CtxBal(b, 0) && CtxSize(b, 0)
            && Avl(f.sib) && f.b == Lean(f.d, h, Height(f.sib)) && -1 <= f.b <= 1 && f.s == k + 1 + Size(f.sib)
            && CtxBal(BumpAll(a, 1), 1 + Max(h, Height(f.sib))) && CtxSize(BumpAll(a, 1), f.s + 1)
  {
    PlugAvl(Join(b, In(f, a)), Leaf);
    CtxJoin(b, In(f, a), 0, 0);
    FrameAbove(a, f, CtxHeight(b, 0), CtxCount(b, 0));
  }

  lemma {:induction false} FrameAbove(a: Ctx, f: Frame, h: nat, k: nat)
    requires CtxBal(In(f, a), h) && CtxSize(In(f, a), k)
    ensures Avl(f.sib) && f.b == Lean(f.d, h, Height(f.sib)) && -1 <= f.b <= 1 && f.s == k + 1 + Size(f.sib)
    ensures CtxBal(BumpAll(a, 1), 1 + Max(h, Height(f.sib))) && CtxSize(BumpAll(a, 1), f.s + 1)
  {
    BumpCtx(a, 1 + Max(h, Height(f.sib)), f.s, 1);
  }

  lemma {:induction false} RegrownOrder(x: Ptr, f: Frame, b: Ctx)
    ensures InOrder(Regrown(x, f, b)) ==
            (if f.d then InOrder(f.sib) + [f.n] else []) + (Before(b) + [x] + After(b))
            + (if f.d then [] else [f.n] + InOrder(f.sib))
  {
    var v, g := Plug(TiltAll(BumpAll(b, 1)), Single(x)), Tilt(Bump(f, 1));
    assert InOrder(v) == Before(b) + [x] + After(b) by {
      PlugInOrder(TiltAll(BumpAll(b, 1)), Single(x));
      TiltCtx(BumpAll(b, 1), 0);
      BumpCtx(b, 0, 0, 1);
    }
    MkFacts(g.n, g.d, v, g.sib, g.b, g.s);
  }

  lemma {:induction false} Regroup(a: seq<Ptr>, l: seq<Ptr>, p: seq<Ptr>, x: seq<Ptr>, q: seq<Ptr>, r: seq<Ptr>, z: seq<Ptr>)
    ensures a + (l + (p + x + q) + r) + z == ((a + l) + p) + x + (q + (r + z))
  {
  }

  lemma {:induction false} InsertOrder(x: Ptr, a: Ctx, f: Frame, b: Ctx, u': Tree)
    requires InOrder(u') == InOrder(Regrown(x, f, b))
    ensures var c := Join(b, In(f, a));
            InOrder(Plug(BumpAll(a, 1), u')) == Before(c) + [x] + After(c)
  {
    PlugInOrder(BumpAll(a, 1), u');
    BumpCtx(a, 0, 0, 1);
    RegrownOrder(x, f, b);
    SidesJoin(b, In(f, a));
    var l := if f.d then InOrder(f.sib) + [f.n] else [];
    var r := if f.d then [] else [f.n] + InOrder(f.sib);
    Regroup(Before(a), l, Before(b), [x], After(b), r, After(a));
  }

  // ----- the balance argument of an erasure -----

  /** The frame after its side `d` has lost a level. */
  ghost function Lighten(f: Frame): Frame { f.(b := f.b + Toward(f.d)) }

  /** One step of the way up: the subtree `h` has lost a level.  Either the node stays within
      bounds, and keeps or loses its own height, or it must be rotated towards the short side. */
  lemma {:induction false} EraseTop(f: Frame, h: Tree)
    requires Avl(h) && CtxBal(In(f, Top), Height(h) + 1) && CtxSize(In(f, Top), Size(h))
    ensures var u, was := Up(Lighten(f), h), 1 + Max(Height(h) + 1, Height(f.sib));
            && u.b == Lighten(f).b && Size(u) == f.s
            && (f.b == 0 ==> Avl(u) && Height(u) == was)
            && (u.b == 0 ==> Avl(u) && Height(u) == was - 1)
            && (f.b == Toward(f.d) ==> Heavy(u, f.d) && Height(u) == was && Sub(u, !f.d) == f.sib)
            && (f.b == 0 || u.b == 0 || f.b == Toward(f.d))
  {
    var g := Lighten(f);
    MkAvl(g.n, g.d, h, g.sib, g.b, g.s);
    MkFacts(g.n, g.d, h, g.sib, g.b, g.s);
  }

  ghost predicate LeftSpine(cc: Ctx) {
    cc.In? ==> !cc.f.d && LeftSpine(cc.up)
  }

  /** The leftmost node `s` of the right subtree of `t`, reached by `cc`. */
  ghost predicate Successor(t: Tree, cc: Ctx, s: Tree) {
    && t.Bin? && t.r == Plug(cc, s) && s.Bin? && s.l == Leaf && LeftSpine(cc)
  }

  /** The frame of the successor once it stands in the place of the root of `t`. */
  ghost function SuccFrame(t: Tree, s: Tree): Frame
    requires t.Bin? && s.Bin?
  {
    Frame(s.n, true, t.l, t.b, t.s - 1)
  }

  /** The path after the successor has moved up, `c` being the path to the erased node. */
  ghost function SuccPath(c: Ctx, t: Tree, cc: Ctx, s: Tree): Ctx
    requires t.Bin? && s.Bin?
  {
    Join(BumpAll(cc, -1), In(SuccFrame(t, s), BumpAll(c, -1)))
  }

  lemma {:induction false} SuccessorTail(t: Tree, cc: Ctx, s: Tree)
    requires Successor(t, cc, s) && Avl(t)
    ensures Avl(s.r) && CtxBal(BumpAll(cc, -1), Height(s.r) + 1) && CtxSize(BumpAll(cc, -1), Size(s.r))
    ensures CtxHeight(BumpAll(cc, -1), Height(s.r) + 1) == Height(t.r)
    ensures CtxCount(BumpAll(cc, -1), Size(s.r)) == Size(t.r) - 1
  {
    PlugAvl(cc, s);
    PlugMeasure(cc, s);
    BumpCtx(cc, Height(s), Size(s), -1);
    CountDrop(cc, Size(s.r));
  }

  lemma {:induction false} CountDrop(c: Ctx, k: nat)
    ensures CtxCount(BumpAll(c, -1), k) == CtxCount(c, k + 1) - 1
  {
    if c.In? { CountDrop(c.up, k + 1 + Size(c.f.sib)); }
  }

  /** Balance factors above the hole still count the level the erasure took away; sizes do not. */
  lemma {:induction false} SuccessorBalance(c: Ctx, t: Tree, cc: Ctx, s: Tree)
    requires Successor(t, cc, s) && Avl(Plug(c, t))
    ensures var c2 := SuccPath(c, t, cc, s);
            Avl(s.r) && CtxBal(c2, Height(s.r) + 1) && CtxSize(c2, Size(s.r))
  {
    AboveErased(c, t);
    SuccessorTail(t, cc, s);
    SuccessorFrame(BumpAll(c, -1), t, s);
    CtxJoinIntro(BumpAll(cc, -1), In(SuccFrame(t, s), BumpAll(c, -1)), Height(s.r) + 1, Size(s.r));
  }

  lemma {:induction false} CtxJoinIntro(b: Ctx, a: Ctx, h: nat, k: nat)
    requires CtxBal(b, h) && CtxBal(a, CtxHeight(b, h)) && CtxSize(b, k) && CtxSize(a, CtxCount(b, k))
    ensures CtxBal(Join(b, a), h) && CtxSize(Join(b, a), k)
  {
    CtxJoin(b, a, h, k);
  }

  lemma {:induction false} SuccessorFrame(c1: Ctx, t: Tree, s: Tree)
    requires t.Bin? && s.Bin? && Avl(t) && CtxBal(c1, Height(t)) && CtxSize(c1, Size(t) - 1) && Size(t.r) > 0
    ensures CtxBal(In(SuccFrame(t, s), c1), Height(t.r)) && CtxSize(In(SuccFrame(t, s), c1), Size(t.r) - 1)
  {
  }

  lemma {:induction false} AboveErased(c: Ctx, t: Tree)
    requires t.Bin? && Avl(Plug(c, t))
    ensures Avl(t) && CtxBal(BumpAll(c, -1), Height(t)) && CtxSize(BumpAll(c, -1), Size(t) - 1)
  {
    PlugAvl(c, t);
    BumpCtx(c, Height(t), Size(t), -1);
  }

  lemma {:induction false} NoSuccessorBalance(c: Ctx, t: Tree)
    requires t.Bin? && t.r == Leaf && Avl(Plug(c, t))
    ensures Avl(t.l) && CtxBal(BumpAll(c, -1), Height(t.l) + 1) && CtxSize(BumpAll(c, -1), Size(t.l))
  {
    AboveErased(c, t);
  }

  lemma {:induction false} SpineBefore(cc: Ctx)
    requires LeftSpine(cc)
    ensures Before(cc) == []
  {
    if cc.In? { SpineBefore(cc.up); }
  }

  lemma {:induction false} RegroupErase(a: seq<Ptr>, l: seq<Ptr>, n: Ptr, r: seq<Ptr>, z: seq<Ptr>, b: seq<Ptr>)
    ensures ((a + (l + [n])) + []) + r + (z + ([] + b)) == a + (l + ([n] + r + z)) + b
  {
  }

  /** In order, the erased node is the only one missing. */
  lemma {:induction false} SuccessorOrder(c: Ctx, t: Tree, cc: Ctx, s: Tree)
    requires Successor(t, cc, s)
    ensures InOrder(Plug(SuccPath(c, t, cc, s), s.r)) == Before(c) + (InOrder(t.l) + InOrder(t.r)) + After(c)
  {
    var f, cc1, c1 := SuccFrame(t, s), BumpAll(cc, -1), BumpAll(c, -1);
    assert InOrder(t.r) == [s.n] + InOrder(s.r) + After(cc) by {
      SpineBefore(cc);
      PlugInOrder(cc, s);
    }
    PlugInOrder(SuccPath(c, t, cc, s), s.r);
    SidesJoin(cc1, In(f, c1));
    BumpCtx(cc, 0, 1, -1);
    BumpCtx(c, 0, 1, -1);
    SpineBefore(cc);
    RegroupErase(Before(c), InOrder(t.l), s.n, InOrder(s.r), After(cc), After(c));
  }

  lemma {:induction false} NoSuccessorOrder(c: Ctx, t: Tree)
    requires t.Bin? && t.r == Leaf
    ensures InOrder(Plug(BumpAll(c, -1), t.l)) == Before(c) + (InOrder(t.l) + InOrder(t.r)) + After(c)
  {
    PlugInOrder(BumpAll(c, -1), t.l);
    BumpCtx(c, 0, 1, -1);
    assert InOrder(t.l) + InOrder(t.r) == InOrder(t.l);
  }
}
