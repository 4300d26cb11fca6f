/** The prefix sets built on the AVL tree: kavl_bit_add / get / delete of pools.c and the
    CMP_BITS pools of mpool.c, which also count their elements. */
module PrefixSet {
  import Sequences
  import opened KavlModel
  import opened Kavl
  import opened KavlErase
  import opened PrefixOrder

  type Prefix = seq<int>

  // ----- what the set means -----

  /** No stored prefix covers another. */
  ghost predicate Antichain(ps: set<Prefix>) {
    forall p, q :: p in ps && q in ps && p != q ==> !Overlap(p, q)
  }

  ghost predicate Covered(ps: set<Prefix>, a: Prefix) {
    exists p :: p in ps && p <= a
  }

  /** Adding a prefix: nothing if it is covered already, else it replaces those it covers. */
  ghost function AddPrefix(ps: set<Prefix>, b: Prefix): set<Prefix> {
    if Covered(ps, b) then ps else (set p | p in ps && !(b <= p)) + {b}
  }

  ghost function AddAll(bs: seq<Prefix>): set<Prefix> {
    if bs == [] then {} else AddPrefix(AddAll(bs[..|bs| - 1]), bs[|bs| - 1])
  }

  lemma {:induction false} AddPrefixMeaning(ps: set<Prefix>, b: Prefix, a: Prefix)
    ensures Antichain(ps) ==> Antichain(AddPrefix(ps, b))
    ensures Covered(AddPrefix(ps, b), a) <==> Covered(ps, a) || b <= a
  {
    var ps' := AddPrefix(ps, b);
    if Covered(ps, b) {
      var p :| p in ps && p <= b;
      if b <= a { assert p <= a; }
    } else {
      assert b in ps';
      if Covered(ps, a) && !(b <= a) {
        var p :| p in ps && p <= a;
        assert p in ps';
      }
    }
  }

  /** After any sequence of additions the stored prefixes are pairwise non-overlapping, and an
      address is covered exactly when one of the added prefixes covers it. */
  lemma {:induction false} AddAllMeaning(bs: seq<Prefix>, a: Prefix)
    ensures Antichain(AddAll(bs))
    ensures Covered(AddAll(bs), a) <==> exists i :: 0 <= i < |bs| && bs[i] <= a
  {
    if bs != [] {
      var n := |bs| - 1;
      AddAllMeaning(bs[..n], a);
      AddPrefixMeaning(AddAll(bs[..n]), bs[n], a);
      if Covered(AddAll(bs[..n]), a) {
        var i :| 0 <= i < n && bs[..n][i] <= a;
        assert bs[i] <= a;
      }
      if i :| 0 <= i < |bs| && bs[i] <= a {
        assert i < n ==> bs[..n][i] <= a;
      }
    }
  }

  ghost function AllBits(ks: seq<Key>): (r: seq<Prefix>)
    requires forall i :: 0 <= i < |ks| ==> ValidKey(ks[i])
    ensures |r| == |ks| && forall i :: 0 <= i < |ks| ==> r[i] == Bits(ks[i])
  {
    seq(|ks|, i requires 0 <= i < |ks| => Bits(ks[i]))
  }

  lemma {:induction false} AllBitsSnoc(ks: seq<Key>, n: nat)
    requires n < |ks| && forall i :: 0 <= i < |ks| ==> ValidKey(ks[i])
    ensures AddAll(AllBits(ks[..n + 1])) == AddPrefix(AddAll(AllBits(ks[..n])), Bits(ks[n]))
  {
    var bs := AllBits(ks[..n + 1]);
    assert bs[..n] == AllBits(ks[..n]) && bs[n] == Bits(ks[n]);
  }

  lemma {:induction false} AddAllStored(bs: seq<Prefix>)
    ensures forall p :: p in AddAll(bs) ==> p in bs
  {
    if bs != [] {
      var n := |bs| - 1;
      AddAllStored(bs[..n]);
      assert bs == bs[..n] + [bs[n]];
    }
  }

  lemma {:induction false} AddAllCovers(ks: seq<Key>, a: Key)
    requires ValidKey(a) && forall i :: 0 <= i < |ks| ==> ValidKey(ks[i]) && ks[i].len <= a.len
    ensures forall p :: p in AddAll(AllBits(ks)) ==> |p| <= a.len
    ensures Covered(AddAll(AllBits(ks)), Bits(a)) <==> exists i :: 0 <= i < |ks| && Bits(ks[i]) <= Bits(a)
  {
    var bs := AllBits(ks);
    AddAllStored(bs);
    AddAllMeaning(bs, Bits(a));
    if i :| 0 <= i < |ks| && Bits(ks[i]) <= Bits(a) { assert bs[i] <= Bits(a); }
  }

  /** An address as long as any stored prefix meets a stored prefix only by being covered. */
  lemma {:induction false} FullAddress(ps: set<Prefix>, a: Prefix)
    requires forall p :: p in ps ==> |p| <= |a|
    ensures (exists p :: p in ps && Overlap(a, p)) <==> Covered(ps, a)
  {
    if p :| p in ps && Overlap(a, p) {
      assert p <= a;
    }
    if Covered(ps, a) {
      var p :| p in ps && p <= a;
      assert Overlap(a, p);
    }
  }

  // ----- the order of the nodes -----

  function CmpWith(k: Key, keys: map<Ptr, Key>): Ptr -> int
    requires k.len <= 8 * |k.data|
  {
    (p: Ptr) => if p in keys && keys[p].len <= 8 * |keys[p].data| then BitCmp(k, keys[p]) else 1
  }

  ghost predicate Keyed(keys: map<Ptr, Key>, s: seq<Ptr>) {
    forall i :: 0 <= i < |s| ==> s[i] in keys && ValidKey(keys[s[i]])
  }

  ghost function BitsAt(keys: map<Ptr, Key>, p: Ptr): Prefix {
    if p in keys && ValidKey(keys[p]) then Bits(keys[p]) else []
  }

  /** Earlier nodes lie before later ones in the first bit where they differ. */
  ghost predicate Ordered(keys: map<Ptr, Key>, s: seq<Ptr>) {
    forall i, j :: 0 <= i < j < |s| ==> Less(BitsAt(keys, s[i]), BitsAt(keys, s[j]))
  }

  lemma {:induction false} CmpMeaning(k: Key, keys: map<Ptr, Key>, p: Ptr)
    requires ValidKey(k) && p in keys && ValidKey(keys[p])
    ensures CmpWith(k, keys)(p) < 0 <==> Less(Bits(k), BitsAt(keys, p))
    ensures CmpWith(k, keys)(p) > 0 <==> Less(BitsAt(keys, p), Bits(k))
    ensures CmpWith(k, keys)(p) == 0 <==> Overlap(Bits(k), BitsAt(keys, p))
  {
    BitCmpMeaning(k, keys[p]);
  }

  /** Although "compares equal" is no equivalence, a search among pairwise non-overlapping
      prefixes always goes the right way. */
  lemma {:induction false} OrderedMonotone(k: Key, keys: map<Ptr, Key>, s: seq<Ptr>)
    requires ValidKey(k) && Keyed(keys, s) && Ordered(keys, s)
    ensures Monotone(CmpWith(k, keys), s)
  {
    var cmp := CmpWith(k, keys);
    forall i, j | 0 <= i < j < |s| ensures Sgn(cmp(s[i])) >= Sgn(cmp(s[j])) {
      CmpMeaning(k, keys, s[i]);
      CmpMeaning(k, keys, s[j]);
      assert Less(BitsAt(keys, s[i]), BitsAt(keys, s[j]));
      if cmp(s[i]) < 0 { LessTransitive(Bits(k), BitsAt(keys, s[i]), BitsAt(keys, s[j])); }
      if cmp(s[j]) > 0 { LessTransitive(BitsAt(keys, s[i]), BitsAt(keys, s[j]), Bits(k)); }
    }
  }

  lemma {:induction false} OrderedInsert(keys: map<Ptr, Key>, s: seq<Ptr>, e: Ptr, cnt: int)
    requires Keyed(keys, s) && Ordered(keys, s) && e in keys && ValidKey(keys[e])
    requires FoundAt(CmpWith(keys[e], keys), s, 0, cnt)
    ensures var s' := s[..cnt] + [e] + s[cnt..]; Keyed(keys, s') && Ordered(keys, s')
  {
    var s', cmp := s[..cnt] + [e] + s[cnt..], CmpWith(keys[e], keys);
    forall i, j | 0 <= i < j < |s'| ensures Less(BitsAt(keys, s'[i]), BitsAt(keys, s'[j])) {
      if i < cnt && j == cnt {
        assert cmp(s[..cnt][i]) > 0;
        CmpMeaning(keys[e], keys, s[i]);
      } else if i == cnt {
        assert cmp(s[cnt..][j - cnt - 1]) < 0;
        CmpMeaning(keys[e], keys, s[j - 1]);
      }
    }
  }

  lemma {:induction false} OrderedErase(keys: map<Ptr, Key>, s: seq<Ptr>, cnt: int)
    requires Keyed(keys, s) && Ordered(keys, s) && 0 < cnt <= |s|
    ensures var s' := s[..cnt - 1] + s[cnt..]; Keyed(keys, s') && Ordered(keys, s')
  {
    var s' := s[..cnt - 1] + s[cnt..];
    assert forall i :: 0 <= i < |s'| ==> s'[i] == s[if i < cnt - 1 then i else i + 1];
  }

  ghost function PrefixesOf(keys: map<Ptr, Key>, s: seq<Ptr>): set<Prefix> {
    set i | 0 <= i < |s| :: BitsAt(keys, s[i])
  }

  lemma {:induction false} OrderedAntichain(keys: map<Ptr, Key>, s: seq<Ptr>)
    requires Ordered(keys, s)
    ensures Antichain(PrefixesOf(keys, s))
  {
    var ps := PrefixesOf(keys, s);
    forall p, q | p in ps && q in ps && p != q ensures !Overlap(p, q) {
      var i :| 0 <= i < |s| && BitsAt(keys, s[i]) == p;
      var j :| 0 <= j < |s| && BitsAt(keys, s[j]) == q;
      if i < j { LessNotOverlap(p, q); } else { LessNotOverlap(q, p); }
    }
  }

  lemma {:induction false} PrefixesInsert(keys: map<Ptr, Key>, s: seq<Ptr>, e: Ptr, cnt: int)
    requires 0 <= cnt <= |s|
    ensures PrefixesOf(keys, s[..cnt] + [e] + s[cnt..]) == PrefixesOf(keys, s) + {BitsAt(keys, e)}
  {
    var s' := s[..cnt] + [e] + s[cnt..];
    forall p | p in PrefixesOf(keys, s) ensures p in PrefixesOf(keys, s') {
      var i :| 0 <= i < |s| && BitsAt(keys, s[i]) == p;
      assert s'[if i < cnt then i else i + 1] == s[i];
    }
    assert s'[cnt] == e;
    forall p | p in PrefixesOf(keys, s') ensures p in PrefixesOf(keys, s) + {BitsAt(keys, e)} {
      var i :| 0 <= i < |s'| && BitsAt(keys, s'[i]) == p;
      assert i != cnt ==> s'[i] == s[if i < cnt then i else i - 1];
    }
  }

  lemma {:induction false} DistinctBits(keys: map<Ptr, Key>, s: seq<Ptr>, i: nat, j: nat)
    requires Ordered(keys, s) && i < |s| && j < |s| && i != j
    ensures BitsAt(keys, s[i]) != BitsAt(keys, s[j])
  {
    if i < j { LessNotOverlap(BitsAt(keys, s[i]), BitsAt(keys, s[j])); }
    if j < i { LessNotOverlap(BitsAt(keys, s[j]), BitsAt(keys, s[i])); }
  }

  lemma {:induction false} PrefixesErase(keys: map<Ptr, Key>, s: seq<Ptr>, cnt: int)
    requires Ordered(keys, s) && 0 < cnt <= |s|
    ensures PrefixesOf(keys, s[..cnt - 1] + s[cnt..]) == PrefixesOf(keys, s) - {BitsAt(keys, s[cnt - 1])}
  {
    var k := cnt - 1;
    ErasedIn(keys, s, k);
    ErasedOut(keys, s, k);
  }

  lemma {:induction false} ErasedIn(keys: map<Ptr, Key>, s: seq<Ptr>, k: nat)
    requires k < |s|
    ensures forall p :: p in PrefixesOf(keys, s) && p != BitsAt(keys, s[k]) ==> p in PrefixesOf(keys, s[..k] + s[k + 1..])
  {
    var s' := s[..k] + s[k + 1..];
    forall p | p in PrefixesOf(keys, s) && p != BitsAt(keys, s[k]) ensures p in PrefixesOf(keys, s') {
      var i :| 0 <= i < |s| && BitsAt(keys, s[i]) == p;
      KeptAt(s, k, i);
      Stored(keys, s', if i < k then i else i - 1);
    }
  }

  lemma {:induction false} KeptAt(s: seq<Ptr>, k: nat, i: nat)
    requires k < |s| && i < |s| && i != k
    ensures |s[..k] + s[k + 1..]| == |s| - 1 && (s[..k] + s[k + 1..])[if i < k then i else i - 1] == s[i]
  {
  }

  lemma {:induction false} Stored(keys: map<Ptr, Key>, s: seq<Ptr>, i: nat)
    requires i < |s|
    ensures BitsAt(keys, s[i]) in PrefixesOf(keys, s)
  {
  }

  lemma {:induction false} ErasedOut(keys: map<Ptr, Key>, s: seq<Ptr>, k: nat)
    requires Ordered(keys, s) && k < |s|
    ensures forall p :: p in PrefixesOf(keys, s[..k] + s[k + 1..]) ==> p in PrefixesOf(keys, s) && p != BitsAt(keys, s[k])
  {
    var s' := s[..k] + s[k + 1..];
    forall p | p in PrefixesOf(keys, s') ensures p in PrefixesOf(keys, s) && p != BitsAt(keys, s[k]) {
      var j :| 0 <= j < |s'| && BitsAt(keys, s'[j]) == p;
      var i := if j < k then j else j + 1;
      KeptAt(s, k, i);
      Stored(keys, s, i);
      DistinctBits(keys, s, i, k);
    }
  }

  // ----- the pool -----

  /** Memory holds the tree `t`, ordered by the keys of its nodes. */
  ghost predicate LinkedIn(store: Store, keys: map<Ptr, Key>, next: Ptr, t: Tree) {
    && Holds(store, t) && Avl(t)
    && store.Keys == keys.Keys && Ptrs(t) <= keys.Keys
    && (forall p :: p in keys ==> 0 < p < next && ValidKey(keys[p]))
    && Ordered(keys, InOrder(t))
  }

  lemma {:induction false} LinkedFacts(store: Store, keys: map<Ptr, Key>, next: Ptr, t: Tree)
    requires LinkedIn(store, keys, next, t)
    ensures FAKE !in store && 0 !in keys && Keyed(keys, InOrder(t)) && Antichain(PrefixesOf(keys, InOrder(t)))
  {
    InOrderFacts(t);
    OrderedAntichain(keys, InOrder(t));
  }

  /** An element has left the tree and is freed. */
  lemma {:induction false} RemoveFacts(store: Store, m: Store, keys: map<Ptr, Key>, next: Ptr, t: Tree, t': Tree, cnt: int)
    requires LinkedIn(store, keys, next, t) && 0 < cnt <= |InOrder(t)|
    requires Holds(m, t') && Avl(t') && Frame0(store, m, Ptrs(t))
    requires InOrder(t') == InOrder(t)[..cnt - 1] + InOrder(t)[cnt..]
    ensures var s, p := InOrder(t), InOrder(t)[cnt - 1];
            && LinkedIn(m - {p}, keys - {p}, next, t')
            && PrefixesOf(keys - {p}, InOrder(t')) == PrefixesOf(keys, s) - {BitsAt(keys, p)}
            && Ptrs(t') == Ptrs(t) - {p} && Size(t') == Size(t) - 1 && p in Ptrs(t)
  {
    var s, p := InOrder(t), InOrder(t)[cnt - 1];
    LinkedFacts(store, keys, next, t);
    OrderedErase(keys, s, cnt);
    PrefixesErase(keys, s, cnt);
    EraseSets(store, t, t', cnt);
    HoldsFrame(m, m - {p}, t');
    InOrderFacts(t);
    InOrderFacts(t');
    KeysFrame(keys, keys - {p}, InOrder(t'));
  }

  /** An allocated element has entered the tree. */
  lemma {:induction false} InsertFacts(store: Store, m: Store, keys: map<Ptr, Key>, next: Ptr, t: Tree, t': Tree, e: Ptr, cnt: int)
    requires LinkedIn(store, keys, next, t) && e in keys
    requires FoundAt(CmpWith(keys[e], keys), InOrder(t), 0, cnt)
    requires Holds(m, t') && Avl(t') && Frame0(store, m, Ptrs(t) + {e})
    requires InOrder(t') == InOrder(t)[..cnt] + [e] + InOrder(t)[cnt..]
    ensures LinkedIn(m, keys, next, t')
    ensures PrefixesOf(keys, InOrder(t')) == PrefixesOf(keys, InOrder(t)) + {BitsAt(keys, e)}
    ensures Ptrs(t') == Ptrs(t) + {e} && Size(t') == Size(t) + 1
  {
    var s := InOrder(t);
    LinkedFacts(store, keys, next, t);
    OrderedInsert(keys, s, e, cnt);
    PrefixesInsert(keys, s, e, cnt);
    InsertSets(t, t', e, cnt);
  }

  lemma {:induction false} SearchReady(store: Store, keys: map<Ptr, Key>, next: Ptr, t: Tree, k: Key)
    requires LinkedIn(store, keys, next, t) && ValidKey(k)
    ensures FAKE !in store && 0 !in keys && Monotone(CmpWith(k, keys), InOrder(t))
  {
    LinkedFacts(store, keys, next, t);
    OrderedMonotone(k, keys, InOrder(t));
  }

  /** The two outcomes of kavl_insert for the element e. */
  lemma {:induction false} TryFacts(store: Store, m: Store, keys: map<Ptr, Key>, next: Ptr, t: Tree, t': Tree, e: Ptr, v: Ptr, cnt: int)
    requires LinkedIn(store, keys, next, t) && e in keys
    requires FoundAt(CmpWith(keys[e], keys), InOrder(t), if v == e then 0 else v, cnt)
    requires Holds(m, t') && Avl(t') && Frame0(store, m, Ptrs(t) + {e})
    requires v != e ==> v != 0 && m == store && t' == t
    requires v == e ==> InOrder(t') == InOrder(t)[..cnt] + [e] + InOrder(t)[cnt..]
    ensures LinkedIn(m, keys, next, t')
    ensures v != e ==> v in Ptrs(t) && BitsAt(keys, v) in PrefixesOf(keys, InOrder(t)) && Overlap(BitsAt(keys, e), BitsAt(keys, v))
    ensures v == e ==>
              && PrefixesOf(keys, InOrder(t')) == PrefixesOf(keys, InOrder(t)) + {BitsAt(keys, e)}
              && Ptrs(t') == Ptrs(t) + {e} && Size(t') == Size(t) + 1
              && forall q :: q in PrefixesOf(keys, InOrder(t)) ==> !Overlap(BitsAt(keys, e), q)
  {
    LinkedFacts(store, keys, next, t);
    FoundPrefix(keys[e], keys, InOrder(t), if v == e then 0 else v, cnt);
    if v == e {
      InsertFacts(store, m, keys, next, t, t', e, cnt);
    } else {
      InOrderFacts(t);
    }
  }

  /** An element outside the tree is freed. */
  lemma {:induction false} FreeFacts(store: Store, keys: map<Ptr, Key>, next: Ptr, t: Tree, e: Ptr)
    requires LinkedIn(store, keys, next, t) && e !in Ptrs(t)
    ensures LinkedIn(store - {e}, keys - {e}, next, t)
    ensures PrefixesOf(keys - {e}, InOrder(t)) == PrefixesOf(keys, InOrder(t))
  {
    HoldsFrame(store, store - {e}, t);
    InOrderFacts(t);
    KeysFrame(keys, keys - {e}, InOrder(t));
  }

  /** A new element is allocated. */
  lemma {:induction false} AllocateFacts(store: Store, keys: map<Ptr, Key>, next: Ptr, t: Tree, k: Key)
    requires LinkedIn(store, keys, next, t) && ValidKey(k) && next > 0
    ensures LinkedIn(store[next := Cell(0, 0, 0, 0)], keys[next := k], next + 1, t) && next !in keys
    ensures PrefixesOf(keys[next := k], InOrder(t)) == PrefixesOf(keys, InOrder(t))
  {
    var store', keys' := store[next := Cell(0, 0, 0, 0)], keys[next := k];
    assert next !in keys;
    HoldsFrame(store, store', t);
    InOrderFacts(t);
    KeysFrame(keys, keys', InOrder(t));
  }

  class Pool {
    var store: Store           // the tree heads of the allocated elements
    var keys: map<Ptr, Key>    // their `data` and `bitlen` (`len`)
    var root: Ptr
    var count: int
    var next: Ptr              // every allocated address is below
    ghost var t: Tree

    /** The tree part of the invariant, which also holds while an element is not linked yet. */
    ghost predicate Linked()
      reads this
    {
      root == RootOf(t) && LinkedIn(store, keys, next, t)
    }

    ghost predicate Valid()
      reads this
    {
      Linked() && Ptrs(t) == keys.Keys && count == Size(t) && next > 0
    }

    /** The set of stored prefixes. */
    ghost function Prefixes(): set<Prefix>
      reads this
    {
      PrefixesOf(keys, InOrder(t))
    }

    constructor ()
      ensures Valid() && Prefixes() == {} && count == 0
    {
      store, keys, root, count, next, t := map[], map[], 0, 0, 1, Leaf;
    }

    /** kavl_bit_get / mem_get: some stored prefix that overlaps the key, if there is one. */
    method Get(k: Key) returns (v: Ptr)
      requires Valid() && ValidKey(k)
      ensures v != 0 ==> v in keys && BitsAt(keys, v) in Prefixes() && Overlap(Bits(k), BitsAt(keys, v))
      ensures v == 0 ==> forall p :: p in Prefixes() ==> !Overlap(Bits(k), p)
      ensures (forall p :: p in Prefixes() ==> |p| <= k.len) ==> (v != 0 <==> Covered(Prefixes(), Bits(k)))
    {
      LinkedFacts(store, keys, next, t);
      var cmp := CmpWith(k, keys);
      ghost var s := InOrder(t);
      OrderedMonotone(k, keys, s);
      var cnt;
      v, cnt := Find(cmp, store, root, t);
      FoundPrefix(k, keys, s, v, cnt);
      if forall p :: p in Prefixes() ==> |p| <= k.len { FullAddress(Prefixes(), Bits(k)); }
    }

    /** Takes one element that overlaps the key out of the tree and frees it. */
    method Remove(k: Key) returns (p: Ptr)
      requires Linked() && ValidKey(k) && Size(t) < SIZE_LIMIT
      modifies this
      ensures Linked() && next == old(next) && count == old(count)
      ensures p == 0 ==> t == old(t) && keys == old(keys) && forall q :: q in Prefixes() ==> !Overlap(Bits(k), q)
      ensures p != 0 ==>
                && p in old(Ptrs(t)) && Overlap(Bits(k), BitsAt(old(keys), p))
                && Prefixes() == old(Prefixes()) - {BitsAt(old(keys), p)}
                && keys == old(keys) - {p} && Ptrs(t) == old(Ptrs(t)) - {p} && Size(t) == old(Size(t)) - 1
    {
      LinkedFacts(store, keys, next, t);
      var cmp := CmpWith(k, keys);
      ghost var s, t0 := InOrder(t), t;
      OrderedMonotone(k, keys, s);
      var m, r, cnt;
      ghost var t';
      m, r, p, cnt, t' := Erase(cmp, store, root, t);
      if p == 0 {
        NoneFound(k, keys, s);
        return;
      }
      FoundPrefix(k, keys, s, p, cnt);
      RemoveFacts(store, m, keys, next, t, t', cnt);
      store, keys, root, t := m - {p}, keys - {p}, r, t';
    }

    /** kavl_bit_delete / mem_delete */
    method Delete(k: Key)
      requires Valid() && ValidKey(k) && count < SIZE_LIMIT
      modifies this
      ensures Valid()
      ensures if exists q :: q in old(Prefixes()) && Overlap(Bits(k), q) then
                exists q :: q in old(Prefixes()) && Overlap(Bits(k), q) && Prefixes() == old(Prefixes()) - {q} && count == old(count) - 1
              else
                Prefixes() == old(Prefixes()) && count == old(count)
    {
      ghost var ps := Prefixes();
      LinkedFacts(store, keys, next, t);
      ghost var keys0, s := keys, InOrder(t);
      InOrderFacts(t);
      var p := Remove(k);
      if p != 0 {
        count := count - 1;
        assert BitsAt(keys0, p) in ps by {
          var i :| 0 <= i < |s| && s[i] == p;
        }
      }
    }

    /** One call of kavl_insert for the allocated element e. */
    method TryInsert(e: Ptr) returns (v: Ptr)
      requires Linked() && e in keys && e !in Ptrs(t) && Size(t) < SIZE_LIMIT - 1
      modifies this
      ensures Linked() && next == old(next) && count == old(count) && keys == old(keys)
      ensures v != e ==> t == old(t) && v in Ptrs(t) && BitsAt(keys, v) in Prefixes() && Overlap(BitsAt(keys, e), BitsAt(keys, v))
      ensures v == e ==>
                && Prefixes() == old(Prefixes()) + {BitsAt(keys, e)} && Ptrs(t) == old(Ptrs(t)) + {e}
                && Size(t) == old(Size(t)) + 1
                && forall q :: q in old(Prefixes()) ==> !Overlap(BitsAt(keys, e), q)
    {
      var k := keys[e];
      SearchReady(store, keys, next, t, k);
      var m, r, cnt;
      ghost var t';
      m, r, v, cnt, t' := Insert(CmpWith(k, keys), store, root, e, t);
      TryFacts(store, m, keys, next, t, t', e, v, cnt);
      store, root, t := m, r, t';
    }

    /** e carries the new key but is not linked; of the prefixes `ps` only ones it covers are gone. */
    ghost predicate Adding(e: Ptr, k: Key, ps: set<Prefix>)
      reads this
    {
      && Linked() && ValidKey(k) && e in keys && keys[e] == k && e !in Ptrs(t) && keys.Keys == Ptrs(t) + {e}
      && count == Size(t) < SIZE_LIMIT - 1 && Antichain(ps) && Shrunk(ps, Prefixes(), Bits(k))
    }

    ghost predicate Blocked(k: Key, v: Ptr)
      requires ValidKey(k)
      reads this
    {
      v in Ptrs(t) && v in keys && BitsAt(keys, v) in Prefixes() && Overlap(Bits(k), BitsAt(keys, v))
    }

    ghost predicate Added(e: Ptr, k: Key, ps: set<Prefix>)
      requires ValidKey(k)
      reads this
    {
      Linked() && e in keys && keys[e] == k && keys.Keys == Ptrs(t) && count == Size(t) - 1 && Prefixes() == AddPrefix(ps, Bits(k))
    }

    method AddTry(e: Ptr, ghost k: Key, ghost ps: set<Prefix>) returns (v: Ptr)
      requires Adding(e, k, ps)
      modifies this
      ensures next == old(next) && keys == old(keys) && Size(t) <= old(Size(t)) + 1 && count == old(count)
      ensures v != e ==> Adding(e, k, ps) && Blocked(k, v) && t == old(t)
      ensures v == e ==> Added(e, k, ps)
    {
      v := TryInsert(e);
      if v == e { AddDone(ps, old(Prefixes()), Bits(k)); }
    }

    /** kavl_bit_delete (v->data, v->bitlen) inside the loop: exactly v goes. */
    method DropCovered(e: Ptr, v: Ptr, ghost k: Key, ghost ps: set<Prefix>)
      requires Adding(e, k, ps) && Blocked(k, v) && k.len < keys[v].len
      modifies this
      ensures Adding(e, k, ps) && next == old(next) && Size(t) == old(Size(t)) - 1 && count == old(count) - 1
    {
      LinkedFacts(store, keys, next, t);
      ghost var w, qs, keys0, s := BitsAt(keys, v), Prefixes(), keys, InOrder(t);
      InOrderFacts(t);
      var p := Remove(keys[v]);
      assert p != 0 by { assert Overlap(w, w) && w in qs; }
      assert BitsAt(keys0, p) in qs by {
        var i :| 0 <= i < |s| && s[i] == p;
      }
      assert BitsAt(keys0, p) == w;
      assert Bits(k) <= w && Bits(k) != w;
      count := count - 1;
    }

    /** The two outcomes of an attempt: e is linked, or the element v is in its way. */
    ghost predicate Tried(e: Ptr, v: Ptr, k: Key, ps: set<Prefix>)
      requires ValidKey(k)
      reads this
    {
      && next > 0 && e in keys && v in keys && keys[e] == k
      && if v == e then Added(e, k, ps) else Adding(e, k, ps) && Blocked(k, v)
    }

    /** One round of the loop in kavl_bit_add: a longer prefix v makes way for e. */
    method AddRound(e: Ptr, v: Ptr, ghost k: Key, ghost ps: set<Prefix>) returns (v': Ptr)
      requires ValidKey(k) && Tried(e, v, k, ps) && v != e && k.len < keys[v].len
      modifies this
      ensures Tried(e, v', k, ps) && (v' == e || Size(t) < old(Size(t))) && count <= old(count)
    {
      DropCovered(e, v, k, ps);
      v' := AddTry(e, k, ps);
    }

    /** The element e was not needed: v covers its key. */
    method Discard(e: Ptr, v: Ptr, ghost k: Key, ghost ps: set<Prefix>)
      requires ValidKey(k) && Tried(e, v, k, ps) && v != e && keys[v].len <= k.len
      modifies this
      ensures Valid() && Prefixes() == AddPrefix(ps, Bits(k)) && v in keys && BitsAt(keys, v) <= Bits(k) && count == old(count)
    {
      AddRefused(ps, Prefixes(), Bits(k), BitsAt(keys, v));
      FreeFacts(store, keys, next, t, e);
      store, keys := store - {e}, keys - {e};
    }

    /** kavl_bit_add / mem_add: the result is the element that now covers the key. */
    method Add(k: Key) returns (v: Ptr)
      requires Valid() && ValidKey(k) && count < SIZE_LIMIT - 1
      modifies this
      ensures Valid()
      ensures Prefixes() == AddPrefix(old(Prefixes()), Bits(k))
      ensures v in keys && BitsAt(keys, v) <= Bits(k) && count <= old(count) + 1
    {
      ghost var ps := Prefixes();
      var e := Allocate(k);
      v := AddTry(e, k, ps);
      while e != v && keys[e].len < keys[v].len
        invariant Tried(e, v, k, ps) && count <= old(count)
        decreases v != e, Size(t)
      {
        v := AddRound(e, v, k, ps);
      }
      if e != v {
        Discard(e, v, k, ps);
      } else {
        count := count + 1;
      }
    }

    /** A list of prefixes added one after the other, as a set is loaded. */
    method AddEach(ks: seq<Key>)
      requires Valid() && count == 0 && Prefixes() == {} && |ks| < SIZE_LIMIT && forall i :: 0 <= i < |ks| ==> ValidKey(ks[i])
      modifies this
      ensures Valid() && Prefixes() == AddAll(AllBits(ks)) && count <= |ks|
    {
      for i := 0 to |ks|
        invariant Valid() && count <= i && Prefixes() == AddAll(AllBits(ks[..i]))
      {
        AllBitsSnoc(ks, i);
        var _ := Add(ks[i]);
      }
      assert ks[..|ks|] == ks;
    }

    /** ipset4Add for a list of prefixes, then ipset4Check of an address no shorter than any of them:
        it succeeds exactly when one of the added prefixes covers the address. */
    method AddEachThenCheck(ks: seq<Key>, a: Key) returns (found: bool)
      requires Valid() && count == 0 && Prefixes() == {} && |ks| < SIZE_LIMIT && ValidKey(a)
      requires forall i :: 0 <= i < |ks| ==> ValidKey(ks[i]) && ks[i].len <= a.len
      modifies this
      ensures Valid() && (found <==> exists i :: 0 <= i < |ks| && Bits(ks[i]) <= Bits(a))
    {
      AddEach(ks);
      var v := Get(a);
      found := v != 0;
      AddAllCovers(ks, a);
    }

    method Allocate(k: Key) returns (e: Ptr)
      requires Valid() && ValidKey(k) && count < SIZE_LIMIT - 1
      modifies this
      ensures Adding(e, k, old(Prefixes())) && next > 0 && count == old(count)
    {
      LinkedFacts(store, keys, next, t);
      AllocateFacts(store, keys, next, t, k);
      e := next;
      store, keys, next := store[e := Cell(0, 0, 0, 0)], keys[e := k], next + 1;
    }
  }

  lemma {:induction false} AddDone(ps: set<Prefix>, qs: set<Prefix>, b: Prefix)
    requires Shrunk(ps, qs, b) && forall q :: q in qs ==> !Overlap(b, q)
    ensures AddPrefix(ps, b) == qs + {b}
  {
    assert forall p :: p in ps && p <= b ==> p in qs;
  }

  lemma {:induction false} AddRefused(ps: set<Prefix>, qs: set<Prefix>, b: Prefix, w: Prefix)
    requires Antichain(ps) && Shrunk(ps, qs, b) && w in qs && Overlap(b, w) && |w| <= |b|
    ensures AddPrefix(ps, b) == qs && w <= b
  {
    assert w <= b && Covered(ps, b);
    assert forall p :: p in ps && b <= p ==> w <= p;
  }

  /** Only prefixes longer than `b` that it covers are gone. */
  ghost predicate Shrunk(ps: set<Prefix>, qs: set<Prefix>, b: Prefix) {
    qs <= ps && forall p :: p in ps && p !in qs ==> b <= p && p != b
  }

  lemma {:induction false} KeysFrame(keys: map<Ptr, Key>, keys': map<Ptr, Key>, s: seq<Ptr>)
    requires forall i :: 0 <= i < |s| ==> s[i] in keys && s[i] in keys' && keys'[s[i]] == keys[s[i]]
    ensures PrefixesOf(keys', s) == PrefixesOf(keys, s)
    ensures Ordered(keys, s) ==> Ordered(keys', s)
  {
    assert forall i :: 0 <= i < |s| ==> BitsAt(keys', s[i]) == BitsAt(keys, s[i]);
  }

  lemma {:induction false} NoneFound(k: Key, keys: map<Ptr, Key>, s: seq<Ptr>)
    requires ValidKey(k) && Keyed(keys, s) && forall n :: n in s ==> CmpWith(k, keys)(n) != 0
    ensures forall q :: q in PrefixesOf(keys, s) ==> !Overlap(Bits(k), q)
  {
    forall i | 0 <= i < |s| ensures !Overlap(Bits(k), BitsAt(keys, s[i])) {
      CmpMeaning(k, keys, s[i]);
    }
  }

  lemma {:induction false} EraseSets(m: Store, t: Tree, t': Tree, cnt: int)
    requires Holds(m, t) && 0 < cnt <= |InOrder(t)| && InOrder(t') == InOrder(t)[..cnt - 1] + InOrder(t)[cnt..]
    ensures Ptrs(t') == Ptrs(t) - {InOrder(t)[cnt - 1]} && Size(t') == Size(t) - 1
  {
    InOrderFacts(t);
    InOrderFacts(t');
    HoldsDistinct(m, t);
    DropFromSet(InOrder(t), InOrder(t'), cnt - 1, Ptrs(t), Ptrs(t'));
  }

  lemma {:induction false} DropFromSet(s: seq<Ptr>, s': seq<Ptr>, k: nat, ps: set<Ptr>, ps': set<Ptr>)
    requires Sequences.Distinct(s) && k < |s| && s' == s[..k] + s[k + 1..]
    requires (forall n :: n in s <==> n in ps) && (forall n :: n in s' <==> n in ps')
    ensures ps' == ps - {s[k]} && |s'| == |s| - 1
  {
    DropOne(s, k);
    assert forall n :: n in ps' <==> n in s';
    assert forall n :: n in ps - {s[k]} <==> n in s && n != s[k];
  }

  lemma {:induction false} DropOne(s: seq<Ptr>, k: nat)
    requires Sequences.Distinct(s) && k < |s|
    ensures forall n :: n in s[..k] + s[k + 1..] <==> n in s && n != s[k]
  {
    var s' := s[..k] + s[k + 1..];
    forall n | n in s && n != s[k] ensures n in s' {
      var i :| 0 <= i < |s| && s[i] == n;
      assert s'[if i < k then i else i - 1] == n;
    }
    forall n | n in s' ensures n in s && n != s[k] {
      var j :| 0 <= j < |s'| && s'[j] == n;
      assert s[if j < k then j else j + 1] == n;
    }
  }

  lemma {:induction false} InsertSets(t: Tree, t': Tree, e: Ptr, cnt: int)
    requires 0 <= cnt <= |InOrder(t)| && InOrder(t') == InOrder(t)[..cnt] + [e] + InOrder(t)[cnt..]
    ensures Ptrs(t') == Ptrs(t) + {e} && Size(t') == Size(t) + 1
  {
    var s, s' := InOrder(t), InOrder(t');
    InOrderFacts(t);
    InOrderFacts(t');
    forall n | n in Ptrs(t) ensures n in Ptrs(t') {
      var i :| 0 <= i < |s| && s[i] == n;
      assert s'[if i < cnt then i else i + 1] == n;
    }
    assert s'[cnt] == e;
    forall n | n in Ptrs(t') ensures n in Ptrs(t) + {e} {
      var j :| 0 <= j < |s'| && s'[j] == n;
      assert j != cnt ==> s[if j < cnt then j else j - 1] == n;
    }
  }

  /** What the outcome of a search says about the stored prefixes. */
  lemma {:induction false} FoundPrefix(k: Key, keys: map<Ptr, Key>, s: seq<Ptr>, v: Ptr, cnt: int)
    requires ValidKey(k) && Keyed(keys, s) && FoundAt(CmpWith(k, keys), s, v, cnt)
    ensures v != 0 ==> v in keys && BitsAt(keys, v) in PrefixesOf(keys, s) && Overlap(Bits(k), BitsAt(keys, v))
    ensures v == 0 ==> forall p :: p in PrefixesOf(keys, s) ==> !Overlap(Bits(k), p)
  {
    if v != 0 {
      CmpMeaning(k, keys, s[cnt - 1]);
    } else {
      forall i | 0 <= i < |s| ensures !Overlap(Bits(k), BitsAt(keys, s[i])) {
        CmpMeaning(k, keys, s[i]);
        assert i < cnt ==> s[..cnt][i] == s[i];
        assert i >= cnt ==> s[cnt..][i - cnt] == s[i];
      }
    }
  }
}
