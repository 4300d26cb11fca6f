/** The mapped-DNS index (hev-mapped-dns.c) as it is stored: a name tree, a recency list and a record
    array over the same nodes.  find and lookup are proved against the abstract index. */
module MappedDns {
  import opened Sequences
  import opened LinkedLists
  import MappedIndex

  type Name = MappedIndex.Name

  datatype Node = Node(name: Name, idx: int)

  /** The three views; `order` is the recency list read from head to tail.  The tree is a finite
      map from names to nodes.  Addresses from `brk` on have not been handed out. */
  datatype State = State(max: nat, nodes: map<int, Node>, brk: int, links: map<int, Link>, head: int, tail: int,
                         tree: map<Name, int>, records: seq<int>, used: nat, order: seq<int>)

  datatype View = TheList | TheTree | TheRecords

  ghost predicate Holds(v: View, s: State) {
    match v
    case TheList =>
      && ListOk(s.links, s.order, s.head, s.tail) && s.brk >= 0
      && (forall p :: p in s.order ==> p in s.nodes && 0 <= p < s.brk)
    case TheTree =>
      && (forall n :: n in s.tree ==> s.tree[n] in s.order && s.tree[n] in s.nodes && s.nodes[s.tree[n]].name == n)
      && (forall p :: p in s.order ==> p in s.nodes && s.nodes[p].name in s.tree && s.tree[s.nodes[p].name] == p)
    case TheRecords =>
      && |s.records| == s.max && s.used == |s.order| <= s.max
      && (forall i :: s.used <= i < s.max ==> s.records[i] == NIL)
      && (forall i :: 0 <= i < s.used ==> s.records[i] in s.order && s.records[i] in s.nodes && s.nodes[s.records[i]].idx == i)
      && (forall p :: p in s.order ==> p in s.nodes && 0 <= s.nodes[p].idx < s.used && s.records[s.nodes[p].idx] == p)
  }

  /** All three views hold the same nodes. */
  ghost predicate Good(s: State) { forall v :: Holds(v, s) }

  lemma {:induction false} Views(s: State)
    ensures Good(s) <==> Holds(TheList, s) && Holds(TheTree, s) && Holds(TheRecords, s)
  {
  }

  ghost function NameOf(s: State, p: int): Name { if p in s.nodes then s.nodes[p].name else [] }

  ghost function NamesOf(s: State, order: seq<int>): (r: seq<Name>)
    ensures |r| == |order|
  {
    seq(|order|, k requires 0 <= k < |order| => NameOf(s, order[k]))
  }

  ghost function AddrOf(s: State, n: Name): int
    requires n in s.tree
  {
    if s.tree[n] in s.nodes then s.nodes[s.tree[n]].idx else NIL
  }

  /** The abstract index. */
  ghost function Abs(s: State): MappedIndex.Index {
    MappedIndex.Index(NamesOf(s, s.order), map n | n in s.tree :: AddrOf(s, n))
  }

  /** What the representation promises of the abstract index. */
  lemma {:induction false} AbsOk(s: State)
    requires Good(s)
    ensures MappedIndex.Ok(Abs(s), s.max) && |Abs(s).names| == s.used
  {
    Views(s);
    var a := Abs(s);
    forall k | 0 <= k < |s.order| ensures s.order[k] in s.order && a.names[k] == s.nodes[s.order[k]].name { }
    forall n ensures n in a.names <==> n in a.addr {
      if n in s.tree {
        var k :| 0 <= k < |s.order| && s.order[k] == s.tree[n];
        assert a.names[k] == n;
      }
    }
  }

  // ----- touching -----

  ghost function Del(order: seq<int>, k: int): seq<int>
    requires 0 <= k < |order|
  {
    order[..k] + order[k + 1..]
  }

  lemma {:induction false} NamesWithout(s: State, k: int)
    requires Good(s) && 0 <= k < |s.order|
    ensures NamesOf(s, Del(s.order, k)) == MappedIndex.Without(Abs(s).names, NameOf(s, s.order[k]))
  {
    AbsOk(s);
    MappedIndex.WithoutCut(Abs(s).names, k);
    NamesDel(s, s.order, k);
  }

  lemma {:induction false} NamesDel(s: State, order: seq<int>, k: int)
    requires 0 <= k < |order|
    ensures NamesOf(s, Del(order, k)) == NamesOf(s, order)[..k] + NamesOf(s, order)[k + 1..]
  {
  }

  /** The state after hev_list_del. */
  ghost function AfterListDel(s: State, k: int): State
    requires 0 <= k < |s.order| && DelOk(s.links, s.order[k])
  {
    var a := s.links[s.order[k]];
    s.(links := AfterDel(s.links, s.order[k]), order := Del(s.order, k),
       head := if a.prev == NIL then a.next else s.head, tail := if a.next == NIL then a.prev else s.tail)
  }

  /** The state after hev_list_add_tail. */
  ghost function AfterListAdd(s: State, p: int): State
    requires s.tail == NIL || s.tail in s.links
  {
    s.(links := AfterAdd(s.links, s.tail, p), order := s.order + [p], head := if s.tail == NIL then p else s.head, tail := p)
  }

  /** hev_list_del then hev_list_add_tail: the node is now the most recent one. */
  lemma {:induction false} TouchGood(s: State, k: int)
    requires Good(s) && 0 <= k < |s.order|
    ensures DelOk(s.links, s.order[k])
    ensures var d := AfterListDel(s, k);
            && (d.tail == NIL || d.tail in d.links)
            && var t := AfterListAdd(d, s.order[k]);
               Good(t) && Abs(t) == Abs(s).(names := MappedIndex.Touch(Abs(s).names, NameOf(s, s.order[k])))
  {
    assert Holds(TheList, s);
    var p := s.order[k];
    DelKeeps(s.links, s.order, s.head, s.tail, k);
    var d := AfterListDel(s, k);
    DelSet(s.order, k);
    assert p in s.order && p >= 0;
    AddKeeps(d.links, d.order, d.head, d.tail, p);
    var t := AfterListAdd(d, p);
    TouchViews(s, k, t);
    Views(t);
    TouchAbs(s, k, t);
  }

  lemma {:induction false} TouchViews(s: State, k: int, t: State)
    requires Good(s) && 0 <= k < |s.order| && t.order == Del(s.order, k) + [s.order[k]] && ListOk(t.links, t.order, t.head, t.tail)
    requires t == s.(links := t.links, order := t.order, head := t.head, tail := t.tail)
    ensures Holds(TheList, t) && Holds(TheTree, t) && Holds(TheRecords, t)
  {
    Views(s);
    DelSet(s.order, k);
    assert s.order[k] in s.order;
    forall p ensures p in t.order <==> p in s.order {}
  }

  lemma {:induction false} TouchAbs(s: State, k: int, t: State)
    requires Good(s) && 0 <= k < |s.order| && t.order == Del(s.order, k) + [s.order[k]]
    requires t == s.(links := t.links, order := t.order, head := t.head, tail := t.tail)
    ensures Abs(t) == Abs(s).(names := MappedIndex.Touch(Abs(s).names, NameOf(s, s.order[k])))
  {
    NamesWithout(s, k);
    assert NamesOf(t, t.order) == NamesOf(s, Del(s.order, k)) + [NameOf(s, s.order[k])];
    assert Abs(t).addr == Abs(s).addr;
  }

  lemma {:induction false} DelSet(order: seq<int>, k: int)
    requires 0 <= k < |order| && Distinct(order)
    ensures forall p :: p in Del(order, k) <==> p in order && p != order[k]
    ensures |Del(order, k)| == |order| - 1
  {
    assert order == order[..k] + [order[k]] + order[k + 1..];
  }

  // ----- a new name -----

  /** Lines 131-133: a node with a new name is linked into the tree and at the end of the list. */
  ghost function Linked1(s: State, n: Name): State
    requires s.tail == NIL || s.tail in s.links
  {
    AfterListAdd(s.(nodes := s.nodes[s.brk := Node(n, 0)], brk := s.brk + 1, tree := s.tree[n := s.brk]), s.brk)
  }

  /** Lines 150-151. */
  ghost function Recorded(s: State, p: int, idx: int): State
    requires 0 <= idx < |s.records| && p in s.nodes
  {
    s.(records := s.records[idx := p], nodes := s.nodes[p := s.nodes[p].(idx := idx)])
  }

  lemma {:induction false} FreshAbsent(s: State)
    requires Good(s)
    ensures s.brk !in s.order && (s.tail == NIL || s.tail in s.links) && |s.records| == s.max && s.used == |s.order| <= s.max
    ensures s.brk >= 0 && s.brk != s.tail && forall p :: p in s.order ==> p != s.brk
  {
    Views(s);
    if s.order != [] { assert Linked(s.links, s.order, |s.order| - 1); }
  }

  /** A new name while there is room. */
  lemma {:induction false} GrowGood(s: State, n: Name)
    requires Good(s) && n !in s.tree && s.used < s.max
    ensures s.tail == NIL || s.tail in s.links
    ensures |s.records| == s.max
    ensures var t := Recorded(Linked1(s, n).(used := s.used + 1), s.brk, s.used);
            Good(t) && Abs(t) == MappedIndex.Find(Abs(s), s.max, n)
  {
    FreshAbsent(s);
    assert Holds(TheList, s);
    AddKeeps(s.links, s.order, s.head, s.tail, s.brk);
    var t := Recorded(Linked1(s, n).(used := s.used + 1), s.brk, s.used);
    assert t.nodes == s.nodes[s.brk := Node(n, s.used)];
    GrowViews(s, n, t);
    Views(t);
    GrowAbs(s, n, t);
  }

  ghost predicate GrownAs(s: State, n: Name, t: State) {
    && t.order == s.order + [s.brk] && t.tree == s.tree[n := s.brk] && t.nodes == s.nodes[s.brk := Node(n, s.used)]
    && t.max == s.max && t.used == s.used + 1 && t.brk == s.brk + 1
    && s.used < |s.records| && t.records == s.records[s.used := s.brk]
  }

  lemma {:induction false} GrowViews(s: State, n: Name, t: State)
    requires Good(s) && n !in s.tree && s.used < s.max && GrownAs(s, n, t)
    requires ListOk(t.links, t.order, t.head, t.tail)
    ensures Holds(TheList, t) && Holds(TheTree, t) && Holds(TheRecords, t)
  {
    Views(s);
    FreshAbsent(s);
    forall p ensures p in t.order <==> p in s.order || p == s.brk {}
  }

  lemma {:induction false} GrowAbs(s: State, n: Name, t: State)
    requires Good(s) && n !in s.tree && s.used < s.max && GrownAs(s, n, t)
    ensures Abs(t) == MappedIndex.Find(Abs(s), s.max, n)
  {
    Views(s);
    FreshAbsent(s);
    assert forall k :: 0 <= k < |s.order| ==> s.order[k] in s.order;
    assert NamesOf(t, t.order) == NamesOf(s, s.order) + [n];
    assert Abs(t).addr == Abs(s).addr[n := s.used];
  }

  /** A new name when all addresses are taken: the least recently touched name makes way. */
  ghost function Reused(s: State, n: Name): State
    requires s.tail == NIL || s.tail in s.links
    requires s.order != [] && s.order[0] in s.nodes && 0 <= s.nodes[s.order[0]].idx < |s.records| && s.brk != s.order[0]
    requires DelOk(Linked1(s, n).links, s.order[0])
  {
    var v, a := s.order[0], Linked1(s, n);
    var b := AfterListDel(a.(tree := a.tree - {s.nodes[v].name}), 0);
    Recorded(b.(nodes := b.nodes - {v}), s.brk, s.nodes[v].idx)
  }

  lemma {:induction false} ReuseLegal(s: State, n: Name)
    requires Good(s) && n !in s.tree && s.used == s.max >= 1
    ensures s.tail == NIL || s.tail in s.links
    ensures s.order != [] && s.order[0] in s.nodes && 0 <= s.nodes[s.order[0]].idx < |s.records| && s.brk != s.order[0] && s.head == s.order[0]
    ensures s.order[0] in s.order && s.nodes[s.order[0]].name != n && s.nodes[s.order[0]].name in s.tree && s.tree[s.nodes[s.order[0]].name] == s.order[0]
    ensures ListOk(Linked1(s, n).links, s.order + [s.brk], Linked1(s, n).head, s.brk)
    ensures DelOk(Linked1(s, n).links, s.order[0])
  {
    Views(s);
    FreshAbsent(s);
    AddKeeps(s.links, s.order, s.head, s.tail, s.brk);
    assert s.order[0] in s.order;
    DelLegal(Linked1(s, n).links, s.order + [s.brk], Linked1(s, n).head, s.brk, 0);
  }

  lemma {:induction false} ReuseGood(s: State, n: Name)
    requires Good(s) && n !in s.tree && s.used == s.max >= 1
    requires s.tail == NIL || s.tail in s.links
    requires s.order != [] && s.order[0] in s.nodes && 0 <= s.nodes[s.order[0]].idx < |s.records| && s.brk != s.order[0]
    requires DelOk(Linked1(s, n).links, s.order[0])
    ensures Good(Reused(s, n)) && Abs(Reused(s, n)) == MappedIndex.Find(Abs(s), s.max, n)
  {
    ReuseLegal(s, n);
    FreshAbsent(s);
    var a, t := Linked1(s, n), Reused(s, n);
    DelKeeps(a.links, a.order, a.head, a.tail, 0);
    assert a.order == s.order + [s.brk] && Del(a.order, 0) == s.order[1..] + [s.brk];
    var idx := s.nodes[s.order[0]].idx;
    assert t.nodes == (s.nodes - {s.order[0]})[s.brk := Node(n, idx)];
    assert t.tree == (s.tree - {s.nodes[s.order[0]].name})[n := s.brk];
    ReuseViews(s, n, t);
    Views(t);
    ReuseAbs(s, n, t);
  }

  ghost predicate ReusedAs(s: State, n: Name, t: State) {
    && s.order != [] && s.order[0] in s.nodes && 0 <= s.nodes[s.order[0]].idx < |s.records|
    && var v := s.order[0];
       && t.order == s.order[1..] + [s.brk] && t.max == s.max && t.used == s.used && t.brk == s.brk + 1
       && t.nodes == (s.nodes - {v})[s.brk := Node(n, s.nodes[v].idx)]
       && t.tree == (s.tree - {s.nodes[v].name})[n := s.brk]
       && t.records == s.records[s.nodes[v].idx := s.brk]
  }

  lemma {:induction false} OrderRest(order: seq<int>, p: int)
    requires order != [] && Distinct(order) && p !in order
    ensures forall q :: q in order[1..] + [p] <==> (q in order && q != order[0]) || q == p
    ensures |order[1..] + [p]| == |order|
  {
    assert order == [order[0]] + order[1..];
  }

  lemma {:induction false} ReuseViews(s: State, n: Name, t: State)
    requires Good(s) && n !in s.tree && s.used == s.max >= 1 && ReusedAs(s, n, t)
    requires ListOk(t.links, t.order, t.head, t.tail)
    ensures Holds(TheList, t) && Holds(TheTree, t) && Holds(TheRecords, t)
  {
    assert Holds(TheList, s);
    FreshAbsent(s);
    OrderRest(s.order, s.brk);
    ReuseTree(s, n, t);
    ReuseRecords(s, n, t);
  }

  lemma {:induction false} ReuseTree(s: State, n: Name, t: State)
    requires Good(s) && n !in s.tree && s.used == s.max >= 1 && ReusedAs(s, n, t)
    ensures Holds(TheTree, t)
  {
    assert Holds(TheList, s) && Holds(TheTree, s);
    FreshAbsent(s);
    OrderRest(s.order, s.brk);
    assert s.order[0] in s.order;
  }

  lemma {:induction false} ReuseRecords(s: State, n: Name, t: State)
    requires Good(s) && n !in s.tree && s.used == s.max >= 1 && ReusedAs(s, n, t)
    ensures Holds(TheRecords, t)
  {
    assert Holds(TheList, s) && Holds(TheRecords, s);
    FreshAbsent(s);
    OrderRest(s.order, s.brk);
    assert s.order[0] in s.order;
  }

  lemma {:induction false} ReuseNames(s: State, n: Name, t: State)
    requires Good(s) && n !in s.tree && s.used == s.max >= 1 && ReusedAs(s, n, t)
    ensures NamesOf(t, t.order) == NamesOf(s, s.order)[1..] + [n] && Abs(s).names[0] == s.nodes[s.order[0]].name
  {
    assert Holds(TheList, s);
    FreshAbsent(s);
    assert forall k :: 0 <= k < |s.order| ==> s.order[k] in s.order;
    assert forall k :: 1 <= k < |s.order| ==> s.order[k] != s.order[0];
  }

  lemma {:induction false} ReuseAddrs(s: State, n: Name, t: State)
    requires Good(s) && n !in s.tree && s.used == s.max >= 1 && ReusedAs(s, n, t)
    ensures var v := s.nodes[s.order[0]].name; v in s.tree && Abs(t).addr == (Abs(s).addr - {v})[n := Abs(s).addr[v]]
  {
    Views(s);
    FreshAbsent(s);
    assert s.order[0] in s.order;
  }

  lemma {:induction false} ReuseAbs(s: State, n: Name, t: State)
    requires Good(s) && n !in s.tree && s.used == s.max >= 1 && ReusedAs(s, n, t)
    ensures Abs(t) == MappedIndex.Find(Abs(s), s.max, n)
  {
    FreshAbsent(s);
    ReuseNames(s, n, t);
    ReuseAddrs(s, n, t);
  }

  // ----- addresses -----

  /** For a contiguous mask with `host` addresses per network, `ip & mask` and `ip & ~mask`. */
  function NetPart(ip: nat, host: nat): nat
    requires host > 0
  {
    ip - ip % host
  }

  function HostPart(ip: nat, host: nat): nat
    requires host > 0
  {
    ip % host
  }

  /** An index below `host` put into an aligned network: `net | idx`. */
  function Address(net: nat, idx: nat): nat { net + idx }

  lemma {:induction false} AddressParts(net: nat, host: nat, idx: nat)
    requires host > 0 && net % host == 0 && idx < host
    ensures NetPart(Address(net, idx), host) == net && HostPart(Address(net, idx), host) == idx
  {
    var q := net / host;
    assert net == host * q;
    DivRem(host, q, idx);
  }

  lemma {:induction false} DivRem(host: nat, q: nat, idx: nat)
    requires idx < host
    ensures (host * q + idx) % host == idx
  {
    var x := host * q + idx;
    var d := x / host - q;
    assert x == host * (x / host) + x % host;
    assert host * d == idx - x % host by { assert host * (x / host) - host * q == host * d; }
    if d != 0 { FarApart(host, d); }
  }

  lemma {:induction false} FarApart(host: int, d: int)
    requires host > 0 && d != 0
    ensures host * d >= host || host * d <= -host
  {
    if d > 0 { assert host * d >= host * 1; } else { assert host * d <= host * -1; }
  }

  datatype Answer = NoName | Known(name: Name)

  // ----- the object -----

  class MappedDns {
    const net: nat
    const host: nat
    const max: nat
    var nodes: map<int, Node>
    var brk: int
    var links: map<int, Link>
    var head: int
    var tail: int
    var tree: map<Name, int>
    var records: seq<int>
    var used: nat
    ghost var order: seq<int>

    ghost function Now(): State reads this {
      State(max, nodes, brk, links, head, tail, tree, records, used, order)
    }

    ghost predicate Valid() reads this { Good(Now()) && 1 <= max < host && net % host == 0 }

    ghost function Index(): MappedIndex.Index reads this { Abs(Now()) }

    constructor (net: nat, host: nat, max: nat)
      requires 1 <= max < host && net % host == 0
      ensures Valid() && Index() == MappedIndex.EMPTY && this.net == net && this.host == host && this.max == max
    {
      this.net, this.host, this.max := net, host, max;
      nodes, brk, links, head, tail, tree, used, order := map[], 0, map[], NIL, NIL, map[], 0, [];
      records := seq(max, i => NIL);
      new;
      Views(Now());
      assert Index().addr == map[];
    }

    /** hev_list_del */
    method ListDel(p: int, ghost k: int)
      requires 0 <= k < |order| && order[k] == p && DelOk(links, p)
      modifies this`links, this`head, this`tail, this`order
      ensures Now() == AfterListDel(old(Now()), k)
    {
      var node := links[p];
      if node.prev != NIL {
        links := links[node.prev := links[node.prev].(next := node.next)];
      } else {
        head := node.next;
      }
      if node.next != NIL {
        links := links[node.next := links[node.next].(prev := node.prev)];
      } else {
        tail := node.prev;
      }
      order := Del(order, k);
    }

    /** hev_list_add_tail */
    method ListAddTail(p: int)
      requires tail == NIL || tail in links
      requires p != tail
      modifies this`links, this`head, this`tail, this`order
      ensures Now() == AfterListAdd(old(Now()), p)
    {
      links := links[p := Link(tail, NIL)];
      if tail != NIL {
        links := links[tail := links[tail].(next := p)];
      } else {
        head := p;
      }
      tail := p;
      order := order + [p];
      assert links == AfterAdd(old(links), old(tail), p);
    }

    /** The two list calls that make a node the most recent one. */
    method TouchNode(p: int, ghost k: int)
      requires Good(Now()) && 0 <= k < |order| && order[k] == p
      modifies this`links, this`head, this`tail, this`order
      ensures Good(Now()) && Index() == old(Index()).(names := MappedIndex.Touch(old(Index()).names, NameOf(old(Now()), p)))
    {
      ghost var s := Now();
      TouchGood(s, k);
      ListDel(p, k);
      TailOther(Now(), s, p, k);
      ListAddTail(p);
    }

    /** hev_mapped_dns_find */
    method Find(name: Name) returns (idx: int)
      requires Valid()
      modifies this
      ensures Valid() && Index() == MappedIndex.Find(old(Index()), max, name)
      ensures name in Index().addr && idx == Index().addr[name] && 0 <= idx < max
    {
      ghost var s := Now();
      AbsOk(s);
      MappedIndex.FindOk(Index(), max, name);
      if name in tree {
        ghost var k := TreePlace(s, name);
        var p := tree[name];
        TouchNode(p, k);
        return nodes[p].idx;
      }
      idx := FindNew(name);
    }

    /** Lines 127-153: a name that is not in the tree. */
    method FindNew(name: Name) returns (idx: int)
      requires Good(Now()) && max >= 1 && name !in tree
      modifies this
      ensures Good(Now()) && Index() == MappedIndex.Find(old(Index()), max, name)
      ensures name in tree && tree[name] in nodes && idx == nodes[tree[name]].idx
    {
      if used < max { idx := TakeFree(name); } else { idx := TakeOldest(name); }
    }

    /** There is a free address. */
    method TakeFree(name: Name) returns (idx: int)
      requires Good(Now()) && used < max && name !in tree
      modifies this
      ensures Good(Now()) && Index() == MappedIndex.Find(old(Index()), max, name)
      ensures name in tree && tree[name] in nodes && idx == nodes[tree[name]].idx
    {
      ghost var s := Now();
      FreshAbsent(s);
      GrowGood(s, name);
      var p := brk;
      LinkNode(name);
      idx := used;
      used := used + 1;
      records := records[idx := p];
      nodes := nodes[p := nodes[p].(idx := idx)];
    }

    /** All addresses are taken. */
    method TakeOldest(name: Name) returns (idx: int)
      requires Good(Now()) && used >= max >= 1 && name !in tree
      modifies this
      ensures Good(Now()) && Index() == MappedIndex.Find(old(Index()), max, name)
      ensures name in tree && tree[name] in nodes && idx == nodes[tree[name]].idx
    {
      ghost var s := Now();
      FreshAbsent(s);
      ReuseLegal(s, name);
      ReuseGood(s, name);
      var p := brk;
      LinkNode(name);
      idx := DropOldest();
      records := records[idx := p];
      nodes := nodes[p := nodes[p].(idx := idx)];
      assert Now() == Reused(s, name);
    }

    /** Lines 127-133. */
    method LinkNode(name: Name)
      requires (tail == NIL || tail in links) && brk != tail
      modifies this`nodes, this`brk, this`tree, this`links, this`head, this`tail, this`order
      ensures Now() == Linked1(old(Now()), name)
    {
      var p := brk;
      nodes, brk := nodes[p := Node(name, 0)], brk + 1;
      tree := tree[name := p];
      ListAddTail(p);
    }

    /** Lines 141-147: the first node of the list leaves the tree and the list. */
    method DropOldest() returns (idx: int)
      requires |order| > 0 && head == order[0] && head in nodes && DelOk(links, head) && nodes[head].name in tree
      modifies this`nodes, this`tree, this`links, this`head, this`tail, this`order
      ensures idx == old(nodes)[old(head)].idx
      ensures var s := old(Now());
              Now() == AfterListDel(s.(tree := s.tree - {s.nodes[s.head].name}), 0).(nodes := s.nodes - {s.head})
    {
      var nf := head;
      idx := nodes[nf].idx;
      tree := tree - {nodes[nf].name};
      ListDel(nf, 0);
      nodes := nodes - {nf};
    }

    /** hev_mapped_dns_lookup: the index computed from any address is in range, and the name that
        has the address, if any, is touched. */
    method Lookup(ip: nat) returns (r: Answer)
      requires Valid()
      modifies this`links, this`head, this`tail, this`order
      ensures Valid()
      ensures var idx, a := HostPart(ip, host), old(Index());
              if NetPart(ip, host) != net || idx >= max then r == NoName && Index() == a
              else
                && Index() == MappedIndex.Step(a, max, MappedIndex.Lookup(idx))
                && r == (if MappedIndex.AtAddr(a, idx) == [] then NoName else Known(MappedIndex.AtAddr(a, idx)[0]))
    {
      if NetPart(ip, host) != net { return NoName; }
      var idx := HostPart(ip, host);
      if idx >= max { return NoName; }
      ghost var k := RecordPlace(Now(), idx);
      var p := records[idx];
      if p == NIL { return NoName; }
      TouchNode(p, k);
      r := Known(nodes[p].name);
    }

    /** Any run of queries and lookups is the run of the abstract index. */
    method Serve(reqs: seq<Request>)
      requires Valid()
      modifies this
      ensures Valid() && Index() == MappedIndex.Run(old(Index()), max, OpsOf(reqs, net, host, max))
    {
      ghost var a := Index();
      for k := 0 to |reqs|
        invariant Valid() && Index() == MappedIndex.Run(a, max, OpsOf(reqs[..k], net, host, max))
      {
        RunSnoc(a, max, reqs, k, net, host);
        match reqs[k]
        case Ask(name) => var _ := Find(name);
        case Resolve(ip) =>
          NoSuchAddress(Now());
          var _ := Lookup(ip);
      }
      assert reqs[..|reqs|] == reqs;
    }

    /** A name is queried, a run that does not touch it follows, and the address it was given is
        looked up: the answer is the name if and only if the run touched fewer than max names. */
    method FindServeLookup(name: Name, reqs: seq<Request>) returns (r: Answer)
      requires Valid()
      requires name !in MappedIndex.TouchedIn(MappedIndex.Find(Index(), max, name), max, OpsOf(reqs, net, host, max))
      modifies this
      ensures Valid()
      ensures r == Known(name) <==> |MappedIndex.TouchedIn(MappedIndex.Find(old(Index()), max, name), max, OpsOf(reqs, net, host, max))| < max
    {
      AbsOk(Now());
      MappedIndex.FindOk(Index(), max, name);
      var idx := Find(name);
      ghost var a, ops := Index(), OpsOf(reqs, net, host, max);
      MappedIndex.KeepsAddress(a, max, name, ops);
      Serve(reqs);
      AbsOk(Now());
      AddressParts(net, host, idx);
      StillThere(a, Index(), max, name, ops);
      r := Lookup(Address(net, idx));
    }

    /** Looking up the address just given out for a name answers with the name and changes nothing. */
    method FindThenLookup(name: Name) returns (ip: nat, r: Answer)
      requires Valid()
      modifies this
      ensures Valid() && r == Known(name) && Index() == MappedIndex.Find(old(Index()), max, name)
    {
      AbsOk(Now());
      MappedIndex.QueryThenLookup(Index(), max, name);
      var idx := Find(name);
      AddressParts(net, host, idx);
      ip := Address(net, idx);
      r := Lookup(ip);
    }
  }

  /** What clients ask for: an address for a name, or the name behind an address. */
  datatype Request = Ask(name: Name) | Resolve(ip: nat)

  /** A request as an operation on the index; an address outside the range is nobody's. */
  ghost function OpOf(req: Request, net: nat, host: nat, max: nat): MappedIndex.Op
    requires host > 0
  {
    match req
    case Ask(name) => MappedIndex.Query(name)
    case Resolve(ip) => MappedIndex.Lookup(if NetPart(ip, host) == net && HostPart(ip, host) < max then HostPart(ip, host) else NIL)
  }

  ghost function OpsOf(reqs: seq<Request>, net: nat, host: nat, max: nat): (r: seq<MappedIndex.Op>)
    requires host > 0
    ensures |r| == |reqs|
  {
    seq(|reqs|, k requires 0 <= k < |reqs| => OpOf(reqs[k], net, host, max))
  }

  lemma {:induction false} RunSnoc(a: MappedIndex.Index, max: nat, reqs: seq<Request>, k: nat, net: nat, host: nat)
    requires k < |reqs| && host > 0
    ensures MappedIndex.Run(a, max, OpsOf(reqs[..k + 1], net, host, max)) ==
            MappedIndex.Step(MappedIndex.Run(a, max, OpsOf(reqs[..k], net, host, max)), max, OpOf(reqs[k], net, host, max))
  {
    var ops := OpsOf(reqs[..k + 1], net, host, max);
    assert ops[..k] == OpsOf(reqs[..k], net, host, max) && ops[k] == OpOf(reqs[k], net, host, max);
  }

  lemma {:induction false} NoSuchAddress(s: State)
    requires Good(s)
    ensures MappedIndex.AtAddr(Abs(s), NIL) == []
  {
    AbsOk(s);
  }

  lemma {:induction false} StillThere(a: MappedIndex.Index, b: MappedIndex.Index, max: nat, n: Name, ops: seq<MappedIndex.Op>)
    requires MappedIndex.Ok(b, max) && n in a.addr && b == MappedIndex.Run(a, max, ops)
    requires MappedIndex.Keeps(a, b, max, n, MappedIndex.TouchedIn(a, max, ops))
    ensures MappedIndex.AtAddr(b, a.addr[n]) == [n] <==> |MappedIndex.TouchedIn(a, max, ops)| < max
  {
    if |MappedIndex.TouchedIn(a, max, ops)| < max {
      assert MappedIndex.Has(b, a.addr[n], n);
    }
  }

  /** hev_mapped_dns_construct: refuses more addresses than the mask leaves room for. */
  method Construct(net: nat, host: nat, max: nat) returns (ok: bool, dns: MappedDns?)
    requires host >= 1 && net % host == 0 && max >= 1
    ensures ok <==> max <= host - 1
    ensures ok <==> dns != null
    ensures ok ==> dns.Valid() && dns.Index() == MappedIndex.EMPTY && (dns.net, dns.host, dns.max) == (net, host, max)
  {
    if max > host - 1 { return false, null; }
    dns := new MappedDns(net, host, max);
    ok := true;
  }

  lemma {:induction false} TreePlace(s: State, n: Name) returns (k: int)
    requires Good(s) && n in s.tree
    ensures 0 <= k < |s.order| && s.order[k] == s.tree[n] && s.tree[n] in s.nodes && NameOf(s, s.tree[n]) == n
    ensures n in Abs(s).addr && Abs(s).addr[n] == s.nodes[s.tree[n]].idx && s.nodes[s.tree[n]].idx >= 0
  {
    Views(s);
    k :| 0 <= k < |s.order| && s.order[k] == s.tree[n];
  }

  lemma {:induction false} RecordPlace(s: State, i: int) returns (k: int)
    requires Good(s) && 0 <= i < s.max
    ensures |s.records| == s.max
    ensures s.records[i] == NIL <==> MappedIndex.AtAddr(Abs(s), i) == []
    ensures s.records[i] != NIL ==>
              && 0 <= k < |s.order| && s.order[k] == s.records[i] && s.records[i] in s.nodes
              && MappedIndex.AtAddr(Abs(s), i) == [NameOf(s, s.records[i])]
  {
    Views(s);
    AbsOk(s);
    k := 0;
    var p, a := s.records[i], Abs(s);
    if i < s.used {
      k :| 0 <= k < |s.order| && s.order[k] == p;
      assert Linked(s.links, s.order, k);
      assert MappedIndex.Has(a, i, s.nodes[p].name);
    } else {
      forall n ensures !MappedIndex.Has(a, i, n) {}
    }
  }

  lemma {:induction false} TailOther(d: State, s: State, p: int, k: int)
    requires Good(s) && 0 <= k < |s.order| && s.order[k] == p && DelOk(s.links, p) && d == AfterListDel(s, k)
    ensures d.tail != p
  {
    assert Holds(TheList, s);
    DelKeeps(s.links, s.order, s.head, s.tail, k);
    DelSet(s.order, k);
    assert d.tail == At(d.order, |d.order| - 1);
    assert p in s.order && Linked(s.links, s.order, k);
    assert d.tail != NIL ==> d.tail in d.order;
  }
}
