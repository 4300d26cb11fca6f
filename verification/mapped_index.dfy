/** The mapped-DNS index (hev-mapped-dns.c) in the abstract: names in order of their last use, each
    with an address, and what every run of queries and lookups keeps. */
module MappedIndex {
  import opened Sequences

  type Name = seq<int>

  /** Names, least recently touched first, and their addresses within the network. */
  datatype Index = Index(names: seq<Name>, addr: map<Name, int>)

  datatype Op = Query(name: Name) | Lookup(idx: int)

  const EMPTY := Index([], map[])

  ghost predicate Injective(m: map<Name, int>) { forall a, b :: a in m && b in m && m[a] == m[b] ==> a == b }

  /** Distinct names with distinct addresses below the number of names, which is at most max. */
  ghost predicate Ok(a: Index, max: nat) {
    && Distinct(a.names) && |a.names| <= max
    && (forall n :: n in a.names <==> n in a.addr)
    && (forall n :: n in a.addr ==> 0 <= a.addr[n] < |a.names|)
    && Injective(a.addr)
  }

  ghost function Without(s: seq<Name>, n: Name): (r: seq<Name>)
    ensures forall x :: x in r <==> x in s && x != n
    ensures n !in s ==> r == s
    ensures |r| <= |s|
  {
    if s == [] then [] else
      assert s == [s[0]] + s[1..];
      if s[0] == n then Without(s[1..], n) else [s[0]] + Without(s[1..], n)
  }

  ghost function Touch(s: seq<Name>, n: Name): seq<Name> { Without(s, n) + [n] }

  /** The name that has the address, if any. */
  ghost predicate Has(a: Index, idx: int, n: Name) { n in a.addr && a.addr[n] == idx }

  ghost function AtAddr(a: Index, idx: int): (r: seq<Name>)
    ensures |r| <= 1 && (r == [] <==> forall n :: !Has(a, idx, n)) && (r != [] ==> Has(a, idx, r[0]))
  {
    if exists n :: Has(a, idx, n) then var n :| Has(a, idx, n); [n] else []
  }

  /** A query: a known name is touched; a new one gets the next free address, or that of the
      least recently touched name, which is dropped. */
  ghost function Find(a: Index, max: nat, n: Name): Index {
    if n in a.addr then a.(names := Touch(a.names, n))
    else if |a.names| < max || a.names == [] then Index(a.names + [n], a.addr[n := |a.names|])
    else
      var victim := a.names[0];
      Index(a.names[1..] + [n], (a.addr - {victim})[n := if victim in a.addr then a.addr[victim] else 0])
  }

  ghost function Step(a: Index, max: nat, op: Op): Index {
    match op
    case Query(n) => Find(a, max, n)
    case Lookup(idx) => var r := AtAddr(a, idx); if r == [] then a else a.(names := Touch(a.names, r[0]))
  }

  ghost function Run(a: Index, max: nat, ops: seq<Op>): Index
    decreases |ops|
  {
    if ops == [] then a else Step(Run(a, max, ops[..|ops| - 1]), max, ops[|ops| - 1])
  }

  /** The names a step touches: at most one. */
  ghost function Touched(a: Index, op: Op): set<Name> {
    match op
    case Query(n) => {n}
    case Lookup(idx) => set n | n in AtAddr(a, idx)
  }

  ghost function TouchedIn(a: Index, max: nat, ops: seq<Op>): set<Name>
    decreases |ops|
  {
    if ops == [] then {} else
      var before := ops[..|ops| - 1];
      TouchedIn(a, max, before) + Touched(Run(a, max, before), ops[|ops| - 1])
  }

  // ----- every step keeps the index well formed -----

  lemma {:induction false} WithoutCut(s: seq<Name>, k: nat)
    requires k < |s| && Distinct(s)
    ensures Without(s, s[k]) == s[..k] + s[k + 1..]
  {
    var rest := s[1..];
    if k > 0 {
      assert rest[k - 1] == s[k] && s[0] != s[k];
      WithoutCut(rest, k - 1);
      assert Without(s, s[k]) == [s[0]] + Without(rest, s[k]);
      CutCons(s, k);
    } else {
      assert s[0] !in rest;
      assert Without(s, s[0]) == Without(rest, s[0]) == rest;
      assert s[..0] + s[1..] == rest;
    }
  }

  lemma {:induction false} CutCons(s: seq<Name>, k: nat)
    requires 0 < k < |s|
    ensures s[..k] + s[k + 1..] == [s[0]] + (s[1..][..k - 1] + s[1..][k..])
  {
  }

  lemma {:induction false} TouchDistinct(s: seq<Name>, n: Name)
    requires Distinct(s) && n in s
    ensures Distinct(Touch(s, n)) && |Touch(s, n)| == |s| && forall x :: x in Touch(s, n) <==> x in s
  {
    var k: nat :| k < |s| && s[k] == n;
    WithoutCut(s, k);
  }

  lemma {:induction false} FindOk(a: Index, max: nat, n: Name)
    requires Ok(a, max) && max >= 1
    ensures Ok(Find(a, max, n), max) && Has(Find(a, max, n), Find(a, max, n).addr[n], n)
    ensures var b := Find(a, max, n); b.names != [] && b.names[|b.names| - 1] == n
  {
    if n in a.addr {
      TouchDistinct(a.names, n);
    } else if |a.names| < max {
      assert n !in a.names;
    } else {
      EvictOk(a, max, n);
    }
  }

  lemma {:induction false} EvictOk(a: Index, max: nat, n: Name)
    requires Ok(a, max) && max >= 1 && n !in a.addr && |a.names| == max
    ensures Ok(Find(a, max, n), max)
  {
    var v, b := a.names[0], Find(a, max, n);
    assert a.names == [v] + a.names[1..];
    assert v in a.names && n !in a.names && v !in a.names[1..];
    assert forall x :: x in b.names <==> (x in a.names && x != v) || x == n;
    assert forall i :: 0 <= i < |a.names| - 1 ==> b.names[i] == a.names[i + 1];
  }

  lemma {:induction false} StepOk(a: Index, max: nat, op: Op)
    requires Ok(a, max) && max >= 1
    ensures Ok(Step(a, max, op), max)
  {
    match op
    case Query(n) => FindOk(a, max, n);
    case Lookup(idx) =>
      var r := AtAddr(a, idx);
      if r != [] { TouchDistinct(a.names, r[0]); }
  }

  lemma {:induction false} RunOk(a: Index, max: nat, ops: seq<Op>)
    requires Ok(a, max) && max >= 1
    ensures Ok(Run(a, max, ops), max)
    decreases |ops|
  {
    if ops != [] {
      RunOk(a, max, ops[..|ops| - 1]);
      StepOk(Run(a, max, ops[..|ops| - 1]), max, ops[|ops| - 1]);
    }
  }

  /** A lookup right after a query answers with the name. */
  lemma {:induction false} QueryThenLookup(a: Index, max: nat, n: Name)
    requires Ok(a, max) && max >= 1
    ensures var b := Find(a, max, n); n in b.addr && AtAddr(b, b.addr[n]) == [n] && Step(b, max, Lookup(b.addr[n])) == b
  {
    FindOk(a, max, n);
    LookupLast(Find(a, max, n), max, n);
  }

  lemma {:induction false} LookupLast(b: Index, max: nat, n: Name)
    requires Ok(b, max) && b.names != [] && b.names[|b.names| - 1] == n
    ensures n in b.addr && AtAddr(b, b.addr[n]) == [n] && Step(b, max, Lookup(b.addr[n])) == b
  {
    assert n in b.names && Has(b, b.addr[n], n);
    assert AtAddr(b, b.addr[n]) == [n];
    TouchLast(b.names);
  }

  lemma {:induction false} TouchLast(s: seq<Name>)
    requires s != [] && Distinct(s)
    ensures Touch(s, s[|s| - 1]) == s
  {
    WithoutCut(s, |s| - 1);
  }

  // ----- how long a name keeps its address -----

  /** Where a name stands: everything after it has been touched since, and nothing else has. */
  ghost predicate Follows(a: Index, n: Name, k: int, touched: set<Name>) {
    && 0 <= k < |a.names| && a.names[k] == n
    && forall x :: x in touched <==> x in a.names[k + 1..]
  }

  lemma {:induction false} TouchBefore(s: seq<Name>, i: nat, k: nat)
    requires i < k < |s| && Distinct(s)
    ensures var t := Touch(s, s[i]);
            |t| == |s| && t[k - 1] == s[k] && forall y :: y in t[k..] <==> y in s[k + 1..] || y == s[i]
  {
    WithoutCut(s, i);
    assert Touch(s, s[i])[k..] == s[k + 1..] + [s[i]];
  }

  lemma {:induction false} TouchAfter(s: seq<Name>, i: nat, k: nat)
    requires k < i < |s| && Distinct(s)
    ensures var t := Touch(s, s[i]);
            && |t| == |s| && t[k] == s[k]
            && var after, after' := s[k + 1..], t[k + 1..]; forall y :: y in after' <==> y in after || y == s[i]
  {
    WithoutCut(s, i);
    assert Touch(s, s[i])[k + 1..] == s[k + 1..i] + s[i + 1..] + [s[i]];
    assert s[k + 1..] == s[k + 1..i] + [s[i]] + s[i + 1..];
  }

  lemma {:induction false} TouchFollows(a: Index, n: Name, k: int, touched: set<Name>, x: Name)
    requires Distinct(a.names) && Follows(a, n, k, touched) && x in a.names && x != n
    ensures exists k' :: Follows(a.(names := Touch(a.names, x)), n, k', touched + {x})
  {
    var s := a.names;
    var i: nat :| i < |s| && s[i] == x;
    var b := a.(names := Touch(s, x));
    if i < k {
      TouchBefore(s, i, k);
      assert k - 1 + 1 == k && Follows(b, n, k - 1, touched + {x});
    } else {
      TouchAfter(s, i, k);
      assert Follows(b, n, k, touched + {x});
    }
  }

  lemma {:induction false} AppendFollows(a: Index, b: Index, n: Name, k: int, touched: set<Name>, x: Name, drop: int)
    requires Follows(a, n, k, touched) && 0 <= drop <= k && b.names == a.names[drop..] + [x]
    ensures Follows(b, n, k - drop, touched + {x})
  {
    assert b.names[k - drop + 1..] == a.names[k + 1..] + [x];
  }

  lemma {:induction false} Card(s: seq<Name>, t: set<Name>)
    requires Distinct(s) && forall x :: x in t <==> x in s
    ensures |t| == |s|
  {
    if s == [] {
      assert t == {};
    } else {
      assert s == [s[0]] + s[1..] && s[0] !in s[1..];
      Card(s[1..], t - {s[0]});
    }
  }

  /** One step that does not touch n keeps it if and only if fewer than max distinct names have
      been touched since n was. */
  lemma {:induction false} StepKeeps(a: Index, max: nat, n: Name, k: int, touched: set<Name>, op: Op)
    requires Ok(a, max) && max >= 1 && Follows(a, n, k, touched) && n !in Touched(a, op)
    ensures var b, t := Step(a, max, op), touched + Touched(a, op);
            Keeps(a, b, max, n, t)
  {
    match op
    case Lookup(idx) => LookupKeeps(a, max, n, k, touched, idx);
    case Query(x) => QueryKeeps(a, max, n, k, touched, x);
  }

  /** What is left of a name: its address, with everything touched since after it, or nothing. */
  ghost predicate Keeps(a: Index, b: Index, max: nat, n: Name, touched: set<Name>) {
    if |touched| < max then n in b.addr && n in a.addr && b.addr[n] == a.addr[n] && exists k' :: Follows(b, n, k', touched)
    else n !in b.addr
  }

  lemma {:induction false} LookupKeeps(a: Index, max: nat, n: Name, k: int, touched: set<Name>, idx: int)
    requires Ok(a, max) && max >= 1 && Follows(a, n, k, touched) && n !in Touched(a, Lookup(idx))
    ensures Keeps(a, Step(a, max, Lookup(idx)), max, n, touched + Touched(a, Lookup(idx)))
  {
    assert n in a.names;
    var r := AtAddr(a, idx);
    if r == [] {
      CardAfter(a, max, n, k, touched);
      assert Touched(a, Lookup(idx)) == {} && touched + {} == touched;
    } else {
      assert r == [r[0]];
      assert Touched(a, Lookup(idx)) == {r[0]};
      KnownKeeps(a, max, n, k, touched, r[0]);
    }
  }

  /** Touching a name that is there keeps every other. */
  lemma {:induction false} KnownKeeps(a: Index, max: nat, n: Name, k: int, touched: set<Name>, x: Name)
    requires Ok(a, max) && max >= 1 && Follows(a, n, k, touched) && x != n && x in a.addr
    ensures Keeps(a, a.(names := Touch(a.names, x)), max, n, touched + {x})
  {
    assert n in a.names && x in a.names;
    TouchFollows(a, n, k, touched, x);
    TouchedStill(a, max, n, k, touched, x);
  }

  lemma {:induction false} QueryKeeps(a: Index, max: nat, n: Name, k: int, touched: set<Name>, x: Name)
    requires Ok(a, max) && max >= 1 && Follows(a, n, k, touched) && x != n
    ensures Keeps(a, Find(a, max, x), max, n, touched + {x})
  {
    assert n in a.names;
    if x in a.addr {
      KnownKeeps(a, max, n, k, touched, x);
    } else {
      CardAfter(a, max, n, k, touched);
      assert x !in a.names && x !in a.names[k + 1..];
      assert |touched + {x}| == |touched| + 1;
      QueryNew(a, max, n, k, touched, x);
    }
  }

  lemma {:induction false} CardAfter(a: Index, max: nat, n: Name, k: int, touched: set<Name>)
    requires Ok(a, max) && Follows(a, n, k, touched)
    ensures |touched| == |a.names| - 1 - k
  {
    Card(a.names[k + 1..], touched);
  }

  /** Touching a name that is there never reaches the limit. */
  lemma {:induction false} TouchedStill(a: Index, max: nat, n: Name, k: int, touched: set<Name>, x: Name)
    requires Ok(a, max) && Follows(a, n, k, touched) && x in a.names && x != n
    ensures |touched + {x}| < max
  {
    TouchFollows(a, n, k, touched, x);
    TouchDistinct(a.names, x);
    var b := a.(names := Touch(a.names, x));
    var k' :| Follows(b, n, k', touched + {x});
    Card(b.names[k' + 1..], touched + {x});
  }

  lemma {:induction false} QueryNew(a: Index, max: nat, n: Name, k: int, touched: set<Name>, x: Name)
    requires Ok(a, max) && max >= 1 && Follows(a, n, k, touched) && x !in a.addr && x != n && n in a.addr
    requires |touched| == |a.names| - 1 - k && |touched + {x}| == |touched| + 1
    ensures var b := Find(a, max, x);
            if |touched + {x}| < max then n in b.addr && b.addr[n] == a.addr[n] && exists k' :: Follows(b, n, k', touched + {x})
            else n !in b.addr
  {
    var b := Find(a, max, x);
    if |a.names| < max {
      assert a.names[0..] == a.names;
      AppendFollows(a, b, n, k, touched, x, 0);
    } else if k > 0 {
      AppendFollows(a, b, n, k, touched, x, 1);
    }
  }

  /** A name that has just been touched keeps its address over a run that does not touch it again
      if and only if fewer than max distinct other names are touched in the run. */
  lemma {:induction false} KeepsAddress(a: Index, max: nat, n: Name, ops: seq<Op>)
    requires Ok(a, max) && max >= 1 && a.names != [] && a.names[|a.names| - 1] == n
    requires n !in TouchedIn(a, max, ops)
    ensures var b, t := Run(a, max, ops), TouchedIn(a, max, ops);
            Keeps(a, b, max, n, t)
    decreases |ops|
  {
    assert n in a.names;
    if ops == [] {
      assert a.names[|a.names|..] == [];
      assert Follows(a, n, |a.names| - 1, {});
    } else {
      var before, op := ops[..|ops| - 1], ops[|ops| - 1];
      KeepsAddress(a, max, n, before);
      RunOk(a, max, before);
      var c, t := Run(a, max, before), TouchedIn(a, max, before);
      if |t| < max {
        var k :| Follows(c, n, k, t);
        StepKeeps(c, max, n, k, t, op);
      } else {
        StaysAbsent(c, max, n, op);
        Subset(t, t + Touched(c, op));
      }
    }
  }

  lemma {:induction false} StaysAbsent(a: Index, max: nat, n: Name, op: Op)
    requires n !in a.addr && n !in Touched(a, op)
    ensures n !in Step(a, max, op).addr
  {
  }

  lemma {:induction false} Subset(a: set<Name>, b: set<Name>)
    requires a <= b
    ensures |a| <= |b|
    decreases a
  {
    if a != {} {
      var x :| x in a;
      Subset(a - {x}, b - {x});
    }
  }
}
