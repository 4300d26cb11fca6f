/** The comparator of the prefix sets, kavl_bit_cmp / bit_cmp, byte by byte as the C code computes
    it, and what it means on the bits of the two prefixes. */
module PrefixOrder {
  import opened Bytes
  import opened KavlModel

  /** The bytes hold at least the prefix's bits. */
  ghost predicate ValidKey(k: Key) { k.len <= 8 * |k.data| }

  function Pow2(k: nat): (r: nat)
    ensures r > 0
  {
    if k == 0 then 1 else 2 * Pow2(k - 1)
  }

  /** memcmp over the bytes from `i` up to `n`: negative, zero or positive. */
  function MemCmp(a: seq<Byte>, b: seq<Byte>, i: nat, n: nat): int
    requires i <= n <= |a| && n <= |b|
    decreases n - i
  {
    if i == n then 0
    else if a[i] < b[i] then -1
    else if a[i] > b[i] then 1
    else MemCmp(a, b, i + 1, n)
  }

  function BitCmp(p: Key, q: Key): int
    requires p.len <= 8 * |p.data| && q.len <= 8 * |q.data|
  {
    var bitlen := if q.len < p.len then q.len else p.len;
    var df, bytes := bitlen % 8, bitlen / 8;
    var cmp := MemCmp(p.data, q.data, 0, bytes);
    if cmp != 0 || df == 0 then cmp
    else
      var c1 := p.data[bytes] / Pow2(8 - df);
      var c2 := q.data[bytes] / Pow2(8 - df);
      if c1 < c2 then -1 else if c1 == c2 then 0 else 1
  }

  // ----- bits -----

  /** Bit `k` of a byte, most significant first. */
  ghost function BitOf(x: Byte, k: nat): int
    requires k < 8
  {
    (x / Pow2(7 - k)) % 2
  }

  ghost function Bits(k: Key): (r: seq<int>)
    requires ValidKey(k)
    ensures |r| == k.len
  {
    seq(k.len, i requires 0 <= i < k.len => BitOf(k.data[i / 8], i % 8))
  }

  /** `a` and `b` first differ at `k`, inside both, and `a` is the smaller there. */
  ghost predicate LessAt(a: seq<int>, b: seq<int>, k: nat) {
    k < |a| && k < |b| && a[..k] == b[..k] && a[k] < b[k]
  }

  ghost predicate Less(a: seq<int>, b: seq<int>) {
    exists k: nat :: LessAt(a, b, k)
  }

  /** One of the two prefixes covers the other. */
  ghost predicate Overlap(a: seq<int>, b: seq<int>) {
    a <= b || b <= a
  }

  lemma {:induction false} LessTransitive(a: seq<int>, b: seq<int>, c: seq<int>)
    requires Less(a, b) && Less(b, c)
    ensures Less(a, c)
  {
    var i: nat :| LessAt(a, b, i);
    var j: nat :| LessAt(b, c, j);
    var k := if i < j then i else j;
    assert b[..i][..k] == b[..k] && b[..j][..k] == b[..k];
    assert a[..i][..k] == a[..k] && c[..j][..k] == c[..k];
    assert i < j ==> b[..j][i] == b[i] && c[..j][i] == c[i];
    assert j < i ==> b[..i][j] == b[j] && a[..i][j] == a[j];
    assert LessAt(a, c, k);
  }

  lemma {:induction false} LessNotOverlap(a: seq<int>, b: seq<int>)
    requires Less(a, b)
    ensures !Overlap(a, b)
  {
    var k: nat :| LessAt(a, b, k);
    assert a[k] != b[k];
  }

  lemma {:induction false} LessExclusive(a: seq<int>, b: seq<int>)
    requires Less(a, b)
    ensures !Less(b, a)
  {
    if Less(b, a) { LessTransitive(a, b, a); }
  }

  // ----- bytes against bits -----

  lemma {:induction false} Pow2Values()
    ensures Pow2(0) == 1 && Pow2(1) == 2 && Pow2(2) == 4 && Pow2(3) == 8 && Pow2(4) == 16
    ensures Pow2(5) == 32 && Pow2(6) == 64 && Pow2(7) == 128 && Pow2(8) == 256
  {
    assert Pow2(2) == 4;
    assert Pow2(4) == 16;
    assert Pow2(6) == 64;
  }

  lemma {:induction false} TopStep(x: Byte, k: nat)
    requires k < 8
    ensures x / Pow2(7 - k) == 2 * (x / Pow2(8 - k)) + BitOf(x, k)
  {
    assert Pow2(8 - k) == 2 * Pow2(7 - k);
    Halve(x, Pow2(7 - k));
  }

  /** Shifting by one more place. */
  lemma {:induction false} Halve(x: nat, m: nat)
    requires m > 0
    ensures x / (2 * m) == x / m / 2
  {
    var q, r := x / m, x % m;
    var h, b := q / 2, q % 2;
    assert q == 2 * h + b && x == m * q + r;
    assert m * q == (2 * m) * h + m * b;
    assert 0 <= m * b <= m;
    Quotient(x, 2 * m, h, m * b + r);
  }

  lemma {:induction false} Quotient(x: nat, d: nat, h: nat, r: nat)
    requires x == d * h + r && r < d
    ensures x / d == h
  {
    var e := x / d - h;
    assert x == d * (x / d) + x % d;
    assert d * e == d * (x / d) - d * h;
    if e != 0 { FarFromZero(d, e); }
  }

  lemma {:induction false} FarFromZero(d: int, e: int)
    requires d > 0 && e != 0
    ensures d * e >= d || d * e <= -d
  {
    if e > 0 { assert d * e >= d * 1; } else { assert d * e <= d * -1; }
  }

  /** The number spelled by the `k` leading bits. */
  ghost function Lead(bits: nat -> int, k: nat): int {
    if k == 0 then 0 else 2 * Lead(bits, k - 1) + bits(k - 1)
  }

  ghost function ByteBits(x: Byte): nat -> int {
    (k: nat) => if k < 8 then BitOf(x, k) else 0
  }

  lemma {:induction false} LeadIsShift(x: Byte, k: nat)
    requires k <= 8
    ensures Lead(ByteBits(x), k) == x / Pow2(8 - k)
  {
    if k == 0 {
      Pow2Values();
    } else {
      LeadIsShift(x, k - 1);
      TopStep(x, k - 1);
      assert 7 - (k - 1) == 8 - k;
    }
  }

  ghost predicate Binary(f: nat -> int) { forall i: nat :: 0 <= f(i) <= 1 }

  lemma {:induction false} LeadOrder(f: nat -> int, g: nat -> int, k: nat)
    requires Binary(f) && Binary(g)
    ensures Lead(f, k) == Lead(g, k) ==> forall i: nat :: i < k ==> f(i) == g(i)
    ensures Lead(f, k) < Lead(g, k) ==> exists j: nat :: j < k && (forall i: nat :: i < j ==> f(i) == g(i)) && f(j) < g(j)
  {
    if k > 0 {
      LeadOrder(f, g, k - 1);
      assert 0 <= f(k - 1) <= 1 && 0 <= g(k - 1) <= 1;
    }
  }

  /** The `k` leading bits of two bytes compare like the numbers they spell. */
  lemma {:induction false} LeadingBits(x: Byte, y: Byte, k: nat)
    requires k <= 8
    ensures Lead(ByteBits(x), k) == Lead(ByteBits(y), k) ==> forall i :: 0 <= i < k ==> BitOf(x, i) == BitOf(y, i)
    ensures Lead(ByteBits(x), k) < Lead(ByteBits(y), k) ==> exists j: nat :: DiffAt(x, y, j, k)
  {
    var f, g := ByteBits(x), ByteBits(y);
    LeadOrder(f, g, k);
    assert forall i: nat :: i < 8 ==> f(i) == BitOf(x, i) && g(i) == BitOf(y, i);
    if Lead(f, k) < Lead(g, k) {
      var j: nat :| j < k && (forall i: nat :: i < j ==> f(i) == g(i)) && f(j) < g(j);
      assert DiffAt(x, y, j, k);
    }
  }

  ghost predicate DiffAt(x: Byte, y: Byte, j: nat, k: nat)
    requires k <= 8
  {
    j < k && (forall i :: 0 <= i < j ==> BitOf(x, i) == BitOf(y, i)) && BitOf(x, j) < BitOf(y, j)
  }

  lemma {:induction false} MemCmpMeaning(a: seq<Byte>, b: seq<Byte>, i: nat, n: nat)
    requires i <= n <= |a| && n <= |b|
    ensures MemCmp(a, b, i, n) == 0 ==> forall j :: i <= j < n ==> a[j] == b[j]
    ensures MemCmp(a, b, i, n) < 0 ==> exists j :: i <= j < n && a[i..j] == b[i..j] && a[j] < b[j]
    ensures MemCmp(b, a, i, n) == -MemCmp(a, b, i, n)
    decreases n - i
  {
    if i < n {
      MemCmpMeaning(a, b, i + 1, n);
      if a[i] < b[i] {
        assert a[i..i] == b[i..i];
      } else if a[i] == b[i] && MemCmp(a, b, i, n) < 0 {
        var j :| i + 1 <= j < n && a[i + 1..j] == b[i + 1..j] && a[j] < b[j];
        assert a[i..j] == [a[i]] + a[i + 1..j] && b[i..j] == [b[i]] + b[i + 1..j];
      }
    }
  }

  /** The bits differ first at bit `k` of byte `j`. */
  lemma {:induction false} BitsDiffer(p: Key, q: Key, j: nat, k: nat)
    requires ValidKey(p) && ValidKey(q) && k < 8 && 8 * j + k < p.len && 8 * j + k < q.len
    requires forall i :: 0 <= i < j ==> p.data[i] == q.data[i]
    requires DiffAt(p.data[j], q.data[j], k, 8)
    ensures Less(Bits(p), Bits(q))
  {
    var a, b, n := Bits(p), Bits(q), 8 * j + k;
    forall i | 0 <= i < n ensures a[i] == b[i] {
      assert i / 8 <= j;
      if i / 8 == j { assert i % 8 < k; }
    }
    assert n / 8 == j && n % 8 == k;
    assert a[..n] == b[..n] && LessAt(a, b, n);
  }

  lemma {:induction false} BitsAgree(p: Key, q: Key, bytes: nat, df: nat)
    requires ValidKey(p) && ValidKey(q) && df < 8
    requires 8 * bytes + df == (if q.len < p.len then q.len else p.len)
    requires forall i :: 0 <= i < bytes ==> p.data[i] == q.data[i]
    requires df > 0 ==> forall i :: 0 <= i < df ==> BitOf(p.data[bytes], i) == BitOf(q.data[bytes], i)
    ensures Overlap(Bits(p), Bits(q))
  {
    var a, b, n := Bits(p), Bits(q), 8 * bytes + df;
    forall i | 0 <= i < n ensures a[i] == b[i] {
      if i / 8 < bytes {
        assert p.data[i / 8] == q.data[i / 8];
      } else {
        assert i / 8 == bytes && i % 8 < df;
      }
    }
  }

  lemma {:induction false} BitCmpForward(p: Key, q: Key)
    requires ValidKey(p) && ValidKey(q)
    ensures BitCmp(p, q) < 0 ==> Less(Bits(p), Bits(q))
    ensures BitCmp(p, q) == 0 ==> Overlap(Bits(p), Bits(q))
  {
    var bitlen := if q.len < p.len then q.len else p.len;
    var df, bytes := bitlen % 8, bitlen / 8;
    var cmp := MemCmp(p.data, q.data, 0, bytes);
    MemCmpMeaning(p.data, q.data, 0, bytes);
    if cmp < 0 {
      WholeByte(p, q, bytes);
    } else if cmp == 0 && df == 0 {
      BitsAgree(p, q, bytes, 0);
    } else if cmp == 0 {
      PartialByte(p, q, bytes, df);
    }
  }

  lemma {:induction false} WholeByte(p: Key, q: Key, bytes: nat)
    requires ValidKey(p) && ValidKey(q) && 8 * bytes <= p.len && 8 * bytes <= q.len
    requires exists j :: 0 <= j < bytes && p.data[0..j] == q.data[0..j] && p.data[j] < q.data[j]
    ensures Less(Bits(p), Bits(q))
  {
    var j :| 0 <= j < bytes && p.data[0..j] == q.data[0..j] && p.data[j] < q.data[j];
    assert forall i :: 0 <= i < j ==> p.data[i] == p.data[0..j][i] && q.data[i] == q.data[0..j][i];
    LeadIsShift(p.data[j], 8);
    LeadIsShift(q.data[j], 8);
    ByteLess(p, q, j, 8);
  }

  lemma {:induction false} PartialByte(p: Key, q: Key, bytes: nat, df: nat)
    requires ValidKey(p) && ValidKey(q) && 0 < df < 8
    requires 8 * bytes + df == (if q.len < p.len then q.len else p.len)
    requires forall i :: 0 <= i < bytes ==> p.data[i] == q.data[i]
    ensures p.data[bytes] / Pow2(8 - df) < q.data[bytes] / Pow2(8 - df) ==> Less(Bits(p), Bits(q))
    ensures p.data[bytes] / Pow2(8 - df) == q.data[bytes] / Pow2(8 - df) ==> Overlap(Bits(p), Bits(q))
  {
    var x, y := p.data[bytes], q.data[bytes];
    LeadIsShift(x, df);
    LeadIsShift(y, df);
    if Lead(ByteBits(x), df) < Lead(ByteBits(y), df) {
      ByteLess(p, q, bytes, df);
    } else if Lead(ByteBits(x), df) == Lead(ByteBits(y), df) {
      LeadingBits(x, y, df);
      BitsAgree(p, q, bytes, df);
    }
  }

  lemma {:induction false} BitCmpSwap(p: Key, q: Key)
    requires ValidKey(p) && ValidKey(q)
    ensures BitCmp(q, p) == -BitCmp(p, q)
  {
    MemCmpMeaning(p.data, q.data, 0, (if q.len < p.len then q.len else p.len) / 8);
  }

  lemma {:induction false} ByteLess(p: Key, q: Key, j: nat, df: nat)
    requires ValidKey(p) && ValidKey(q) && 0 < df <= 8 && 8 * j + df <= p.len && 8 * j + df <= q.len
    requires forall i :: 0 <= i < j ==> p.data[i] == q.data[i]
    requires Lead(ByteBits(p.data[j]), df) < Lead(ByteBits(q.data[j]), df)
    ensures Less(Bits(p), Bits(q))
  {
    LeadingBits(p.data[j], q.data[j], df);
    var k: nat :| DiffAt(p.data[j], q.data[j], k, df);
    BitsDiffer(p, q, j, k);
  }

  /** The comparator calls two prefixes equal exactly when one covers the other, and otherwise
      orders them by the first bit in which they differ. */
  lemma {:induction false} BitCmpMeaning(p: Key, q: Key)
    requires ValidKey(p) && ValidKey(q)
    ensures BitCmp(p, q) < 0 <==> Less(Bits(p), Bits(q))
    ensures BitCmp(p, q) > 0 <==> Less(Bits(q), Bits(p))
    ensures BitCmp(p, q) == 0 <==> Overlap(Bits(p), Bits(q))
  {
    BitCmpForward(p, q);
    BitCmpForward(q, p);
    BitCmpSwap(p, q);
    if Less(Bits(p), Bits(q)) {
      LessNotOverlap(Bits(p), Bits(q));
      LessExclusive(Bits(p), Bits(q));
    }
    if Less(Bits(q), Bits(p)) {
      LessNotOverlap(Bits(q), Bits(p));
      LessExclusive(Bits(q), Bits(p));
    }
  }
}
