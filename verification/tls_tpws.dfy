/** tpws: resolving split positions (protocol.c, helpers.c) and making two TLS records from one
    (the TLS branch of tamper_out in tamper.c). */
module TlsTpws {
  import opened Bytes
  import opened TlsObserver
  import opened TlsSplit

  // ----- resolving positions -----

  /** A resolved position lies inside the data; 0 stands for "none". */
  function CheckPos(sz: nat, offset: int): nat {
    if 0 <= offset < sz then offset else 0
  }

  ghost predicate Increasing(s: seq<nat>) { forall i, j :: 0 <= i < j < |s| ==> s[i] < s[j] }
  ghost predicate Sorted(s: seq<nat>) { forall i, j :: 0 <= i < j < |s| ==> s[i] <= s[j] }

  function InsertSorted(x: nat, s: seq<nat>): seq<nat> {
    if s == [] || x <= s[0] then [x] + s else [s[0]] + InsertSorted(x, s[1..])
  }

  /** qsort_size_t, as a function. */
  function SortedOf(s: seq<nat>): seq<nat> {
    if s == [] then [] else InsertSorted(s[0], SortedOf(s[1..]))
  }

  lemma {:induction false} InsertSortedFacts(x: nat, s: seq<nat>)
    requires Sorted(s)
    ensures var r := InsertSorted(x, s); Sorted(r) && |r| == |s| + 1 && forall y :: y in r <==> y == x || y in s
  {
    if s != [] && x > s[0] {
      InsertSortedFacts(x, s[1..]);
      assert s == [s[0]] + s[1..];
      SortedCons(s[0], x, s[1..], InsertSorted(x, s[1..]));
    }
  }

  lemma {:induction false} SortedCons(first: nat, x: nat, s: seq<nat>, t: seq<nat>)
    requires Sorted([first] + s) && Sorted(t) && first <= x && forall y :: y in t ==> y == x || y in s
    ensures Sorted([first] + t)
  {
    forall i | 0 <= i < |t| ensures first <= t[i] {
      assert t[i] in t;
      if t[i] != x {
        var j :| 0 <= j < |s| && s[j] == t[i];
        assert ([first] + s)[0] == first && ([first] + s)[j + 1] == s[j];
      }
    }
  }

  lemma {:induction false} SortedOfFacts(s: seq<nat>)
    ensures var r := SortedOf(s); Sorted(r) && |r| == |s| && forall y :: y in r <==> y in s
  {
    if s != [] {
      SortedOfFacts(s[1..]);
      InsertSortedFacts(s[0], SortedOf(s[1..]));
      assert s == [s[0]] + s[1..];
    }
  }

  method SortPrefix(a: array<nat>, ct: nat)
    requires ct <= a.Length
    modifies a
    ensures a[..ct] == SortedOf(old(a[..ct])) && a[ct..] == old(a[ct..])
  {
    var s := SortedOf(a[..ct]);
    SortedOfFacts(a[..ct]);
    for i := 0 to ct
      invariant a[..i] == s[..i] && a[ct..] == old(a[ct..])
    {
      a[i] := s[i];
    }
  }

  /** `done` lists, once each and in order, the values of s[..j], where a run of equal values ends. */
  ghost predicate Compacted(done: seq<nat>, s: seq<nat>, j: nat) {
    && j <= |s| && Increasing(done) && (forall y :: y in done <==> y in s[..j])
    && (0 < j < |s| ==> s[j - 1] < s[j])
  }

  lemma {:induction false} CompactRun(done: seq<nat>, s: seq<nat>, j0: nat, j: nat)
    requires Sorted(s) && Compacted(done, s, j0) && j0 < j <= |s|
    requires (forall k :: j0 <= k < j ==> s[k] == s[j0]) && (j < |s| ==> s[j] != s[j0])
    ensures Compacted(done + [s[j0]], s, j)
  {
    var u := s[j0];
    forall k | 0 <= k < |done| ensures done[k] < u {
      assert done[k] in done;
      var m :| 0 <= m < j0 && s[..j0][m] == done[k];
      assert m < j0 - 1 ==> s[m] <= s[j0 - 1];
    }
    RunAdded(s, j0, j, u);
    if j < |s| { assert s[j0] <= s[j] && s[j - 1] == u; }
  }

  lemma {:induction false} RunAdded(s: seq<nat>, j0: nat, j: nat, u: nat)
    requires j0 < j <= |s| && forall k :: j0 <= k < j ==> s[k] == u
    ensures forall y :: y in s[..j] <==> y in s[..j0] || y == u
  {
    assert s[..j] == s[..j0] + s[j0..j];
    assert s[j0..j][0] == u;
  }

  /** The inner loop of unique_size_t. */
  method EndOfRun(pu: array<nat>, ct: nat, j0: nat) returns (j: nat)
    requires j0 < ct <= pu.Length
    ensures j0 < j <= ct && (forall k :: j0 <= k < j ==> pu[k] == pu[j0]) && (j < ct ==> pu[j] != pu[j0])
  {
    j := j0 + 1;
    while j < ct && pu[j] == pu[j0]
      invariant j0 < j <= ct && forall k :: j0 <= k < j ==> pu[k] == pu[j0]
    {
      j := j + 1;
    }
  }

  /** unique_size_t: compacts runs of equal values in place. */
  method Unique(pu: array<nat>, ct: nat) returns (i: nat)
    requires ct <= pu.Length && Sorted(pu[..ct])
    modifies pu
    ensures i <= ct && Increasing(pu[..i])
    ensures forall y :: y in pu[..i] <==> y in old(pu[..ct])
  {
    ghost var s := pu[..ct];
    i := 0;
    var j := 0;
    while j < ct
      invariant i <= j <= ct && (forall k :: j <= k < ct ==> pu[k] == s[k]) && Compacted(pu[..i], s, j)
    {
      ghost var done, j0 := pu[..i], j;
      var u := pu[j];
      j := EndOfRun(pu, ct, j);
      CompactRun(done, s, j0, j);
      pu[i] := u;
      i := i + 1;
      assert pu[..i] == done + [u];
    }
    assert s[..ct] == s;
  }

  /** Exactly the positions strictly inside the segment, each once, in increasing order. */
  ghost predicate Resolved(ps: seq<nat>, sz: nat, offs: seq<int>) {
    Increasing(ps) && forall y: nat :: y in ps <==> 0 < y < sz && y in offs
  }

  /** ResolveMultiPos, `offs` being what the markers come to before the range check. */
  method ResolveMultiPos(sz: nat, offs: seq<int>, pos: array<nat>) returns (count: nat)
    requires |offs| <= pos.Length
    modifies pos
    ensures count <= |offs| && Resolved(pos[..count], sz, offs)
  {
    var j := 0;
    for i := 0 to |offs|
      invariant j <= i && forall y: nat :: y in pos[..j] <==> 0 < y < sz && y in offs[..i]
    {
      assert offs[..i + 1] == offs[..i] + [offs[i]];
      var p := CheckPos(sz, offs[i]);
      pos[j] := p;
      if p != 0 {
        assert pos[..j + 1] == pos[..j] + [p];
        j := j + 1;
      }
    }
    assert offs[..|offs|] == offs;
    ghost var found := pos[..j];
    SortPrefix(pos, j);
    SortedOfFacts(found);
    count := Unique(pos, j);
  }

  // ----- the TLS branch of tamper_out -----

  /** A byte position of the grown segment, as a position of the original bytes. */
  function OriginalPos(at: nat, p: nat): nat
    requires p <= at || p >= 5
  {
    if p <= at then p else p - 5
  }

  /** The adjustment of the split positions. */
  ghost function Moved(ps: seq<nat>, at: nat): (r: seq<nat>)
    ensures |r| == |ps|
  {
    seq(|ps|, i requires 0 <= i < |ps| => if ps[i] > at then ps[i] + 5 else ps[i])
  }

  /** Adjusted positions stay strictly increasing and inside the grown segment; none falls into
      the new header; each has the same original bytes before it and after it as it had. */
  lemma {:induction false} MovedKeepsCuts(s: seq<Byte>, at: nat, l: nat, ps: seq<nat>)
    requires 5 < at < 5 + l <= |s| && Increasing(ps) && forall i :: 0 <= i < |ps| ==> 0 < ps[i] < |s|
    ensures var qs, b := Moved(ps, at), CutBytes(s, 0, at, l);
            && Increasing(qs) && |b| == |s| + 5
            && forall i :: 0 <= i < |qs| ==>
                 && 0 < qs[i] < |b| && (qs[i] <= at || qs[i] > at + 5) && OriginalPos(at, qs[i]) == ps[i]
                 && (5 <= qs[i] <= at ==> b[qs[i]..at] + b[at + 5..] == s[ps[i]..])
                 && (qs[i] > at ==> b[qs[i]..] == s[ps[i]..])
  {
    var qs, b := Moved(ps, at), CutBytes(s, 0, at, l);
    assert |b| == |s| + 5;
    assert b[at + 5..] == s[at..];
    assert b[5..at] == s[5..at];
    forall i | 0 <= i < |qs| ensures
        && (5 <= qs[i] <= at ==> b[qs[i]..at] + b[at + 5..] == s[ps[i]..])
        && (qs[i] > at ==> b[qs[i]..] == s[ps[i]..])
    {
      var q, p := qs[i], ps[i];
      if q > at {
        assert b[q..] == b[at + 5..][p - at..];
      } else if q >= 5 {
        assert b[q..at] == b[5..at][q - 5..];
        assert s[p..] == s[p..at] + s[at..];
      }
    }
  }

  /** Cutting a complete record in two gives two non-empty records with the same type and version
      whose payloads concatenate to the original one; the bytes after it are unchanged. */
  lemma {:induction false} TwoRecords(s: seq<Byte>, at: nat, l: nat)
    requires 5 < at < 5 + l <= |s| && l == Be16(s[3], s[4])
    ensures var h3, p := s[..3], s[5..5 + l];
            var p1, p2 := p[..at - 5], p[at - 5..];
            && s == Encode(h3, p) + s[5 + l..]
            && p1 != [] && p2 != [] && p1 + p2 == p
            && CutBytes(s, 0, at, l) == Encode(h3, p1) + Encode(h3, p2) + s[5 + l..]
  {
    OneRecord(s, l);
    CutRecords(s, at, l);
    var p := s[5..5 + l];
    assert p[..at - 5] + p[at - 5..] == p;
  }

  lemma {:induction false} FourParts(s: seq<Byte>, a: nat, b: nat, c: nat)
    requires a <= b <= c <= |s|
    ensures s == s[..a] + s[a..b] + s[b..c] + s[c..]
  {
  }

  lemma {:induction false} OneRecord(s: seq<Byte>, l: nat)
    requires 5 + l <= |s| && l == Be16(s[3], s[4])
    ensures s == Encode(s[..3], s[5..5 + l]) + s[5 + l..]
  {
    assert Hi(l) == s[3] && Lo(l) == s[4];
    FourParts(s, 3, 5, 5 + l);
    assert s[3..5] == [s[3], s[4]];
  }

  lemma {:induction false} CutRecords(s: seq<Byte>, at: nat, l: nat)
    requires 5 < at < 5 + l <= |s|
    ensures var p := s[5..5 + l];
            CutBytes(s, 0, at, l) == Encode(s[..3], p[..at - 5]) + Encode(s[..3], p[at - 5..]) + s[5 + l..]
  {
    var p, rest := s[5..5 + l], s[5 + l..];
    var p1, p2 := p[..at - 5], p[at - 5..];
    assert s[5..at] == p1;
    assert s[at..] == p2 + rest;
    assert s[0..0 + 3] == s[..3];
    CutFlat(s[..3], p1, p2, rest);
  }

  lemma {:induction false} CutFlat(h3: seq<Byte>, p1: seq<Byte>, p2: seq<Byte>, rest: seq<Byte>)
    ensures h3 + [Hi(|p1|), Lo(|p1|)] + p1 + h3 + [Hi(|p2|), Lo(|p2|)] + (p2 + rest) ==
            Encode(h3, p1) + Encode(h3, p2) + rest
  {
  }

  /** The adjustment loop over the resolved positions. */
  method MovePositions(pos: array<nat>, count: nat, at: nat)
    requires count <= pos.Length
    modifies pos
    ensures pos[..count] == Moved(old(pos[..count]), at)
  {
    ghost var s := pos[..count];
    for i := 0 to count
      invariant forall k :: 0 <= k < i ==> pos[k] == Moved(s, at)[k]
      invariant forall k :: i <= k < count ==> pos[k] == s[k]
    {
      if pos[i] > at { pos[i] := pos[i] + 5; }
    }
  }

  /** In-place construction of two records from the one at the start of the segment. */
  method CutRecord(seg: array<Byte>, size: nat, at: nat, l: nat)
    requires size + 5 <= seg.Length && 5 < at < 5 + l <= size && l == Be16(seg[3], seg[4])
    modifies seg
    ensures seg[..size + 5] == CutBytes(old(seg[..size]), 0, at, l)
  {
    ghost var s := seg[..size];
    MoveUp(seg, at, size);
    assert seg[..3] == s[..3] && seg[5..at] == s[5..at] && seg[0..3] == s[0..3];
    assert seg[at + 5..size + 5] == s[at..];
    WriteHeaders(seg, 0, at, size, at - 5, l - (at - 5));
    ghost var b := seg[..size + 5];
    assert b[at + 5..] == seg[at + 5..size + 5] && b[at..at + 3] == seg[at..at + 3];
    assert b[..3] == seg[..3] && b[5..at] == seg[5..at];
    Assemble(b, s, 0, at, l);
  }

  /** The innermost block: the cut and the adjustment. */
  method CutAndMove(seg: array<Byte>, size: nat, at: nat, l: nat, pos: array<nat>, count: nat)
    requires size + 5 <= seg.Length && 5 < at < 5 + l <= size && l == Be16(seg[3], seg[4])
    requires count <= pos.Length && Increasing(pos[..count]) && forall i :: 0 <= i < count ==> 0 < pos[i] < size
    modifies seg, pos
    ensures seg[..size + 5] == CutBytes(old(seg[..size]), 0, at, l)
    ensures pos[..count] == Moved(old(pos[..count]), at)
    ensures Increasing(pos[..count]) && forall i :: 0 <= i < count ==> 0 < pos[i] < size + 5
  {
    ghost var s, ps := seg[..size], pos[..count];
    MovedKeepsCuts(s, at, l, ps);
    CutRecord(seg, size, at, l);
    MovePositions(pos, count, at);
    assert forall i :: 0 <= i < count ==> pos[i] == pos[..count][i];
  }

  /** The TLS branch: `offs` are the offsets of the split markers, `tlsrec` that of the record
      marker.  The first record is complete, which recognising a ClientHello has established.
      Its payload is cut at the marker where the marker lies strictly inside it, and after one
      byte where the marker lies in the bytes behind it. */
  method TamperTls(seg: array<Byte>, size0: nat, offs: seq<int>, tlsrec: int, pos: array<nat>)
    returns (size: nat, count: nat, ghost ps: seq<nat>)
    requires 5 <= size0 <= seg.Length && 5 + Be16(seg[3], seg[4]) <= size0 && |offs| <= pos.Length
    modifies seg, pos
    ensures count <= |offs| && Resolved(ps, size0, offs)
    ensures Increasing(pos[..count]) && forall i :: 0 <= i < count ==> 0 < pos[i] < size
    ensures var s := old(seg[..size0]);
            var l := Be16(s[3], s[4]);
            if 5 + size0 <= seg.Length && 5 < tlsrec < size0 && l >= 2 then
              var p, k := s[5..5 + l], if tlsrec - 5 < l then tlsrec - 5 else 1;
              && size == size0 + 5 && pos[..count] == Moved(ps, 5 + k)
              && seg[..size] == Encode(s[..3], p[..k]) + Encode(s[..3], p[k..]) + s[5 + l..]
            else
              size == size0 && seg[..] == old(seg[..]) && pos[..count] == ps
  {
    size := size0;
    count := ResolveMultiPos(size, offs, pos);
    ps := pos[..count];
    assert forall i :: 0 <= i < count ==> pos[i] == ps[i] && ps[i] in ps;
    if 5 + size <= seg.Length {
      var tpos := CheckPos(size, tlsrec);
      if tpos > 5 {
        var l := Be16(seg[3], seg[4]);
        if l >= 2 {
          if tpos - 5 >= l { tpos := 6; }
          TwoRecords(seg[..size], tpos, l);
          CutAndMove(seg, size, tpos, l, pos, count);
          size := size + 5;
        }
      }
    }
  }
}
