/** The DNS message handler of hev-mapped-dns.c: parses the questions of a request (section 4.1 of
    RFC 1035), maps the queried names, and writes the reply in place. */
module DnsReply {
  import opened Bytes
  import opened MappedDns
  import MappedIndex

  const DOT: Byte := 46

  // ----- the questions -----

  /** A question of type A and class IN: where its name starts, and the name as a string. */
  datatype Hit = Hit(start: nat, name: Name)

  /** The outcome of reading the questions: whether it succeeded, where it ended, and the
      A questions seen up to there. */
  datatype Parsed = Parsed(ok: bool, end: nat, hits: seq<Hit>)

  /** Where the root label of the name at `off` is, or -1 if the message ends first. */
  ghost function NameEnd(s: seq<Byte>, off: nat): (e: int)
    requires off < |s|
    ensures e == -1 || (off <= e < |s| && s[e] == 0)
    decreases |s| - off
  {
    if s[off] == 0 then off else if off + 1 + s[off] >= |s| then -1 else NameEnd(s, off + 1 + s[off])
  }

  /** The labels of the name at `off`, joined by dots. */
  ghost function Dotted(s: seq<Byte>, off: nat): (r: seq<int>)
    requires off < |s| && NameEnd(s, off) >= 0
    ensures |r| == if s[off] == 0 then 0 else NameEnd(s, off) - off - 1
    decreases |s| - off
  {
    if s[off] == 0 then [] else
      var next := off + 1 + s[off];
      s[off + 1..next] + if s[next] == 0 then [] else [DOT] + Dotted(s, next)
  }

  /** Up to the first NUL. */
  ghost function CString(b: seq<int>): seq<int> {
    if b == [] || b[0] == 0 then [] else [b[0]] + CString(b[1..])
  }

  ghost predicate AskA(s: seq<Byte>, q: nat)
    requires q + 4 <= |s|
  {
    Be16(s[q], s[q + 1]) == 1 && Be16(s[q + 2], s[q + 3]) == 1
  }

  ghost function Parse(s: seq<Byte>, off: nat, n: nat, hits: seq<Hit>): Parsed
    decreases n
  {
    if n == 0 then Parsed(true, off, hits)
    else if off >= |s| then Parsed(false, off, hits)
    else
      var e := NameEnd(s, off);
      if e < 0 || e + 4 >= |s| then Parsed(false, off, hits)
      else Parse(s, e + 5, n - 1, if AskA(s, e + 1) then hits + [Hit(off, CString(Dotted(s, off)))] else hits)
  }

  /** Every hit starts inside the question section, and there is at most one per question. */
  lemma {:induction false} ParseRange(s: seq<Byte>, off: nat, n: nat, hits: seq<Hit>, low: nat)
    requires low <= off <= |s| && forall k :: 0 <= k < |hits| ==> low <= hits[k].start < off
    ensures var p := Parse(s, off, n, hits);
            && off <= p.end <= |s| && |hits| <= |p.hits| <= |hits| + n && hits <= p.hits
            && forall k :: 0 <= k < |p.hits| ==> low <= p.hits[k].start && (p.ok ==> p.hits[k].start < p.end) && p.hits[k].start < |s|
    decreases n
  {
    if n > 0 && off < |s| {
      var e := NameEnd(s, off);
      if e >= 0 && e + 4 < |s| {
        ParseRange(s, e + 5, n - 1, if AskA(s, e + 1) then hits + [Hit(off, CString(Dotted(s, off)))] else hits, low);
      }
    }
  }

  // ----- the answers -----

  /** The index after the names of the hits have been queried in order. */
  ghost function After(a: MappedIndex.Index, max: nat, hits: seq<Hit>): MappedIndex.Index
    decreases |hits|
  {
    if hits == [] then a else MappedIndex.Find(After(a, max, hits[..|hits| - 1]), max, hits[|hits| - 1].name)
  }

  /** The address each of them got at that moment. */
  ghost function Addrs(a: MappedIndex.Index, max: nat, hits: seq<Hit>): (r: seq<int>)
    ensures |r| == |hits|
    decreases |hits|
  {
    if hits == [] then [] else
      var b, n := After(a, max, hits), hits[|hits| - 1].name;
      Addrs(a, max, hits[..|hits| - 1]) + [if n in b.addr then b.addr[n] else 0]
  }

  /** 0xc000 | start, as written to two bytes. */
  function PtrHi(start: nat): Byte { 192 + start / 256 % 64 }
  function PtrLo(start: nat): Byte { start % 256 }

  /** An answer: pointer, type A, class IN, a time to live of one second, four address bytes. */
  function Record(start: nat, ip: nat): (r: seq<Byte>)
    ensures |r| == 16
  {
    [PtrHi(start), PtrLo(start), 0, 1, 0, 1, 0, 0, 0, 1, 0, 4, ip / 16777216 % 256, ip / 65536 % 256, ip / 256 % 256, ip % 256]
  }

  ghost function Records(net: nat, hits: seq<Hit>, addrs: seq<int>): (r: seq<Byte>)
    requires |addrs| == |hits| && forall k :: 0 <= k < |addrs| ==> addrs[k] >= 0
    ensures |r| == 16 * |hits|
    decreases |hits|
  {
    if hits == [] then [] else
      var n := |hits| - 1;
      Records(net, hits[..n], addrs[..n]) + Record(hits[n].start, Address(net, addrs[n]))
  }

  /** The response bit is set, and recursion is available if it was desired. */
  function FlagHi(hi: Byte): Byte { if hi >= 128 then hi else hi + 128 }
  function FlagLo(hi: Byte, lo: Byte): Byte { if hi % 2 == 1 && lo < 128 then lo + 128 else lo }

  /** The reply header: id and question count as asked, `n` answers, nothing else. */
  ghost function Header(s: seq<Byte>, n: nat): (r: seq<Byte>)
    requires |s| >= 12 && n < 256
    ensures |r| == 12
  {
    [s[0], s[1], FlagHi(s[2]), FlagLo(s[2], s[3]), s[4], s[5], 0, n, 0, 0, 0, 0]
  }

  /** The address pointer of an answer leads back to its question if and only if the question
      starts below 0x4000. */
  lemma {:induction false} PointerExact(start: nat)
    ensures var v := Be16(PtrHi(start), PtrLo(start));
            v >= 0xc000 && (v - 0xc000 == start <==> start < 0x4000)
  {
    var a, low := start / 256, start % 256;
    var q, mid := a / 64, a % 64;
    assert start == 0x4000 * q + (256 * mid + low) && 256 * mid + low < 0x4000;
  }

  // ----- reading, in place -----

  /** What follows the label that ends at `next`. */
  ghost function Rest(s: seq<Byte>, next: nat): seq<int>
    requires next < |s| && NameEnd(s, next) >= 0
  {
    if s[next] == 0 then [] else [DOT] + Dotted(s, next)
  }

  lemma {:induction false} DottedHead(s: seq<Byte>, off: nat, next: nat)
    requires off < |s| && s[off] != 0 && next == off + 1 + s[off] < |s| && NameEnd(s, next) >= 0
    ensures NameEnd(s, off) == NameEnd(s, next) && Dotted(s, off) == s[off + 1..next] + Rest(s, next)
  {
  }

  /** The labels from `first` up to `off` have been passed: their length bytes are dots now. */
  ghost predicate Scanned(s: seq<Byte>, b: seq<Byte>, first: nat, off: nat) {
    && first <= off < |s| <= |b| && NameEnd(s, first) == NameEnd(s, off)
    && (forall j :: off <= j < |s| ==> b[j] == s[j])
    && (first < off && NameEnd(s, off) >= 0 ==> Dotted(s, first) == b[first + 1..off] + Rest(s, off))
  }

  lemma {:induction false} Regroup(all: seq<int>, done: seq<int>, tail: seq<int>, x: seq<int>, y: seq<int>)
    requires all == done + ([DOT] + tail) && tail == x + y
    ensures all == (done + [DOT] + x) + y
  {
  }

  lemma {:induction false} SetSlice(s: seq<Byte>, b: seq<Byte>, first: nat, off: nat, next: nat)
    requires first <= off < next <= |s| <= |b| && forall k :: off <= k < |s| ==> b[k] == s[k]
    ensures b[off := DOT][first + 1..next] == if first < off then b[first + 1..off] + [DOT] + s[off + 1..next] else s[off + 1..next]
  {
  }

  lemma {:induction false} ScanOn(s: seq<Byte>, b: seq<Byte>, first: nat, off: nat, next: nat)
    requires Scanned(s, b, first, off) && s[off] != 0 && next == off + 1 + s[off] < |s|
    ensures Scanned(s, b[off := DOT], first, next)
  {
    if NameEnd(s, next) >= 0 {
      DottedHead(s, off, next);
      SetSlice(s, b, first, off, next);
      if first < off { Regroup(Dotted(s, first), b[first + 1..off], Dotted(s, off), s[off + 1..next], Rest(s, next)); }
    }
  }

  /** The loop over the labels of a name: it stops at the root label and has turned the length
      bytes it passed into dots. */
  method ScanName(rb: array<Byte>, qlen: nat, first: nat, ghost s: seq<Byte>) returns (off: int)
    requires first < qlen == |s| && qlen <= rb.Length && forall j :: first <= j < qlen ==> rb[j] == s[j]
    modifies rb
    ensures off == NameEnd(s, first)
    ensures off >= 0 ==> (forall j :: off <= j < qlen ==> rb[j] == s[j]) && (first < off ==> rb[first + 1..off] == Dotted(s, first))
  {
    off := first;
    while rb[off] != 0
      invariant 0 <= off && Scanned(s, rb[..], first, off)
      decreases qlen - off
    {
      var poff := off;
      assert rb[..][poff] == s[poff];
      off := off + 1 + rb[off];
      if off >= qlen { return -1; }
      ghost var b := rb[..];
      ScanOn(s, b, first, poff, off);
      rb[poff] := DOT;
      assert rb[..] == b[poff := DOT];
    }
    assert rb[..][off] == s[off] && (first < off ==> rb[..][first + 1..off] == rb[first + 1..off]);
  }

  /** The C string that starts at `from`. */
  method ReadString(rb: array<Byte>, from: nat, ghost stop: nat) returns (name: Name)
    requires from <= stop < rb.Length && rb[stop] == 0
    ensures name == CString(rb[from..stop])
  {
    var i := from;
    name := [];
    while rb[i] != 0
      invariant from <= i <= stop && CString(rb[from..stop]) == name + CString(rb[i..stop])
      decreases stop - i
    {
      assert rb[i..stop][1..] == rb[i + 1..stop];
      name := name + [rb[i]];
      i := i + 1;
    }
    assert i < stop ==> rb[i..stop][0] == 0;
  }

  ghost predicate Noted(ipo: seq<int>, ips: seq<int>, net: nat, hits: seq<Hit>, addrs: seq<int>) {
    && |ipo| == |ips| == |hits| == |addrs|
    && forall k :: 0 <= k < |hits| ==> ipo[k] == hits[k].start && addrs[k] >= 0 && ips[k] == Address(net, addrs[k])
  }

  lemma {:induction false} NoteMore(ipo: seq<int>, ips: seq<int>, net: nat, hits: seq<Hit>, a: MappedIndex.Index, max: nat, h: Hit)
    requires Noted(ipo, ips, net, hits, Addrs(a, max, hits))
    requires var b := MappedIndex.Find(After(a, max, hits), max, h.name); h.name in b.addr && b.addr[h.name] >= 0
    ensures var b := MappedIndex.Find(After(a, max, hits), max, h.name);
            After(a, max, hits + [h]) == b && Noted(ipo + [h.start], ips + [Address(net, b.addr[h.name])], net, hits + [h], Addrs(a, max, hits + [h]))
  {
    var hits' := hits + [h];
    assert hits'[..|hits'| - 1] == hits && hits'[|hits'| - 1] == h;
    var b := MappedIndex.Find(After(a, max, hits), max, h.name);
    assert After(a, max, hits') == b;
    assert Addrs(a, max, hits') == Addrs(a, max, hits) + [b.addr[h.name]];
  }

  /** What is made of the question at `first`: -1 if it runs past the end, else the place after it; a
      question of type A and class IN has queried the index. */
  ghost predicate QuestionRead(s: seq<Byte>, first: nat, off: int, asked: bool, name: Name, idx: int, max: nat,
                               now: MappedIndex.Index, now': MappedIndex.Index) {
    && first < |s|
    && var e := NameEnd(s, first);
       if e < 0 || e + 4 >= |s| then off == -1 && now' == now
       else
         && off == e + 5 && asked == AskA(s, e + 1) && (!asked ==> now' == now)
         && (asked ==> && name == CString(Dotted(s, first)) && now' == MappedIndex.Find(now, max, name)
                       && name in now'.addr && idx == now'.addr[name] >= 0)
  }

  /** One question: the name, then type and class; a question of type A and class IN is mapped. */
  method ReadQuestion(dns: MappedDns, rb: array<Byte>, qlen: nat, first: nat, ghost s: seq<Byte>)
    returns (off: int, asked: bool, name: Name, idx: int)
    requires dns.Valid() && first < qlen == |s| && qlen <= rb.Length && forall j :: first <= j < qlen ==> rb[j] == s[j]
    modifies dns, rb
    ensures dns.Valid()
    ensures QuestionRead(s, first, off, asked, name, idx, dns.max, old(dns.Index()), dns.Index())
    ensures off >= 0 ==> forall j :: off <= j < qlen ==> rb[j] == s[j]
  {
    asked, name, idx := false, [], 0;
    off := ScanName(rb, qlen, first, s);
    if off < 0 { return; }
    off := off + 1;
    if off + 3 >= qlen { return -1, asked, name, idx; }
    if Be16(rb[off], rb[off + 1]) == 1 && Be16(rb[off + 2], rb[off + 3]) == 1 {
      asked := true;
      name := ReadString(rb, first + 1, if off - 1 == first then off else off - 1);
      assert name == CString(Dotted(s, first));
      idx := dns.Find(name);
    }
    off := off + 4;
  }

  /** Between questions. */
  ghost predicate Reading(s: seq<Byte>, qd: nat, i: nat, off: int, ipo: seq<int>, ips: seq<int>, net: nat, max: nat,
                          hits: seq<Hit>, a: MappedIndex.Index, now: MappedIndex.Index) {
    && i <= qd && off >= 12 && |ips| <= i
    && Parse(s, 12, qd, []) == Parse(s, off, qd - i, hits)
    && now == After(a, max, hits) && Noted(ipo, ips, net, hits, Addrs(a, max, hits))
  }

  lemma {:induction false} ReadOn(s: seq<Byte>, qd: nat, i: nat, off: int, ipo: seq<int>, ips: seq<int>, net: nat, max: nat,
                                  hits: seq<Hit>, a: MappedIndex.Index, now: MappedIndex.Index, next: int, asked: bool, name: Name, idx: int, now': MappedIndex.Index)
    requires Reading(s, qd, i, off, ipo, ips, net, max, hits, a, now) && i < qd && off >= 0
    requires QuestionRead(s, off, next, asked, name, idx, max, now, now')
    ensures next >= 0 && asked ==> Reading(s, qd, i + 1, next, ipo + [off], ips + [Address(net, if idx >= 0 then idx else 0)], net, max, hits + [Hit(off, name)], a, now')
    ensures next >= 0 && !asked ==> Reading(s, qd, i + 1, next, ipo, ips, net, max, hits, a, now')
    ensures next < 0 ==> ReadAll(s, qd, next, ipo, ips, net, max, hits, a, now')
  {
    if next < 0 { ReadStop(s, qd, i, off, ipo, ips, net, max, hits, a, now); }
    else if asked { NoteMore(ipo, ips, net, hits, a, max, Hit(off, name)); }
  }

  /** What the loop over the questions has found, `off` being -1 if it gave up. */
  ghost predicate ReadAll(s: seq<Byte>, qd: nat, off: int, ipo: seq<int>, ips: seq<int>, net: nat, max: nat,
                          hits: seq<Hit>, a: MappedIndex.Index, now: MappedIndex.Index) {
    var p := Parse(s, 12, qd, []);
    && hits == p.hits && now == After(a, max, hits) && (if p.ok then off == p.end else off == -1)
    && |ips| <= qd && Noted(ipo, ips, net, hits, Addrs(a, max, hits))
  }

  lemma {:induction false} ReadStop(s: seq<Byte>, qd: nat, i: nat, off: int, ipo: seq<int>, ips: seq<int>, net: nat, max: nat,
                                    hits: seq<Hit>, a: MappedIndex.Index, now: MappedIndex.Index)
    requires Reading(s, qd, i, off, ipo, ips, net, max, hits, a, now)
    ensures i < qd && (off >= |s| || NameEnd(s, off) < 0 || NameEnd(s, off) + 4 >= |s|) ==> ReadAll(s, qd, -1, ipo, ips, net, max, hits, a, now)
    ensures i == qd ==> ReadAll(s, qd, off, ipo, ips, net, max, hits, a, now)
  {
  }

  lemma {:induction false} AskedIndex(s: seq<Byte>, first: nat, off: int, asked: bool, name: Name, idx: int, max: nat,
                                      now: MappedIndex.Index, now': MappedIndex.Index)
    requires QuestionRead(s, first, off, asked, name, idx, max, now, now') && off >= 0 && asked
    ensures idx >= 0
  {
  }

  /** One turn of the loop over the questions. */
  method ReadNext(dns: MappedDns, rb: array<Byte>, qlen: nat, off: int, ipo: seq<int>, ips: seq<int>,
                  ghost s: seq<Byte>, ghost qd: nat, ghost i: nat, ghost hits: seq<Hit>, ghost a: MappedIndex.Index)
    returns (next: int, ipo': seq<int>, ips': seq<int>, ghost hits': seq<Hit>)
    requires dns.Valid() && qlen == |s| <= rb.Length && i < qd
    requires Reading(s, qd, i, off, ipo, ips, dns.net, dns.max, hits, a, dns.Index()) && forall j :: off <= j < qlen ==> rb[j] == s[j]
    modifies dns, rb
    ensures dns.Valid()
    ensures if next < 0 then ReadAll(s, qd, next, ipo', ips', dns.net, dns.max, hits', a, dns.Index())
            else Reading(s, qd, i + 1, next, ipo', ips', dns.net, dns.max, hits', a, dns.Index()) && forall j :: next <= j < qlen ==> rb[j] == s[j]
  {
    ghost var now := dns.Index();
    ipo', ips', hits' := ipo, ips, hits;
    if off >= qlen {
      ReadStop(s, qd, i, off, ipo, ips, dns.net, dns.max, hits, a, now);
      return -1, ipo', ips', hits';
    }
    var asked, name, idx;
    next, asked, name, idx := ReadQuestion(dns, rb, qlen, off, s);
    ReadOn(s, qd, i, off, ipo, ips, dns.net, dns.max, hits, a, now, next, asked, name, idx, dns.Index());
    if next < 0 { return; }
    if asked {
      AskedIndex(s, off, next, asked, name, idx, dns.max, now, dns.Index());
      return next, ipo + [off], ips + [Address(dns.net, idx)], hits + [Hit(off, name)];
    }
  }

  /** The loop over the questions. */
  method ReadQuestions(dns: MappedDns, rb: array<Byte>, qlen: nat, qd: nat, ghost s: seq<Byte>)
    returns (off: int, ipo: seq<int>, ips: seq<int>, ghost hits: seq<Hit>)
    requires dns.Valid() && 12 <= qlen <= rb.Length && s == rb[..qlen] && qd <= 32
    modifies dns, rb
    ensures dns.Valid() && ReadAll(s, qd, off, ipo, ips, dns.net, dns.max, hits, old(dns.Index()), dns.Index())
  {
    off, ipo, ips, hits := 12, [], [], [];
    ghost var a := dns.Index();
    for i := 0 to qd
      invariant dns.Valid() && Reading(s, qd, i, off, ipo, ips, dns.net, dns.max, hits, a, dns.Index())
      invariant forall j :: off <= j < qlen ==> rb[j] == s[j]
    {
      assert |ipo| < 32;
      off, ipo, ips, hits := ReadNext(dns, rb, qlen, off, ipo, ips, s, qd, i, hits, a);
      if off < 0 { return; }
    }
    ReadStop(s, qd, qd, off, ipo, ips, dns.net, dns.max, hits, a, dns.Index());
  }

  // ----- writing -----

  /** Lines 245-250. */
  method WriteRecord(sb: array<Byte>, off: nat, start: nat, ip: nat)
    requires off + 16 <= sb.Length
    modifies sb
    ensures sb[..off + 16] == old(sb[..off]) + Record(start, ip)
  {
    sb[off], sb[off + 1] := PtrHi(start), PtrLo(start);
    sb[off + 2], sb[off + 3], sb[off + 4], sb[off + 5] := 0, 1, 0, 1;
    sb[off + 6], sb[off + 7], sb[off + 8], sb[off + 9] := 0, 0, 0, 1;
    sb[off + 10], sb[off + 11] := 0, 4;
    sb[off + 12], sb[off + 13], sb[off + 14], sb[off + 15] := ip / 16777216 % 256, ip / 65536 % 256, ip / 256 % 256, ip % 256;
  }

  lemma {:induction false} RecordsOn(pre: seq<Byte>, net: nat, hits: seq<Hit>, addrs: seq<int>, k: nat)
    requires |addrs| == |hits| && k < |hits| && forall i :: 0 <= i < |addrs| ==> addrs[i] >= 0
    ensures pre + Records(net, hits[..k + 1], addrs[..k + 1]) == pre + Records(net, hits[..k], addrs[..k]) + Record(hits[k].start, Address(net, addrs[k]))
  {
    assert hits[..k + 1][..k] == hits[..k] && addrs[..k + 1][..k] == addrs[..k];
  }

  /** The first k answers have been written after `pre`. */
  ghost predicate Written(out: seq<Byte>, pre: seq<Byte>, net: nat, hits: seq<Hit>, addrs: seq<int>, k: nat) {
    && |addrs| == |hits| && k <= |hits| && (forall i :: 0 <= i < |addrs| ==> addrs[i] >= 0)
    && out == pre + Records(net, hits[..k], addrs[..k])
  }

  /** The loop over the answers: it fails exactly when they do not fit. */
  method WriteAnswers(sb: array<Byte>, slen: nat, end: nat, ipo: seq<int>, ips: seq<int>, net: nat, ghost hits: seq<Hit>, ghost addrs: seq<int>)
    returns (off: int)
    requires end <= slen <= sb.Length && Noted(ipo, ips, net, hits, addrs)
    modifies sb
    ensures off == -1 <==> end + 16 * |hits| > slen
    ensures off != -1 ==> off == end + 16 * |hits| && sb[..off] == old(sb[..end]) + Records(net, hits, addrs)
  {
    off := end;
    ghost var pre := sb[..end];
    assert hits[..0] == [] && addrs[..0] == [];
    for i := 0 to |ips|
      invariant off == end + 16 * i <= slen && Written(sb[..off], pre, net, hits, addrs, i)
    {
      if off + 15 >= slen { return -1; }
      RecordsOn(pre, net, hits, addrs, i);
      WriteRecord(sb, off, ipo[i], ips[i]);
      off := off + 16;
    }
    assert hits[..|ips|] == hits && addrs[..|ips|] == addrs;
  }

  lemma {:induction false} AddrsNat(a: MappedIndex.Index, max: nat, hits: seq<Hit>)
    requires MappedIndex.Ok(a, max) && max >= 1
    ensures MappedIndex.Ok(After(a, max, hits), max) && forall k :: 0 <= k < |hits| ==> 0 <= Addrs(a, max, hits)[k] < max
    decreases |hits|
  {
    if hits != [] {
      AddrsNat(a, max, hits[..|hits| - 1]);
      MappedIndex.FindOk(After(a, max, hits[..|hits| - 1]), max, hits[|hits| - 1].name);
    }
  }

  /** The reply to a request `s` whose questions have been read as `p`. */
  ghost function Reply(s: seq<Byte>, p: Parsed, net: nat, addrs: seq<int>): seq<Byte>
    requires |s| >= 12 && 12 <= p.end <= |s| && |addrs| == |p.hits| < 256 && forall k :: 0 <= k < |addrs| ==> addrs[k] >= 0
  {
    Header(s, |p.hits|) + s[12..p.end] + Records(net, p.hits, addrs)
  }

  /** When the handler refuses: buffers too small, more than 32 questions, a question that runs
      past the end, or answers that do not fit. */
  ghost predicate Refuses(s: seq<Byte>, slen: nat) {
    || slen < |s| || |s| < 12 || Be16(s[4], s[5]) > 32
    || var p := Parse(s, 12, Be16(s[4], s[5]), []);
       !p.ok || p.end + 16 * |p.hits| > slen
  }

  lemma {:induction false} HeaderDone(s: seq<Byte>, p: Parsed, net: nat, addrs: seq<int>, copy: seq<Byte>, out: seq<Byte>)
    requires |s| >= 12 && 12 <= p.end <= |s| && |addrs| == |p.hits| < 256 && forall k :: 0 <= k < |addrs| ==> addrs[k] >= 0
    requires copy == s[..p.end] + Records(net, p.hits, addrs) && |out| == |copy| && out[12..] == copy[12..] && out[..12] == Header(s, |p.hits|)
    ensures out == Reply(s, p, net, addrs)
  {
    assert out == out[..12] + out[12..];
    assert copy[12..] == s[12..p.end] + Records(net, p.hits, addrs);
  }

  /** Lines 255-256 and the cleared counts. */
  method WriteHeader(sb: array<Byte>, n: nat, end: nat, ghost s: seq<Byte>)
    requires 12 <= end <= sb.Length && n < 256 && |s| >= 12 && sb[..12] == s[..12]
    modifies sb
    ensures sb[..12] == Header(s, n) && sb[12..end] == old(sb[12..end])
  {
    assert forall k :: 0 <= k < 12 ==> sb[..12][k] == s[..12][k];
    var hi, lo := sb[2], sb[3];
    sb[8], sb[9], sb[10], sb[11] := 0, 0, 0, 0;
    sb[2], sb[3] := FlagHi(hi), FlagLo(hi, lo);
    sb[6], sb[7] := 0, n;
  }

  method Copy(req: array<Byte>, res: array<Byte>, qlen: nat)
    requires qlen <= req.Length && qlen <= res.Length && req != res
    modifies res
    ensures res[..qlen] == req[..qlen]
  {
    for i := 0 to qlen
      invariant res[..i] == req[..i]
    {
      res[i] := req[i];
      assert res[..i + 1] == res[..i] + [res[i]];
    }
  }

  /** The reply after the questions have been read. */
  method WriteReply(res: array<Byte>, slen: nat, ipo: seq<int>, ips: seq<int>, net: nat, ghost s: seq<Byte>, ghost p: Parsed, ghost addrs: seq<int>, off: nat)
    returns (ret: int)
    requires off == p.end && 12 <= off <= |s| <= slen <= res.Length && |ips| <= 32 && Noted(ipo, ips, net, p.hits, addrs)
    requires res[..|s|] == s
    modifies res
    ensures ret == -1 <==> off + 16 * |p.hits| > slen
    ensures ret != -1 ==> 12 <= ret <= slen && res[..ret] == Reply(s, p, net, addrs)
  {
    assert res[..off] == res[..|s|][..off];
    ret := WriteAnswers(res, slen, off, ipo, ips, net, p.hits, addrs);
    if ret == -1 { return; }
    ghost var copy := res[..ret];
    assert res[..12] == copy[..12] && copy[..12] == s[..12];
    WriteHeader(res, |ips|, ret, s);
    assert copy[12..] == res[..ret][12..] && res[..ret][..12] == res[..12];
    HeaderDone(s, p, net, addrs, copy, res[..ret]);
  }

  /** hev_mapped_dns_handle.  The reply has the asked questions byte for byte and one answer per
      question of type A and class IN, in order; the names asked for have been queried in the
      index even if the handler gives up later. */
  method Handle(dns: MappedDns, req: array<Byte>, qlen: nat, res: array<Byte>, slen: nat) returns (ret: int)
    requires dns.Valid() && qlen <= req.Length && slen <= res.Length && req != res
    modifies dns, req, res
    ensures dns.Valid()
    ensures ret == -1 <==> Refuses(old(req[..qlen]), slen)
    ensures var s := old(req[..qlen]);
            dns.Index() == if slen < qlen || qlen < 12 || Be16(s[4], s[5]) > 32 then old(dns.Index())
                           else After(old(dns.Index()), dns.max, Parse(s, 12, Be16(s[4], s[5]), []).hits)
    ensures ret != -1 ==>
              && 12 <= ret <= slen
              && var s := old(req[..qlen]);
                 var p := Parse(s, 12, Be16(s[4], s[5]), []);
                 var addrs := Addrs(old(dns.Index()), dns.max, p.hits);
                 && 12 <= p.end <= |s| && |p.hits| <= 32 && (forall k :: 0 <= k < |addrs| ==> addrs[k] >= 0)
                 && res[..ret] == Reply(s, p, dns.net, addrs)
  {
    if slen < qlen { return -1; }
    if qlen < 12 { return -1; }
    ghost var s, a := req[..qlen], dns.Index();
    AbsOk(dns.Now());
    Copy(req, res, qlen);
    var qd := Be16(req[4], req[5]);
    if qd > 32 { return -1; }
    ghost var p := Parse(s, 12, qd, []);
    ParseRange(s, 12, qd, [], 12);
    AddrsNat(a, dns.max, p.hits);
    ghost var addrs := Addrs(a, dns.max, p.hits);
    var off, ipo, ips, hits := ReadQuestions(dns, req, qlen, qd, s);
    if off < 0 { return -1; }
    ret := WriteReply(res, slen, ipo, ips, dns.net, s, p, addrs, off);
  }

  lemma {:induction false} RecordAt(net: nat, hits: seq<Hit>, addrs: seq<int>, k: nat)
    requires |addrs| == |hits| && k < |hits| && forall i :: 0 <= i < |addrs| ==> addrs[i] >= 0
    ensures Records(net, hits, addrs)[16 * k..16 * k + 16] == Record(hits[k].start, Address(net, addrs[k]))
    decreases |hits|
  {
    var n := |hits| - 1;
    if k < n {
      RecordAt(net, hits[..n], addrs[..n], k);
      assert Records(net, hits, addrs)[16 * k..16 * k + 16] == Records(net, hits[..n], addrs[..n])[16 * k..16 * k + 16];
    }
  }

  function Be32(a: Byte, b: Byte, c: Byte, d: Byte): nat { 16777216 * a + 65536 * b + 256 * c + d }

  lemma {:induction false} Be32Inverse(n: nat)
    requires n < 0x1_0000_0000
    ensures Be32(n / 16777216 % 256, n / 65536 % 256, n / 256 % 256, n % 256) == n
  {
    var a := n / 256;
    var b := a / 256;
    assert n / 65536 == b && n / 16777216 == b / 256 && b / 256 < 256;
    assert n == 256 * a + n % 256 && a == 256 * b + a % 256 && b == 256 * (b / 256) + b % 256;
  }

  /** The sixteen bytes `r` read as an answer: where the name is, and the address. */
  ghost predicate AnswerIs(r: seq<Byte>, start: nat, ip: nat) {
    && |r| == 16 && r[0] >= 192 && (Be16(r[0] - 192, r[1]) == start <==> start < 0x4000)
    && Be16(r[2], r[3]) == 1 && Be16(r[4], r[5]) == 1 && Be32(r[6], r[7], r[8], r[9]) == 1 && Be16(r[10], r[11]) == 4
    && (ip < 0x1_0000_0000 ==> Be32(r[12], r[13], r[14], r[15]) == ip)
  }

  lemma {:induction false} RecordFields(r: seq<Byte>, start: nat, ip: nat)
    requires r == Record(start, ip)
    ensures AnswerIs(r, start, ip)
  {
    PointerExact(start);
    if ip < 0x1_0000_0000 { Be32Inverse(ip); }
  }

  /** Bit 15 is set, bit 7 is set if bit 8 is, and no other bit changes. */
  ghost predicate FlagsSet(asked: nat, flags: nat) {
    flags == asked + (if asked / 32768 == 0 then 32768 else 0) + (if asked / 256 % 2 == 1 && asked / 128 % 2 == 0 then 128 else 0)
  }

  lemma {:induction false} FlagBytes(hi: Byte, lo: Byte)
    ensures FlagsSet(Be16(hi, lo), Be16(FlagHi(hi), FlagLo(hi, lo)))
  {
    assert Be16(hi, lo) / 256 == hi && Be16(hi, lo) / 128 == 2 * hi + lo / 128;
  }

  /** What a client reads before the answers: the id and the questions as asked, the flags, the
      number of answers, no other records. */
  ghost predicate FrontIs(r: seq<Byte>, s: seq<Byte>, end: nat, n: nat) {
    && 12 <= end <= |s| && end <= |r| && r[..2] == s[..2] && r[4..6] == s[4..6] && r[12..end] == s[12..end]
    && Be16(r[6], r[7]) == n && Be16(r[8], r[9]) == 0 && Be16(r[10], r[11]) == 0
    && FlagsSet(Be16(s[2], s[3]), Be16(r[2], r[3]))
  }

  /** What a client reads in the reply: the front, and one answer for each A question in turn. */
  lemma {:induction false} ReplyAnswers(s: seq<Byte>, p: Parsed, net: nat, addrs: seq<int>)
    requires |s| >= 12 && 12 <= p.end <= |s| && |addrs| == |p.hits| < 256 && forall i :: 0 <= i < |addrs| ==> addrs[i] >= 0
    ensures var r := Reply(s, p, net, addrs);
            && |r| == p.end + 16 * |p.hits| && FrontIs(r, s, p.end, |p.hits|)
            && forall k: nat :: k < |p.hits| ==>
                 AnswerIs(r[p.end + 16 * k..p.end + 16 * k + 16], p.hits[k].start, Address(net, addrs[k]))
  {
    FrontRead(s, p, net, addrs);
    var front, rest := Header(s, |p.hits|) + s[12..p.end], Records(net, p.hits, addrs);
    forall k: nat | k < |p.hits| ensures AnswerIs((front + rest)[p.end + 16 * k..p.end + 16 * k + 16], p.hits[k].start, Address(net, addrs[k])) {
      AnswerRead(front, net, p.hits, addrs, k);
    }
  }

  lemma {:induction false} FrontRead(s: seq<Byte>, p: Parsed, net: nat, addrs: seq<int>)
    requires |s| >= 12 && 12 <= p.end <= |s| && |addrs| == |p.hits| < 256 && forall i :: 0 <= i < |addrs| ==> addrs[i] >= 0
    ensures FrontIs(Reply(s, p, net, addrs), s, p.end, |p.hits|)
  {
    var r, h := Reply(s, p, net, addrs), Header(s, |p.hits|);
    assert r[12..p.end] == s[12..p.end];
    forall j | 0 <= j < 12 ensures r[j] == h[j] {}
    assert r[..2] == h[..2] == s[..2] && r[4..6] == h[4..6] == s[4..6];
    FlagBytes(s[2], s[3]);
  }

  lemma {:induction false} AnswerRead(front: seq<Byte>, net: nat, hits: seq<Hit>, addrs: seq<int>, k: nat)
    requires |addrs| == |hits| && k < |hits| && forall i :: 0 <= i < |addrs| ==> addrs[i] >= 0
    ensures AnswerIs((front + Records(net, hits, addrs))[|front| + 16 * k..|front| + 16 * k + 16], hits[k].start, Address(net, addrs[k]))
  {
    var rest := Records(net, hits, addrs);
    RecordAt(net, hits, addrs, k);
    SliceAfter(front, rest, 16 * k, 16 * k + 16);
    RecordFields(rest[16 * k..16 * k + 16], hits[k].start, Address(net, addrs[k]));
  }

  lemma {:induction false} SliceAfter(pre: seq<Byte>, rest: seq<Byte>, i: nat, j: nat)
    requires i <= j <= |rest|
    ensures (pre + rest)[|pre| + i..|pre| + j] == rest[i..j]
  {
  }

  /** In a reply buffer of at most 0x4000 bytes, as the only caller's 1500, every pointer is exact. */
  lemma {:induction false} SmallReplyExact(s: seq<Byte>, slen: nat, k: nat)
    requires !Refuses(s, slen) && slen <= 0x4000
    ensures var p := Parse(s, 12, Be16(s[4], s[5]), []);
            k < |p.hits| ==> var v := Be16(PtrHi(p.hits[k].start), PtrLo(p.hits[k].start)); v - 0xc000 == p.hits[k].start
  {
    var p := Parse(s, 12, Be16(s[4], s[5]), []);
    ParseRange(s, 12, Be16(s[4], s[5]), [], 12);
    if k < |p.hits| { PointerExact(p.hits[k].start); }
  }

  // ----- requests as clients write them -----

  /** A question as section 4.1.2 of RFC 1035 has it: the labels of a name, a type and a class. */
  datatype Question = Question(labels: seq<seq<Byte>>, qtype: nat, qclass: nat)

  /** A label that can be written: not empty, of a length that fits the byte in front of it, and
      without a NUL. */
  ghost predicate GoodLabel(l: seq<Byte>) { 0 < |l| < 256 && 0 !in l }

  ghost predicate GoodQuestion(q: Question) {
    q.qtype < 65536 && q.qclass < 65536 && forall k :: 0 <= k < |q.labels| ==> GoodLabel(q.labels[k])
  }

  /** Each label after its length, then the root label. */
  ghost function NameBytes(labels: seq<seq<Byte>>): (r: seq<Byte>)
    requires forall k :: 0 <= k < |labels| ==> GoodLabel(labels[k])
    ensures |r| > 0
  {
    if labels == [] then [0] else
      assert GoodLabel(labels[0]);
      var len: Byte := |labels[0]|;
      [len] + labels[0] + NameBytes(labels[1..])
  }

  ghost function Joined(labels: seq<seq<Byte>>): seq<Byte> {
    if labels == [] then [] else labels[0] + if |labels| == 1 then [] else [DOT] + Joined(labels[1..])
  }

  ghost function QuestionBytes(q: Question): (r: seq<Byte>)
    requires GoodQuestion(q)
    ensures |r| > 4
  {
    NameBytes(q.labels) + [q.qtype / 256, q.qtype % 256, q.qclass / 256, q.qclass % 256]
  }

  ghost function AllBytes(qs: seq<Question>): seq<Byte>
    requires forall k :: 0 <= k < |qs| ==> GoodQuestion(qs[k])
  {
    if qs == [] then [] else QuestionBytes(qs[0]) + AllBytes(qs[1..])
  }

  /** The A questions of the list, the first byte of which is at `at`. */
  ghost function Asked(qs: seq<Question>, at: nat): seq<Hit>
    requires forall k :: 0 <= k < |qs| ==> GoodQuestion(qs[k])
  {
    if qs == [] then [] else
      (if qs[0].qtype == 1 && qs[0].qclass == 1 then [Hit(at, Joined(qs[0].labels))] else []) + Asked(qs[1..], at + |QuestionBytes(qs[0])|)
  }

  /** `part` stands in `s` from `at` on. */
  ghost predicate StandsAt(s: seq<Byte>, at: nat, part: seq<Byte>) {
    at + |part| <= |s| && s[at..at + |part|] == part
  }

  lemma {:induction false} StandsSplit(s: seq<Byte>, at: nat, a: seq<Byte>, b: seq<Byte>)
    requires StandsAt(s, at, a + b)
    ensures StandsAt(s, at, a) && StandsAt(s, at + |a|, b)
  {
    var w := s[at..at + |a + b|];
    assert s[at..at + |a|] == w[..|a|] && s[at + |a|..at + |a| + |b|] == w[|a|..];
  }

  /** Scanning and joining read the labels that were written. */
  lemma {:induction false} NameRead(s: seq<Byte>, at: nat, labels: seq<seq<Byte>>)
    requires forall k :: 0 <= k < |labels| ==> GoodLabel(labels[k])
    requires StandsAt(s, at, NameBytes(labels))
    ensures at < |s| && (s[at] == 0 <==> labels == []) && NameEnd(s, at) == at + |NameBytes(labels)| - 1 && Dotted(s, at) == Joined(labels)
    decreases labels
  {
    if labels == [] {
      assert s[at..at + 1][0] == 0;
    } else {
      var next := NameCut(s, at, labels);
      NameRead(s, next, labels[1..]);
      NameStep(s, at, next, labels);
    }
  }

  /** Where the first label ends. */
  lemma {:induction false} NameCut(s: seq<Byte>, at: nat, labels: seq<seq<Byte>>) returns (next: nat)
    requires labels != [] && (forall k :: 0 <= k < |labels| ==> GoodLabel(labels[k])) && StandsAt(s, at, NameBytes(labels))
    ensures at < |s| && s[at] == |labels[0]| && next == at + 1 + |labels[0]| && |NameBytes(labels)| == next - at + |NameBytes(labels[1..])|
    ensures StandsAt(s, at + 1, labels[0]) && StandsAt(s, next, NameBytes(labels[1..]))
  {
    assert GoodLabel(labels[0]);
    var l, rest, len: Byte := labels[0], NameBytes(labels[1..]), |labels[0]|;
    CutLabel(s, at, len, l, rest);
    next := at + 1 + |l|;
  }

  lemma {:induction false} CutLabel(s: seq<Byte>, at: nat, len: Byte, l: seq<Byte>, rest: seq<Byte>)
    requires StandsAt(s, at, [len] + l + rest)
    ensures at < |s| && s[at] == len && StandsAt(s, at + 1, l) && StandsAt(s, at + 1 + |l|, rest)
  {
    StandsSplit(s, at, [len] + l, rest);
    StandsSplit(s, at, [len], l);
    assert s[at] == s[at..at + 1][0];
  }

  lemma {:induction false} NameStep(s: seq<Byte>, at: nat, next: nat, labels: seq<seq<Byte>>)
    requires labels != [] && var l := labels[0]; GoodLabel(l) && at < |s| && s[at] == |l| && StandsAt(s, at + 1, l) && next == at + 1 + |l| < |s|
    requires (s[next] == 0 <==> labels[1..] == []) && NameEnd(s, next) >= 0 && Dotted(s, next) == Joined(labels[1..])
    ensures NameEnd(s, at) == NameEnd(s, next) && Dotted(s, at) == Joined(labels)
  {
    assert s[at + 1..next] == labels[0];
  }

  lemma {:induction false} JoinedNoNul(labels: seq<seq<Byte>>)
    requires forall k :: 0 <= k < |labels| ==> GoodLabel(labels[k])
    ensures 0 !in Joined(labels)
  {
    if labels != [] { JoinedNoNul(labels[1..]); }
  }

  lemma {:induction false} WholeString(b: seq<int>)
    requires 0 !in b
    ensures CString(b) == b
  {
    if b != [] {
      assert b[0] in b && b == [b[0]] + b[1..];
      WholeString(b[1..]);
    }
  }

  /** One question as it was written. */
  lemma {:induction false} QuestionWritten(s: seq<Byte>, at: nat, q: Question)
    requires GoodQuestion(q) && StandsAt(s, at, QuestionBytes(q))
    ensures at < |s| && var e := NameEnd(s, at);
            && e >= 0 && e + 5 == at + |QuestionBytes(q)| <= |s|
            && (AskA(s, e + 1) <==> q.qtype == 1 && q.qclass == 1) && CString(Dotted(s, at)) == Joined(q.labels)
  {
    var name, t := NameBytes(q.labels), [q.qtype / 256, q.qtype % 256, q.qclass / 256, q.qclass % 256];
    StandsSplit(s, at, name, t);
    NameRead(s, at, q.labels);
    JoinedNoNul(q.labels);
    WholeString(Joined(q.labels));
    var f := at + |name|;
    var four := s[f..f + 4];
    assert four == t && s[f] == four[0] && s[f + 1] == four[1] && s[f + 2] == four[2] && s[f + 3] == four[3];
  }

  /** Reading the questions of a request finds the A questions that were written, with the labels
      of each name joined by dots. */
  lemma {:induction false} ParseWritten(s: seq<Byte>, at: nat, qs: seq<Question>, hits: seq<Hit>, p: Parsed)
    requires (forall k :: 0 <= k < |qs| ==> GoodQuestion(qs[k])) && StandsAt(s, at, AllBytes(qs))
    requires p == Parsed(true, at + |AllBytes(qs)|, hits + Asked(qs, at))
    ensures Parse(s, at, |qs|, hits) == p
    decreases qs
  {
    if qs == [] {
      assert hits + [] == hits;
    } else {
      var q, rest := qs[0], qs[1..];
      StandsSplit(s, at, QuestionBytes(q), AllBytes(rest));
      var next, more := at + |QuestionBytes(q)|, if q.qtype == 1 && q.qclass == 1 then [Hit(at, Joined(q.labels))] else [];
      AskedStep(qs, at, hits, more);
      ParseWritten(s, next, rest, hits + more, p);
      ParseStep(s, at, next, |qs|, |rest|, q, hits, more, p);
    }
  }

  lemma {:induction false} ParseStep(s: seq<Byte>, at: nat, next: nat, n: nat, m: nat, q: Question, hits: seq<Hit>, more: seq<Hit>, p: Parsed)
    requires GoodQuestion(q) && StandsAt(s, at, QuestionBytes(q)) && next == at + |QuestionBytes(q)| && n == m + 1
    requires more == if q.qtype == 1 && q.qclass == 1 then [Hit(at, Joined(q.labels))] else []
    requires Parse(s, next, m, hits + more) == p
    ensures Parse(s, at, n, hits) == p
  {
    QuestionWritten(s, at, q);
    assert hits + [] == hits;
  }

  lemma {:induction false} AskedStep(qs: seq<Question>, at: nat, hits: seq<Hit>, more: seq<Hit>)
    requires qs != [] && forall k :: 0 <= k < |qs| ==> GoodQuestion(qs[k])
    requires more == if qs[0].qtype == 1 && qs[0].qclass == 1 then [Hit(at, Joined(qs[0].labels))] else []
    ensures var rest, next := qs[1..], at + |QuestionBytes(qs[0])|;
            hits + Asked(qs, at) == hits + more + Asked(rest, next) && at + |AllBytes(qs)| == next + |AllBytes(rest)|
  {
    var rest, next := qs[1..], at + |QuestionBytes(qs[0])|;
    assert Asked(qs, at) == more + Asked(rest, next);
    HitsOn(hits, more, Asked(rest, next));
  }

  lemma {:induction false} HitsOn(a: seq<Hit>, b: seq<Hit>, c: seq<Hit>)
    ensures a + b + c == a + (b + c)
  {
  }

  // ----- a reply, then a lookup of one of its addresses -----

  ghost function Names(hits: seq<Hit>): set<Name> { set k | 0 <= k < |hits| :: hits[k].name }

  ghost function Queries(hits: seq<Hit>): (r: seq<MappedIndex.Op>)
    ensures |r| == |hits|
  {
    seq(|hits|, k requires 0 <= k < |hits| => MappedIndex.Query(hits[k].name))
  }

  /** The questions after the first `k` as a run of the index. */
  lemma {:induction false} AfterIsRun(a: MappedIndex.Index, max: nat, hits: seq<Hit>, k: nat)
    requires k <= |hits|
    ensures After(a, max, hits) == MappedIndex.Run(After(a, max, hits[..k]), max, Queries(hits[k..]))
    ensures MappedIndex.TouchedIn(After(a, max, hits[..k]), max, Queries(hits[k..])) == Names(hits[k..])
    decreases |hits|
  {
    var n := |hits| - 1;
    if k == |hits| {
      assert hits[..k] == hits && Queries(hits[k..]) == [] && Names(hits[k..]) == {};
    } else {
      var front := hits[..n];
      AfterIsRun(a, max, front, k);
      LastHit(hits, k);
      QueriesSnoc(After(a, max, hits[..k]), max, front[k..], hits[n]);
    }
  }

  lemma {:induction false} LastHit(hits: seq<Hit>, k: nat)
    requires k < |hits|
    ensures var n := |hits| - 1; hits[..n][..k] == hits[..k] && hits[k..] == hits[..n][k..] + [hits[n]]
  {
  }

  lemma {:induction false} QueriesSnoc(b: MappedIndex.Index, max: nat, hits: seq<Hit>, h: Hit)
    ensures MappedIndex.Run(b, max, Queries(hits + [h])) == MappedIndex.Find(MappedIndex.Run(b, max, Queries(hits)), max, h.name)
    ensures MappedIndex.TouchedIn(b, max, Queries(hits + [h])) == MappedIndex.TouchedIn(b, max, Queries(hits)) + {h.name}
    ensures Names(hits + [h]) == Names(hits) + {h.name}
  {
    var ops, all := Queries(hits + [h]), hits + [h];
    assert ops[..|ops| - 1] == Queries(hits) && ops[|ops| - 1] == MappedIndex.Query(h.name);
    assert all[|hits|] == h && forall k :: 0 <= k < |hits| ==> all[k] == hits[k];
    forall x | x in Names(hits) ensures x in Names(all) {
      var k :| 0 <= k < |hits| && hits[k].name == x;
      assert all[k].name == x;
    }
  }

  lemma {:induction false} AddrsPrefix(a: MappedIndex.Index, max: nat, hits: seq<Hit>, k: nat)
    requires k < |hits|
    ensures var b, n := After(a, max, hits[..k + 1]), hits[k].name; n in b.addr ==> Addrs(a, max, hits)[k] == b.addr[n]
    decreases |hits|
  {
    var n := |hits| - 1;
    if k == n {
      assert hits[..k + 1] == hits;
    } else {
      AddrsPrefix(a, max, hits[..n], k);
      assert hits[..n][..k + 1] == hits[..k + 1];
    }
  }

  /** The address given for the k-th A question, after the questions behind it have been read. */
  lemma {:induction false} StillHeld(a: MappedIndex.Index, max: nat, hits: seq<Hit>, k: nat)
    requires MappedIndex.Ok(a, max) && max >= 1 && k < |hits| && hits[k].name !in Names(hits[k + 1..])
    ensures 0 <= Addrs(a, max, hits)[k] < max
    ensures MappedIndex.AtAddr(After(a, max, hits), Addrs(a, max, hits)[k]) == [hits[k].name] <==> |Names(hits[k + 1..])| < max
  {
    var n, b, c, ops := hits[k].name, After(a, max, hits[..k + 1]), After(a, max, hits), Queries(hits[k + 1..]);
    AddrsNat(a, max, hits);
    AddrsNat(a, max, hits[..k + 1]);
    AddrsNat(a, max, hits[..k]);
    assert hits[..k + 1][..k] == hits[..k];
    MappedIndex.FindOk(After(a, max, hits[..k]), max, n);
    AddrsPrefix(a, max, hits, k);
    AfterIsRun(a, max, hits, k + 1);
    MappedIndex.KeepsAddress(b, max, n, ops);
    StillThere(b, c, max, n, ops);
  }

  /** The request is answered and has a k-th A question whose name is not asked for again. */
  ghost predicate AsksOnce(s: seq<Byte>, slen: nat, k: nat) {
    && !Refuses(s, slen)
    && var hits := Parse(s, 12, Be16(s[4], s[5]), []).hits; k < |hits| && hits[k].name !in Names(hits[k + 1..])
  }

  ghost function HitsOf(s: seq<Byte>): seq<Hit>
    requires |s| >= 12
  {
    Parse(s, 12, Be16(s[4], s[5]), []).hits
  }

  /** The handler, and what a client then reads as the address of the k-th answer. */
  method HandleThenRead(dns: MappedDns, req: array<Byte>, qlen: nat, res: array<Byte>, slen: nat, k: nat) returns (ip: nat)
    requires dns.Valid() && dns.net + dns.host <= 0x1_0000_0000
    requires qlen <= req.Length && slen <= res.Length && req != res && AsksOnce(req[..qlen], slen, k)
    modifies dns, req, res
    ensures dns.Valid() && dns.Index() == After(old(dns.Index()), dns.max, HitsOf(old(req[..qlen])))
    ensures var addrs := Addrs(old(dns.Index()), dns.max, HitsOf(old(req[..qlen]))); 0 <= addrs[k] < dns.max && ip == Address(dns.net, addrs[k])
  {
    ghost var s, a := req[..qlen], dns.Index();
    ghost var p := Parse(s, 12, Be16(s[4], s[5]), []);
    ghost var addrs := Addrs(a, dns.max, p.hits);
    AbsOk(dns.Now());
    AddrsNat(a, dns.max, p.hits);
    var ret := Handle(dns, req, qlen, res, slen);
    ReplyAnswers(s, p, dns.net, addrs);
    ip := AddressIn(res, ret, k, p, addrs[k], dns.net);
  }

  method AddressIn(res: array<Byte>, ret: nat, k: nat, ghost p: Parsed, ghost idx: nat, ghost net: nat) returns (ip: nat)
    requires 12 <= ret <= res.Length && ret == p.end + 16 * |p.hits| && k < |p.hits| && Be16(res[6], res[7]) == |p.hits|
    requires AnswerIs(res[..ret][p.end + 16 * k..p.end + 16 * k + 16], p.hits[k].start, Address(net, idx)) && Address(net, idx) < 0x1_0000_0000
    ensures ip == Address(net, idx)
  {
    var at := ret - 16 * Be16(res[6], res[7]) + 16 * k;
    ghost var rec := res[..ret][at..at + 16];
    assert rec[12] == res[at + 12] && rec[13] == res[at + 13] && rec[14] == res[at + 14] && rec[15] == res[at + 15];
    ip := Be32(res[at + 12], res[at + 13], res[at + 14], res[at + 15]);
  }

  /** The handler answers a request and the address of the answer to its k-th A question is then
      looked up, as a connection to it does: the answer is the name of that question exactly when
      the A questions behind it ask for fewer than max other names. */
  method HandleThenLookup(dns: MappedDns, req: array<Byte>, qlen: nat, res: array<Byte>, slen: nat, k: nat) returns (r: Answer)
    requires dns.Valid() && dns.net + dns.host <= 0x1_0000_0000
    requires qlen <= req.Length && slen <= res.Length && req != res && AsksOnce(req[..qlen], slen, k)
    modifies dns, req, res
    ensures dns.Valid()
    ensures var hits := HitsOf(old(req[..qlen])); r == Known(hits[k].name) <==> |Names(hits[k + 1..])| < dns.max
  {
    ghost var a, hits := dns.Index(), HitsOf(req[..qlen]);
    AbsOk(dns.Now());
    StillHeld(a, dns.max, hits, k);
    var ip := HandleThenRead(dns, req, qlen, res, slen, k);
    AddressParts(dns.net, dns.host, Addrs(a, dns.max, hits)[k]);
    r := dns.Lookup(ip);
  }
}
