/** Directory listings (ls.c, strlist.c, str.c, ftpdataio.c): sort keys, the growable list, the order of
    the lines, and their coalescing into few writes. */
module Listing {
  import opened Base

  const DIR_BUFSIZE: nat := 16384
  const MAX_STRLIST: nat := 10000000

  // ---------------------------------------------------------------------------
  // Comparing strings

  /** The sign of a byte-wise comparison of the common length. */
  function Memcmp(a: string, b: string): (r: int)
    requires |a| == |b|
    ensures -1 <= r <= 1
  {
    if a == "" then 0
    else if a[0] < b[0] then -1
    else if a[0] > b[0] then 1
    else Memcmp(a[1..], b[1..])
  }

  /** `str_equal_internal`: of two strings where one begins the other, the longer is the greater. */
  function Compare(a: string, b: string): int {
    var n := if |b| < |a| then |b| else |a|;
    var r := Memcmp(a[..n], b[..n]);
    if r != 0 || |a| == |b| then r else |a| - |b|
  }

  /** The order that `Compare` computes, from its definition alone: `a` begins `b`, or is smaller at the
      first difference. */
  ghost predicate Below(a: string, b: string) {
    exists k :: 0 <= k <= |a| && k <= |b| && a[..k] == b[..k] && k < |b| && (k == |a| || (k < |a| && a[k] < b[k]))
  }

  lemma {:induction false} MemcmpMeaning(a: string, b: string)
    requires |a| == |b|
    ensures Memcmp(a, b) == 0 <==> a == b
    ensures Memcmp(a, b) < 0 ==> exists k :: 0 <= k < |a| && a[..k] == b[..k] && a[k] < b[k]
    ensures Memcmp(b, a) == -Memcmp(a, b)
  {
    if a != "" {
      MemcmpMeaning(a[1..], b[1..]);
      if a[0] == b[0] {
        assert a == [a[0]] + a[1..] && b == [b[0]] + b[1..];
        if Memcmp(a, b) < 0 {
          var k :| 0 <= k < |a[1..]| && a[1..][..k] == b[1..][..k] && a[1..][k] < b[1..][k];
          assert a[..k + 1] == [a[0]] + a[1..][..k] && b[..k + 1] == [b[0]] + b[1..][..k];
          assert a[k + 1] < b[k + 1];
        }
      } else {
        assert a[..0] == b[..0];
      }
    }
  }

  /** The comparison is zero exactly for equal strings, changes sign with the order of its arguments,
      and is negative exactly when the first string is below the second. */
  lemma CompareMeaning(a: string, b: string)
    ensures Compare(a, b) == 0 <==> a == b
    ensures Compare(a, b) < 0 <==> Compare(b, a) > 0
    ensures Compare(a, b) < 0 ==> Below(a, b)
  {
    var n := if |b| < |a| then |b| else |a|;
    MemcmpMeaning(a[..n], b[..n]);
    if Compare(a, b) < 0 {
      if Memcmp(a[..n], b[..n]) < 0 {
        var k :| 0 <= k < n && a[..n][..k] == b[..n][..k] && a[..n][k] < b[..n][k];
        assert a[..k] == a[..n][..k] && b[..k] == b[..n][..k];
      } else {
        assert a[..n] == b[..n];
      }
    }
  }

  // ---------------------------------------------------------------------------
  // Time keys

  function Digit(d: nat): (c: char)
    requires d < 10
    ensures '0' <= c <= '9'
  {
    "0123456789"[d]
  }

  /** `width` decimal digits. */
  function Pad(m: nat, width: nat): (r: string)
    ensures |r| == width
  {
    if width == 0 then "" else Pad(m / 10, width - 1) + [Digit(m % 10)]
  }

  function Pow10(k: nat): (r: nat)
    ensures r > 0
  {
    if k == 0 then 1 else 10 * Pow10(k - 1)
  }

  /** A number printed with zeros up to `width` characters, the minus sign included. */
  function Key(m: int, width: nat): (r: string)
    requires width > 0
    ensures |r| == width
  {
    if m < 0 then "-" + Pad(-m, width - 1) else Pad(m, width)
  }

  /** "%030ld" */
  function TimeKey(m: int): string {
    Key(m, 30)
  }

  lemma {:induction false} MemcmpConcat(a: string, b: string, c: string, d: string)
    requires |a| == |b| && |c| == |d|
    ensures Memcmp(a + c, b + d) == if Memcmp(a, b) != 0 then Memcmp(a, b) else Memcmp(c, d)
  {
    if a == "" {
      assert a + c == c && b + d == d;
    } else {
      assert (a + c)[1..] == a[1..] + c && (b + d)[1..] == b[1..] + d;
      MemcmpConcat(a[1..], b[1..], c, d);
    }
  }

  function Sign(d: int): int {
    if d < 0 then -1 else if d > 0 then 1 else 0
  }

  /** Zero-padded numbers of one width compare as numbers. */
  lemma {:induction false} PadOrder(m: nat, n: nat, width: nat)
    requires m < Pow10(width) && n < Pow10(width)
    ensures Memcmp(Pad(m, width), Pad(n, width)) == Sign(m - n)
  {
    if width > 0 {
      PadOrder(m / 10, n / 10, width - 1);
      MemcmpConcat(Pad(m / 10, width - 1), Pad(n / 10, width - 1), [Digit(m % 10)], [Digit(n % 10)]);
      assert m == 10 * (m / 10) + m % 10 && n == 10 * (n / 10) + n % 10;
      DigitOrder(m % 10, n % 10);
    }
  }

  lemma DigitOrder(c: nat, d: nat)
    requires c < 10 && d < 10
    ensures Memcmp([Digit(c)], [Digit(d)]) == Sign(c - d)
  {
    assert Digit(c) as int == '0' as int + c && Digit(d) as int == '0' as int + d;
  }

  /** The values of a 64-bit long. */
  predicate IsLong(n: int) {
    -0x8000_0000_0000_0000 <= n < 0x8000_0000_0000_0000
  }

  lemma LongFits(n: int)
    requires IsLong(n)
    ensures -n < Pow10(29) && n < Pow10(29)
  {
    assert Pow10(5) == 100000;
    assert Pow10(10) == 10000000000;
    assert Pow10(15) == 1000000000000000;
    assert Pow10(20) == 100000000000000000000;
    assert Pow10(25) == 10000000000000000000000000;
  }

  lemma CompareSameLength(a: string, b: string)
    requires |a| == |b|
    ensures Compare(a, b) == Memcmp(a, b)
  {
    assert a[..|a|] == a && b[..|b|] == b;
  }

  lemma KeyOrder(m: int, n: int, width: nat)
    requires width > 0 && -m < Pow10(width - 1) && m < Pow10(width - 1) && -n < Pow10(width - 1) && n < Pow10(width - 1)
    ensures Compare(Key(m, width), Key(n, width)) == if m < 0 && n < 0 then Sign(n - m) else Sign(m - n)
  {
    CompareSameLength(Key(m, width), Key(n, width));
    if m >= 0 && n >= 0 {
      PadOrder(m, n, width);
    } else if m < 0 && n < 0 {
      MemcmpConcat("-", "-", Pad(-m, width - 1), Pad(-n, width - 1));
      PadOrder(-m, -n, width - 1);
    } else {
      FirstDigit(if m < 0 then n else m, width);
    }
  }

  /** Time keys compare as the times do, exactly unless two different times are both before 1970: those
      compare the wrong way round. */
  lemma TimeKeyOrder(m: int, n: int)
    requires IsLong(m) && IsLong(n)
    ensures Compare(TimeKey(m), TimeKey(n)) == Sign(m - n) <==> !(m < 0 && n < 0 && m != n)
    ensures m < 0 && n < 0 ==> Compare(TimeKey(m), TimeKey(n)) == Sign(n - m)
  {
    LongFits(m);
    LongFits(n);
    KeyOrder(m, n, 30);
  }

  lemma FirstDigit(m: nat, width: nat)
    requires width > 0
    ensures '0' <= Pad(m, width)[0] <= '9'
  {
    if width > 1 {
      FirstDigit(m / 10, width - 1);
    }
  }

  // ---------------------------------------------------------------------------
  // The list and its order

  datatype Node = Node(str: string, key: string)

  /** The text a node sorts by. */
  function SortText(n: Node): string {
    if n.key != "" then n.key else n.str
  }

  /** `sort_compare_common`. */
  function CompareNodes(a: Node, b: Node, reverse: bool): int {
    if reverse then Compare(SortText(b), SortText(a)) else Compare(SortText(a), SortText(b))
  }

  ghost predicate Ordered(nodes: seq<Node>, reverse: bool) {
    forall i, j :: 0 <= i < j < |nodes| ==> CompareNodes(nodes[i], nodes[j], reverse) <= 0
  }

  lemma {:induction false} BelowFromCompare(a: string, b: string)
    ensures Below(a, b) ==> Compare(a, b) < 0
  {
    if Below(a, b) {
      var k :| 0 <= k <= |a| && k <= |b| && a[..k] == b[..k] && k < |b| && (k == |a| || (k < |a| && a[k] < b[k]));
      var n := if |b| < |a| then |b| else |a|;
      MemcmpMeaning(a[..k], b[..k]);
      if k == |a| {
        assert a[..n] == a[..k] && b[..n] == b[..k];
      } else {
        assert a[..n] == a[..k] + a[k..n] && b[..n] == b[..k] + b[k..n];
        MemcmpConcat(a[..k], b[..k], a[k..n], b[k..n]);
      }
    }
  }

  lemma BelowTransitive(a: string, b: string, c: string)
    requires Below(a, b) && Below(b, c)
    ensures Below(a, c)
  {
    var k :| 0 <= k <= |a| && k <= |b| && a[..k] == b[..k] && k < |b| && (k == |a| || (k < |a| && a[k] < b[k]));
    var l :| 0 <= l <= |b| && l <= |c| && b[..l] == c[..l] && l < |c| && (l == |b| || (l < |b| && b[l] < c[l]));
    var m := if k < l then k else l;
    assert a[..m] == a[..k][..m] && b[..m] == b[..k][..m] && b[..m] == b[..l][..m] && c[..m] == c[..l][..m];
    assert k < l ==> b[k] == b[..l][k] && c[k] == c[..l][k];
    assert l < k ==> a[l] == a[..k][l] && b[l] == b[..k][l];
  }

  /** The comparison is the strict order `Below`, both ways, and so a proper one to sort by: total and
      transitive. */
  lemma CompareIsOrder(a: string, b: string, c: string)
    ensures Compare(a, b) < 0 <==> Below(a, b)
    ensures Compare(a, b) <= 0 || Compare(b, a) <= 0
    ensures Compare(a, b) <= 0 && Compare(b, c) <= 0 ==> Compare(a, c) <= 0
  {
    CompareMeaning(a, b);
    CompareMeaning(b, c);
    CompareMeaning(a, c);
    BelowFromCompare(a, b);
    BelowFromCompare(a, c);
    if Below(a, b) && Below(b, c) {
      BelowTransitive(a, b, c);
    }
  }

  /** Allocations start at 32 nodes and double. */
  ghost predicate Allocated(n: nat) {
    n == 0 || exists k :: 0 <= k <= 18 && n == 32 * Pow2(k)
  }

  const LIST_LIMIT: nat := 8388608

  lemma Doubling(k: nat)
    requires k <= 18
    ensures 2 * (32 * Pow2(k)) == 32 * Pow2(k + 1)
    ensures 64 * Pow2(k) > MAX_STRLIST <==> k == 18
    ensures k == 18 <==> 32 * Pow2(k) == LIST_LIMIT
  {
    assert Pow2(6) == 64;
    assert Pow2(12) == 4096;
    assert Pow2(17) == 131072 && Pow2(18) == 262144;
    if k < 18 {
      Pow2Grows(k, 17);
    }
  }

  lemma {:induction false} Pow2Grows(k: nat, l: nat)
    requires k <= l
    ensures Pow2(k) <= Pow2(l)
  {
    if k < l {
      Pow2Grows(k, l - 1);
    }
  }

  class StrList {
    var nodes: seq<Node>
    var allocLen: nat

    ghost predicate Valid()
      reads this
    {
      |nodes| <= allocLen && Allocated(allocLen)
    }

    constructor ()
      ensures Valid() && nodes == []
    {
      nodes, allocLen := [], 0;
    }

    /** `str_list_add`: fails, by ending the process, exactly when the list is full. */
    method Add(str: string, key: string) returns (ok: bool)
      requires Valid()
      modifies this
      ensures ok <==> |old(nodes)| < LIST_LIMIT
      ensures ok ==> Valid() && nodes == old(nodes) + [Node(str, key)]
    {
      if allocLen == 0 {
        assert Pow2(0) == 1;
      } else {
        var k :| 0 <= k <= 18 && allocLen == 32 * Pow2(k);
        Doubling(k);
        Pow2Grows(k, 18);
        Doubling(18);
      }
      if |nodes| == allocLen {
        if allocLen == 0 {
          allocLen := 32;
        } else {
          allocLen := allocLen * 2;
          if allocLen > MAX_STRLIST {
            return false;
          }
        }
      }
      nodes := nodes + [Node(str, key)];
      return true;
    }

    /** `str_list_sort`, on top of a correct library sort. */
    method Sort(reverse: bool, qsort: (seq<Node>, bool) -> seq<Node>)
      requires Valid() && Sorts(qsort)
      modifies this`nodes
      ensures Valid() && multiset(nodes) == multiset(old(nodes)) && Ordered(nodes, reverse)
    {
      assert |multiset(qsort(nodes, reverse))| == |multiset(nodes)|;
      nodes := qsort(nodes, reverse);
    }
  }

  /** The library sort permutes, and orders by the comparison it is given. */
  ghost predicate Sorts(qsort: (seq<Node>, bool) -> seq<Node>) {
    forall nodes, reverse ::
      multiset(qsort(nodes, reverse)) == multiset(nodes) && Ordered(qsort(nodes, reverse), reverse)
  }

  datatype Entry = Entry(name: string, line: string, mtime: int)

  function NodeOf(e: Entry, byTime: bool): Node {
    Node(e.line, if byTime then TimeKey(e.mtime) else e.name)
  }

  function NodesOf(es: seq<Entry>, byTime: bool): (r: seq<Node>)
    ensures |r| == |es|
  {
    seq(|es|, i requires 0 <= i < |es| => NodeOf(es[i], byTime))
  }

  lemma Take<T>(s: seq<T>, i: nat)
    requires i < |s|
    ensures multiset(s) == multiset(Without(s, i)) + multiset{s[i]}
  {
    assert s == s[..i] + [s[i]] + s[i + 1..];
  }

  lemma TakeFirst<T>(s: seq<T>)
    requires s != []
    ensures multiset(s) == multiset(s[1..]) + multiset{s[0]}
  {
    assert s == [s[0]] + s[1..];
  }

  lemma CancelOne<T>(a: multiset<T>, b: multiset<T>, x: T)
    requires a + multiset{x} == b + multiset{x}
    ensures a == b
  {
    assert a == (a + multiset{x}) - multiset{x};
    assert b == (b + multiset{x}) - multiset{x};
  }

  lemma NodesWithout(es: seq<Entry>, i: nat, byTime: bool)
    requires i < |es|
    ensures NodesOf(Without(es, i), byTime) == Without(NodesOf(es, byTime), i)
  {
  }

  lemma NodesFirst(e: Entry, es: seq<Entry>, byTime: bool)
    ensures NodesOf([e] + es, byTime) == [NodeOf(e, byTime)] + NodesOf(es, byTime)
  {
  }

  lemma FindNode(n: Node, all: seq<Node>) returns (i: nat)
    requires n in multiset(all)
    ensures i < |all| && all[i] == n
  {
    i :| 0 <= i < |all| && all[i] == n;
  }

  lemma SameSize(nodes: seq<Node>, es: seq<Entry>, byTime: bool)
    requires multiset(nodes) == multiset(NodesOf(es, byTime))
    ensures |nodes| == |es|
  {
    assert |multiset(nodes)| == |nodes| && |multiset(NodesOf(es, byTime))| == |NodesOf(es, byTime)|;
  }

  /** The first node is that of some entry, and the others are those of the other entries. */
  lemma LiftOne(nodes: seq<Node>, es: seq<Entry>, byTime: bool) returns (i: nat)
    requires nodes != [] && multiset(nodes) == multiset(NodesOf(es, byTime))
    ensures i < |es| && NodeOf(es[i], byTime) == nodes[0]
    ensures multiset(nodes[1..]) == multiset(NodesOf(Without(es, i), byTime))
  {
    var all := NodesOf(es, byTime);
    TakeFirst(nodes);
    i := FindNode(nodes[0], all);
    NodesWithout(es, i, byTime);
    Take(all, i);
    CancelOne(multiset(nodes[1..]), multiset(Without(all, i)), nodes[0]);
  }

  lemma PutBack(es: seq<Entry>, i: nat, p: seq<Entry>)
    requires i < |es| && multiset(p) == multiset(Without(es, i))
    ensures multiset([es[i]] + p) == multiset(es)
  {
    Take(es, i);
  }

  /** A permutation of the nodes comes from a permutation of the entries. */
  lemma {:induction false} Lift(nodes: seq<Node>, es: seq<Entry>, byTime: bool) returns (perm: seq<Entry>)
    requires multiset(nodes) == multiset(NodesOf(es, byTime))
    ensures multiset(perm) == multiset(es) && NodesOf(perm, byTime) == nodes
    decreases |nodes|
  {
    SameSize(nodes, es, byTime);
    if nodes == [] {
      perm := [];
    } else {
      var i := LiftOne(nodes, es, byTime);
      var p := Lift(nodes[1..], Without(es, i), byTime);
      PutBack(es, i, p);
      NodesFirst(es[i], p, byTime);
      perm := [es[i]] + p;
    }
  }

  /** Newest first, or oldest first with `r`. */
  ghost predicate ByTime(es: seq<Entry>, r: bool) {
    forall i, j :: 0 <= i < j < |es| ==> InOrder(es[i], es[j], r)
  }

  predicate InOrder(a: Entry, b: Entry, r: bool) {
    if r then a.mtime <= b.mtime else a.mtime >= b.mtime
  }

  /** No two of the entries have different times before 1970. */
  ghost predicate OneEarlyTime(es: seq<Entry>) {
    forall e, f :: e in es && f in es && e.mtime < 0 && f.mtime < 0 ==> e.mtime == f.mtime
  }

  /** Two different times before 1970. */
  predicate EarlyPair(a: Entry, b: Entry) {
    a.mtime < 0 && b.mtime < 0 && a.mtime != b.mtime
  }

  ghost predicate LongTimes(es: seq<Entry>) {
    forall e :: e in es ==> IsLong(e.mtime)
  }

  lemma SameEntries(x: seq<Entry>, y: seq<Entry>)
    requires multiset(x) == multiset(y)
    ensures forall e :: e in x <==> e in y
  {
    assert forall e :: e in x <==> e in multiset(x);
    assert forall e :: e in y <==> e in multiset(y);
  }

  /** Two neighbours in the sorted list are in the order of time, unless both are before 1970 and
      different, when they are in the wrong one. */
  lemma PairOrder(a: Entry, b: Entry, r: bool)
    requires IsLong(a.mtime) && IsLong(b.mtime) && CompareNodes(NodeOf(a, true), NodeOf(b, true), !r) <= 0
    ensures !EarlyPair(a, b) <==> InOrder(a, b, r)
  {
    KeyNonempty(a.mtime);
    KeyNonempty(b.mtime);
    TimeKeyOrder(a.mtime, b.mtime);
    TimeKeyOrder(b.mtime, a.mtime);
  }

  /** Sorting by time keys with the reverse flag inverted gives the entries newest first, if and only if
      no two of them have different times before 1970. */
  lemma TimeOrder(nodes: seq<Node>, es: seq<Entry>, r: bool) returns (perm: seq<Entry>)
    requires LongTimes(es) && multiset(nodes) == multiset(NodesOf(es, true)) && Ordered(nodes, !r)
    ensures multiset(perm) == multiset(es) && NodesOf(perm, true) == nodes
    ensures ByTime(perm, r) <==> OneEarlyTime(es)
  {
    perm := Lift(nodes, es, true);
    SameEntries(perm, es);
    forall i, j | 0 <= i < j < |perm|
      ensures !EarlyPair(perm[i], perm[j]) <==> InOrder(perm[i], perm[j], r)
    {
      assert nodes[i] == NodeOf(perm[i], true) && nodes[j] == NodeOf(perm[j], true);
      assert perm[i] in perm && perm[j] in perm;
      PairOrder(perm[i], perm[j], r);
    }
    OrderedExact(perm, es, r);
  }

  lemma OrderedExact(perm: seq<Entry>, es: seq<Entry>, r: bool)
    requires forall e :: e in perm <==> e in es
    requires forall i, j :: 0 <= i < j < |perm| ==>
      (!EarlyPair(perm[i], perm[j]) <==> InOrder(perm[i], perm[j], r))
    ensures ByTime(perm, r) <==> OneEarlyTime(es)
  {
    if OneEarlyTime(es) {
      forall i, j | 0 <= i < j < |perm| ensures InOrder(perm[i], perm[j], r) {
        assert perm[i] in es && perm[j] in es;
      }
    }
    if ByTime(perm, r) {
      forall e, f | e in es && f in es && e.mtime < 0 && f.mtime < 0 ensures e.mtime == f.mtime {
        var i :| 0 <= i < |perm| && perm[i] == e;
        var j :| 0 <= j < |perm| && perm[j] == f;
        if i < j {
          assert InOrder(perm[i], perm[j], r);
        } else if j < i {
          assert InOrder(perm[j], perm[i], r);
        }
      }
    }
  }

  /** By name, or with `r` the other way round. */
  ghost predicate ByName(es: seq<Entry>, r: bool) {
    forall i, j :: 0 <= i < j < |es| ==>
      if r then Compare(es[j].name, es[i].name) <= 0 else Compare(es[i].name, es[j].name) <= 0
  }

  /** Without time keys the entries are in the order of their names. */
  lemma NameOrder(nodes: seq<Node>, es: seq<Entry>, r: bool) returns (perm: seq<Entry>)
    requires multiset(nodes) == multiset(NodesOf(es, false)) && Ordered(nodes, r)
    ensures multiset(perm) == multiset(es) && NodesOf(perm, false) == nodes
    ensures (forall e :: e in es ==> e.name != "") ==> ByName(perm, r)
  {
    perm := Lift(nodes, es, false);
    SameEntries(perm, es);
    if forall e :: e in es ==> e.name != "" {
      forall i, j | 0 <= i < j < |perm|
        ensures if r then Compare(perm[j].name, perm[i].name) <= 0 else Compare(perm[i].name, perm[j].name) <= 0
      {
        assert perm[i] in es && perm[j] in es;
        assert nodes[i] == NodeOf(perm[i], false) && nodes[j] == NodeOf(perm[j], false);
        assert CompareNodes(nodes[i], nodes[j], r) <= 0;
      }
    }
  }

  lemma KeyNonempty(m: int)
    ensures TimeKey(m) != ""
  {
    assert |Key(m, 30)| == 30;
  }

  // ---------------------------------------------------------------------------
  // Coalesced writes

  function Concat(ss: seq<string>): string {
    if ss == [] then "" else Concat(ss[..|ss| - 1]) + ss[|ss| - 1]
  }

  function Flatten(gs: seq<seq<string>>): seq<string> {
    if gs == [] then [] else Flatten(gs[..|gs| - 1]) + gs[|gs| - 1]
  }

  lemma ConcatSnoc(ss: seq<string>, s: string)
    ensures Concat(ss + [s]) == Concat(ss) + s
  {
    assert (ss + [s])[..|ss|] == ss;
  }

  lemma FlattenSnoc(gs: seq<seq<string>>, g: seq<string>)
    ensures Flatten(gs + [g]) == Flatten(gs) + g
  {
    assert (gs + [g])[..|gs|] == gs;
  }

  /** A group of entries that goes out as one write: it fits the buffer or is a single entry. */
  predicate FitsBuffer(g: seq<string>) {
    g != [] && (|g| == 1 || |Concat(g)| <= DIR_BUFSIZE)
  }

  predicate Overflows(g: seq<string>, next: string) {
    |Concat(g)| + |next| > DIR_BUFSIZE
  }

  /** What went out so far: one write for each group; all but the last succeeded; and each group is as
      large as it can be, since the first entry of the next did not fit any more. */
  ghost predicate Sent(gs: seq<seq<string>>, writes: seq<string>, fails: nat -> bool)
    decreases |gs|
  {
    |writes| == |gs| && (gs != [] ==>
      var n := |gs| - 1;
      && FitsBuffer(gs[n]) && writes[n] == Concat(gs[n])
      && (n > 0 ==> !fails(n - 1) && Overflows(gs[n - 1], gs[n][0]))
      && Sent(gs[..n], writes[..n], fails))
  }

  lemma Send(gs: seq<seq<string>>, writes: seq<string>, fails: nat -> bool, g: seq<string>)
    requires Sent(gs, writes, fails) && FitsBuffer(g)
    requires (gs != [] ==> !fails(|gs| - 1) && Overflows(gs[|gs| - 1], g[0]))
    ensures Sent(gs + [g], writes + [Concat(g)], fails)
  {
    assert (gs + [g])[..|gs|] == gs && (writes + [Concat(g)])[..|gs|] == writes;
  }

  /** What `Sent` says of every write. */
  lemma {:induction false} SentAt(gs: seq<seq<string>>, writes: seq<string>, fails: nat -> bool, k: nat)
    requires Sent(gs, writes, fails) && k < |gs|
    ensures gs[k] != [] && (|gs[k]| == 1 || |Concat(gs[k])| <= 16384) && writes[k] == Concat(gs[k])
    ensures k + 1 < |gs| ==> !fails(k) && gs[k + 1] != [] && |Concat(gs[k])| + |gs[k + 1][0]| > 16384
    decreases |gs|
  {
    if k + 1 < |gs| {
      SentAt(gs[..|gs| - 1], writes[..|gs| - 1], fails, k);
    }
  }

  /** The loop before entry `i`: `buf` holds the group `cur`, to which the entry fits. */
  ghost predicate Coalescing(list: seq<string>, i: nat, gs: seq<seq<string>>, writes: seq<string>,
    cur: seq<string>, buf: string, fails: nat -> bool)
  {
    && i <= |list| && Sent(gs, writes, fails) && (gs != [] ==> !fails(|gs| - 1))
    && Flatten(gs) + cur == list[..i] && buf == Concat(cur)
    && (i == |list| ==> cur == [])
    && (i < |list| && cur != [] ==> |buf| + |list[i]| <= DIR_BUFSIZE)
    && (i < |list| && gs != [] ==> Overflows(gs[|gs| - 1], if cur == [] then list[i] else cur[0]))
  }

  /** Entry `i` joins the group. */
  lemma Join(list: seq<string>, i: nat, gs: seq<seq<string>>, writes: seq<string>, cur: seq<string>, buf: string,
    fails: nat -> bool)
    requires Coalescing(list, i, gs, writes, cur, buf, fails) && i < |list|
    ensures var g := cur + [list[i]];
      && Concat(g) == buf + list[i] && FitsBuffer(g) && Flatten(gs) + g == list[..i + 1]
      && (gs != [] ==> Overflows(gs[|gs| - 1], g[0]))
  {
    ConcatSnoc(cur, list[i]);
    Extend(Flatten(gs), cur, list, i);
  }

  lemma Extend(before: seq<string>, cur: seq<string>, list: seq<string>, i: nat)
    requires i < |list| && before + cur == list[..i]
    ensures before + (cur + [list[i]]) == list[..i + 1]
  {
    assert before + (cur + [list[i]]) == (before + cur) + [list[i]];
  }

  /** And waits there for the next. */
  lemma Wait(list: seq<string>, i: nat, gs: seq<seq<string>>, writes: seq<string>, cur: seq<string>, buf: string,
    fails: nat -> bool)
    requires Coalescing(list, i, gs, writes, cur, buf, fails) && i < |list| - 1
    requires |buf + list[i]| + |list[i + 1]| <= DIR_BUFSIZE
    ensures Coalescing(list, i + 1, gs, writes, cur + [list[i]], buf + list[i], fails)
  {
    Join(list, i, gs, writes, cur, buf, fails);
  }

  /** Or the group goes out. */
  lemma Flush(list: seq<string>, i: nat, gs: seq<seq<string>>, writes: seq<string>, cur: seq<string>, buf: string,
    fails: nat -> bool)
    requires Coalescing(list, i, gs, writes, cur, buf, fails) && i < |list|
    requires i == |list| - 1 || |buf + list[i]| + |list[i + 1]| > DIR_BUFSIZE
    ensures var gs', writes' := gs + [cur + [list[i]]], writes + [buf + list[i]];
      && Sent(gs', writes', fails) && Flatten(gs') <= list
      && (!fails(|gs|) ==> Coalescing(list, i + 1, gs', writes', [], "", fails))
  {
    var g := cur + [list[i]];
    Join(list, i, gs, writes, cur, buf, fails);
    Send(gs, writes, fails, g);
    FlattenSnoc(gs, g);
    assert Flatten(gs + [g]) + [] == Flatten(gs + [g]);
  }

  /** `write_dir_list`; the k-th write fails if `fails(k)`. The writes are the entries of the list, in
      order, in groups that are as large as the buffer allows; a failed write is the last. */
  method WriteDirList(list: seq<string>, fails: nat -> bool)
    returns (retval: int, writes: seq<string>, ghost gs: seq<seq<string>>)
    ensures Sent(gs, writes, fails)
    ensures retval == if writes != [] && fails(|writes| - 1) then 1 else 0
    ensures retval == 0 ==> Flatten(gs) == list
    ensures Flatten(gs) <= list
  {
    retval, writes, gs := 0, [], [];
    var buf, i := "", 0;
    ghost var cur: seq<string> := [];
    Begin(list, fails);
    while i < |list| && retval == 0
      invariant 0 <= i <= |list| && (retval == 0 || retval == 1)
      invariant retval == 0 ==> Coalescing(list, i, gs, writes, cur, buf, fails)
      invariant retval == 1 ==> Sent(gs, writes, fails) && writes != [] && fails(|writes| - 1) && Flatten(gs) <= list
    {
      retval, buf, writes, cur, gs := AddEntry(list, i, buf, writes, fails, cur, gs);
      i := i + 1;
    }
    if retval == 0 {
      Finished(list, gs, writes, cur, buf, fails);
    }
  }

  /** One turn of the loop. */
  method AddEntry(list: seq<string>, i: nat, buf: string, writes: seq<string>, fails: nat -> bool,
    ghost cur: seq<string>, ghost gs: seq<seq<string>>)
    returns (retval: int, buf': string, writes': seq<string>, ghost cur': seq<string>, ghost gs': seq<seq<string>>)
    requires Coalescing(list, i, gs, writes, cur, buf, fails) && i < |list|
    ensures retval == 0 || retval == 1
    ensures retval == 0 ==> Coalescing(list, i + 1, gs', writes', cur', buf', fails)
    ensures retval == 1 ==> Sent(gs', writes', fails) && writes' != [] && fails(|writes'| - 1) && Flatten(gs') <= list
  {
    retval, writes', gs' := 0, writes, gs;
    buf', cur' := buf + list[i], cur + [list[i]];
    if i == |list| - 1 || |buf'| + |list[i + 1]| > DIR_BUFSIZE {
      Flush(list, i, gs, writes, cur, buf, fails);
      writes', gs' := writes + [buf'], gs + [cur'];
      if fails(|writes|) {
        retval := 1;
      } else {
        buf', cur' := "", [];
      }
    } else {
      Wait(list, i, gs, writes, cur, buf, fails);
    }
  }

  lemma Begin(list: seq<string>, fails: nat -> bool)
    ensures Coalescing(list, 0, [], [], [], "", fails)
  {
  }

  lemma Finished(list: seq<string>, gs: seq<seq<string>>, writes: seq<string>, cur: seq<string>, buf: string,
    fails: nat -> bool)
    requires Coalescing(list, |list|, gs, writes, cur, buf, fails)
    ensures Sent(gs, writes, fails) && (writes != [] ==> !fails(|writes| - 1)) && Flatten(gs) == list
  {
    assert list[..|list|] == list;
    assert Flatten(gs) + [] == Flatten(gs);
  }

  lemma {:induction false} ConcatFlatten(gs: seq<seq<string>>, writes: seq<string>)
    requires |writes| == |gs| && forall k :: 0 <= k < |gs| ==> writes[k] == Concat(gs[k])
    ensures Concat(writes) == Concat(Flatten(gs))
  {
    if gs != [] {
      var n := |gs| - 1;
      ConcatFlatten(gs[..n], writes[..n]);
      ConcatAppend(Flatten(gs[..n]), gs[n]);
    }
  }

  lemma {:induction false} ConcatAppend(a: seq<string>, b: seq<string>)
    ensures Concat(a + b) == Concat(a) + Concat(b)
  {
    if b == [] {
      assert a + b == a;
    } else {
      var n := |b| - 1;
      assert a + b == (a + b[..n]) + [b[n]];
      ConcatSnoc(a + b[..n], b[n]);
      ConcatAppend(a, b[..n]);
    }
  }

  /** Nonempty entries make nonempty writes. */
  lemma {:induction false} NoEmptyWrite(g: seq<string>)
    requires g != [] && forall i :: 0 <= i < |g| ==> g[i] != ""
    ensures Concat(g) != ""
  {
    assert Concat(g) == Concat(g[..|g| - 1]) + g[|g| - 1];
  }

  lemma {:induction false} InFlatten(gs: seq<seq<string>>, k: nat, i: nat)
    requires k < |gs| && i < |gs[k]|
    ensures gs[k][i] in Flatten(gs)
  {
    var n := |gs| - 1;
    if k < n {
      InFlatten(gs[..n], k, i);
    } else {
      assert (Flatten(gs[..n]) + gs[n])[|Flatten(gs[..n])| + i] == gs[k][i];
    }
  }

  /** Every write fits the buffer or is one entry of the list, and is not empty if no entry is. */
  lemma WriteFits(gs: seq<seq<string>>, writes: seq<string>, fails: nat -> bool, list: seq<string>, k: nat)
    requires Sent(gs, writes, fails) && Flatten(gs) <= list && k < |writes|
    ensures |writes[k]| <= DIR_BUFSIZE || writes[k] in list
    ensures (forall s :: s in list ==> s != "") ==> writes[k] != ""
  {
    SentAt(gs, writes, fails, k);
    forall i | 0 <= i < |gs[k]| ensures gs[k][i] in list {
      InFlatten(gs, k, i);
    }
    if |gs[k]| == 1 {
      assert Concat(gs[k]) == Concat(gs[k][..0]) + gs[k][0] == gs[k][0];
    }
    if forall s :: s in list ==> s != "" {
      NoEmptyWrite(gs[k]);
    }
  }

  // ---------------------------------------------------------------------------
  // The whole listing

  function Lines(es: seq<Entry>): (r: seq<string>)
    ensures |r| == |es| && forall i :: 0 <= i < |es| ==> r[i] == es[i].line
  {
    seq(|es|, i requires 0 <= i < |es| => es[i].line)
  }

  function Strs(nodes: seq<Node>): seq<string> {
    seq(|nodes|, i requires 0 <= i < |nodes| => nodes[i].str)
  }

  /** Add every entry; a list that overflows ends the process. */
  method Populate(es: seq<Entry>, byTime: bool) returns (list: StrList, ok: bool)
    ensures ok <==> |es| <= LIST_LIMIT
    ensures fresh(list) && (ok ==> list.Valid() && list.nodes == NodesOf(es, byTime))
  {
    list := new StrList();
    ok := true;
    var i := 0;
    while i < |es|
      invariant 0 <= i <= |es| && i <= LIST_LIMIT && fresh(list) && list.Valid()
      invariant list.nodes == NodesOf(es[..i], byTime)
    {
      NodesSnoc(es, i, byTime);
      var n := NodeOf(es[i], byTime);
      ok := list.Add(n.str, n.key);
      if !ok {
        return;
      }
      i := i + 1;
    }
    assert es[..i] == es;
  }

  lemma NodesSnoc(es: seq<Entry>, i: nat, byTime: bool)
    requires i < |es|
    ensures NodesOf(es[..i + 1], byTime) == NodesOf(es[..i], byTime) + [NodeOf(es[i], byTime)]
  {
  }

  lemma StrsAreLines(es: seq<Entry>, byTime: bool)
    ensures Strs(NodesOf(es, byTime)) == Lines(es)
  {
  }

  lemma WritesAreList(gs: seq<seq<string>>, writes: seq<string>, fails: nat -> bool)
    requires Sent(gs, writes, fails)
    ensures Concat(writes) == Concat(Flatten(gs))
  {
    forall k | 0 <= k < |gs| ensures writes[k] == Concat(gs[k]) {
      SentAt(gs, writes, fails, k);
    }
    ConcatFlatten(gs, writes);
  }

  /** Each write fits the buffer or is one of the lines, and is not empty if no line is. */
  ghost predicate WellSized(writes: seq<string>, lines: seq<string>) {
    && (forall k :: 0 <= k < |writes| ==> |writes[k]| <= DIR_BUFSIZE || writes[k] in lines)
    && ((forall s :: s in lines ==> s != "") ==> forall k :: 0 <= k < |writes| ==> writes[k] != "")
  }

  lemma AllFit(gs: seq<seq<string>>, writes: seq<string>, fails: nat -> bool, lines: seq<string>)
    requires Sent(gs, writes, fails) && Flatten(gs) <= lines
    ensures WellSized(writes, lines)
  {
    forall k | 0 <= k < |writes|
      ensures |writes[k]| <= DIR_BUFSIZE || writes[k] in lines
      ensures (forall s :: s in lines ==> s != "") ==> writes[k] != ""
    {
      WriteFits(gs, writes, fails, lines, k);
    }
  }

  /** The lines go out: `n` of them, all without a write error. */
  method SendLines(lines: seq<string>, fails: nat -> bool) returns (retval: int, writes: seq<string>, ghost n: nat)
    ensures n <= |lines| && Concat(writes) == Concat(lines[..n]) && (retval == 0 ==> n == |lines|)
    ensures retval == if writes != [] && fails(|writes| - 1) then 1 else 0
    ensures WellSized(writes, lines)
  {
    ghost var gs;
    retval, writes, gs := WriteDirList(lines, fails);
    WritesAreList(gs, writes, fails);
    AllFit(gs, writes, fails, lines);
    n := |Flatten(gs)|;
    assert lines[..n] == Flatten(gs);
  }

  /** A listing, with the options `t` and `r`: without a write error every entry is sent exactly once, in
      the order of time with `t` and of names without. `sent` is that order of the entries, of which
      `n` went out. */
  method ListDirectory(es: seq<Entry>, t: bool, r: bool, qsort: (seq<Node>, bool) -> seq<Node>, fails: nat -> bool)
    returns (ok: bool, retval: int, writes: seq<string>, ghost sent: seq<Entry>, ghost n: nat)
    requires Sorts(qsort)
    ensures ok <==> |es| <= 8388608
    ensures retval == if writes != [] && fails(|writes| - 1) then 1 else 0
    ensures ok ==> multiset(sent) == multiset(es)
    ensures ok && t && LongTimes(es) ==> (ByTime(sent, r) <==> OneEarlyTime(es))
    ensures ok && !t && (forall e :: e in es ==> e.name != "") ==> ByName(sent, r)
    ensures n <= |Lines(sent)| && Concat(writes) == Concat(Lines(sent)[..n])
    ensures ok && retval == 0 ==> n == |sent|
    ensures WellSized(writes, Lines(sent))
  {
    retval, writes, sent, n := 0, [], [], 0;
    var list;
    list, ok := Populate(es, t);
    if !ok {
      return;
    }
    list.Sort(if t then !r else r, qsort);
    sent := SortedEntries(list.nodes, es, t, r);
    StrsAreLines(sent, t);
    retval, writes, n := SendLines(Strs(list.nodes), fails);
  }

  lemma SortedEntries(nodes: seq<Node>, es: seq<Entry>, t: bool, r: bool) returns (sent: seq<Entry>)
    requires multiset(nodes) == multiset(NodesOf(es, t)) && Ordered(nodes, if t then !r else r)
    ensures multiset(sent) == multiset(es) && NodesOf(sent, t) == nodes
    ensures t && LongTimes(es) ==> (ByTime(sent, r) <==> OneEarlyTime(es))
    ensures !t && (forall e :: e in es ==> e.name != "") ==> ByName(sent, r)
  {
    if !t {
      sent := NameOrder(nodes, es, r);
    } else if LongTimes(es) {
      sent := TimeOrder(nodes, es, r);
    } else {
      sent := Lift(nodes, es, t);
    }
  }
}
