/** The file name filter of ls.c: any number of "*" and "?", and "{,}" lists that do not nest. */
module Wildcard {
  import opened Text

  /** VSFTP_MATCHITERS_MAX */
  const MATCH_ITERS_MAX: nat := 1000

  predicate Special(c: char) {
    c == '*' || c == '?' || c == '{'
  }

  predicate Literal(w: string) {
    forall i :: 0 <= i < |w| ==> !Special(w[i])
  }

  /** Length of the literal text in front of the first special byte. */
  function NextSpecial(p: string): (k: nat)
    ensures k <= |p| && Literal(p[..k])
    ensures k < |p| ==> Special(p[k])
  {
    if p == "" || Special(p[0]) then 0
    else
      var k := NextSpecial(p[1..]);
      assert p[..k + 1] == [p[0]] + p[1..][..k];
      k + 1
  }

  /** The texts between the commas of a brace list. */
  function Alternatives(list: string): (r: seq<string>)
    ensures r != [] && forall i :: 0 <= i < |r| ==> |r[i]| <= |list|
    decreases |list|
  {
    if Locate(list, ",").NotFound? then [list]
    else
      var (first, rest) := Split(list, ",");
      [first] + Alternatives(rest)
  }

  /** The patterns a terminated brace list stands for; `q` is what follows the "{". */
  function Expand(q: string): (r: seq<string>)
    requires Locate(q, "}").Found?
    ensures forall i :: 0 <= i < |r| ==> |r[i]| < |q|
  {
    var (inside, after) := Split(q, "}");
    Followed(Alternatives(inside), after)
  }

  function Followed(alts: seq<string>, after: string): (r: seq<string>)
    ensures |r| == |alts| && forall i :: 0 <= i < |r| ==> r[i] == alts[i] + after
  {
    seq(|alts|, i requires 0 <= i < |alts| => alts[i] + after)
  }

  // ---------------------------------------------------------------------------
  // Reference meaning

  /** `n` matches `p`: "*" stands for any text, "?" for one byte, a terminated brace list for any
      of its alternatives, and every other byte, an unterminated "{" included, for itself. */
  ghost predicate Matches(p: string, n: string)
    decreases |p|
  {
    if p == "" then n == ""
    else if p[0] == '*' then exists k :: 0 <= k <= |n| && Matches(p[1..], n[k..])
    else if p[0] == '?' then n != "" && Matches(p[1..], n[1..])
    else if p[0] == '{' && Locate(p[1..], "}").Found? then
      var ps := Expand(p[1..]);
      exists i :: 0 <= i < |ps| && Matches(ps[i], n)
    else n != "" && n[0] == p[0] && Matches(p[1..], n[1..])
  }

  // ---------------------------------------------------------------------------
  // What the code computes

  /** The alternatives that the code tries: its loop over a brace list ends at the first empty text. */
  function Tried(list: string): (r: seq<string>)
    ensures forall i :: 0 <= i < |r| ==> |r[i]| <= |list|
    decreases |list|
  {
    var (first, rest) := Split(list, ",");
    if first == "" then [] else [first] + Tried(rest)
  }

  /** The patterns that the code tries for a brace list. */
  function Tries(q: string): (r: seq<string>)
    requires Locate(q, "}").Found?
    ensures forall i :: 0 <= i < |r| ==> |r[i]| < |q|
  {
    var (inside, after) := Split(q, "}");
    Followed(Tried(inside), after)
  }

  /** Where the literal text `w` is taken to match: here, or at its leftmost place when a "*" came
      just before. */
  function Place(star: bool, w: string, n: string): (r: Located)
    ensures r.Found? ==> r.index + |w| <= |n| && n[r.index..r.index + |w|] == w
    ensures r.Found? && !star ==> r.index == 0
  {
    if w == "" then Found(0)
    else
      var at := Locate(n, w);
      if at.Found? && !star && at.index > 0 then NotFound else at
  }

  /** The greedy answer, when no step budget cuts it short. `star` says a "*" was just passed. */
  ghost predicate Greedy(star: bool, p: string, n: string)
    decreases |p|
  {
    if p == "" then star || n == ""
    else
      var k := NextSpecial(p);
      var at := Place(star, p[..k], n);
      at.Found? && GreedyToken(p, k, n[at.index + k..])
  }

  /** The part of one round after the literal text has been placed. */
  ghost predicate GreedyToken(p: string, k: nat, rest: string)
    requires p != "" && k <= |p| && (k < |p| ==> Special(p[k]))
    decreases |p|, 0
  {
    if k == |p| then rest == ""
    else
      var q := p[k + 1..];
      if p[k] == '*' then Greedy(true, q, rest)
      else if p[k] == '?' then rest != "" && Greedy(false, q, rest[1..])
      else if Locate(q, "}").Found? then
        var ps := Tries(q);
        exists i :: 0 <= i < |ps| && Greedy(false, ps[i], rest)
      else rest != "" && rest[0] == '{' && Greedy(false, q, rest[1..])
  }

  /** How many rounds the matching loop takes, those of the alternatives it tries included. */
  ghost function Rounds(star: bool, p: string, n: string): nat
    decreases |p|
  {
    if p == "" then 0
    else
      var k := NextSpecial(p);
      var at := Place(star, p[..k], n);
      1 + if at.Found? then TokenRounds(p, k, n[at.index + k..]) else 0
  }

  /** The rounds after the literal text of one has been placed. */
  ghost function TokenRounds(p: string, k: nat, rest: string): nat
    requires p != "" && k <= |p| && (k < |p| ==> Special(p[k]))
    decreases |p|, 0
  {
    if k == |p| then 0
    else
      var q := p[k + 1..];
      if p[k] == '*' then Rounds(true, q, rest)
      else if p[k] == '?' then (if rest == "" then 0 else Rounds(false, q, rest[1..]))
      else if Locate(q, "}").Found? then AnyRounds(Split(q, "}").0, Split(q, "}").1, rest)
      else if rest == "" || rest[0] != '{' then 0
      else Rounds(false, q, rest[1..])
  }

  /** The alternatives of a list are tried until one succeeds. */
  ghost function AnyRounds(list: string, after: string, n: string): nat
    decreases |list| + |after| + 1, 0
  {
    var (first, rest) := Split(list, ",");
    if first == "" then 0
    else Rounds(false, first + after, n) + if Greedy(false, first + after, n) then 0 else AnyRounds(rest, after, n)
  }

  // ---------------------------------------------------------------------------
  // Brace lists

  /** The alternatives with the commas between them. */
  function Joined(alts: seq<string>): string
    requires alts != []
  {
    if |alts| == 1 then alts[0] else alts[0] + "," + Joined(alts[1..])
  }

  /** The alternatives of a list hold no comma, and with commas between them they are the list. */
  lemma {:induction false} AlternativesJoin(list: string)
    ensures forall i :: 0 <= i < |Alternatives(list)| ==> ',' !in Alternatives(list)[i]
    ensures Joined(Alternatives(list)) == list
    decreases |list|
  {
    match Locate(list, ",")
    case NotFound =>
      NoComma(list, |list|);
      assert list[..|list|] == list;
    case Found(k) =>
      var (first, rest) := Split(list, ",");
      NoComma(list, k);
      AlternativesJoin(rest);
      assert list[..k] == first && Alternatives(list)[1..] == Alternatives(rest);
  }

  lemma NoComma(list: string, k: nat)
    requires k <= |list| && forall i :: 0 <= i < k ==> !OccursAt(list, ",", i)
    ensures ',' !in list[..k]
  {
    forall i | 0 <= i < k ensures list[i] != ',' {
      assert list[i..i + 1] == [list[i]];
      assert !OccursAt(list, ",", i);
    }
  }

  lemma {:induction false} TriedBegin(list: string)
    ensures |Tried(list)| <= |Alternatives(list)|
    ensures forall i :: 0 <= i < |Tried(list)| ==> Tried(list)[i] == Alternatives(list)[i] != ""
    ensures |Tried(list)| < |Alternatives(list)| ==> Alternatives(list)[|Tried(list)|] == ""
    decreases |list|
  {
    var (first, rest) := Split(list, ",");
    if Locate(list, ",").NotFound? {
      assert first == list && rest == "" && Tried("") == [];
    } else if first != "" {
      TriedBegin(rest);
    }
  }

  /** The code tries the alternatives before the first empty one: all of them, if and only if none is
      empty. */
  lemma TriedExact(list: string)
    ensures Tried(list) == Alternatives(list) <==> "" !in Alternatives(list)
    ensures Tried(list) <= Alternatives(list)
  {
    TriedBegin(list);
    var t, a := Tried(list), Alternatives(list);
    if "" !in a {
      assert |t| == |a|;
    }
  }

  lemma TriesBegin(q: string)
    requires Locate(q, "}").Found?
    ensures |Tries(q)| <= |Expand(q)| && forall i :: 0 <= i < |Tries(q)| ==> Tries(q)[i] == Expand(q)[i]
  {
    TriedBegin(Split(q, "}").0);
  }

  // ---------------------------------------------------------------------------
  // Soundness

  lemma {:induction false} MatchesLiteral(w: string, q: string, n: string)
    requires Literal(w)
    ensures Matches(w + q, n) <==> |w| <= |n| && n[..|w|] == w && Matches(q, n[|w|..])
  {
    if w == "" {
      assert w + q == q && n[0..] == n;
    } else {
      assert (w + q)[1..] == w[1..] + q && (w + q)[0] == w[0];
      if n != "" {
        MatchesLiteral(w[1..], q, n[1..]);
        if |w| <= |n| {
          assert n[|w|..] == n[1..][|w| - 1..];
          assert n[..|w|] == [n[0]] + n[1..][..|w| - 1];
          assert w == [w[0]] + w[1..];
        }
      }
    }
  }

  lemma MatchesStar(q: string, n: string, k: nat)
    requires k <= |n| && Matches(q, n[k..])
    ensures Matches("*" + q, n)
  {
    assert ("*" + q)[1..] == q;
  }

  /** An answer of 1 is always right. */
  lemma {:induction false} GreedySound(star: bool, p: string, n: string)
    requires Greedy(star, p, n)
    ensures Matches(if star then "*" + p else p, n)
    decreases |p|, 1
  {
    if p == "" {
      if star {
        MatchesStar("", n, |n|);
      }
    } else {
      var k := NextSpecial(p);
      var i := Place(star, p[..k], n).index;
      var rest := n[i + k..];
      TokenSound(p, k, rest);
      assert p[..k] + p[k..] == p;
      assert n[i..][..k] == p[..k] && n[i..][k..] == rest;
      MatchesLiteral(p[..k], p[k..], n[i..]);
      if star {
        MatchesStar(p, n, i);
      } else {
        assert n[0..] == n;
      }
    }
  }

  lemma {:induction false} TokenSound(p: string, k: nat, rest: string)
    requires p != "" && k <= |p| && (k < |p| ==> Special(p[k])) && GreedyToken(p, k, rest)
    ensures Matches(p[k..], rest)
    decreases |p|, 0
  {
    if k < |p| {
      var q := p[k + 1..];
      assert p[k..][1..] == q && p[k..] == [p[k]] + q;
      if p[k] == '*' {
        GreedySound(true, q, rest);
      } else if p[k] == '?' {
        GreedySound(false, q, rest[1..]);
      } else if Locate(q, "}").Found? {
        var ps := Tries(q);
        var i :| 0 <= i < |ps| && Greedy(false, ps[i], rest);
        TriesBegin(q);
        GreedySound(false, ps[i], rest);
        assert Matches(Expand(q)[i], rest);
      } else {
        GreedySound(false, q, rest[1..]);
      }
    }
  }

  // ---------------------------------------------------------------------------
  // Literal text and question marks

  /** Where literal text is placed without a "*" before it: here or nowhere. */
  lemma PlaceHere(w: string, n: string)
    ensures Place(false, w, n).Found? <==> w <= n
    ensures w <= n ==> Place(false, w, n) == Found(0) && Place(true, w, n) == Found(0)
  {
    if w <= n {
      assert OccursAt(n, w, 0);
    }
  }

  /** A round places the literal text, and the rest must then match right there. */
  lemma GreedySplit(star: bool, p: string, w: string, u: string, n: string)
    requires p != "" && p == w + u && NextSpecial(p) == |w|
    ensures var at := Place(star, w, n);
      Greedy(star, p, n) <==> at.Found? && Greedy(false, u, n[at.index + |w|..])
  {
    var at := Place(star, w, n);
    assert p[..|w|] == w;
    if at.Found? {
      var rest := n[at.index + |w|..];
      if u != "" {
        TokenAtStart(w, u, rest);
      }
    }
  }

  lemma TokenAtStart(w: string, u: string, rest: string)
    requires u != "" && Special(u[0])
    ensures GreedyToken(w + u, |w|, rest) == Greedy(false, u, rest)
  {
    assert (w + u)[|w|] == u[0] && (w + u)[|w| + 1..] == u[1..];
    assert NextSpecial(u) == 0 && u[..0] == "" && rest[0 + 0..] == rest;
    assert GreedyToken(u, 0, rest) == GreedyToken(w + u, |w|, rest);
  }

  lemma GreedyAfterStar(q: string, n: string)
    ensures Greedy(false, "*" + q, n) == Greedy(true, q, n)
  {
    var p := "*" + q;
    assert NextSpecial(p) == 0 && p[..0] == "" && p[0 + 1..] == q && n[0 + 0..] == n;
  }

  function Marks(j: nat): (r: string)
    ensures |r| == j
  {
    if j == 0 then "" else "?" + Marks(j - 1)
  }

  lemma MarksStep(j: nat, r: string)
    requires j > 0
    ensures Marks(j) + r == "?" + (Marks(j - 1) + r)
  {
  }

  lemma FirstMark(p: string, n: string)
    ensures Matches("?" + p, n) <==> n != "" && Matches(p, n[1..])
    ensures Greedy(false, "?" + p, n) <==> n != "" && Greedy(false, p, n[1..])
  {
    var u := "?" + p;
    assert u[1..] == p;
    assert NextSpecial(u) == 0 && u[..0] == "" && u[0 + 1..] == p && n[0 + 0..] == n;
  }

  lemma {:induction false} SkipMarks(j: nat, r: string, n: string)
    ensures Matches(Marks(j) + r, n) <==> j <= |n| && Matches(r, n[j..])
    ensures Greedy(false, Marks(j) + r, n) <==> j <= |n| && Greedy(false, r, n[j..])
  {
    if j == 0 {
      assert Marks(j) + r == r && n[0..] == n;
    } else {
      MarksStep(j, r);
      FirstMark(Marks(j - 1) + r, n);
      if n != "" {
        SkipMarks(j - 1, r, n[1..]);
        assert j <= |n| ==> n[1..][j - 1..] == n[j..];
      }
    }
  }

  function AfterMarks(s: string): string {
    if s != "" && s[0] == '?' then AfterMarks(s[1..]) else s
  }

  lemma {:induction false} MarksSplit(s: string) returns (j: nat)
    ensures s == Marks(j) + AfterMarks(s)
    ensures AfterMarks(s) == "" || AfterMarks(s)[0] != '?'
    ensures |AfterMarks(s)| <= |s|
  {
    if s != "" && s[0] == '?' {
      j := MarksSplit(s[1..]);
      j := j + 1;
      MarksStep(j, AfterMarks(s));
      assert s == "?" + s[1..];
    } else {
      j := 0;
    }
  }

  // ---------------------------------------------------------------------------
  // Exactness

  /** What follows the literal text and the question marks at the start. */
  function AfterSegment(t: string): string {
    AfterMarks(t[NextSpecial(t)..])
  }

  /** The parts of a pattern after a "*" on which leftmost placement loses no match: every segment is
      literal text, then question marks, then "*". */
  ghost predicate StarTail(t: string)
    decreases |t|
  {
    t == "" ||
    var r := AfterSegment(t);
    r != "" && r[0] == '*' && |r| <= |t| && StarTail(r[1..])
  }

  /** Whatever comes before the first "*" is free, and a brace list must have such alternatives, none of
      them empty. */
  ghost predicate Faithful(p: string)
    decreases |p|
  {
    if p == "" then true
    else if p[0] == '*' then StarTail(p[1..])
    else if p[0] == '{' && Locate(p[1..], "}").Found? then
      var ps := Expand(p[1..]);
      "" !in Alternatives(Split(p[1..], "}").0) && forall i :: 0 <= i < |ps| ==> Faithful(ps[i])
    else Faithful(p[1..])
  }

  /** A segment and what follows it. */
  lemma Segment(t: string) returns (w: string, j: nat, r: string)
    ensures Literal(w) && t == w + (Marks(j) + r) && NextSpecial(t) == |w|
    ensures r == AfterSegment(t) && (r == "" || r[0] != '?') && |r| <= |t|
  {
    var k := NextSpecial(t);
    w, r := t[..k], AfterSegment(t);
    j := MarksSplit(t[k..]);
    assert t == t[..k] + t[k..];
  }

  lemma Slice(n: string, a: nat, b: nat)
    requires a + b <= |n|
    ensures n[a..][b..] == n[a + b..] && n[a..][..b] == n[a..a + b]
  {
  }

  /** The greedy answer of a segment: its text leftmost, as many bytes as question marks, and the rest
      right after them. */
  lemma GreedySegment(star: bool, t: string, w: string, j: nat, r: string, n: string)
    requires t != "" && t == w + (Marks(j) + r) && NextSpecial(t) == |w| && Place(star, w, n).Found?
    ensures var k := Place(star, w, n).index + |w|;
      Greedy(star, t, n) <==> k + j <= |n| && Greedy(false, r, n[k + j..])
  {
    var u, k := Marks(j) + r, Place(star, w, n).index + |w|;
    GreedySplit(star, t, w, u, n);
    GreedySkips(j, r, n, k);
  }

  lemma GreedySkips(j: nat, r: string, n: string, k: nat)
    requires k <= |n|
    ensures Greedy(false, Marks(j) + r, n[k..]) <==> k + j <= |n| && Greedy(false, r, n[k + j..])
  {
    SkipMarks(j, r, n[k..]);
    if k + j <= |n| {
      Slice(n, k, j);
    }
  }

  lemma MatchesSegment(t: string, w: string, j: nat, r: string, n: string)
    requires Literal(w) && t == w + (Marks(j) + r)
    ensures Matches(t, n) <==> w <= n && |w| + j <= |n| && Matches(r, n[|w| + j..])
  {
    var u := Marks(j) + r;
    MatchesLiteral(w, u, n);
    if w <= n {
      assert n[..|w|] == w;
      SkipMarks(j, r, n[|w|..]);
      if |w| + j <= |n| {
        Slice(n, |w|, j);
      }
    }
  }

  /** A "*" absorbs a longer text as well as a shorter one. */
  lemma StarAbsorbs(r: string, n: string, i: nat, m: nat)
    requires r != "" && r[0] == '*' && i <= m <= |n| && Matches(r, n[m..])
    ensures Matches(r, n[i..])
  {
    var k :| 0 <= k <= |n[m..]| && Matches(r[1..], n[m..][k..]);
    Slice(n, m, k);
    Slice(n, i, m - i + k);
  }

  lemma StarPlaces(t: string, n: string) returns (m: nat)
    requires Matches("*" + t, n)
    ensures m <= |n| && Matches(t, n[m..])
  {
    assert ("*" + t)[1..] == t;
    m :| 0 <= m <= |n| && Matches(t, n[m..]);
  }

  /** The leftmost place is no later than any other. */
  lemma LeftmostPlace(w: string, n: string, m: nat) returns (i: nat)
    requires m <= |n| && w <= n[m..]
    ensures Place(true, w, n) == Found(i) && i <= m
  {
    Slice(n, m, |w|);
    assert OccursAt(n, w, m);
    i := Place(true, w, n).index;
  }

  /** Some place of the segment lets the rest match. */
  lemma SomePlace(t: string, w: string, j: nat, r: string, n: string) returns (m: nat)
    requires Literal(w) && t == w + (Marks(j) + r) && Matches("*" + t, n)
    ensures m <= |n| && w <= n[m..] && m + |w| + j <= |n| && Matches(r, n[m + |w| + j..])
  {
    m := StarPlaces(t, n);
    MatchesSegment(t, w, j, r, n[m..]);
    Slice(n, m, |w| + j);
  }

  /** With a "*" behind and a "*" ahead, the leftmost place is as good as any, also for text that is
      followed by question marks. */
  lemma LeftmostIsEnough(t: string, w: string, j: nat, r: string, n: string) returns (i: nat)
    requires Literal(w) && t == w + (Marks(j) + r) && r != "" && r[0] == '*' && Matches("*" + t, n)
    ensures Place(true, w, n) == Found(i) && i + |w| + j <= |n| && Matches(r, n[i + |w| + j..])
  {
    var m := SomePlace(t, w, j, r, n);
    i := LeftmostPlace(w, n, m);
    StarAbsorbs(r, n, i + |w| + j, m + |w| + j);
  }

  lemma {:induction false} StarComplete(t: string, n: string)
    requires StarTail(t) && Matches("*" + t, n)
    ensures Greedy(true, t, n)
    decreases |t|
  {
    if t != "" {
      var w, j, r := Segment(t);
      var i := LeftmostIsEnough(t, w, j, r, n);
      GreedySegment(true, t, w, j, r, n);
      var q, rest := r[1..], n[i + |w| + j..];
      assert r == "*" + q;
      StarComplete(q, rest);
      GreedyAfterStar(q, rest);
    }
  }

  lemma {:induction false} FaithfulLiteral(w: string, q: string)
    requires Literal(w) && Faithful(w + q)
    ensures Faithful(q)
  {
    if w == "" {
      assert w + q == q;
    } else {
      assert (w + q)[1..] == w[1..] + q && (w + q)[0] == w[0];
      FaithfulLiteral(w[1..], q);
    }
  }

  /** On these patterns the greedy answer is the reference meaning. */
  lemma {:induction false} GreedyExact(p: string, n: string)
    requires Faithful(p)
    ensures Greedy(false, p, n) <==> Matches(p, n)
    decreases |p|
  {
    if Greedy(false, p, n) {
      GreedySound(false, p, n);
    }
    if Matches(p, n) && p != "" {
      var k := NextSpecial(p);
      var w := p[..k];
      assert p == w + p[k..];
      MatchesLiteral(w, p[k..], n);
      FaithfulLiteral(w, p[k..]);
      PlaceHere(w, n);
      TokenComplete(p, k, n[k..]);
      assert n[0 + k..] == n[k..];
    }
  }

  lemma {:induction false} TokenComplete(p: string, k: nat, rest: string)
    requires p != "" && k <= |p| && (k < |p| ==> Special(p[k]))
    requires Faithful(p[k..]) && Matches(p[k..], rest)
    ensures GreedyToken(p, k, rest)
    decreases |p|, 0
  {
    if k < |p| {
      var q := p[k + 1..];
      assert p[k..][1..] == q && p[k..] == [p[k]] + q;
      if p[k] == '*' {
        StarComplete(q, rest);
      } else if p[k] == '{' && Locate(q, "}").Found? {
        var ps := Expand(q);
        var i :| 0 <= i < |ps| && Matches(ps[i], rest);
        TriedExact(Split(q, "}").0);
        assert Tries(q)[i] == ps[i];
        GreedyExact(ps[i], rest);
      } else {
        GreedyExact(q, rest[1..]);
      }
    }
  }

  // ---------------------------------------------------------------------------
  // And on no others

  /** No brace list: every "{" is unterminated and stands for itself. */
  predicate ListFree(p: string) {
    forall i :: 0 <= i < |p| && p[i] == '{' ==> '}' !in p[i..]
  }

  lemma ListFreeSuffix(a: string, b: string)
    requires ListFree(a + b)
    ensures ListFree(b)
  {
    forall i | 0 <= i < |b| && b[i] == '{' ensures '}' !in b[i..] {
      assert (a + b)[|a| + i] == '{' && (a + b)[|a| + i..] == b[i..];
    }
  }

  lemma NoClose(q: string)
    requires '}' !in q
    ensures Locate(q, "}").NotFound?
  {
    forall i: nat | i < |q| ensures !OccursAt(q, "}", i) {
      assert q[i] in q;
    }
  }

  lemma ListFreeTail(p: string)
    requires p != "" && ListFree(p)
    ensures ListFree(p[1..])
    ensures p[0] == '{' ==> Locate(p[1..], "}").NotFound?
  {
    assert p == p[..1] + p[1..];
    ListFreeSuffix(p[..1], p[1..]);
    if p[0] == '{' {
      assert p[0..] == p;
      NoClose(p[1..]);
    }
  }

  lemma ListFreeAt(p: string, k: nat)
    requires ListFree(p) && k < |p|
    ensures ListFree(p[k + 1..]) && (p[k] == '{' ==> Locate(p[k + 1..], "}").NotFound?)
  {
    assert p == p[..k] + p[k..] && p[k..][1..] == p[k + 1..];
    ListFreeSuffix(p[..k], p[k..]);
    ListFreeTail(p[k..]);
  }

  /** A name that matches: each "*" stands for nothing and each "?" for one letter. */
  function Sample(p: string): string {
    if p == "" then ""
    else (if p[0] == '*' then "" else if p[0] == '?' then "a" else [p[0]]) + Sample(p[1..])
  }

  lemma {:induction false} SampleMatches(p: string)
    requires ListFree(p)
    ensures Matches(p, Sample(p))
  {
    if p != "" {
      ListFreeTail(p);
      SampleMatches(p[1..]);
      var n := Sample(p);
      if p[0] == '*' {
        assert n[0..] == Sample(p[1..]);
      } else {
        assert n[1..] == Sample(p[1..]);
      }
    }
  }

  lemma {:induction false} SampleLiteral(w: string, u: string)
    requires Literal(w)
    ensures Sample(w + u) == w + Sample(u)
  {
    if w == "" {
      assert w + u == u;
    } else {
      assert (w + u)[1..] == w[1..] + u && (w + u)[0] == w[0];
      SampleLiteral(w[1..], u);
    }
  }

  lemma {:induction false} SampleMarks(j: nat)
    ensures |Sample(Marks(j))| == j
  {
    if j > 0 {
      assert Marks(j)[1..] == Marks(j - 1);
      SampleMarks(j - 1);
    }
  }

  function Fill(j: nat): string {
    seq(j, _ => 'a')
  }

  /** A name that begins with the text of a segment and one byte for each question mark: the greedy
      matcher takes the segment there. */
  lemma SegmentTaken(t: string, w: string, j: nat, r: string, n: string, m: string)
    requires t != "" && t == w + (Marks(j) + r) && NextSpecial(t) == |w| && Literal(w)
    requires n == w + (Fill(j) + m)
    ensures Greedy(true, t, n) <==> Greedy(false, r, m)
    ensures Matches(t, n) <==> Matches(r, m)
  {
    FilledRest(w, j, m);
    PlaceHere(w, n);
    GreedySegment(true, t, w, j, r, n);
    MatchesSegment(t, w, j, r, n);
  }

  lemma FilledRest(w: string, j: nat, m: string)
    ensures var n := w + (Fill(j) + m); w <= n && |w| + j <= |n| && n[|w| + j..] == m
  {
  }

  lemma StarSkips(t: string, a: string, b: string)
    requires Matches(t, b)
    ensures Matches("*" + t, a + b)
  {
    assert (a + b)[|a|..] == b;
    MatchesStar(t, a + b, |a|);
  }

  /** A last segment without "*": written twice, its first copy is taken and never given back. */
  lemma MissedLast(t: string, w: string, j: nat) returns (n: string)
    requires Literal(w) && t != "" && t == w + Marks(j) && NextSpecial(t) == |w| && ListFree(t)
    ensures Matches("*" + t, n) && !Greedy(true, t, n)
  {
    SampleLiteral(w, Marks(j));
    SampleMarks(j);
    SampleMatches(t);
    var s := Sample(t);
    n := s + s;
    StarSkips(t, s, s);
    assert Marks(j) + "" == Marks(j);
    assert w <= n;
    PlaceHere(w, n);
    GreedySegment(true, t, w, j, "", n);
  }

  /** A fixed byte where the matcher cannot move on: a first place with another byte there is taken and
      never given back. */
  lemma MissedByte(t: string, w: string, j: nat, r: string) returns (n: string)
    requires Literal(w) && t == w + (Marks(j) + r) && NextSpecial(t) == |w| && ListFree(t)
    requires r != "" && r[0] != '*' && r[0] != '?'
    ensures Matches("*" + t, n) && !Greedy(true, t, n)
  {
    SampleMatches(t);
    var other, s := if r[0] == 'a' then 'b' else 'a', Sample(t);
    var m := [other] + s;
    n := w + (Fill(j) + m);
    var a := w + (Fill(j) + [other]);
    Regroup(w, Fill(j), [other], s);
    StarSkips(t, a, s);
    SegmentTaken(t, w, j, r, n, m);
    Regroup(w, Marks(j), r, "");
    ListFreeSuffix(w + Marks(j), r);
    OtherByte(r, other, s);
  }

  lemma Regroup(a: string, b: string, c: string, d: string)
    ensures a + (b + (c + d)) == (a + (b + c)) + d
    ensures a + (b + c) == (a + b) + c
  {
  }

  lemma OtherByte(r: string, other: char, rest: string)
    requires r != "" && r[0] != '*' && r[0] != '?' && r[0] != other && ListFree(r)
    ensures !Greedy(false, r, [other] + rest)
  {
    ListFreeTail(r);
    if Greedy(false, r, [other] + rest) {
      GreedySound(false, r, [other] + rest);
    }
  }

  /** After a "*", every other pattern has a name that it matches and the greedy matcher misses. */
  lemma {:induction false} MissedAfterStar(t: string) returns (n: string)
    requires ListFree(t) && !StarTail(t)
    ensures Matches("*" + t, n) && !Greedy(true, t, n)
    decreases |t|
  {
    var w, j, r := Segment(t);
    if r == "" {
      assert Marks(j) + "" == Marks(j);
      n := MissedLast(t, w, j);
    } else if r[0] == '*' {
      var q := r[1..];
      assert r == "*" + q;
      Regroup(w, Marks(j), "*", q);
      ListFreeSuffix(w + (Marks(j) + "*"), q);
      var m := MissedAfterStar(q);
      n := w + (Fill(j) + m);
      SegmentTaken(t, w, j, r, n, m);
      GreedyAfterStar(q, m);
      assert "" + n == n;
      StarSkips(t, "", n);
    } else {
      n := MissedByte(t, w, j, r);
    }
  }

  lemma PrefixCons(c: char, w: string, n: string)
    ensures [c] + w <= [c] + n <==> w <= n
  {
    if w <= n {
      assert forall i :: 0 <= i < |w| ==> ([c] + n)[i + 1] == n[i];
    }
    if [c] + w <= [c] + n {
      assert forall i :: 0 <= i < |w| ==> ([c] + w)[i + 1] == w[i] && ([c] + n)[i + 1] == n[i];
    }
  }

  lemma NextSpecialCons(c: char, p: string)
    requires !Special(c)
    ensures NextSpecial([c] + p) == 1 + NextSpecial(p)
  {
    assert ([c] + p)[1..] == p;
  }

  /** Without a "*" before it, literal text is a prefix and the rest follows. */
  lemma GreedyPrefix(p: string, w: string, u: string, n: string)
    requires p == w + u && NextSpecial(p) == |w|
    ensures Greedy(false, p, n) <==> w <= n && Greedy(false, u, n[|w|..])
  {
    if p != "" {
      GreedySplit(false, p, w, u, n);
      PlaceHere(w, n);
    } else {
      assert w == "" && u == "" && n[0..] == n;
    }
  }

  lemma SamePrefix(p: string, w: string, n: string, p': string, w': string, n': string, u: string)
    requires p == w + u && NextSpecial(p) == |w| && p' == w' + u && NextSpecial(p') == |w'|
    requires (w <= n <==> w' <= n') && (w <= n ==> n[|w|..] == n'[|w'|..])
    ensures Greedy(false, p, n) == Greedy(false, p', n')
  {
    GreedyPrefix(p, w, u, n);
    GreedyPrefix(p', w', u, n');
  }

  /** A byte that stands for itself is matched by itself. */
  lemma GreedyByte(c: char, p: string, n: string)
    requires !Special(c)
    ensures Greedy(false, [c] + p, [c] + n) == Greedy(false, p, n)
  {
    var k := NextSpecial(p);
    var w, u := p[..k], p[k..];
    ConsSplit(c, p, k);
    NextSpecialCons(c, p);
    PrefixCons(c, w, n);
    if w <= n {
      ConsSlice(c, n, |w|);
    }
    SamePrefix([c] + p, [c] + w, [c] + n, p, w, n, u);
  }

  lemma ConsSplit(c: char, p: string, k: nat)
    requires k <= |p|
    ensures p == p[..k] + p[k..] && [c] + p == ([c] + p[..k]) + p[k..]
  {
  }

  lemma ConsSlice(c: char, n: string, k: nat)
    requires k <= |n|
    ensures ([c] + n)[k + 1..] == n[k..]
  {
  }

  lemma MatchesByte(c: char, p: string, n: string)
    requires c != '*' && c != '?' && (c == '{' ==> Locate(p, "}").NotFound?)
    ensures Matches([c] + p, [c] + n) == Matches(p, n)
  {
    assert ([c] + p)[1..] == p && ([c] + n)[1..] == n;
  }

  lemma GreedyBrace(p: string, n: string)
    requires Locate(p, "}").NotFound?
    ensures Greedy(false, "{" + p, "{" + n) == Greedy(false, p, n)
  {
    var u, m := "{" + p, "{" + n;
    assert NextSpecial(u) == 0 && u[..0] == "" && u[0 + 1..] == p && m[0 + 0..] == m && m[1..] == n;
  }

  /** Every other list-free pattern has a name that it matches and the greedy matcher misses. */
  lemma {:induction false} Missed(p: string) returns (n: string)
    requires ListFree(p) && !Faithful(p)
    ensures Matches(p, n) && !Greedy(false, p, n)
    decreases |p|
  {
    var q := p[1..];
    assert p == [p[0]] + q;
    ListFreeTail(p);
    if p[0] == '*' {
      n := MissedAfterStar(q);
      GreedyAfterStar(q, n);
    } else {
      var m := Missed(q);
      if p[0] == '?' {
        n := "a" + m;
        assert n[1..] == m;
        FirstMark(q, n);
      } else {
        n := [p[0]] + m;
        MatchesByte(p[0], q, m);
        if p[0] == '{' {
          GreedyBrace(q, m);
        } else {
          GreedyByte(p[0], q, m);
        }
      }
    }
  }

  /** Without brace lists the matcher is exact on every name if and only if, after the first "*", every
      segment is literal text, then question marks, then "*". */
  lemma ExactIff(p: string)
    requires ListFree(p)
    ensures (forall n :: Greedy(false, p, n) <==> Matches(p, n)) <==> Faithful(p)
  {
    if Faithful(p) {
      forall n ensures Greedy(false, p, n) <==> Matches(p, n) {
        GreedyExact(p, n);
      }
    } else {
      var n := Missed(p);
    }
  }

  /** With brace lists the shape of the alternatives does not decide: one that is "*" matches every name,
      whatever the others miss. */
  lemma StarAlternative(q: string, i: nat, n: string)
    requires Locate(q, "}").Found? && i < |Tries(q)| && Tries(q)[i] == "*"
    ensures Greedy(false, "{" + q, n) && Matches("{" + q, n)
  {
    assert "*" + "" == "*";
    GreedyAfterStar("", n);
    GreedyList(q, n);
    assert Greedy(false, Tries(q)[i], n);
    GreedySound(false, "{" + q, n);
  }

  /** A pattern that begins with a brace list matches when one of the texts tried does. */
  lemma GreedyList(q: string, n: string)
    requires Locate(q, "}").Found?
    ensures Greedy(false, "{" + q, n) <==> exists i :: 0 <= i < |Tries(q)| && Greedy(false, Tries(q)[i], n)
  {
    var p := "{" + q;
    assert NextSpecial(p) == 0 && p[..0] == "" && p[0 + 1..] == q && n[0 + 0..] == n;
  }

  /** A brace list that begins with an empty alternative is never matched, whatever follows. */
  lemma LeadingCommaIsMissed(q: string, n: string)
    requires Locate(q, "}").Found? && Alternatives(Split(q, "}").0)[0] == ""
    ensures !Greedy(false, "{" + q, n)
  {
    TriedBegin(Split(q, "}").0);
    assert Tries(q) == [];
    GreedyList(q, n);
  }

  lemma LocateByte(a: string, c: char, b: string)
    requires c !in a
    ensures Locate(a + [c] + b, [c]) == Found(|a|) && Split(a + [c] + b, [c]) == (a, b)
  {
    var s := a + [c] + b;
    assert OccursAt(s, [c], |a|);
    forall i | 0 <= i < |a| ensures !OccursAt(s, [c], i) {
      assert s[i..i + 1] == [a[i]];
    }
    assert s[..|a|] == a && s[|a| + 1..] == b;
  }

  lemma LocateNoByte(a: string, c: char)
    requires c !in a
    ensures Locate(a, [c]).NotFound?
  {
    forall i | 0 <= i < |a| ensures !OccursAt(a, [c], i) {
      assert a[i] in a;
    }
  }

  /** The two alternatives of a list with a leading comma. */
  lemma LeadingComma(w: string)
    requires ',' !in w && '}' !in w
    ensures var q := "," + w + "}";
      Locate(q, "}").Found? && Split(q, "}") == ("," + w, "") && Alternatives("," + w) == ["", w]
  {
    LocateByte("," + w, '}', "");
    assert ("," + w) + ['}'] + "" == "," + w + "}";
    LocateByte("", ',', w);
    assert "" + [','] + w == "," + w;
    LocateNoByte(w, ',');
  }

  lemma MatchesItself(w: string)
    requires Literal(w)
    ensures Matches(w, w)
  {
    MatchesLiteral(w, "", w);
    assert w + "" == w && w[|w|..] == "" && w[..|w|] == w;
  }

  lemma MatchesAlternative(q: string, i: nat, n: string)
    requires Locate(q, "}").Found? && i < |Expand(q)| && Matches(Expand(q)[i], n)
    ensures Matches("{" + q, n)
  {
    assert ("{" + q)[1..] == q;
  }

  /** So "{,w}" matches "w" and nothing at all, and the matcher says no to both. */
  lemma EmptyAlternativeIsMissed(w: string)
    requires Literal(w) && ',' !in w && '}' !in w
    ensures var p := "{" + ("," + w + "}");
      Matches(p, w) && !Greedy(false, p, w) && Matches(p, "") && !Greedy(false, p, "")
  {
    var q := "," + w + "}";
    LeadingComma(w);
    assert "" + "" == "" && w + "" == w;
    MatchesItself(w);
    MatchesAlternative(q, 0, "");
    MatchesAlternative(q, 1, w);
    LeadingCommaIsMissed(q, w);
    LeadingCommaIsMissed(q, "");
  }

  lemma {:induction false} NextSpecialOfLiteral(w: string)
    requires Literal(w)
    ensures NextSpecial(w) == |w|
  {
    if w != "" {
      assert forall i :: 0 <= i < |w| - 1 ==> w[1..][i] == w[i + 1];
      NextSpecialOfLiteral(w[1..]);
    }
  }

  /** The simplest failure: "*" and a literal text matches that text written twice, and the matcher
      says no, because the first copy is taken and never given back. */
  lemma GreedyMissesLaterMatch(w: string)
    requires Literal(w) && w != ""
    ensures Matches("*" + w, w + w) && !Greedy(false, "*" + w, w + w)
  {
    MatchesLiteral(w, "", w);
    assert w + "" == w && (w + w)[|w|..] == w;
    MatchesStar(w, w + w, |w|);
    GreedyAfterStar(w, w + w);
    NextSpecialOfLiteral(w);
    PlaceHere(w, w + w);
    GreedySplit(true, w, w, "", w + w);
  }

  // ---------------------------------------------------------------------------
  // The code

  ghost predicate AnyGreedy(ps: seq<string>, after: string, n: string) {
    exists i :: 0 <= i < |ps| && Greedy(false, ps[i] + after, n)
  }

  lemma AnyGreedyCons(first: string, ps: seq<string>, after: string, n: string)
    ensures AnyGreedy([first] + ps, after, n) <==> Greedy(false, first + after, n) || AnyGreedy(ps, after, n)
  {
    if i :| 0 <= i < |ps| && Greedy(false, ps[i] + after, n) {
      assert ([first] + ps)[i + 1] == ps[i];
    }
    if Greedy(false, first + after, n) {
      assert ([first] + ps)[0] == first;
    }
  }

  lemma AnyStep(list: string, first: string, rest: string, after: string, n: string)
    requires (first, rest) == Split(list, ",") && first != ""
    ensures AnyGreedy(Tried(list), after, n) <==> Greedy(false, first + after, n) || AnyGreedy(Tried(rest), after, n)
    ensures AnyRounds(list, after, n) ==
      Rounds(false, first + after, n) + if Greedy(false, first + after, n) then 0 else AnyRounds(rest, after, n)
  {
    AnyGreedyCons(first, Tried(rest), after, n);
  }

  /** Match the literal text before the next special byte. */
  method PlaceLiteral(mustMatch: bool, needed: string, nameRemain: string) returns (at: Located)
    ensures at == Place(!mustMatch, needed, nameRemain)
  {
    if needed == "" {
      return Found(0);
    }
    at := LocateText(nameRemain, needed);
    if at.Found? && mustMatch && at.index > 0 {
      return NotFound;
    }
  }

  /** How one round of the matching loop ends: a mismatch, a brace list to try, or another round. */
  datatype Round =
    | Mismatch
    | Braces(inside: string, after: string, nameRemain: string)
    | Next(lastToken: char, filterRemain: string, nameRemain: string)

  lemma ListIsAny(p: string, k: nat, rest: string)
    requires k < |p| && p[k] == '{' && Locate(p[k + 1..], "}").Found?
    ensures var (inside, after) := Split(p[k + 1..], "}");
      GreedyToken(p, k, rest) == AnyGreedy(Tried(inside), after, rest)
  {
    ExpandIsAny(p[k + 1..], rest);
  }

  /** A round ended in `r`: where it leaves the greedy answer and the number of rounds to come. */
  ghost predicate Leaves(r: Round, answer: bool, more: int) {
    match r
    case Mismatch => !answer && more == 0
    case Braces(inside, after, rest) =>
      answer == AnyGreedy(Tried(inside), after, rest) && more == AnyRounds(inside, after, rest)
    case Next(token, q, rest) => answer == Greedy(token == '*', q, rest) && more == Rounds(token == '*', q, rest)
  }

  /** The special byte at `k`, once the literal text before it has been placed. */
  method OneToken(filterRemain: string, k: nat, nameRemain: string) returns (r: Round)
    requires k < |filterRemain| && Special(filterRemain[k])
    ensures Leaves(r, GreedyToken(filterRemain, k, nameRemain), TokenRounds(filterRemain, k, nameRemain))
    ensures r.Next? ==> |r.filterRemain| < |filterRemain| && Special(r.lastToken)
    ensures r.Braces? ==> |r.inside| + |r.after| + 1 < |filterRemain|
  {
    var token, q := filterRemain[k], filterRemain[k + 1..];
    if token == '?' {
      if nameRemain == "" {
        return Mismatch;
      }
      return Next(token, q, nameRemain[1..]);
    } else if token == '{' {
      var end := LocateText(q, "}");
      if end.Found? {
        var (inside, after) := Split(q, "}");
        ListIsAny(filterRemain, k, nameRemain);
        return Braces(inside, after, nameRemain);
      } else if nameRemain == "" || nameRemain[0] != '{' {
        return Mismatch;
      }
      return Next(token, q, nameRemain[1..]);
    }
    return Next(token, q, nameRemain);
  }

  /** One round of the matching loop: the literal text up to the next special byte, then that byte. */
  method OneRound(mustMatch: bool, filterRemain: string, name: string) returns (r: Round)
    requires filterRemain != ""
    ensures Leaves(r, Greedy(!mustMatch, filterRemain, name), Rounds(!mustMatch, filterRemain, name) - 1)
    ensures r.Next? ==> |r.filterRemain| < |filterRemain|
    ensures r.Next? && r.filterRemain != "" ==> Special(r.lastToken)
    ensures r.Braces? ==> |r.inside| + |r.after| + 1 < |filterRemain|
  {
    var k := NextSpecial(filterRemain);
    RoundUnfolds(!mustMatch, filterRemain, name);
    var at := PlaceLiteral(mustMatch, filterRemain[..k], name);
    if at.NotFound? {
      return Mismatch;
    }
    r := AfterLiteral(filterRemain, k, name[at.index + k..]);
  }

  /** What a round does once its literal text is placed. */
  method AfterLiteral(filterRemain: string, k: nat, nameRemain: string) returns (r: Round)
    requires filterRemain != "" && k <= |filterRemain| && (k < |filterRemain| ==> Special(filterRemain[k]))
    ensures Leaves(r, GreedyToken(filterRemain, k, nameRemain), TokenRounds(filterRemain, k, nameRemain))
    ensures r.Next? ==> |r.filterRemain| < |filterRemain|
    ensures r.Next? && r.filterRemain != "" ==> Special(r.lastToken)
    ensures r.Braces? ==> |r.inside| + |r.after| + 1 < |filterRemain|
  {
    if k == |filterRemain| {
      return Next('\0', "", nameRemain);
    }
    r := OneToken(filterRemain, k, nameRemain);
  }

  lemma RoundUnfolds(star: bool, p: string, n: string)
    requires p != ""
    ensures var k := NextSpecial(p); var at := Place(star, p[..k], n);
      if at.NotFound? then !Greedy(star, p, n) && Rounds(star, p, n) == 1
      else
        && Greedy(star, p, n) == GreedyToken(p, k, n[at.index + k..])
        && Rounds(star, p, n) == 1 + TokenRounds(p, k, n[at.index + k..])
  {
  }

  function Least(a: nat, b: nat): nat {
    if a < b then a else b
  }

  /** `vsf_filename_passes_filter`: the step budget, shared by all recursive calls, is charged one step a
      round; the answer is 1 exactly when it is not used up and the greedy placement succeeds. */
  method PassesFilter(name: string, filter: string, itersIn: nat) returns (ret: bool, iters: nat)
    requires itersIn <= MATCH_ITERS_MAX
    ensures iters == Least(itersIn + Rounds(false, filter, name), 1000)
    ensures ret <==> itersIn + Rounds(false, filter, name) < 1000 && Greedy(false, filter, name)
    decreases |filter|
  {
    iters := itersIn;
    var filterRemain, nameRemain := filter, name;
    var lastToken := '\0';
    var mustMatch := true;
    while filterRemain != "" && iters < MATCH_ITERS_MAX
      invariant itersIn <= iters <= MATCH_ITERS_MAX
      invariant |filterRemain| <= |filter|
      invariant filterRemain != "" ==> mustMatch == (lastToken != '*')
      invariant Greedy(false, filter, name) == Greedy(lastToken == '*', filterRemain, nameRemain)
      invariant itersIn + Rounds(false, filter, name) == iters + Rounds(lastToken == '*', filterRemain, nameRemain)
      decreases |filterRemain|
    {
      iters := iters + 1;
      var round := OneRound(mustMatch, filterRemain, nameRemain);
      match round
      case Mismatch =>
        return false, iters;
      case Braces(inside, after, rest) =>
        ret, iters := PassesAny(rest, inside, after, iters);
        return;
      case Next(token, q, rest) =>
        lastToken, filterRemain, nameRemain := token, q, rest;
        mustMatch := token == '?' || token == '{';
    }
    if |nameRemain| > 0 && lastToken != '*' {
      return false, iters;
    }
    ret := iters != MATCH_ITERS_MAX;
  }

  lemma ExpandIsAny(q: string, n: string)
    requires Locate(q, "}").Found?
    ensures var (inside, after) := Split(q, "}"); var ps := Tries(q);
      (exists i :: 0 <= i < |ps| && Greedy(false, ps[i], n)) == AnyGreedy(Tried(inside), after, n)
  {
    var (inside, after) := Split(q, "}");
    var ps, alts := Tries(q), Tried(inside);
    assert forall i :: 0 <= i < |ps| ==> ps[i] == alts[i] + after;
  }

  /** The loop over one brace list, which recurses with each alternative in place of the list. */
  method PassesAny(name: string, inside: string, after: string, itersIn: nat) returns (ret: bool, iters: nat)
    requires itersIn <= MATCH_ITERS_MAX
    ensures iters == Least(itersIn + AnyRounds(inside, after, name), 1000)
    ensures ret <==> itersIn + AnyRounds(inside, after, name) < 1000 && AnyGreedy(Tried(inside), after, name)
    decreases |inside| + |after| + 1, 1
  {
    iters := itersIn;
    ghost var list := inside;
    ghost var due, any := itersIn + AnyRounds(inside, after, name), AnyGreedy(Tried(inside), after, name);
    var (braceList, rest) := Split(inside, ",");
    while braceList != ""
      invariant itersIn <= iters <= MATCH_ITERS_MAX
      invariant |list| <= |inside|
      invariant (braceList, rest) == Split(list, ",")
      invariant if iters < MATCH_ITERS_MAX then due == iters + AnyRounds(list, after, name) else due >= iters
      invariant iters < MATCH_ITERS_MAX ==> any == AnyGreedy(Tried(list), after, name)
      decreases |list|, |braceList|
    {
      ret, iters := TryOne(name, list, braceList, rest, after, iters);
      if ret {
        return;
      }
      list := rest;
      var next := Split(rest, ",");
      braceList, rest := next.0, next.1;
    }
    ret := false;
  }

  /** One turn of that loop. */
  method TryOne(name: string, ghost list: string, first: string, ghost rest: string, after: string, itersIn: nat)
    returns (ret: bool, iters: nat)
    requires (first, rest) == Split(list, ",") && first != "" && itersIn <= MATCH_ITERS_MAX
    ensures itersIn <= iters <= MATCH_ITERS_MAX
    ensures ret ==> iters == itersIn + AnyRounds(list, after, name) < MATCH_ITERS_MAX
    ensures ret ==> AnyGreedy(Tried(list), after, name)
    ensures !ret && iters < MATCH_ITERS_MAX ==>
      iters + AnyRounds(rest, after, name) == itersIn + AnyRounds(list, after, name)
    ensures !ret && iters < MATCH_ITERS_MAX ==>
      AnyGreedy(Tried(list), after, name) == AnyGreedy(Tried(rest), after, name)
    ensures iters == MATCH_ITERS_MAX ==> itersIn + AnyRounds(list, after, name) >= iters
    decreases |list| + |after| + 1, 0
  {
    AnyStep(list, first, rest, after, name);
    ret, iters := PassesFilter(name, first + after, itersIn);
  }

  // ---------------------------------------------------------------------------
  // The budget

  /** Without a brace list a pattern takes no more rounds than it has bytes. */
  lemma {:induction false} RoundsBound(star: bool, p: string, n: string)
    requires ListFree(p)
    ensures Rounds(star, p, n) <= |p|
    decreases |p|
  {
    if p != "" {
      var k := NextSpecial(p);
      var at := Place(star, p[..k], n);
      if at.Found? {
        TokenRoundsBound(p, k, n[at.index + k..]);
      }
    }
  }

  lemma {:induction false} TokenRoundsBound(p: string, k: nat, rest: string)
    requires p != "" && k <= |p| && (k < |p| ==> Special(p[k])) && ListFree(p)
    ensures TokenRounds(p, k, rest) < |p|
    decreases |p|, 0
  {
    if k < |p| {
      ListFreeAt(p, k);
      var q := p[k + 1..];
      if p[k] == '*' {
        RoundsBound(true, q, rest);
      } else if rest != "" {
        RoundsBound(false, q, rest[1..]);
      }
    }
  }

  /** Each "?" is a round of its own. */
  lemma {:induction false} MarkRounds(j: nat, n: string)
    requires j <= |n|
    ensures Rounds(false, Marks(j), n) == j
  {
    if j > 0 {
      var p := Marks(j);
      MarkRounds(j - 1, n[1..]);
      assert NextSpecial(p) == 0 && p[..0] == "" && p[0 + 1..] == Marks(j - 1) && n[0 + 0..] == n;
    }
  }

  /** A pattern of "?"s that matches is missed if and only if there are a thousand of them or more. */
  lemma BudgetExact(j: nat, n: string)
    requires |n| == j
    ensures Matches(Marks(j), n) && Greedy(false, Marks(j), n)
    ensures Rounds(false, Marks(j), n) < MATCH_ITERS_MAX <==> j < 1000
  {
    SkipMarks(j, "", n);
    assert Marks(j) + "" == Marks(j);
    MarkRounds(j, n);
  }
}
