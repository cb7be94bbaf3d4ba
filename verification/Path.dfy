/** Path normalisation of postlogin.c: `session_real_path` rewrites "/./" to "/" until nothing
    changes, then cuts out one "x/../" at a time. The reference meaning resolves the component
    list with a stack. */
module Path {
  import opened Text

  // ---------------------------------------------------------------------------
  // Components

  /** The texts between slashes: "/a//b/" has the parts "", "a", "", "b", "". The first part is
      what precedes the first slash, so it is empty for an absolute path. */
  function Parts(p: string): (ps: seq<string>)
    ensures ps != []
  {
    if p == "" then [""]
    else
      var ps := Parts(p[1..]);
      if p[0] == '/' then [""] + ps else [[p[0]] + ps[0]] + ps[1..]
  }

  function Join(ps: seq<string>): string
    requires ps != []
  {
    if |ps| == 1 then ps[0] else ps[0] + "/" + Join(ps[1..])
  }

  lemma {:induction false} JoinParts(p: string)
    ensures Join(Parts(p)) == p
  {
    if p != "" {
      JoinParts(p[1..]);
      var ps := Parts(p[1..]);
      if p[0] == '/' {
        assert ([""] + ps)[1..] == ps;
      } else {
        var qs := [[p[0]] + ps[0]] + ps[1..];
        assert qs[1..] == ps[1..];
      }
    }
  }

  lemma {:induction false} PartsOfWord(w: string)
    requires '/' !in w
    ensures Parts(w) == [w]
  {
    if w != "" {
      PartsOfWord(w[1..]);
      assert [w[0]] + w[1..] == w;
    }
  }

  function ConsParts(c: char, ps: seq<string>): seq<string>
    requires ps != []
  {
    if c == '/' then [""] + ps else [[c] + ps[0]] + ps[1..]
  }

  lemma PartsCons(c: char, p: string)
    ensures Parts([c] + p) == ConsParts(c, Parts(p))
  {
    assert ([c] + p)[1..] == p;
  }

  lemma ConcatHead(c: char, x: seq<string>, y: seq<string>)
    requires x != []
    ensures ConsParts(c, x + y) == ConsParts(c, x) + y
  {
    assert (x + y)[1..] == x[1..] + y;
  }

  /** A slash separates the parts on its left from those on its right. */
  lemma {:induction false} PartsConcat(s: string, v: string)
    ensures Parts(s + "/" + v) == Parts(s) + Parts(v)
  {
    var p := s + "/" + v;
    if s == "" {
      assert p[1..] == v;
    } else {
      PartsConcat(s[1..], v);
      assert p[1..] == s[1..] + "/" + v;
      PartsCons(p[0], p[1..]);
      PartsCons(s[0], s[1..]);
      ConcatHead(s[0], Parts(s[1..]), Parts(v));
      assert [p[0]] + p[1..] == p && [s[0]] + s[1..] == s;
    }
  }

  lemma PartsAround(s: string, w: string, v: string)
    requires '/' !in w
    ensures Parts(s + ("/" + w + "/") + v) == Parts(s) + ([w] + Parts(v))
  {
    Slashes(s, w, v);
    PartsConcat(s, w + "/" + v);
    PartsConcat(w, v);
    PartsOfWord(w);
  }

  lemma {:induction false} PartsSlashFree(p: string, k: nat)
    requires k < |Parts(p)|
    ensures '/' !in Parts(p)[k]
  {
    if p != "" {
      if p[0] == '/' {
        if k > 0 { PartsSlashFree(p[1..], k - 1); }
      } else {
        PartsSlashFree(p[1..], k);
      }
    }
  }

  lemma {:induction false} JoinConcat(x: seq<string>, y: seq<string>)
    requires x != [] && y != []
    ensures Join(x + y) == Join(x) + "/" + Join(y)
  {
    if |x| > 1 {
      JoinConcat(x[1..], y);
      assert (x + y)[1..] == x[1..] + y;
    } else {
      assert (x + y)[1..] == y;
    }
  }

  lemma {:induction false} PartsJoin(x: seq<string>)
    requires x != [] && forall i :: 0 <= i < |x| ==> '/' !in x[i]
    ensures Parts(Join(x)) == x
  {
    PartsOfWord(x[0]);
    if |x| > 1 {
      PartsJoin(x[1..]);
      PartsConcat(x[0], Join(x[1..]));
    }
  }

  // ---------------------------------------------------------------------------
  // Reference meaning

  /** Going up saturates at the root. */
  function Pop(stack: seq<string>): (r: seq<string>)
    requires stack != []
    ensures r != []
  {
    if |stack| == 1 then stack else stack[..|stack| - 1]
  }

  /** Stack resolution of all components. */
  function Walk(cs: seq<string>, stack: seq<string>): (r: seq<string>)
    requires stack != []
    ensures r != []
  {
    if cs == [] then stack
    else if cs[0] == "." then Walk(cs[1..], stack)
    else if cs[0] == ".." then Walk(cs[1..], Pop(stack))
    else Walk(cs[1..], stack + [cs[0]])
  }

  /** The directory that a path names: its components but the last, resolved from the root. */
  function Dir(ps: seq<string>): (r: seq<string>)
    requires |ps| > 1
    ensures r != []
  {
    Walk(ps[1..|ps| - 1], [ps[0]])
  }

  /** What `session_real_path` is for: the directory resolved, and the last component as an ordinary
      name in it, even when it is ".", ".." or empty. */
  function PlainParts(ps: seq<string>): (r: seq<string>)
    requires ps != []
    ensures r != []
  {
    if |ps| == 1 then ps else Dir(ps) + [ps[|ps| - 1]]
  }

  function PlainResolved(p: string): string {
    Join(PlainParts(Parts(p)))
  }

  /** The path ends in a slash right after a "..", "." components skipped. */
  ghost predicate EndsUp(ps: seq<string>) {
    ps != [] && ps[|ps| - 1] == "" &&
    exists i :: 1 <= i < |ps| - 1 && ps[i] == ".." && forall j :: i < j < |ps| - 1 ==> ps[j] == "."
  }

  /** What the code computes: the same, but `up` records that the last component that mattered was
      "..", after which an empty last component is not kept. */
  function Resolve(cs: seq<string>, stack: seq<string>, up: bool): (r: seq<string>)
    requires stack != []
    ensures r != []
  {
    if cs == [] then stack
    else if |cs| == 1 then (if cs[0] == "" && up then stack else stack + cs)
    else if cs[0] == "." then Resolve(cs[1..], stack, up)
    else if cs[0] == ".." then Resolve(cs[1..], Pop(stack), true)
    else Resolve(cs[1..], stack + [cs[0]], false)
  }

  /** Resolution of a whole list of parts; the first one is the root. */
  function ResolveParts(ps: seq<string>): (r: seq<string>)
    requires ps != []
    ensures r != []
  {
    Resolve(ps[1..], [ps[0]], false)
  }

  function Resolved(p: string): string {
    Join(ResolveParts(Parts(p)))
  }

  /** An empty last component is dropped. */
  predicate Drops(cs: seq<string>, up: bool) {
    if cs == [] then false
    else if |cs| == 1 then cs[0] == "" && up
    else Drops(cs[1..], if cs[0] == "." then up else cs[0] == "..")
  }

  lemma {:induction false} ResolveIsWalk(cs: seq<string>, stack: seq<string>, up: bool)
    requires cs != [] && stack != []
    ensures Walk(cs[..|cs| - 1], stack) + cs[|cs| - 1..] == Resolve(cs, stack, up) + if Drops(cs, up) then [""] else []
    decreases |cs|
  {
    if |cs| > 1 {
      var init, rest := cs[..|cs| - 1], cs[1..];
      assert init[0] == cs[0] && init[1..] == rest[..|rest| - 1] && cs[|cs| - 1..] == rest[|rest| - 1..];
      if cs[0] == "." {
        ResolveIsWalk(rest, stack, up);
      } else if cs[0] == ".." {
        ResolveIsWalk(rest, Pop(stack), true);
      } else {
        ResolveIsWalk(rest, stack + [cs[0]], false);
      }
    } else {
      assert cs[..0] == [] && cs[0..] == cs;
    }
  }

  /** Only "." follows a last "..". */
  ghost predicate UpTail(cs: seq<string>, i: int) {
    0 <= i < |cs| - 1 && cs[i] == ".." && forall j :: i < j < |cs| - 1 ==> cs[j] == "."
  }

  ghost predicate AllDots(cs: seq<string>) {
    forall j :: 0 <= j < |cs| - 1 ==> cs[j] == "."
  }

  lemma {:induction false} DropsMeaning(cs: seq<string>, up: bool)
    ensures Drops(cs, up) <==> cs != [] && cs[|cs| - 1] == "" && ((exists i :: UpTail(cs, i)) || (up && AllDots(cs)))
    decreases |cs|
  {
    if |cs| > 1 {
      DropsMeaning(cs[1..], if cs[0] == "." then up else cs[0] == "..");
      DropsStep(cs);
    }
  }

  lemma DropsStep(cs: seq<string>)
    requires |cs| > 1
    ensures AllDots(cs) <==> cs[0] == "." && AllDots(cs[1..])
    ensures (exists i :: UpTail(cs, i)) <==> (exists i :: UpTail(cs[1..], i)) || (cs[0] == ".." && AllDots(cs[1..]))
  {
    var t := cs[1..];
    assert forall j :: 0 <= j < |t| ==> t[j] == cs[j + 1];
    if AllDots(t) {
      assert forall j :: 1 <= j < |cs| - 1 ==> cs[j] == t[j - 1];
      if cs[0] == ".." {
        assert UpTail(cs, 0);
      }
    }
    if i :| UpTail(t, i) {
      assert forall j :: i + 1 < j < |cs| - 1 ==> cs[j] == t[j - 1];
      assert UpTail(cs, i + 1);
    }
    if i :| UpTail(cs, i) {
      if i > 0 {
        assert UpTail(t, i - 1);
      }
    }
  }

  lemma EndsUpIsDrops(ps: seq<string>)
    requires ps != []
    ensures EndsUp(ps) <==> Drops(ps[1..], false)
  {
    var cs := ps[1..];
    DropsMeaning(cs, false);
    assert forall j :: 0 <= j < |cs| ==> cs[j] == ps[j + 1];
    if i :| 1 <= i < |ps| - 1 && ps[i] == ".." && forall j :: i < j < |ps| - 1 ==> ps[j] == "." {
      assert UpTail(cs, i - 1);
    }
    if i :| UpTail(cs, i) {
      assert forall j :: i + 1 < j < |ps| - 1 ==> ps[j] == cs[j - 1];
    }
  }

  lemma PlainPartsExact(ps: seq<string>)
    requires ps != []
    ensures PlainParts(ps) == ResolveParts(ps) + if EndsUp(ps) then [""] else []
  {
    EndsUpIsDrops(ps);
    if |ps| > 1 {
      ResolveIsWalk(ps[1..], [ps[0]], false);
      InnerAndLast(ps);
    } else {
      assert ps == [ps[0]] + [];
    }
  }

  lemma InnerAndLast(ps: seq<string>)
    requires |ps| > 1
    ensures var cs := ps[1..]; cs[..|cs| - 1] == ps[1..|ps| - 1] && cs[|cs| - 1..] == [ps[|ps| - 1]]
  {
  }

  lemma JoinSlash(x: seq<string>)
    requires x != []
    ensures Join(x + [""]) == Join(x) + "/" && x + [] == x
  {
    JoinConcat(x, [""]);
    assert Join(x) + "/" + "" == Join(x) + "/";
  }

  /** The code computes the plain resolution if and only if the path does not end in a slash right after
      a ".."; then that slash is lost. */
  lemma ResolvedExact(p: string)
    ensures Resolved(p) == PlainResolved(p) <==> !EndsUp(Parts(p))
    ensures EndsUp(Parts(p)) ==> PlainResolved(p) == Resolved(p) + "/"
  {
    PlainPartsExact(Parts(p));
    JoinSlash(ResolveParts(Parts(p)));
  }

  /** The smallest such path: "/a/../" becomes "", where the plain resolution is "/". */
  lemma TrailingSlashIsLost()
    ensures Resolved("/a/../") == "" && PlainResolved("/a/../") == "/"
  {
    var ps := Parts("/a/../");
    JoinParts("/a/../");
    PartsOfUp();
    assert ps[1..] == ["a", "..", ""] && ["a", "..", ""][1..] == ["..", ""] && ["..", ""][1..] == [""];
    assert Resolve(["..", ""], ["", "a"], false) == Resolve([""], [""], true);
    assert EndsUp(ps) by { assert ps[2] == ".."; }
    ResolvedExact("/a/../");
  }

  lemma PartsOfUp()
    ensures Parts("/a/../") == ["", "a", "..", ""]
  {
    var x := ["", "a", "..", ""];
    assert x[1..] == ["a", "..", ""] && x[1..][1..] == ["..", ""] && x[1..][1..][1..] == [""];
    assert Join(x) == "" + "/" + ("a" + "/" + (".." + "/" + "")) == "/a/../";
    PartsJoin(x);
  }

  // ---------------------------------------------------------------------------
  // Occurrences of "/w/" are inner parts

  /** No part strictly between the first and the last is `w`. */
  ghost predicate NoInner(ps: seq<string>, w: string) {
    forall i :: 1 <= i < |ps| - 1 ==> ps[i] != w
  }

  /** An inner part is an occurrence, right after the parts before it. */
  lemma InnerOccurs(x: seq<string>, w: string, y: seq<string>)
    requires x != [] && y != []
    ensures OccursAt(Join(x + ([w] + y)), "/" + w + "/", |Join(x)|)
  {
    JoinConcat(x, [w] + y);
    JoinConcat([w], y);
    OccursBetween(Join(x), "/" + w + "/", Join(y));
    Slashes(Join(x), w, Join(y));
  }

  lemma Slashes(s: string, w: string, v: string)
    ensures s + "/" + (w + "/" + v) == s + ("/" + w + "/") + v
  {
  }

  lemma OccursBetween(s: string, t: string, v: string)
    ensures OccursAt(s + t + v, t, |s|)
  {
  }

  /** "/w/" occurs exactly when `w` is an inner part. */
  lemma OccursIffInner(p: string, w: string)
    requires '/' !in w
    ensures Contains(p, "/" + w + "/") <==> !NoInner(Parts(p), w)
  {
    var t, ps := "/" + w + "/", Parts(p);
    if i :| OccursAt(p, t, i) {
      var s, v := p[..i], p[i + |t|..];
      assert p == s + t + v;
      PartsAround(s, w, v);
      assert ps[|Parts(s)|] == w;
    }
    if i :| 1 <= i < |ps| - 1 && ps[i] == w {
      JoinParts(p);
      assert ps == ps[..i] + ([w] + ps[i + 1..]);
      InnerOccurs(ps[..i], w, ps[i + 1..]);
    }
  }

  // ---------------------------------------------------------------------------
  // The two rewrites keep the meaning

  lemma {:induction false} ResolveSkipsDot(x: seq<string>, y: seq<string>, stack: seq<string>, up: bool)
    requires y != [] && stack != []
    ensures Resolve(x + (["."] + y), stack, up) == Resolve(x + y, stack, up)
    decreases |x|
  {
    if x == [] {
      assert x + (["."] + y) == ["."] + y && x + y == y;
      assert (["."] + y)[1..] == y;
    } else {
      assert (x + (["."] + y))[1..] == x[1..] + (["."] + y) && (x + y)[1..] == x[1..] + y;
      if x[0] == "." {
        ResolveSkipsDot(x[1..], y, stack, up);
      } else if x[0] == ".." {
        ResolveSkipsDot(x[1..], y, Pop(stack), true);
      } else {
        ResolveSkipsDot(x[1..], y, stack + [x[0]], false);
      }
    }
  }

  ghost predicate Ordinary(x: seq<string>) {
    forall i :: 0 <= i < |x| ==> x[i] != "." && x[i] != ".."
  }

  /** Ordinary components are pushed one by one. */
  lemma {:induction false} ResolvePushes(x: seq<string>, y: seq<string>, stack: seq<string>, up: bool)
    requires y != [] && stack != [] && Ordinary(x)
    ensures Resolve(x + y, stack, up) == Resolve(y, stack + x, up && x == [])
    decreases |x|
  {
    if x == [] {
      assert x + y == y && stack + x == stack;
    } else {
      assert (x + y)[1..] == x[1..] + y && (stack + [x[0]]) + x[1..] == stack + x;
      assert (x + y)[0] == x[0];
      ResolvePushes(x[1..], y, stack + [x[0]], false);
    }
  }

  /** The first part and the ordinary ones after it are the stack for the rest. */
  lemma ResolvePartsPushes(x: seq<string>, y: seq<string>)
    requires x != [] && y != [] && Ordinary(x[1..])
    ensures ResolveParts(x + y) == Resolve(y, x, false)
  {
    assert (x + y)[1..] == x[1..] + y && [x[0]] + x[1..] == x;
    ResolvePushes(x[1..], y, [x[0]], false);
  }

  /** A list with nothing to resolve stays as it is. */
  lemma ResolveFixed(ps: seq<string>)
    requires ps != [] && NoInner(ps, ".") && NoInner(ps, "..")
    ensures ResolveParts(ps) == ps
  {
    if |ps| > 1 {
      var x, y := ps[..|ps| - 1], ps[|ps| - 1..];
      assert ps == x + y;
      ResolvePartsPushes(x, y);
    }
  }

  /** Cutting one "/./" down to "/". */
  lemma DotRewrite(s: string, v: string)
    ensures Resolved(s + "/./" + v) == Resolved(s + "/" + v)
  {
    assert "/" + "." + "/" == "/./";
    PartsAround(s, ".", v);
    PartsConcat(s, v);
    ResolvePartsSkipsDot(Parts(s), Parts(v));
  }

  lemma ResolvePartsSkipsDot(x: seq<string>, y: seq<string>)
    requires x != [] && y != []
    ensures ResolveParts(x + (["."] + y)) == ResolveParts(x + y)
  {
    assert (x + (["."] + y))[1..] == x[1..] + (["."] + y) && (x + y)[1..] == x[1..] + y;
    ResolveSkipsDot(x[1..], y, [x[0]], false);
  }

  /** One call of `str_replace_text(p, "/./", "/")` keeps the meaning. */
  lemma {:induction false} DotPass(out: string, chunk: string)
    ensures Resolved(out + Replace(chunk, "/./", "/")) == Resolved(out + chunk)
    decreases |chunk|
  {
    match Locate(chunk, "/./")
    case NotFound =>
    case Found(i) =>
      var lhs, rhs := chunk[..i], chunk[i + 3..];
      var s := out + lhs;
      assert chunk == lhs + "/./" + rhs;
      Assoc(out, lhs, "/./", rhs);
      Assoc(out, lhs, "/", Replace(rhs, "/./", "/"));
      DotPass(s + "/", rhs);
      DotRewrite(s, rhs);
  }

  /** Cutting at the last slash removes the last part, or nothing when there is only one. */
  lemma CutAtLastSlash(p: string, at: Located)
    requires at.Found? ==> OccursAt(p, "/", at.index) && forall i :: at.index < i ==> !OccursAt(p, "/", i)
    requires at.NotFound? ==> !Contains(p, "/")
    ensures (if at.Found? then p[..at.index] else p) == Join(Pop(Parts(p)))
  {
    match at
    case NotFound =>
      SlashOccurs(p, 0);
      PartsOfWord(p);
    case Found(i) =>
      SplitAtSlash(p, i);
      SlashOccurs(p, i + 1);
      CutWord(p[..i], p[i + 1..]);
  }

  lemma SplitAtSlash(p: string, i: nat)
    requires OccursAt(p, "/", i)
    ensures p == p[..i] + "/" + p[i + 1..]
  {
    assert p[i..i + 1] == "/";
  }

  lemma SlashOccurs(p: string, i: nat)
    requires i <= |p|
    ensures '/' in p[i..] ==> exists j :: i <= j && OccursAt(p, "/", j)
  {
    var w := p[i..];
    if k :| 0 <= k < |w| && w[k] == '/' {
      assert p[i + k..i + k + 1] == "/";
      assert OccursAt(p, "/", i + k);
    }
  }

  lemma CutWord(s: string, w: string)
    requires '/' !in w
    ensures Join(Pop(Parts(s + "/" + w))) == s
  {
    PartsConcat(s, w);
    PartsOfWord(w);
    assert Pop(Parts(s) + [w]) == Parts(s);
    JoinParts(s);
  }

  /** The parts before the first "/../" are ordinary when "/./" is gone. */
  lemma OrdinaryBeforeUp(x: seq<string>, y: seq<string>, p: string)
    requires x != [] && y != [] && p == Join(x + y)
    requires !Contains(p, "/" + "." + "/")
    requires forall j :: 0 <= j < |Join(x)| ==> !OccursAt(p, "/" + ".." + "/", j)
    ensures Ordinary(x[1..])
  {
    forall k | 1 <= k < |x|
      ensures x[k] != "." && x[k] != ".."
    {
      OccursEarlier(x, k, y);
    }
  }

  lemma OccursEarlier(x: seq<string>, k: nat, y: seq<string>)
    requires 1 <= k < |x| && y != []
    ensures exists j :: 0 <= j < |Join(x)| && OccursAt(Join(x + y), "/" + x[k] + "/", j)
  {
    var a, b := x[..k], x[k + 1..] + y;
    assert x + y == a + ([x[k]] + b);
    InnerOccurs(a, x[k], b);
    assert x == a + x[k..];
    JoinConcat(a, x[k..]);
    assert |Join(a)| < |Join(x)|;
  }

  /** What one iteration of the "/../" loop leaves. */
  ghost function AfterUp(lhs: string, rhs: string): string {
    Join(Pop(Parts(lhs))) + if rhs == "" then "" else "/" + rhs
  }

  /** The parts of a path around its first "/../", when "/./" is gone. */
  lemma UpParts(lhs: string, rhs: string)
    requires !Contains(lhs + "/../" + rhs, "/./")
    requires forall j :: 0 <= j < |lhs| ==> !OccursAt(lhs + "/../" + rhs, "/../", j)
    ensures Parts(lhs + "/../" + rhs) == Parts(lhs) + ([".."] + Parts(rhs))
    ensures Ordinary(Parts(lhs)[1..]) && NoLeadingDot(Parts(rhs))
  {
    var p, x, y := lhs + "/../" + rhs, Parts(lhs), Parts(rhs);
    assert "/" + ".." + "/" == "/../" && "/" + "." + "/" == "/./";
    PartsAround(lhs, "..", rhs);
    JoinParts(p);
    JoinParts(lhs);
    OrdinaryBeforeUp(x, [".."] + y, p);
    OccursIffInner(p, ".");
    NoDotBehind(x, y);
  }

  lemma NoDotBehind(x: seq<string>, y: seq<string>)
    requires x != [] && NoInner(x + ([".."] + y), ".")
    ensures NoLeadingDot(y)
  {
    assert forall k :: 0 <= k < |y| - 1 ==> y[k] == (x + ([".."] + y))[|x| + 1 + k];
  }

  /** Cutting out one "/../" with the component before it. */
  lemma UpRewrite(lhs: string, rhs: string)
    requires !Contains(lhs + "/../" + rhs, "/./")
    requires forall j :: 0 <= j < |lhs| ==> !OccursAt(lhs + "/../" + rhs, "/../", j)
    ensures Resolved(AfterUp(lhs, rhs)) == Resolved(lhs + "/../" + rhs)
    ensures !Contains(AfterUp(lhs, rhs), "/./")
  {
    UpParts(lhs, rhs);
    PartsAfterUp(lhs, rhs);
    UpMeaning(Parts(lhs), Parts(rhs), rhs);
    NoDotAfterUp(Parts(lhs), Parts(rhs), rhs);
    assert "/" + "." + "/" == "/./";
    OccursIffInner(AfterUp(lhs, rhs), ".");
  }

  lemma UpMeaning(x: seq<string>, y: seq<string>, rhs: string)
    requires x != [] && Ordinary(x[1..]) && y == Parts(rhs) && NoLeadingDot(y)
    ensures ResolveParts(Pop(x) + if rhs == "" then [] else y) == ResolveParts(x + ([".."] + y))
  {
    ResolvePartsPushes(x, [".."] + y);
    assert ([".."] + y)[1..] == y;
    ResolveAfterUp(x, y, rhs);
  }

  lemma NoDotAfterUp(x: seq<string>, y: seq<string>, rhs: string)
    requires x != [] && Ordinary(x[1..]) && NoLeadingDot(y)
    ensures NoInner(Pop(x) + if rhs == "" then [] else y, ".")
  {
  }

  ghost predicate NoLeadingDot(y: seq<string>) {
    forall k :: 0 <= k < |y| - 1 ==> y[k] != "."
  }

  lemma PartsAfterUp(lhs: string, rhs: string)
    ensures Parts(AfterUp(lhs, rhs)) == Pop(Parts(lhs)) + if rhs == "" then [] else Parts(rhs)
  {
    var x := Parts(lhs);
    forall k | 0 <= k < |x| ensures '/' !in x[k] { PartsSlashFree(lhs, k); }
    PartsJoin(Pop(x));
    if rhs != "" {
      PartsConcat(Join(Pop(x)), rhs);
      assert AfterUp(lhs, rhs) == Join(Pop(x)) + "/" + rhs;
    } else {
      assert AfterUp(lhs, rhs) == Join(Pop(x));
    }
  }

  lemma ResolveAfterUp(x: seq<string>, y: seq<string>, rhs: string)
    requires x != [] && Ordinary(x[1..]) && y == Parts(rhs) && NoLeadingDot(y)
    ensures ResolveParts(Pop(x) + if rhs == "" then [] else y) == Resolve(y, Pop(x), true)
  {
    assert Ordinary(Pop(x)[1..]);
    if rhs == "" {
      assert Pop(x) + [] == Pop(x);
      ResolveFixed(Pop(x));
    } else {
      ResolvePartsPushes(Pop(x), y);
      if |y| == 1 {
        JoinParts(rhs);
      }
    }
  }

  /** A path with neither "/./" nor "/../" is its own meaning. */
  lemma Fixed(p: string)
    requires !Contains(p, "/./") && !Contains(p, "/../")
    ensures Resolved(p) == p
  {
    assert "/" + "." + "/" == "/./" && "/" + ".." + "/" == "/../";
    OccursIffInner(p, ".");
    OccursIffInner(p, "..");
    ResolveFixed(Parts(p));
    JoinParts(p);
  }

  // ---------------------------------------------------------------------------
  // The code

  /** The first loop: replace until the length stops changing. */
  method RemoveDots(path: string) returns (p: string)
    ensures !Contains(p, "/./") && Resolved(p) == Resolved(path)
  {
    p := path;
    while true
      invariant Resolved(p) == Resolved(path)
      decreases |p|
    {
      var len := |p|;
      DotPass("", p);
      ReplaceShrinks(p, "/./", "/");
      assert "" + Replace(p, "/./", "/") == Replace(p, "/./", "/") && "" + p == p;
      p := ReplaceText(p, "/./", "/");
      if |p| == len {
        return;
      }
    }
  }

  /** What the split leaves on both sides of the first "/../". */
  lemma FirstUp(p: string)
    requires !Contains(p, "/./") && |Split(p, "/../").0| < |p|
    ensures var (lhs, rhs) := Split(p, "/../");
      Resolved(AfterUp(lhs, rhs)) == Resolved(p) && !Contains(AfterUp(lhs, rhs), "/./") && |AfterUp(lhs, rhs)| < |p|
  {
    var (lhs, rhs) := Split(p, "/../");
    UpRewrite(lhs, rhs);
    AfterUpShorter(lhs, rhs);
  }

  lemma AfterUpShorter(lhs: string, rhs: string)
    ensures |AfterUp(lhs, rhs)| < |lhs + "/../" + rhs|
  {
    var x := Parts(lhs);
    JoinParts(lhs);
    if |x| > 1 {
      assert x == Pop(x) + x[|x| - 1..];
      JoinConcat(Pop(x), x[|x| - 1..]);
    }
  }

  /** One turn of the second loop: cut at the last slash and put the rest back. */
  method CutUp(lhs: string, rhs: string) returns (p: string)
    ensures p == AfterUp(lhs, rhs)
  {
    var at := LocateTextReverse(lhs, "/");
    CutAtLastSlash(lhs, at);
    p := if at.Found? then lhs[..at.index] else lhs;
    Attach(p, rhs);
    if rhs != "" {
      p := p + "/" + rhs;
    }
  }

  lemma Attach(cut: string, rhs: string)
    ensures cut + "/" + rhs == cut + ("/" + rhs) && cut + "" == cut
  {
  }

  /** The second loop: cut out the component before the first "/../". */
  method RemoveUps(path: string) returns (p: string)
    requires !Contains(path, "/./")
    ensures !Contains(p, "/./") && !Contains(p, "/../") && Resolved(p) == Resolved(path)
  {
    p := path;
    while true
      invariant Resolved(p) == Resolved(path)
      invariant !Contains(p, "/./")
      decreases |p|
    {
      var (lhs, rhs) := Split(p, "/../");
      if |lhs| == |p| {
        return;
      }
      FirstUp(p);
      p := CutUp(lhs, rhs);
    }
  }

  /** `session_real_path` once the prefix is in place: both loops terminate on every string, the
      result holds neither "/./" nor "/../", and it is the stack resolution of the components, but for
      the slash that is lost after a last "..". */
  method RealPath(path: string) returns (p: string)
    ensures !Contains(p, "/./") && !Contains(p, "/../")
    ensures p == Resolved(path)
    ensures PlainResolved(path) == p + if EndsUp(Parts(path)) then "/" else ""
  {
    p := RemoveDots(path);
    p := RemoveUps(p);
    Fixed(p);
    ResolvedExact(path);
  }

  /** `prepend_session_path_to_filename`: a relative name goes under the working directory, with
      exactly one slash between; an absolute name goes under the user's root directory. */
  function Prepend(cwd: string, userRoot: string, name: string): string {
    if name == "" || name[0] != '/' then
      (if cwd == "" || cwd[|cwd| - 1] != '/' then cwd + "/" else cwd) + name
    else userRoot + name
  }

  /** `path` holds nothing to resolve. */
  ghost predicate Normal(path: string) {
    !Contains(path, "/./") && !Contains(path, "/../")
  }

  /** `session_real_path`. A relative name goes below the working directory and an absolute one below the
      root, and where there is nothing to resolve that is all that happens. */
  method SessionRealPath(cwd: string, userRoot: string, name: string) returns (p: string)
    ensures !Contains(p, "/./") && !Contains(p, "/../")
    ensures p == Resolved(Prepend(cwd, userRoot, name))
    ensures var path := Prepend(cwd, userRoot, name);
      PlainResolved(path) == p + if EndsUp(Parts(path)) then "/" else ""
    ensures "/" <= name && Normal(userRoot + name) ==> p == userRoot + name
    ensures !("/" <= name) && EndsInSlash(cwd) && Normal(cwd + name) ==> p == cwd + name
    ensures !("/" <= name) && !EndsInSlash(cwd) && Normal(cwd + "/" + name) ==> p == cwd + "/" + name
  {
    PrependExact(cwd, userRoot, name);
    ghost var path := Prepend(cwd, userRoot, name);
    if Normal(path) {
      Fixed(path);
    }
    p := RealPath(Prepend(cwd, userRoot, name));
  }

  predicate EndsInSlash(s: string) {
    s != "" && s[|s| - 1] == '/'
  }

  /** Where a name goes. */
  lemma PrependExact(cwd: string, userRoot: string, name: string)
    ensures "/" <= name ==> Prepend(cwd, userRoot, name) == userRoot + name
    ensures !("/" <= name) && EndsInSlash(cwd) ==> Prepend(cwd, userRoot, name) == cwd + name
    ensures !("/" <= name) && !EndsInSlash(cwd) ==> Prepend(cwd, userRoot, name) == cwd + "/" + name
  {
  }
}
