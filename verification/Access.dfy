/** The check of access.c that every file command makes: the name, resolved, must lie under the user's
    root directory, and must not be one of the denied names. */
module Access {
  import opened Base
  import opened Text
  import opened Path
  import Wildcard

  function Slashed(s: string): (r: string)
    ensures r != "" && r[|r| - 1] == '/'
  {
    if s == "" || s[|s| - 1] != '/' then s + "/" else s
  }

  /** The test of the source: the resolved name, ended by a slash, begins with the root and a slash. */
  predicate Admits(root: string, resolved: string) {
    root + "/" <= Slashed(resolved)
  }

  /** How the file system walks a path: empty components and "." stay, ".." goes up as far as the first
      entry, everything else goes down. */
  function Enter(cs: seq<string>, stack: seq<string>): (r: seq<string>)
    requires stack != []
    ensures r != []
  {
    if cs == [] then stack
    else if cs[0] == "" || cs[0] == "." then Enter(cs[1..], stack)
    else if cs[0] == ".." then Enter(cs[1..], Pop(stack))
    else Enter(cs[1..], stack + [cs[0]])
  }

  /** Where a path leads. */
  function Place(path: string): (r: seq<string>)
    ensures r != []
  {
    Enter(Parts(path)[1..], [Parts(path)[0]])
  }

  /** The path leads to the root directory or to a place below it. */
  predicate Under(root: string, path: string) {
    Place(root) <= Place(path)
  }

  ghost predicate NonEmpty(x: seq<string>) {
    forall i :: 0 <= i < |x| ==> x[i] != ""
  }

  /** A root directory: absolute, and written without "." or ".." and without needless slashes. */
  ghost predicate IsRoot(root: string) {
    |Parts(root)| > 1 && Parts(root)[0] == "" && Ordinary(Parts(root)[1..]) && NonEmpty(Parts(root)[1..])
  }

  /** No two slashes follow each other. */
  ghost predicate SingleSlashes(path: string) {
    |Parts(path)| > 1 ==> NonEmpty(Parts(path)[1..|Parts(path)| - 1])
  }

  // ---------------------------------------------------------------------------
  // Prefixes of paths are prefixes of their components

  ghost predicate SlashFree(x: seq<string>) {
    forall i :: 0 <= i < |x| ==> '/' !in x[i]
  }

  lemma PartsAreSlashFree(p: string)
    ensures SlashFree(Parts(p))
  {
    forall k | 0 <= k < |Parts(p)| ensures '/' !in Parts(p)[k] {
      PartsSlashFree(p, k);
    }
  }

  lemma PartsOfSlash(v: seq<string>)
    requires v != [] && SlashFree(v)
    ensures Parts(Join(v) + "/") == v + [""]
  {
    PartsJoin(v);
    PartsConcat(Join(v), "");
    assert Join(v) + "/" + "" == Join(v) + "/" && Parts("") == [""];
  }

  /** One path with a slash begins another with a slash exactly when its components begin the other's. */
  lemma PrefixIsParts(root: string, v: seq<string>)
    requires v != [] && SlashFree(v)
    ensures root + "/" <= Join(v) + "/" <==> Parts(root) <= v
  {
    var s := Join(v) + "/";
    JoinParts(root);
    if root + "/" <= s {
      var rest := s[|root| + 1..];
      assert s == root + "/" + rest;
      PartsConcat(root, rest);
      PartsOfSlash(v);
      PrefixOfSnoc(Parts(root), Parts(rest), v);
    }
    if Parts(root) <= v {
      PrefixJoins(Parts(root), v);
    }
  }

  lemma PrefixOfSnoc(x: seq<string>, y: seq<string>, v: seq<string>)
    requires x + y == v + [""] && y != []
    ensures x <= v
  {
    assert forall i :: 0 <= i < |x| ==> x[i] == (x + y)[i];
  }

  lemma PrefixJoins(x: seq<string>, v: seq<string>)
    requires x != [] && x <= v
    ensures Join(x) + "/" <= Join(v) + "/"
  {
    var y := v[|x|..];
    assert v == x + y;
    if y == [] {
      assert v == x;
    } else {
      JoinConcat(x, y);
    }
  }

  // ---------------------------------------------------------------------------
  // The two sides of the check, as components

  /** Where the last component leads from the directory `w`. */
  function Led(w: seq<string>, last: string): (r: seq<string>)
    requires w != []
    ensures r != []
  {
    if last == "" || last == "." then w else if last == ".." then Pop(w) else w + [last]
  }

  lemma {:induction false} EnterAppend(x: seq<string>, y: seq<string>, stack: seq<string>)
    requires stack != []
    ensures Enter(x + y, stack) == Enter(y, Enter(x, stack))
    decreases |x|
  {
    if x == [] {
      assert x + y == y;
    } else {
      assert (x + y)[0] == x[0] && (x + y)[1..] == x[1..] + y;
      EnterAppend(x[1..], y, Led(stack, x[0]));
    }
  }

  lemma EnterCons(c: string, x: seq<string>, stack: seq<string>)
    requires stack != []
    ensures Enter([c] + x, stack) == Enter(x, Led(stack, c))
  {
    assert ([c] + x)[1..] == x;
  }

  lemma EnterOne(last: string, w: seq<string>)
    requires w != []
    ensures Enter([last], w) == Led(w, last)
  {
    assert [last][1..] == [];
  }

  /** Without empty components the file system and the stack resolution agree. */
  lemma {:induction false} EnterIsWalk(x: seq<string>, stack: seq<string>)
    requires stack != [] && NonEmpty(x)
    ensures Enter(x, stack) == Walk(x, stack)
    decreases |x|
  {
    if x != [] {
      assert x[0] != "";
      EnterIsWalk(x[1..], Led(stack, x[0]));
    }
  }

  /** The place of a path: its directory, and where its last component leads from there. */
  lemma PlaceIsLed(path: string)
    requires |Parts(path)| > 1 && SingleSlashes(path)
    ensures var ps := Parts(path); Place(path) == Led(Dir(ps), ps[|ps| - 1])
  {
    var ps := Parts(path);
    var x, last := ps[1..|ps| - 1], ps[|ps| - 1];
    assert ps[1..] == x + [last];
    EnterAppend(x, [last], [ps[0]]);
    EnterIsWalk(x, [ps[0]]);
    EnterOne(last, Dir(ps));
  }

  /** The stack never holds "." or ".." above its first entry, nor an empty text that was not there. */
  lemma {:induction false} WalkOrdinary(x: seq<string>, stack: seq<string>)
    requires stack != [] && Ordinary(stack[1..]) && SlashFree(stack) && SlashFree(x)
    ensures Ordinary(Walk(x, stack)[1..]) && SlashFree(Walk(x, stack))
    ensures NonEmpty(x) && NonEmpty(stack[1..]) ==> NonEmpty(Walk(x, stack)[1..])
    decreases |x|
  {
    if x != [] {
      assert forall i :: 0 <= i < |x[1..]| ==> x[1..][i] == x[i + 1];
      if x[0] == "." {
        WalkOrdinary(x[1..], stack);
      } else if x[0] == ".." {
        PopParts(stack);
        WalkOrdinary(x[1..], Pop(stack));
      } else {
        var s := stack + [x[0]];
        assert s[1..] == stack[1..] + [x[0]];
        WalkOrdinary(x[1..], s);
      }
    }
  }

  lemma PopParts(stack: seq<string>)
    requires stack != []
    ensures Ordinary(stack[1..]) ==> Ordinary(Pop(stack)[1..])
    ensures NonEmpty(stack[1..]) ==> NonEmpty(Pop(stack)[1..])
    ensures SlashFree(stack) ==> SlashFree(Pop(stack))
  {
    var p := Pop(stack);
    assert forall i :: 0 <= i < |p[1..]| ==> p[1..][i] == stack[1..][i];
  }

  /** The resolved path, ended by a slash, when the last component is not empty. */
  lemma NamedResolved(path: string)
    requires |Parts(path)| > 1 && Parts(path)[|Parts(path)| - 1] != ""
    ensures var ps := Parts(path); var x := Dir(ps) + [ps[|ps| - 1]];
      Resolved(path) == Join(x) && Slashed(Resolved(path)) == Join(x) + "/"
  {
    var ps := Parts(path);
    var w, last := Dir(ps), ps[|ps| - 1];
    ResolvedExact(path);
    JoinConcat(w, [last]);
    PartsSlashFree(path, |ps| - 1);
    SlashedName(Join(w), last);
  }

  lemma SlashedName(dir: string, last: string)
    requires last != "" && '/' !in last
    ensures Slashed(dir + "/" + last) == dir + "/" + last + "/"
  {
    var s := dir + "/" + last;
    assert s[|s| - 1] == last[|last| - 1];
  }

  /** And when it is: the slash that is lost after a last ".." is put back. */
  lemma UnnamedResolved(path: string)
    requires |Parts(path)| > 1 && Parts(path)[|Parts(path)| - 1] == "" && SingleSlashes(path)
    ensures var w := Dir(Parts(path));
      && (Resolved(path) == Join(w) || Resolved(path) == Join(w) + "/")
      && Slashed(Resolved(path)) == Join(w) + "/"
  {
    var w := Dir(Parts(path));
    JoinSlash(w);
    ResolvedExact(path);
    DirParts(path);
    if Resolved(path) != Join(w) + "/" {
      SameBeforeSlash(Resolved(path), Join(w));
      JoinEndsInName(w);
    }
  }

  lemma JoinEndsInName(w: seq<string>)
    requires w != [] && NonEmpty(w[1..]) && SlashFree(w)
    ensures Join(w) == "" || Join(w)[|Join(w)| - 1] != '/'
  {
    if |w| > 1 {
      var x, last := w[..|w| - 1], w[|w| - 1];
      assert w == x + [last] && last == w[1..][|w| - 2];
      JoinConcat(x, [last]);
      var s := Join(x) + "/" + last;
      assert s[|s| - 1] == last[|last| - 1];
    }
  }

  lemma SameBeforeSlash(a: string, b: string)
    requires a + "/" == b + "/"
    ensures a == b
  {
    assert (a + "/")[..|a|] == a && (b + "/")[..|b|] == b;
  }

  lemma DirParts(path: string)
    requires |Parts(path)| > 1
    ensures Ordinary(Dir(Parts(path))[1..]) && SlashFree(Dir(Parts(path)))
    ensures SingleSlashes(path) ==> NonEmpty(Dir(Parts(path))[1..])
  {
    var ps := Parts(path);
    PartsAreSlashFree(path);
    var x := ps[1..|ps| - 1];
    assert forall i :: 0 <= i < |x| ==> x[i] == ps[i + 1];
    WalkOrdinary(x, [ps[0]]);
  }

  /** A root that begins the directory and a dot component begins the directory. */
  lemma RootInDir(r: seq<string>, w: seq<string>, last: string)
    requires |r| > 1 && w != [] && Ordinary(r[1..]) && (last == "." || last == "..") && r <= w + [last]
    ensures r <= w
  {
    forall i | 1 <= i < |r| ensures r[i] != "." && r[i] != ".." {
      assert r[1..][i - 1] == r[i];
    }
    assert (w + [last])[|w|] == last;
  }

  lemma PopKeeps(r: seq<string>, w: seq<string>)
    requires |r| > 1 && r <= w
    ensures r <= Pop(w) <==> r != w
  {
  }

  /** What the last component makes of a name: it leads under the root exactly when the check admits it
      and it is not the ".." of the root itself. */
  lemma LedUnder(r: seq<string>, w: seq<string>, last: string)
    requires |r| > 1 && Ordinary(r[1..]) && w != []
    ensures r <= Led(w, last) <==> (if last == "" then r <= w else r <= w + [last]) && !(last == ".." && r == w)
  {
    if (last == "." || last == "..") && r <= w + [last] {
      RootInDir(r, w, last);
      PopKeeps(r, w);
    }
  }

  lemma JoinInjective(x: seq<string>, y: seq<string>)
    requires x != [] && y != [] && SlashFree(x) && SlashFree(y)
    ensures Join(x) == Join(y) <==> x == y
  {
    PartsJoin(x);
    PartsJoin(y);
  }

  /** The resolved path is the root's ".." exactly when the directory is the root and the last
      component is "..". */
  lemma RootsUp(path: string, root: string)
    requires |Parts(path)| > 1 && IsRoot(root) && SingleSlashes(path)
    ensures var ps := Parts(path);
      Resolved(path) == root + "/.." <==> ps[|ps| - 1] == ".." && Parts(root) == Dir(ps)
  {
    var ps := Parts(path);
    DirParts(path);
    if ps[|ps| - 1] != "" {
      NamedResolved(path);
      PartsSlashFree(path, |ps| - 1);
      JoinIsUp(Dir(ps), ps[|ps| - 1], root);
    } else {
      UnnamedResolved(path);
      NotUp(Dir(ps), root);
    }
  }

  lemma JoinIsUp(w: seq<string>, last: string, root: string)
    requires w != [] && SlashFree(w) && '/' !in last
    ensures Join(w + [last]) == root + "/.." <==> last == ".." && Parts(root) == w
  {
    var r := Parts(root);
    PartsAreSlashFree(root);
    JoinParts(root);
    JoinConcat(r, [".."]);
    assert root + "/" + ".." == root + "/..";
    JoinInjective(w + [last], r + [".."]);
    SnocEqual(w, last, r, "..");
  }

  lemma SnocEqual(x: seq<string>, a: string, y: seq<string>, b: string)
    ensures x + [a] == y + [b] <==> x == y && a == b
  {
    if x + [a] == y + [b] {
      assert (x + [a])[..|x|] == x && (y + [b])[..|y|] == y && (x + [a])[|x|] == a && (y + [b])[|y|] == b;
    }
  }

  lemma NotUp(w: seq<string>, root: string)
    requires w != [] && SlashFree(w) && Ordinary(w[1..])
    ensures Join(w) != root + "/.." && Join(w) + "/" != root + "/.."
  {
    PartsJoin(w);
    PartsConcat(root, "..");
    PartsOfWord("..");
    assert root + "/" + ".." == root + "/..";
    var ps := Parts(root) + [".."];
    assert ps[1..][|ps| - 2] == "..";
    assert (Join(w) + "/")[|Join(w)|] == '/' && (root + "/..")[|root| + 2] == '.';
  }

  /** Confinement, for a path without needless slashes: it leads to a place under the root, if and only if
      the check admits it and it is not the root's own "..", whose last component is left unresolved. */
  lemma Confined(path: string, root: string)
    requires |Parts(path)| > 1 && IsRoot(root) && SingleSlashes(path)
    ensures Under(root, path) <==> Admits(root, Resolved(path)) && Resolved(path) != root + "/.."
  {
    var ps := Parts(path);
    PlaceOfRoot(root);
    PlaceIsLed(path);
    AdmittedParts(path, root);
    LedUnder(Parts(root), Dir(ps), ps[|ps| - 1]);
    RootsUp(path, root);
  }

  lemma PlaceOfRoot(root: string)
    requires IsRoot(root)
    ensures Place(root) == Parts(root)
  {
    EnterRoot(Parts(root));
  }

  lemma AdmittedParts(path: string, root: string)
    requires |Parts(path)| > 1 && SingleSlashes(path)
    ensures var ps := Parts(path); var last := ps[|ps| - 1];
      Admits(root, Resolved(path)) <==> if last == "" then Parts(root) <= Dir(ps) else Parts(root) <= Dir(ps) + [last]
  {
    var ps := Parts(path);
    var w, last := Dir(ps), ps[|ps| - 1];
    PartsAreSlashFree(path);
    DirParts(path);
    if last == "" {
      UnnamedResolved(path);
      PrefixIsParts(root, w);
    } else {
      NamedResolved(path);
      PrefixIsParts(root, w + [last]);
    }
  }

  // ---------------------------------------------------------------------------
  // Needless slashes

  function Kept(x: seq<string>): (r: seq<string>) {
    if x == [] then [] else (if x[0] == "" then [] else [x[0]]) + Kept(x[1..])
  }

  /** The path with each run of slashes cut down to one. */
  function Squeezed(path: string): string {
    var ps := Parts(path);
    if |ps| == 1 then path else Join([ps[0]] + Kept(ps[1..|ps| - 1]) + [ps[|ps| - 1]])
  }

  lemma {:induction false} KeptParts(x: seq<string>)
    ensures NonEmpty(Kept(x)) && (SlashFree(x) ==> SlashFree(Kept(x)))
    decreases |x|
  {
    if x != [] {
      assert forall i :: 0 <= i < |x[1..]| ==> x[1..][i] == x[i + 1];
      KeptParts(x[1..]);
    }
  }

  lemma {:induction false} EnterKept(x: seq<string>, stack: seq<string>)
    requires stack != []
    ensures Enter(Kept(x), stack) == Enter(x, stack)
    decreases |x|
  {
    if x != [] {
      if x[0] == "" {
        assert Kept(x) == Kept(x[1..]);
        EnterKept(x[1..], stack);
      } else {
        assert Kept(x)[0] == x[0] && Kept(x)[1..] == Kept(x[1..]);
        EnterKept(x[1..], Led(stack, x[0]));
      }
    }
  }

  lemma SqueezedParts(path: string)
    requires |Parts(path)| > 1
    ensures var ps := Parts(path);
      Parts(Squeezed(path)) == [ps[0]] + Kept(ps[1..|ps| - 1]) + [ps[|ps| - 1]]
    ensures SingleSlashes(Squeezed(path))
  {
    var ps := Parts(path);
    PartsAreSlashFree(path);
    KeptBetween(ps);
    PartsJoin([ps[0]] + Kept(ps[1..|ps| - 1]) + [ps[|ps| - 1]]);
  }

  lemma KeptBetween(ps: seq<string>)
    requires |ps| > 1 && SlashFree(ps)
    ensures var y := [ps[0]] + Kept(ps[1..|ps| - 1]) + [ps[|ps| - 1]];
      SlashFree(y) && NonEmpty(y[1..|y| - 1])
  {
    var x := ps[1..|ps| - 1];
    assert forall i :: 0 <= i < |x| ==> x[i] == ps[i + 1];
    KeptParts(x);
    var y := [ps[0]] + Kept(x) + [ps[|ps| - 1]];
    assert y[1..|y| - 1] == Kept(x);
  }

  /** The file system does not see them. */
  lemma SqueezedPlace(path: string)
    requires |Parts(path)| > 1
    ensures Place(Squeezed(path)) == Place(path)
  {
    var ps := Parts(path);
    SqueezedParts(path);
    SqueezedEnter(ps);
  }

  lemma SqueezedEnter(ps: seq<string>)
    requires |ps| > 1
    ensures var y := [ps[0]] + Kept(ps[1..|ps| - 1]) + [ps[|ps| - 1]];
      Enter(y[1..], [y[0]]) == Enter(ps[1..], [ps[0]])
  {
    EnterSqueezed(ps[0], ps[1..|ps| - 1], ps[|ps| - 1]);
    assert ps[1..] == ps[1..|ps| - 1] + [ps[|ps| - 1]];
  }

  lemma EnterSqueezed(first: string, x: seq<string>, last: string)
    ensures Enter(([first] + Kept(x) + [last])[1..], [first]) == Enter(x + [last], [first])
  {
    assert ([first] + Kept(x) + [last])[1..] == Kept(x) + [last];
    EnterAppend(x, [last], [first]);
    EnterAppend(Kept(x), [last], [first]);
    EnterKept(x, [first]);
  }

  /** Confinement, for every path: it leads to a place under the root, if and only if the check admits the
      path without its needless slashes, and that is not the root's own "..". */
  lemma ConfinedExact(path: string, root: string)
    requires |Parts(path)| > 1 && IsRoot(root)
    ensures var p := Squeezed(path);
      Under(root, path) <==> Admits(root, Resolved(p)) && Resolved(p) != root + "/.."
  {
    SqueezedParts(path);
    SqueezedPlace(path);
    Confined(Squeezed(path), root);
  }

  // ---------------------------------------------------------------------------
  // Names that the check judges wrongly

  lemma RootEnd(root: string)
    requires IsRoot(root)
    ensures root != "" && root[|root| - 1] != '/' && root[0] == '/'
  {
    var r := Parts(root);
    JoinParts(root);
    PartsAreSlashFree(root);
    JoinEndsInName(r);
    assert r == [""] + r[1..];
    JoinConcat([""], r[1..]);
  }

  /** The root's own "..", given in the root directory, is admitted. */
  lemma RootsUpIsAdmitted(root: string)
    requires IsRoot(root)
    ensures var path := Prepend(root, root, "..");
      Admits(root, Resolved(path)) && !Under(root, path)
  {
    RootEnd(root);
    var path := Prepend(root, root, "..");
    PartsConcat(root, "..");
    PartsOfWord("..");
    assert path == root + "/" + "..";
    DirOfRoot(Parts(root));
    RootsUp(path, root);
    assert root + "/" <= Slashed(root + "/..");
    var ps := Parts(path);
    assert ps[1..|ps| - 1] == Parts(root)[1..];
    Confined(path, root);
  }

  /** A file name: what can be a component of a place. */
  predicate IsName(x: string) {
    x != "" && x != "." && x != ".." && '/' !in x
  }

  lemma LeadsBeside(r: seq<string>, x: string)
    requires |r| > 1
    ensures r <= Pop(r) + [x] <==> x == r[|r| - 1]
  {
  }

  /** Two slashes and "..": the check takes back the empty component, the file system a directory. For
      every root such a path is admitted, as the name behind it directly under the root, and leads beside
      the root. */
  lemma EmptyComponentIsTakenBack(root: string, cwd: string, x: string)
    requires IsRoot(root) && IsName(x)
    ensures var path := Prepend(cwd, root, "//../" + x);
      && Resolved(path) == root + "/" + x && Admits(root, Resolved(path))
      && (Under(root, path) <==> x == Parts(root)[|Parts(root)| - 1])
  {
    var path := Prepend(cwd, root, "//../" + x);
    TwoSlashes(cwd, root, x);
    TakenBackResolved(root, path, x);
    TakenBackPlace(root, path, x);
    LongerIsAdmitted(root, root + "/" + x);
  }

  lemma TwoSlashes(cwd: string, root: string, x: string)
    ensures Prepend(cwd, root, "//../" + x) == root + "/" + ("/../" + x)
  {
  }

  lemma LongerIsAdmitted(root: string, s: string)
    requires root + "/" <= s
    ensures Admits(root, s)
  {
  }

  lemma TakenBackResolved(root: string, path: string, x: string)
    requires IsRoot(root) && IsName(x) && path == root + "/" + ("/../" + x)
    ensures Resolved(path) == root + "/" + x
  {
    var r := Parts(root);
    PartsOfTwoSlashes(root, x);
    var ps := r + ["", "..", x];
    assert ps[1..|ps| - 1] == r[1..] + ["", ".."];
    DirTakesBack(r);
    NamedResolved(path);
    JoinConcat(r, [x]);
    JoinParts(root);
  }

  lemma TakenBackPlace(root: string, path: string, x: string)
    requires IsRoot(root) && IsName(x) && path == root + "/" + ("/../" + x)
    ensures Under(root, path) <==> x == Parts(root)[|Parts(root)| - 1]
  {
    var r := Parts(root);
    PartsOfTwoSlashes(root, x);
    assert (r + ["", "..", x])[1..] == r[1..] + ["", "..", x];
    PlaceBeside(r, x);
    PlaceOfRoot(root);
    LeadsBeside(r, x);
  }

  lemma PartsOfTwoSlashes(root: string, x: string)
    requires '/' !in x
    ensures Parts(root + "/" + ("/../" + x)) == Parts(root) + ["", "..", x]
  {
    PartsConcat(root, "/../" + x);
    PartsAround("", "..", x);
    assert "" + ("/" + ".." + "/") + x == "/../" + x;
    PartsOfWord(x);
    assert Parts("") == [""];
  }

  lemma DirTakesBack(r: seq<string>)
    requires r != [] && Ordinary(r[1..])
    ensures Walk(r[1..] + ["", ".."], [r[0]]) == r
  {
    WalkConcat(r[1..], ["", ".."], [r[0]]);
    OrdinaryWalk(r[1..], [r[0]]);
    assert [r[0]] + r[1..] == r && ["", ".."] == [""] + [".."] && Pop(r + [""]) == r;
    WalkConcat([""], [".."], r);
    OrdinaryWalk([""], r);
    WalkUp(r + [""]);
  }

  lemma WalkUp(stack: seq<string>)
    requires stack != []
    ensures Walk([".."], stack) == Pop(stack)
  {
    assert [".."][1..] == [];
  }

  lemma UpAndBeside(r: seq<string>, x: string)
    requires r != [] && IsName(x)
    ensures Enter(["..", x], r) == Pop(r) + [x] && Enter(["", "..", x], r) == Pop(r) + [x]
  {
    assert ["..", x] == [".."] + [x] && ["", "..", x] == [""] + ["..", x];
    EnterCons("..", [x], r);
    EnterOne(x, Pop(r));
    EnterCons("", ["..", x], r);
  }

  lemma EnterRoot(r: seq<string>)
    requires r != [] && Ordinary(r[1..]) && NonEmpty(r[1..])
    ensures Enter(r[1..], [r[0]]) == r
  {
    EnterIsWalk(r[1..], [r[0]]);
    OrdinaryWalk(r[1..], [r[0]]);
    assert [r[0]] + r[1..] == r;
  }

  lemma PlaceBeside(r: seq<string>, x: string)
    requires r != [] && Ordinary(r[1..]) && NonEmpty(r[1..]) && IsName(x)
    ensures Enter(r[1..] + ["", "..", x], [r[0]]) == Pop(r) + [x]
    ensures Enter(r[1..] + ["..", x], [r[0]]) == Pop(r) + [x]
  {
    EnterAppend(r[1..], ["", "..", x], [r[0]]);
    EnterAppend(r[1..], ["..", x], [r[0]]);
    EnterRoot(r);
    UpAndBeside(r, x);
  }

  lemma {:induction false} WalkConcat(x: seq<string>, y: seq<string>, stack: seq<string>)
    requires stack != []
    ensures Walk(x + y, stack) == Walk(y, Walk(x, stack))
    decreases |x|
  {
    if x == [] {
      assert x + y == y;
    } else {
      assert (x + y)[0] == x[0] && (x + y)[1..] == x[1..] + y;
      if x[0] == "." {
        WalkConcat(x[1..], y, stack);
      } else if x[0] == ".." {
        WalkConcat(x[1..], y, Pop(stack));
      } else {
        WalkConcat(x[1..], y, stack + [x[0]]);
      }
    }
  }

  lemma DirOfRoot(r: seq<string>)
    requires r != [] && Ordinary(r[1..])
    ensures Dir(r + [".."]) == r
  {
    var ps := r + [".."];
    assert ps[1..|ps| - 1] == r[1..] && [r[0]] + r[1..] == r;
    OrdinaryWalk(r[1..], [r[0]]);
  }

  lemma {:induction false} OrdinaryWalk(x: seq<string>, stack: seq<string>)
    requires stack != [] && Ordinary(x)
    ensures Walk(x, stack) == stack + x
    decreases |x|
  {
    if x != [] {
      OrdinaryWalk(x[1..], stack + [x[0]]);
      assert (stack + [x[0]]) + x[1..] == stack + x;
    }
  }

  // ---------------------------------------------------------------------------
  // The code

  /** `vsf_access_check_file`: nothing is denied, or the matcher does not pass the name within its budget
      and the name does not hold the denied text. */
  method CheckFile(name: string, deny: Option<string>) returns (ok: bool)
    ensures ok <==> deny.None? || !Refused(name, deny.value)
    ensures deny.Some? && deny.value != "" && Contains(name, deny.value) ==> !ok
  {
    if deny.None? {
      return true;
    }
    var passes, iters := Wildcard.PassesFilter(name, deny.value, 0);
    if passes {
      return false;
    }
    var at := LocateText(name, deny.value);
    return at.NotFound?;
  }

  ghost predicate Refused(name: string, deny: string) {
    || (Wildcard.Rounds(false, deny, name) < 1000 && Wildcard.Greedy(false, deny, name))
    || (deny != "" && Contains(name, deny))
  }

  /** A refused name matches the denied pattern or holds it as a text, and a name that holds it is refused.
      A pattern of the shape on which the matcher is exact refuses every name that it matches within the
      budget; without brace lists, and shorter than the budget, every name that it matches. */
  lemma RefusedExact(name: string, deny: string)
    ensures Refused(name, deny) ==> Wildcard.Matches(deny, name) || Contains(name, deny)
    ensures deny != "" && Contains(name, deny) ==> Refused(name, deny)
    ensures Wildcard.Faithful(deny) && Wildcard.Rounds(false, deny, name) < 1000 && Wildcard.Matches(deny, name) ==>
      Refused(name, deny)
    ensures Wildcard.Faithful(deny) && Wildcard.ListFree(deny) && |deny| < 1000 && Wildcard.Matches(deny, name) ==>
      Refused(name, deny)
  {
    if Wildcard.Greedy(false, deny, name) {
      Wildcard.GreedySound(false, deny, name);
    }
    if Wildcard.Faithful(deny) {
      Wildcard.GreedyExact(deny, name);
    }
    if Wildcard.ListFree(deny) {
      Wildcard.RoundsBound(false, deny, name);
    }
  }

  /** Other patterns let matching names pass: "*" and a literal text, with that text written twice. */
  lemma MatchingNameIsAccepted(w: string)
    requires Wildcard.Literal(w) && w != ""
    ensures Wildcard.Matches("*" + w, w + w) && !Refused(w + w, "*" + w)
  {
    Wildcard.GreedyMissesLaterMatch(w);
    var n, d := w + w, "*" + w;
    assert '*' !in n;
    forall i ensures !OccursAt(n, d, i) {
      if 0 <= i && i + |d| <= |n| {
        assert n[i..i + |d|][0] == n[i] && d[0] == '*';
      }
    }
  }

  /** `vsf_access_session_check_file`: exactly the prefix test on the resolved path and the denied names. On
      a path without needless slashes an admitted name leads under the root, unless it is the root's own
      "..". */
  method SessionCheckFile(cwd: string, root: string, name: string, deny: Option<string>) returns (ok: bool)
    ensures var path := Prepend(cwd, root, name);
      ok <==> Admits(root, Resolved(path)) && (deny.None? || !Refused(name, deny.value))
    ensures var path := Prepend(cwd, root, name);
      ok && IsRoot(root) && SingleSlashes(path) ==> (Under(root, path) <==> Resolved(path) != root + "/..")
  {
    ghost var path := Prepend(cwd, root, name);
    PrependHasSlash(cwd, root, name);
    if IsRoot(root) && SingleSlashes(path) {
      Confined(path, root);
    }
    var p := SessionRealPath(cwd, root, name);
    ok := PassesPrefix(p, root);
    if ok {
      ok := CheckFile(name, deny);
    }
  }

  /** The prefix test. */
  method PassesPrefix(resolved: string, root: string) returns (ok: bool)
    ensures ok <==> Admits(root, resolved)
  {
    var p := resolved;
    if p == "" || p[|p| - 1] != '/' {
      p := p + "/";
    }
    ok := root + "/" <= p;
  }

  // ---------------------------------------------------------------------------
  // Uploads

  /** The check of an upload: the name is put under the working directory or the root first, and the
      path that is then created is handed to the check as a name, which puts it under the root again. */
  method UploadCheck(cwd: string, root: string, name: string, deny: Option<string>)
    returns (ok: bool, created: string)
    ensures created == if "/" <= name then root + name else if EndsInSlash(cwd) then cwd + name else cwd + "/" + name
    ensures ok <==>
      Admits(root, Resolved(Prepend(cwd, root, created))) && (deny.None? || !Refused(created, deny.value))
    ensures var p := Squeezed(created);
      IsRoot(root) ==> (Under(root, created) <==> Admits(root, Resolved(p)) && Resolved(p) != root + "/..")
  {
    created := Prepend(cwd, root, name);
    PrependExact(cwd, root, name);
    PrependHasSlash(cwd, root, name);
    if IsRoot(root) {
      ConfinedExact(created, root);
    }
    ok := SessionCheckFile(cwd, root, created, deny);
  }

  /** The check looks at another path than the one that is created: for every root, "/../x" is admitted
      and leads beside the root. */
  lemma UploadBesideRoot(root: string, cwd: string, x: string)
    requires IsRoot(root) && IsName(x)
    ensures var created := Prepend(cwd, root, "/../" + x);
      && Admits(root, Resolved(Prepend(cwd, root, created)))
      && (Under(root, created) <==> x == Parts(root)[|Parts(root)| - 1])
  {
    var created, r := Prepend(cwd, root, "/../" + x), Parts(root);
    RootEnd(root);
    PartsOfUpName(root, x);
    OneSlash(cwd, root, x);
    assert (r + ["..", x])[1..] == r[1..] + ["..", x];
    PlaceBeside(r, x);
    PlaceOfRoot(root);
    LeadsBeside(r, x);
    UploadAdmitted(root, cwd, created, x);
  }

  lemma OneSlash(cwd: string, root: string, x: string)
    ensures Prepend(cwd, root, "/../" + x) == root + ("/" + ".." + "/") + x
  {
  }

  lemma PartsOfUpName(root: string, x: string)
    requires '/' !in x
    ensures Parts(root + ("/" + ".." + "/") + x) == Parts(root) + ["..", x]
  {
    PartsAround(root, "..", x);
    PartsOfWord(x);
  }

  lemma UploadAdmitted(root: string, cwd: string, created: string, x: string)
    requires IsRoot(root) && IsName(x) && created == root + ("/" + ".." + "/") + x
    ensures Admits(root, Resolved(Prepend(cwd, root, created)))
  {
    RootEnd(root);
    PartsOfUpName(root, x);
    PartsOfPrefixed(root, created);
    SameTail(Parts(created[1..]), Parts(root), ["..", x]);
    RootKept(Prepend(cwd, root, created), root, x);
  }

  /** The parts of an absolute name, alone and after a root. */
  lemma PartsOfPrefixed(root: string, name: string)
    requires name != "" && name[0] == '/'
    ensures Parts(name) == [""] + Parts(name[1..]) && Parts(root + name) == Parts(root) + Parts(name[1..])
  {
    var rest := name[1..];
    assert "" + "/" + rest == name && root + "/" + rest == root + name && Parts("") == [""];
    PartsConcat("", rest);
    PartsConcat(root, rest);
  }

  lemma SameTail(a: seq<string>, r: seq<string>, b: seq<string>)
    requires r != [] && [""] + a == r + b
    ensures a == r[1..] + b
  {
    assert ([""] + a)[1..] == a && (r + b)[1..] == r[1..] + b;
  }

  /** The checked path is the root, the root again, ".." and the name. */
  lemma RootKept(path: string, root: string, x: string)
    requires IsRoot(root) && IsName(x) && Parts(path) == Parts(root) + (Parts(root)[1..] + ["..", x])
    ensures Admits(root, Resolved(path))
  {
    var r, ps := Parts(root), Parts(path);
    DirOfTwice(r, x);
    DirParts(path);
    NamedResolved(path);
    PrefixIsParts(root, Dir(ps) + [x]);
  }

  lemma DirOfTwice(r: seq<string>, x: string)
    requires |r| > 1 && Ordinary(r[1..])
    ensures r <= Dir(r + (r[1..] + ["..", x])) + [x]
  {
    var y, ps := r[1..], r + (r[1..] + ["..", x]);
    assert ps[1..|ps| - 1] == (y + y) + [".."];
    WalkConcat(y + y, [".."], [r[0]]);
    OrdinaryWalk(y + y, [r[0]]);
    assert [r[0]] + (y + y) == r + y;
    WalkUp(r + y);
    PopOfTwice(r, y);
  }

  lemma PopOfTwice(r: seq<string>, y: seq<string>)
    requires r != [] && y != []
    ensures r <= Pop(r + y)
  {
    assert Pop(r + y) == r + y[..|y| - 1];
  }

  lemma {:induction false} EnterGrows(x: seq<string>, stack: seq<string>)
    requires stack != [] && ".." !in x
    ensures stack <= Enter(x, stack)
    decreases |x|
  {
    if x != [] {
      assert x[0] in x;
      assert ".." !in x[1..] by {
        assert forall i :: 0 <= i < |x[1..]| ==> x[1..][i] == x[i + 1] && x[i + 1] in x;
      }
      EnterGrows(x[1..], Led(stack, x[0]));
    }
  }

  /** Without a ".." in it, a name stays under the root when the directory it is put in is. */
  lemma StaysUnder(root: string, dir: string, rest: string)
    requires Under(root, dir) && ".." !in Parts(rest)
    ensures Under(root, dir + "/" + rest)
  {
    PartsConcat(dir, rest);
    EnterMore(Parts(dir), Parts(rest));
  }

  lemma EnterMore(d: seq<string>, y: seq<string>)
    requires d != [] && ".." !in y
    ensures Enter(d[1..], [d[0]]) <= Enter((d + y)[1..], [d[0]])
  {
    assert (d + y)[1..] == d[1..] + y;
    EnterAppend(d[1..], y, [d[0]]);
    EnterGrows(y, Enter(d[1..], [d[0]]));
  }

  lemma PrependHasSlash(cwd: string, root: string, name: string)
    ensures |Parts(Prepend(cwd, root, name))| > 1
  {
    var p := Prepend(cwd, root, name);
    var dir := if cwd == "" || cwd[|cwd| - 1] != '/' then |cwd| else |cwd| - 1;
    var i := if name == "" || name[0] != '/' then dir else |root|;
    assert p[i] == '/';
    assert p == p[..i] + "/" + p[i + 1..];
    PartsConcat(p[..i], p[i + 1..]);
  }
}
