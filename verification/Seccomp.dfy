/** The system call filter of seccompsandbox.c: a table of rules compiled to a BPF program whose
    jump offsets and length are worked out by hand. */
module Seccomp {
  import opened Base

  /** A C `int` or an instruction operand, as the unsigned value of its 32 bits. */
  type word = x: int | 0 <= x < 0x1_0000_0000

  /** An argument of a system call. */
  type dword = x: int | 0 <= x < 0x1_0000_0000_0000_0000

  /** kMaxSyscalls */
  const MAX_SYSCALLS: nat := 100

  const RET_KILL: word := 0
  const RET_ALLOW: word := 0x7fff0000
  const RET_ERRNO: word := 0x00050000
  const AUDIT_ARCH_X86_64: word := 0xc000003e

  // ---------------------------------------------------------------------------
  // Rules and their meaning

  /** One argument test: argument `arg` (from 1) equals `val`, or has no bit outside `val`. */
  datatype Check = Equal(arg: nat, val: word) | Within(arg: nat, val: word)

  /** A row of the table: the call number, up to three tests, and the error code (0 allows). */
  datatype Rule = Rule(nr: word, checks: seq<Check>, errno: word)

  /** What the kernel hands to the filter. */
  datatype Record = Record(nr: word, arch: word, ip: dword, args: seq<dword>)

  predicate ValidRecord(d: Record) {
    |d.args| == 6
  }

  predicate ValidCheck(c: Check) {
    1 <= c.arg <= 6
  }

  /** The shapes the allow and reject functions can build: only the first test may be a mask. */
  predicate ValidRule(r: Rule) {
    && |r.checks| <= 3 && r.errno <= 255
    && (forall i :: 0 <= i < |r.checks| ==> ValidCheck(r.checks[i]))
    && (forall i :: 1 <= i < |r.checks| ==> r.checks[i].Equal?)
  }

  function Low(x: dword): word {
    x % 0x1_0000_0000
  }

  function High(x: dword): word {
    x / 0x1_0000_0000
  }

  /** Bit `i` of `v` is set. */
  predicate Bit(v: nat, i: nat) {
    if i == 0 then v % 2 == 1 else Bit(v / 2, i - 1)
  }

  predicate SharesBit(v: word, mask: word) {
    exists i :: 0 <= i < 32 && Bit(v, i) && Bit(mask, i)
  }

  predicate NoBitOutside(v: word, mask: word) {
    forall i :: 0 <= i < 32 && Bit(v, i) ==> Bit(mask, i)
  }

  /** All 32 bits turned over. */
  function Complement(v: word): word {
    0xffff_ffff - v
  }

  lemma {:induction false} ComplementBit(v: nat, w: nat, i: nat)
    requires i < w && v < Pow2(w)
    ensures Bit(Pow2(w) - 1 - v, i) <==> !Bit(v, i)
  {
    var c := Pow2(w) - 1 - v;
    assert c == 2 * (Pow2(w - 1) - 1 - v / 2) + (1 - v % 2);
    if i > 0 {
      ComplementBit(v / 2, w - 1, i - 1);
    }
  }

  /** The mask test of the filter: no bit is shared with the complement exactly when none is outside. */
  lemma MaskTest(v: word, mask: word)
    ensures SharesBit(v, Complement(mask)) <==> !NoBitOutside(v, mask)
  {
    assert Pow2(8) == 256;
    assert Pow2(16) == 65536;
    assert Pow2(24) == 16777216;
    assert Pow2(32) == 0x1_0000_0000;
    forall i | 0 <= i < 32 ensures Bit(Complement(mask), i) <==> !Bit(mask, i) {
      ComplementBit(mask, 32, i);
    }
  }

  /** The binary digit of `v` at `i`. */
  predicate Digit(v: nat, i: nat) {
    v / Pow2(i) % 2 == 1
  }

  lemma {:induction false} BitMeaning(v: nat, i: nat)
    ensures Bit(v, i) <==> Digit(v, i)
  {
    if i > 0 {
      BitMeaning(v / 2, i - 1);
      DivDiv(v, Pow2(i - 1));
    }
  }

  lemma DivDiv(v: nat, p: nat)
    requires p > 0
    ensures v / (2 * p) == v / 2 / p
  {
    var h, q := v / 2, v / 2 / p;
    assert h == q * p + h % p;
    DivUnique(v, 2 * p, q, 2 * (h % p) + v % 2);
  }

  lemma DivUnique(v: nat, p: nat, q: nat, r: nat)
    requires r < p && v == q * p + r
    ensures v / p == q
  {
    var k := v / p;
    assert v == k * p + v % p;
    assert k < q ==> (k + 1) * p <= q * p;
    assert q < k ==> (q + 1) * p <= k * p;
  }

  predicate Passes(c: Check, d: Record)
    requires ValidRecord(d) && ValidCheck(c)
  {
    var v := Low(d.args[c.arg - 1]);
    if c.Equal? then v == c.val else NoBitOutside(v, c.val)
  }

  predicate Applies(r: Rule, d: Record)
    requires ValidRecord(d) && ValidRule(r)
  {
    d.nr == r.nr && forall i :: 0 <= i < |r.checks| ==> Passes(r.checks[i], d)
  }

  /** When a rule applies, in numbers: its system call, and of each argument tested the low 32 bits equal
      the value, or have no bit that the mask has not. */
  lemma AppliesExactly(r: Rule, d: Record)
    requires ValidRecord(d) && ValidRule(r)
    ensures Applies(r, d) <==> d.nr == r.nr && forall i :: 0 <= i < |r.checks| ==>
      var c, v := r.checks[i], d.args[r.checks[i].arg - 1] % 0x1_0000_0000;
      if c.Equal? then v == c.val
      else forall b :: 0 <= b < 32 && Digit(v, b) ==> Digit(c.val, b)
  {
    forall i | 0 <= i < |r.checks|
      ensures Passes(r.checks[i], d) <==>
        var c, v := r.checks[i], d.args[r.checks[i].arg - 1] % 0x1_0000_0000;
        if c.Equal? then v == c.val
        else forall b :: 0 <= b < 32 && Digit(v, b) ==> Digit(c.val, b)
    {
      NoBitOutsideExactly(Low(d.args[r.checks[i].arg - 1]), r.checks[i].val);
    }
  }

  lemma NoBitOutsideExactly(v: word, mask: word)
    ensures NoBitOutside(v, mask) <==> forall b :: 0 <= b < 32 && Digit(v, b) ==> Digit(mask, b)
  {
    forall b | 0 <= b < 32
      ensures Bit(v, b) <==> Digit(v, b)
      ensures Bit(mask, b) <==> Digit(mask, b)
    {
      BitMeaning(v, b);
      BitMeaning(mask, b);
    }
  }

  function Action(r: Rule): word
    requires ValidRule(r)
  {
    if r.errno == 0 then RET_ALLOW else RET_ERRNO + r.errno
  }

  // ---------------------------------------------------------------------------
  // The BPF machine

  datatype Instr =
    | Ld(offset: nat)
    | Jeq(k: word, jt: nat, jf: nat)
    | Jset(k: word, jt: nat, jf: nat)
    | Ret(k: word)

  /** The 32-bit word at a byte offset of the little-endian record. */
  function Load(d: Record, k: nat): word
    requires ValidRecord(d) && k % 4 == 0 && k < 64
  {
    if k == 0 then d.nr
    else if k == 4 then d.arch
    else if k == 8 then Low(d.ip)
    else if k == 12 then High(d.ip)
    else if k % 8 == 0 then Low(d.args[(k - 16) / 8])
    else High(d.args[(k - 16) / 8])
  }

  /** The words at the offsets of an argument are its two halves. */
  lemma ArgumentWords(d: Record, i: nat)
    requires ValidRecord(d) && i < 6
    ensures Load(d, 16 + 8 * i) + 0x1_0000_0000 * Load(d, 20 + 8 * i) == d.args[i]
  {
    assert (20 + 8 * i) % 8 == 4;
  }

  datatype State = Running(pc: nat, acc: word) | Returned(k: word) | Fault

  /** One step; a load outside the record or a program counter outside the program faults. */
  function Step(prog: seq<Instr>, d: Record, s: State): State
    requires ValidRecord(d)
  {
    if !s.Running? then s
    else if s.pc >= |prog| then Fault
    else match prog[s.pc]
      case Ld(k) => if k % 4 == 0 && k < 64 then Running(s.pc + 1, Load(d, k)) else Fault
      case Jeq(k, jt, jf) => Running(s.pc + 1 + (if s.acc == k then jt else jf), s.acc)
      case Jset(k, jt, jf) => Running(s.pc + 1 + (if SharesBit(s.acc, k) then jt else jf), s.acc)
      case Ret(k) => Returned(k)
  }

  /** Run to the end. Jumps only go forward, so this stops. */
  function Run(prog: seq<Instr>, d: Record, s: State): State
    requires ValidRecord(d)
    decreases if s.Running? && s.pc < |prog| then |prog| - s.pc else 0
  {
    if s.Running? && s.pc < |prog| then Run(prog, d, Step(prog, d, s)) else Step(prog, d, s)
  }

  // ---------------------------------------------------------------------------
  // What the generator emits

  function Offset(arg: nat): nat
    requires 1 <= arg
  {
    16 + (arg - 1) * 8
  }

  /** The two instructions of one test; on failure control goes `skip` instructions further. */
  function CheckCode(c: Check, skip: nat): (r: seq<Instr>)
    requires ValidCheck(c)
    ensures |r| == 2
  {
    [Ld(Offset(c.arg)), if c.Equal? then Jeq(c.val, 0, skip) else Jset(Complement(c.val), skip, 0)]
  }

  /** The tests with index below `n`, the highest first; each failure skips the ones after it and
      the return. */
  function ChecksCode(cs: seq<Check>, n: nat): (r: seq<Instr>)
    requires n <= |cs| && forall i :: 0 <= i < |cs| ==> ValidCheck(cs[i])
    ensures |r| == 2 * n
  {
    if n == 0 then [] else CheckCode(cs[n - 1], 2 * n - 1) + ChecksCode(cs, n - 1)
  }

  /** How many instructions follow the number test of a rule. */
  function BlockSize(r: Rule): nat {
    if r.checks == [] then 1 else 2 * |r.checks| + 2
  }

  function RuleCode(r: Rule): (c: seq<Instr>)
    requires ValidRule(r)
    ensures |c| == 1 + BlockSize(r)
  {
    [Jeq(r.nr, 0, BlockSize(r))] + ChecksCode(r.checks, |r.checks|) + [Ret(Action(r))]
    + if r.checks == [] then [] else [Ld(0)]
  }

  predicate ValidRules(rules: seq<Rule>) {
    forall i :: 0 <= i < |rules| ==> ValidRule(rules[i])
  }

  function RulesCode(rules: seq<Rule>): seq<Instr>
    requires ValidRules(rules)
  {
    if rules == [] then [] else RulesCode(rules[..|rules| - 1]) + RuleCode(rules[|rules| - 1])
  }

  const HEADER: seq<Instr> := [Ld(4), Jeq(AUDIT_ARCH_X86_64, 1, 0), Ret(RET_KILL), Ld(0)]

  function Compile(rules: seq<Rule>): seq<Instr>
    requires ValidRules(rules)
  {
    HEADER + RulesCode(rules) + [Ret(RET_KILL)]
  }

  // ---------------------------------------------------------------------------
  // Layout

  /** Where the code of rule `i` starts; for `i == |rules|`, where the final return is. */
  function StartOf(rules: seq<Rule>, i: nat): nat
    requires i <= |rules| && ValidRules(rules)
  {
    4 + |RulesCode(rules[..i])|
  }

  lemma StartNext(rules: seq<Rule>, i: nat)
    requires i < |rules| && ValidRules(rules)
    ensures StartOf(rules, i + 1) == StartOf(rules, i) + 1 + BlockSize(rules[i])
    ensures RulesCode(rules[..i + 1]) == RulesCode(rules[..i]) + RuleCode(rules[i])
  {
    assert rules[..i + 1][..i] == rules[..i];
  }

  /** The code of the first rules begins the code of all. */
  lemma {:induction false} RulesCodePrefix(rules: seq<Rule>, i: nat) returns (tail: seq<Instr>)
    requires i <= |rules| && ValidRules(rules)
    ensures RulesCode(rules) == RulesCode(rules[..i]) + tail
    decreases |rules| - i
  {
    if i < |rules| {
      var rest := RulesCodePrefix(rules, i + 1);
      StartNext(rules, i);
      tail := RuleCode(rules[i]) + rest;
      Assoc(RulesCode(rules[..i]), RuleCode(rules[i]), rest);
    } else {
      assert rules[..i] == rules;
      tail := [];
    }
  }

  /** The code of rule `r` is in the program at `s`. */
  ghost predicate Placed(prog: seq<Instr>, s: nat, r: Rule)
    requires ValidRule(r)
  {
    && s + |RuleCode(r)| <= |prog|
    && forall k {:trigger RuleCode(r)[k]} :: 0 <= k < |RuleCode(r)| ==> prog[s + k] == RuleCode(r)[k]
  }

  /** A piece in the middle of a program. */
  lemma Inside(h: seq<Instr>, a: seq<Instr>, c: seq<Instr>, t: seq<Instr>, e: seq<Instr>, k: nat)
    requires k < |c|
    ensures |h| + |a| + k < |h + ((a + c) + t) + e|
    ensures (h + ((a + c) + t) + e)[|h| + |a| + k] == c[k]
  {
  }

  lemma PlacedAt(rules: seq<Rule>, i: nat)
    requires i < |rules| && ValidRules(rules)
    ensures Placed(Compile(rules), StartOf(rules, i), rules[i])
    ensures StartOf(rules, i + 1) < |Compile(rules)|
  {
    var prog, a, c := Compile(rules), RulesCode(rules[..i]), RuleCode(rules[i]);
    var tail := RulesCodePrefix(rules, i + 1);
    StartNext(rules, i);
    assert RulesCode(rules) == (a + c) + tail;
    PlacedInside(prog, a, c, tail);
  }

  lemma PlacedInside(prog: seq<Instr>, a: seq<Instr>, c: seq<Instr>, tail: seq<Instr>)
    requires prog == HEADER + ((a + c) + tail) + [Ret(RET_KILL)]
    ensures 4 + |a| + |c| < |prog|
    ensures forall k {:trigger c[k]} :: 0 <= k < |c| ==> prog[4 + |a| + k] == c[k]
  {
    forall k | 0 <= k < |c| ensures prog[4 + |a| + k] == c[k] {
      Inside(HEADER, a, c, tail, [Ret(RET_KILL)], k);
    }
  }

  lemma FinalReturn(rules: seq<Rule>)
    requires ValidRules(rules)
    ensures |Compile(rules)| == StartOf(rules, |rules|) + 1
    ensures Compile(rules)[StartOf(rules, |rules|)] == Ret(RET_KILL)
  {
    assert rules[..|rules|] == rules;
  }

  lemma {:induction false} ChecksCodeAt(cs: seq<Check>, n: nat, j: nat)
    requires j < n <= |cs| && forall i :: 0 <= i < |cs| ==> ValidCheck(cs[i])
    ensures ChecksCode(cs, n)[2 * j] == CheckCode(cs[n - 1 - j], 2 * (n - j) - 1)[0]
    ensures ChecksCode(cs, n)[2 * j + 1] == CheckCode(cs[n - 1 - j], 2 * (n - j) - 1)[1]
  {
    if j > 0 {
      ChecksCodeAt(cs, n - 1, j - 1);
    }
  }

  /** The number test of a rule, its return, and the reload after the return. */
  lemma RuleCodeEnds(r: Rule)
    requires ValidRule(r)
    ensures var c, n := RuleCode(r), |r.checks|;
      c[0] == Jeq(r.nr, 0, BlockSize(r)) && c[2 * n + 1] == Ret(Action(r)) && (n > 0 ==> c[2 * n + 2] == Ld(0))
  {
  }

  /** The two instructions of test `n - 1 - j`. */
  lemma RuleCodeChecks(r: Rule, j: nat)
    requires ValidRule(r) && j < |r.checks|
    ensures var c, n := RuleCode(r), |r.checks|;
      c[2 * j + 1] == CheckCode(r.checks[n - 1 - j], 2 * (n - j) - 1)[0]
      && c[2 * j + 2] == CheckCode(r.checks[n - 1 - j], 2 * (n - j) - 1)[1]
  {
    ChecksCodeAt(r.checks, |r.checks|, j);
  }

  // ---------------------------------------------------------------------------
  // Correctness of the generated program

  /** The tests with index below `m` all pass. */
  predicate PassesBelow(cs: seq<Check>, m: nat, d: Record)
    requires ValidRecord(d) && m <= |cs| && forall i :: 0 <= i < |cs| ==> ValidCheck(cs[i])
  {
    forall i :: 0 <= i < m ==> Passes(cs[i], d)
  }

  lemma PassesBelowStep(cs: seq<Check>, m: nat, d: Record)
    requires ValidRecord(d) && 0 < m <= |cs| && forall i :: 0 <= i < |cs| ==> ValidCheck(cs[i])
    ensures PassesBelow(cs, m, d) <==> PassesBelow(cs, m - 1, d) && Passes(cs[m - 1], d)
  {
  }

  lemma LoadArg(d: Record, c: Check)
    requires ValidRecord(d) && ValidCheck(c)
    ensures Offset(c.arg) % 4 == 0 && Offset(c.arg) < 64
    ensures Load(d, Offset(c.arg)) == Low(d.args[c.arg - 1])
  {
    assert (Offset(c.arg) - 16) / 8 == c.arg - 1;
  }

  lemma RunStep(prog: seq<Instr>, d: Record, s: State, s': State)
    requires ValidRecord(d) && s.Running? && s.pc < |prog| && Step(prog, d, s) == s'
    ensures Run(prog, d, s) == Run(prog, d, s')
    ensures s'.Returned? ==> Run(prog, d, s) == s'
  {
  }

  /** The two instructions of a test go on, or skip; for a mask the failing side is the one with a
      bit outside it. */
  lemma TwoSteps(prog: seq<Instr>, d: Record, at: nat, acc: word, c: Check, skip: nat)
    requires ValidRecord(d) && ValidCheck(c) && at + 1 < |prog|
    requires prog[at] == CheckCode(c, skip)[0] && prog[at + 1] == CheckCode(c, skip)[1]
    ensures Run(prog, d, Running(at, acc)) ==
      Run(prog, d, Running(at + 2 + (if Passes(c, d) then 0 else skip), Low(d.args[c.arg - 1])))
  {
    var v := Low(d.args[c.arg - 1]);
    LoadStep(prog, d, at, acc, c);
    RunStep(prog, d, Running(at, acc), Running(at + 1, v));
    TestStep(prog, d, at + 1, v, c, skip);
    RunStep(prog, d, Running(at + 1, v), Running(at + 2 + (if Passes(c, d) then 0 else skip), v));
  }

  lemma LoadStep(prog: seq<Instr>, d: Record, at: nat, acc: word, c: Check)
    requires ValidRecord(d) && ValidCheck(c) && at < |prog| && prog[at] == Ld(Offset(c.arg))
    ensures Step(prog, d, Running(at, acc)) == Running(at + 1, Low(d.args[c.arg - 1]))
  {
    LoadArg(d, c);
  }

  lemma TestStep(prog: seq<Instr>, d: Record, at: nat, v: word, c: Check, skip: nat)
    requires ValidRecord(d) && ValidCheck(c) && at < |prog| && prog[at] == CheckCode(c, skip)[1]
    requires v == Low(d.args[c.arg - 1])
    ensures Step(prog, d, Running(at, v)) == Running(at + 1 + (if Passes(c, d) then 0 else skip), v)
  {
    MaskTest(v, c.val);
  }

  /** The return of a rule, at `at`, and the reload behind it. */
  lemma RuleEnd(prog: seq<Instr>, d: Record, s: nat, r: Rule, at: nat, acc: word)
    requires ValidRecord(d) && ValidRule(r) && Placed(prog, s, r) && at == s + 2 * |r.checks| + 1
    ensures Run(prog, d, Running(at, acc)) == Returned(Action(r))
    ensures r.checks != [] ==> Run(prog, d, Running(at + 1, acc)) == Run(prog, d, Running(at + 2, d.nr))
  {
    var n := |r.checks|;
    RuleCodeEnds(r);
    assert prog[s + (2 * n + 1)] == Ret(Action(r));
    RunStep(prog, d, Running(at, acc), Returned(Action(r)));
    if n > 0 {
      assert prog[s + (2 * n + 2)] == Ld(0);
      RunStep(prog, d, Running(at + 1, acc), Running(at + 2, d.nr));
    }
  }

  /** The place of the two instructions of a test. */
  lemma CheckPlaced(prog: seq<Instr>, s: nat, r: Rule, j: nat)
    requires ValidRule(r) && Placed(prog, s, r) && j < |r.checks|
    ensures var c := CheckCode(r.checks[|r.checks| - 1 - j], 2 * (|r.checks| - j) - 1);
      s + 2 * j + 2 < |prog| && prog[s + 2 * j + 1] == c[0] && prog[s + 2 * j + 2] == c[1]
  {
    RuleCodeChecks(r, j);
    assert prog[s + (2 * j + 1)] == RuleCode(r)[2 * j + 1];
    assert prog[s + (2 * j + 2)] == RuleCode(r)[2 * j + 2];
  }

  /** One test of a rule, at `at`: on to the next one, or to the reload behind the return at `end`. */
  lemma CheckStep(prog: seq<Instr>, d: Record, s: nat, r: Rule, j: nat, at: nat, end: nat, acc: word)
    requires ValidRecord(d) && ValidRule(r) && Placed(prog, s, r) && j < |r.checks|
    requires at == s + 2 * j + 1 && end == s + 2 * |r.checks| + 1
    ensures var c := r.checks[|r.checks| - 1 - j];
      Run(prog, d, Running(at, acc)) ==
      Run(prog, d, Running(if Passes(c, d) then at + 2 else end + 1, Low(d.args[c.arg - 1])))
  {
    var n := |r.checks|;
    CheckPlaced(prog, s, r, j);
    TwoSteps(prog, d, at, acc, r.checks[n - 1 - j], 2 * (n - j) - 1);
  }

  /** One test of a rule: on to the next one, or past the reload to what follows the rule. */
  lemma CheckTurn(prog: seq<Instr>, d: Record, s: nat, r: Rule, j: nat, at: nat, end: nat, acc: word) returns (v: word)
    requires ValidRecord(d) && ValidRule(r) && Placed(prog, s, r) && j < |r.checks|
    requires at == s + 2 * j + 1 && end == s + 2 * |r.checks| + 1
    ensures Run(prog, d, Running(at, acc)) ==
      if Passes(r.checks[|r.checks| - 1 - j], d) then Run(prog, d, Running(at + 2, v))
      else Run(prog, d, Running(end + 2, d.nr))
  {
    v := Low(d.args[r.checks[|r.checks| - 1 - j].arg - 1]);
    CheckStep(prog, d, s, r, j, at, end, acc);
    RuleEnd(prog, d, s, r, end, v);
  }

  /** The tests of a rule from the one with index `n - 1 - j` down. */
  lemma {:induction false} ChecksRun(prog: seq<Instr>, d: Record, s: nat, r: Rule, j: nat, at: nat, end: nat, acc: word)
    requires ValidRecord(d) && ValidRule(r) && Placed(prog, s, r) && j <= |r.checks| && r.checks != []
    requires at == s + 2 * j + 1 && end == s + 2 * |r.checks| + 1
    ensures Run(prog, d, Running(at, acc)) ==
      if PassesBelow(r.checks, |r.checks| - j, d) then Returned(Action(r)) else Run(prog, d, Running(end + 2, d.nr))
    decreases |r.checks| - j
  {
    var n := |r.checks|;
    if j == n {
      RuleEnd(prog, d, s, r, end, acc);
    } else {
      var v := CheckTurn(prog, d, s, r, j, at, end, acc);
      PassesBelowStep(r.checks, n - j, d);
      if Passes(r.checks[n - 1 - j], d) {
        ChecksRun(prog, d, s, r, j + 1, at + 2, end, v);
      }
    }
  }

  /** One rule: its action if it applies, otherwise what comes next with the number reloaded. */
  lemma RuleRun(prog: seq<Instr>, d: Record, s: nat, r: Rule)
    requires ValidRecord(d) && ValidRule(r) && Placed(prog, s, r)
    ensures Run(prog, d, Running(s, d.nr)) ==
      if Applies(r, d) then Returned(Action(r)) else Run(prog, d, Running(s + 1 + BlockSize(r), d.nr))
  {
    RuleCodeEnds(r);
    assert prog[s + 0] == RuleCode(r)[0];
    var end := s + 2 * |r.checks| + 1;
    RunStep(prog, d, Running(s, d.nr), Running(s + 1 + (if d.nr == r.nr then 0 else BlockSize(r)), d.nr));
    if r.checks == [] {
      RuleEnd(prog, d, s, r, end, d.nr);
    } else {
      ChecksRun(prog, d, s, r, 0, s + 1, end, d.nr);
    }
  }

  lemma RuleAt(prog: seq<Instr>, rules: seq<Rule>, d: Record, i: nat)
    requires ValidRecord(d) && ValidRules(rules) && prog == Compile(rules) && i < |rules|
    ensures Run(prog, d, Running(StartOf(rules, i), d.nr)) ==
      if Applies(rules[i], d) then Returned(Action(rules[i])) else Run(prog, d, Running(StartOf(rules, i + 1), d.nr))
  {
    PlacedAt(rules, i);
    StartNext(rules, i);
    RuleBetween(prog, d, StartOf(rules, i), StartOf(rules, i + 1), rules[i]);
  }

  lemma RuleBetween(prog: seq<Instr>, d: Record, s: nat, next: nat, r: Rule)
    requires ValidRecord(d) && ValidRule(r) && Placed(prog, s, r) && next == s + 1 + BlockSize(r)
    ensures Run(prog, d, Running(s, d.nr)) ==
      if Applies(r, d) then Returned(Action(r)) else Run(prog, d, Running(next, d.nr))
  {
    RuleRun(prog, d, s, r);
  }

  /** The verdict of the rules from `i` on is that of the first one that applies. */
  lemma {:induction false} RulesRun(prog: seq<Instr>, rules: seq<Rule>, d: Record, i: nat, first: nat)
    requires ValidRecord(d) && ValidRules(rules) && prog == Compile(rules) && i <= first <= |rules|
    requires forall j :: i <= j < first ==> !Applies(rules[j], d)
    requires first < |rules| ==> Applies(rules[first], d)
    ensures Run(prog, d, Running(StartOf(rules, i), d.nr)) ==
      Returned(if first < |rules| then Action(rules[first]) else RET_KILL)
    decreases first - i
  {
    if i == |rules| {
      FinalReturn(rules);
      RunStep(prog, d, Running(StartOf(rules, i), d.nr), Returned(RET_KILL));
    } else {
      RuleAt(prog, rules, d, i);
      if i < first {
        RulesRun(prog, rules, d, i + 1, first);
      }
    }
  }

  /** What the installed filter answers for a system call. */
  function Verdict(rules: seq<Rule>, d: Record): State
    requires ValidRecord(d) && ValidRules(rules)
  {
    Run(Compile(rules), d, Running(0, 0))
  }

  /** Compiler correctness: a call from another architecture is killed; otherwise the first rule
      that applies decides: with error code 0, tests or not, the call is allowed, and with another it
      fails with that code. With no such rule the call is killed. */
  lemma FilterCorrect(rules: seq<Rule>, d: Record, first: nat)
    requires ValidRecord(d) && ValidRules(rules) && first <= |rules|
    requires forall j :: 0 <= j < first ==> !Applies(rules[j], d)
    requires first < |rules| ==> Applies(rules[first], d)
    ensures Verdict(rules, d) ==
      if d.arch != 0xc000003e || first == |rules| then Returned(0)
      else Returned(if rules[first].errno == 0 then 0x7fff0000 else 0x00050000 + rules[first].errno)
  {
    var prog := Compile(rules);
    assert prog[0] == HEADER[0] && prog[1] == HEADER[1] && prog[2] == HEADER[2] && prog[3] == HEADER[3];
    RunStep(prog, d, Running(0, 0), Running(1, d.arch));
    if d.arch == AUDIT_ARCH_X86_64 {
      RunStep(prog, d, Running(1, d.arch), Running(3, d.arch));
      RunStep(prog, d, Running(3, d.arch), Running(4, d.nr));
      assert rules[..0] == [] && StartOf(rules, 0) == 4;
      RulesRun(prog, rules, d, 0, first);
    } else {
      RunStep(prog, d, Running(1, d.arch), Running(2, d.arch));
      RunStep(prog, d, Running(2, d.arch), Returned(RET_KILL));
    }
  }

  /** A rejected call gets its error code if and only if that code is not 0; with 0, which the table
      accepts, the call is let through. */
  lemma RejectExact(rules: seq<Rule>, nr: word, errno: word, d: Record)
    requires ValidRecord(d) && ValidRules(rules) && d.nr == nr && d.arch == AUDIT_ARCH_X86_64 && errno <= 255
    requires forall j :: 0 <= j < |rules| ==> !Applies(rules[j], d)
    ensures ValidRules(rules + [Rule(nr, [], errno)])
    ensures Verdict(rules + [Rule(nr, [], errno)], d) == Returned(RET_ERRNO + errno) <==> errno != 0
    ensures errno == 0 ==> Verdict(rules + [Rule(nr, [], errno)], d) == Returned(RET_ALLOW)
  {
    FilterCorrect(rules + [Rule(nr, [], errno)], d, |rules|);
  }

  // ---------------------------------------------------------------------------
  // Every state of every run

  function After(prog: seq<Instr>, d: Record, n: nat): State
    requires ValidRecord(d)
  {
    if n == 0 then Running(0, 0) else Step(prog, d, After(prog, d, n - 1))
  }

  /** Jumps stay within the rule or go to the instruction after it, and fit in a byte. */
  lemma JumpTargets(r: Rule, k: nat)
    requires ValidRule(r) && k <= BlockSize(r)
    ensures match RuleCode(r)[k]
      case Jeq(_, jt, jf) => k + 1 + jt <= 1 + BlockSize(r) && k + 1 + jf <= 1 + BlockSize(r) && jt < 256 && jf < 256
      case Jset(_, jt, jf) => k + 1 + jt <= 1 + BlockSize(r) && k + 1 + jf <= 1 + BlockSize(r) && jt < 256 && jf < 256
      case Ld(off) => off % 4 == 0 && off < 64
      case Ret(_) => true
  {
    RuleCodeEnds(r);
    if 1 <= k <= 2 * |r.checks| {
      RuleCodeChecks(r, (k - 1) / 2);
    }
  }

  /** From inside a rule, a step returns, stays inside further on, or reaches the next rule with the
      system call number in the accumulator. */
  lemma RuleStep(prog: seq<Instr>, d: Record, s: nat, r: Rule, k: nat, acc: word)
    requires ValidRecord(d) && ValidRule(r) && Placed(prog, s, r)
    requires k <= BlockSize(r) && (k == 0 ==> acc == d.nr)
    ensures var t := Step(prog, d, Running(s + k, acc));
      t.Returned? || (t.Running? && s < t.pc <= s + BlockSize(r)) || t == Running(s + 1 + BlockSize(r), d.nr)
  {
    var n := |r.checks|;
    assert prog[s + k] == RuleCode(r)[k];
    RuleCodeEnds(r);
    JumpTargets(r, k);
    if 1 <= k <= 2 * n {
      RuleCodeChecks(r, (k - 1) / 2);
    }
  }

  /** `pc` is place `k` of rule `i`, or the final return. */
  predicate InRule(rules: seq<Rule>, pc: nat, i: nat, k: nat)
    requires ValidRules(rules)
  {
    i <= |rules| && pc == StartOf(rules, i) + k && k <= if i < |rules| then BlockSize(rules[i]) else 0
  }

  /** Returned, in the header, or in a rule, and then at its start only with the number loaded. */
  ghost predicate Located(rules: seq<Rule>, d: Record, s: State)
    requires ValidRules(rules)
  {
    match s
    case Returned(_) => true
    case Fault => false
    case Running(pc, acc) => pc < 4 || exists i: nat, k: nat :: InRule(rules, pc, i, k) && (k == 0 ==> acc == d.nr)
  }

  lemma StepLocated(rules: seq<Rule>, d: Record, s: State)
    requires ValidRecord(d) && ValidRules(rules) && Located(rules, d, s)
    ensures Located(rules, d, Step(Compile(rules), d, s))
  {
    if s.Running? {
      if s.pc < 4 {
        HeaderStep(rules, d, s);
      } else {
        var i: nat, k: nat :| InRule(rules, s.pc, i, k) && (k == 0 ==> s.acc == d.nr);
        if i == |rules| {
          StepAtEnd(rules, d, s);
        } else {
          StepInRule(rules, d, i, k, s.acc);
        }
      }
    }
  }

  lemma StepAtEnd(rules: seq<Rule>, d: Record, s: State)
    requires ValidRecord(d) && ValidRules(rules) && s.Running? && s.pc == StartOf(rules, |rules|)
    ensures Step(Compile(rules), d, s) == Returned(RET_KILL)
  {
    FinalReturn(rules);
  }

  lemma StepInRule(rules: seq<Rule>, d: Record, i: nat, k: nat, acc: word)
    requires ValidRecord(d) && ValidRules(rules) && i < |rules| && k <= BlockSize(rules[i])
    requires k == 0 ==> acc == d.nr
    ensures Located(rules, d, Step(Compile(rules), d, Running(StartOf(rules, i) + k, acc)))
  {
    var prog, s := Compile(rules), StartOf(rules, i);
    PlacedAt(rules, i);
    StartNext(rules, i);
    RuleStep(prog, d, s, rules[i], k, acc);
    LocatedNext(rules, d, i, Step(prog, d, Running(s + k, acc)));
  }

  lemma LocatedNext(rules: seq<Rule>, d: Record, i: nat, t: State)
    requires ValidRules(rules) && i < |rules|
    requires var s := StartOf(rules, i);
      || t.Returned? || t == Running(StartOf(rules, i + 1), d.nr)
      || (t.Running? && s < t.pc <= s + BlockSize(rules[i]))
    ensures Located(rules, d, t)
  {
    var s := StartOf(rules, i);
    if t == Running(StartOf(rules, i + 1), d.nr) {
      assert InRule(rules, t.pc, i + 1, 0);
    } else if t.Running? {
      assert InRule(rules, t.pc, i, t.pc - s);
    }
  }

  lemma HeaderStep(rules: seq<Rule>, d: Record, s: State)
    requires ValidRecord(d) && ValidRules(rules) && s.Running? && s.pc < 4
    ensures Located(rules, d, Step(Compile(rules), d, s))
  {
    var prog := Compile(rules);
    assert prog[s.pc] == HEADER[s.pc];
    assert rules[..0] == [] && StartOf(rules, 0) == 4;
    assert InRule(rules, 4, 0, 0);
  }

  lemma {:induction false} StartMonotone(rules: seq<Rule>, i: nat, j: nat)
    requires ValidRules(rules) && i < j <= |rules|
    ensures StartOf(rules, i) + 1 + BlockSize(rules[i]) <= StartOf(rules, j)
    decreases j
  {
    StartNext(rules, j - 1);
    if i < j - 1 {
      StartMonotone(rules, i, j - 1);
    }
  }

  /** A place is in one rule only. */
  lemma OnePlace(rules: seq<Rule>, pc: nat, i: nat, k: nat, j: nat)
    requires ValidRules(rules) && InRule(rules, pc, i, k) && j <= |rules| && pc == StartOf(rules, j)
    ensures i == j && k == 0
  {
    if i < j { StartMonotone(rules, i, j); }
    if j < i { StartMonotone(rules, j, i); }
  }

  lemma LocatedInside(rules: seq<Rule>, d: Record, s: State)
    requires ValidRules(rules) && Located(rules, d, s) && s.Running?
    ensures s.pc < |Compile(rules)|
    ensures forall j :: 0 <= j <= |rules| && s.pc == StartOf(rules, j) ==> s.acc == d.nr
  {
    FinalReturn(rules);
    if s.pc >= 4 {
      var i: nat, k: nat :| InRule(rules, s.pc, i, k) && (k == 0 ==> s.acc == d.nr);
      if i < |rules| {
        StartMonotone(rules, i, |rules|);
      }
      forall j | 0 <= j <= |rules| && s.pc == StartOf(rules, j) ensures s.acc == d.nr {
        OnePlace(rules, s.pc, i, k, j);
      }
    }
  }

  lemma {:induction false} AfterLocated(rules: seq<Rule>, d: Record, n: nat)
    requires ValidRecord(d) && ValidRules(rules)
    ensures Located(rules, d, After(Compile(rules), d, n))
  {
    if n > 0 {
      AfterLocated(rules, d, n - 1);
      StepLocated(rules, d, After(Compile(rules), d, n - 1));
    }
  }

  /** Whatever the call and however far the program has run: it has not faulted, it is inside the
      program, and at every rule start the system call number is in the accumulator. */
  lemma EveryState(rules: seq<Rule>, d: Record, n: nat)
    requires ValidRecord(d) && ValidRules(rules)
    ensures var s := After(Compile(rules), d, n);
      !s.Fault? && (s.Running? ==> s.pc < |Compile(rules)|)
    ensures var s := After(Compile(rules), d, n);
      forall j :: 0 <= j <= |rules| && s.Running? && s.pc == StartOf(rules, j) ==> s.acc == d.nr
  {
    AfterLocated(rules, d, n);
    var s := After(Compile(rules), d, n);
    if s.Running? {
      LocatedInside(rules, d, s);
    }
  }

  /** What the kernel demands of an instruction at `pc` of a program of `len`: it jumps forward inside the
      program, or loads a word of the record. */
  predicate Acceptable(ins: Instr, pc: nat, len: nat) {
    match ins
    case Jeq(_, jt, jf) => pc + 1 + jt < len && pc + 1 + jf < len && jt < 256 && jf < 256
    case Jset(_, jt, jf) => pc + 1 + jt < len && pc + 1 + jf < len && jt < 256 && jf < 256
    case Ld(off) => off % 4 == 0 && off < 64
    case Ret(_) => true
  }

  lemma AcceptsInRule(prog: seq<Instr>, s: nat, r: Rule, k: nat)
    requires ValidRule(r) && Placed(prog, s, r) && k <= BlockSize(r) && s + 1 + BlockSize(r) < |prog|
    ensures Acceptable(prog[s + k], s + k, |prog|)
  {
    JumpTargets(r, k);
    assert prog[s + k] == RuleCode(r)[k];
  }

  lemma AcceptsInRules(rules: seq<Rule>, pc: nat)
    requires ValidRules(rules) && 4 <= pc < StartOf(rules, |rules|)
    ensures pc < |Compile(rules)| && Acceptable(Compile(rules)[pc], pc, |Compile(rules)|)
  {
    var i, k := FindRule(rules, pc, |rules|);
    PlacedAt(rules, i);
    StartNext(rules, i);
    AcceptsInRule(Compile(rules), StartOf(rules, i), rules[i], k);
  }

  /** Every instruction, reached or not, is acceptable, and the last one returns. */
  lemma KernelAccepts(rules: seq<Rule>, pc: nat)
    requires ValidRules(rules) && pc < |Compile(rules)|
    ensures Acceptable(Compile(rules)[pc], pc, |Compile(rules)|)
    ensures Compile(rules)[|Compile(rules)| - 1].Ret?
  {
    FinalReturn(rules);
    if pc < 4 {
      assert Compile(rules)[pc] == HEADER[pc];
    } else if pc < StartOf(rules, |rules|) {
      AcceptsInRules(rules, pc);
    }
  }

  lemma {:induction false} FindRule(rules: seq<Rule>, pc: nat, n: nat) returns (i: nat, k: nat)
    requires ValidRules(rules) && n <= |rules| && 4 <= pc < StartOf(rules, n)
    ensures i < |rules| && pc == StartOf(rules, i) + k && k <= BlockSize(rules[i])
  {
    assert rules[..0] == [];
    StartNext(rules, n - 1);
    if pc < StartOf(rules, n - 1) {
      i, k := FindRule(rules, pc, n - 1);
    } else {
      i, k := n - 1, pc - StartOf(rules, n - 1);
    }
  }

  // ---------------------------------------------------------------------------
  // The rule table and the generator

  /** The static arrays of the source. An `args1` entry above 100 marks a mask test. */
  datatype Columns = Columns(
    syscalls: seq<word>, errnos: seq<word>,
    args1: seq<nat>, vals1: seq<word>,
    args2: seq<nat>, vals2: seq<word>,
    args3: seq<nat>, vals3: seq<word>)

  predicate Sized(t: Columns) {
    && |t.syscalls| == |t.errnos| == |t.args1| == |t.vals1| == MAX_SYSCALLS
    && |t.args2| == |t.vals2| == |t.args3| == |t.vals3| == MAX_SYSCALLS
  }

  /** Row `i` asks for no argument test. */
  predicate Blank(t: Columns, i: nat)
    requires Sized(t) && i < MAX_SYSCALLS
  {
    t.args1[i] == 0 && t.args2[i] == 0 && t.args3[i] == 0
  }

  /** Row `i` of the arrays holds `r`. */
  predicate RowIs(t: Columns, i: nat, r: Rule)
    requires Sized(t) && i < MAX_SYSCALLS
  {
    var n := |r.checks|;
    && t.syscalls[i] == r.nr && t.errnos[i] == r.errno
    && (if n >= 1 then t.args1[i] == Marked(r.checks[0]) && t.vals1[i] == r.checks[0].val else t.args1[i] == 0)
    && (if n >= 2 then t.args2[i] == r.checks[1].arg && t.vals2[i] == r.checks[1].val else t.args2[i] == 0)
    && (if n >= 3 then t.args3[i] == r.checks[2].arg && t.vals3[i] == r.checks[2].val else t.args3[i] == 0)
  }

  /** How the first test's argument number is stored. */
  function Marked(c: Check): nat {
    if c.Equal? then c.arg else 100 + c.arg
  }

  /** Only the arrays a rule needs are written; the others keep their zero. */
  function WriteRow(t: Columns, i: nat, r: Rule): (t': Columns)
    requires Sized(t) && i < MAX_SYSCALLS && Blank(t, i)
    ensures Sized(t') && (ValidRule(r) ==> RowIs(t', i, r))
    ensures forall j :: 0 <= j < MAX_SYSCALLS && j != i ==> SameRow(t, t', j)
  {
    var n := |r.checks|;
    var t1 := if n < 1 then t
      else t.(args1 := t.args1[i := Marked(r.checks[0])], vals1 := t.vals1[i := r.checks[0].val]);
    var t2 := if n < 2 then t1
      else t1.(args2 := t.args2[i := r.checks[1].arg], vals2 := t.vals2[i := r.checks[1].val]);
    var t3 := if n < 3 then t2
      else t2.(args3 := t.args3[i := r.checks[2].arg], vals3 := t.vals3[i := r.checks[2].val]);
    t3.(errnos := t.errnos[i := r.errno], syscalls := t.syscalls[i := r.nr])
  }

  predicate SameRow(t: Columns, t': Columns, i: nat)
    requires Sized(t) && Sized(t') && i < MAX_SYSCALLS
  {
    && t.syscalls[i] == t'.syscalls[i] && t.errnos[i] == t'.errnos[i]
    && t.args1[i] == t'.args1[i] && t.vals1[i] == t'.vals1[i]
    && t.args2[i] == t'.args2[i] && t.vals2[i] == t'.vals2[i]
    && t.args3[i] == t'.args3[i] && t.vals3[i] == t'.vals3[i]
  }

  predicate Negative(w: word) {
    w >= 0x80000000
  }

  lemma LengthStep(rules: seq<Rule>, r: Rule)
    requires ValidRules(rules) && ValidRule(r)
    ensures ValidRules(rules + [r]) && |RulesCode(rules + [r])| == |RulesCode(rules)| + 1 + BlockSize(r)
  {
    assert (rules + [r])[..|rules|] == rules;
  }

  /** A new row leaves the others as they are. */
  lemma RowsKept(t: Columns, index: nat, rules: seq<Rule>, r: Rule)
    requires Sized(t) && index == |rules| < MAX_SYSCALLS && ValidRule(r)
    requires forall i :: 0 <= i < index ==> RowIs(t, i, rules[i])
    requires forall i :: index <= i < MAX_SYSCALLS ==> Blank(t, i)
    ensures forall i :: 0 <= i <= index ==> RowIs(WriteRow(t, index, r), i, (rules + [r])[i])
    ensures forall i :: index < i < MAX_SYSCALLS ==> Blank(WriteRow(t, index, r), i)
  {
    var t' := WriteRow(t, index, r);
    forall i | 0 <= i <= index ensures RowIs(t', i, (rules + [r])[i]) {
      if i < index {
        assert RowIs(t, i, rules[i]) && SameRow(t, t', i);
      }
    }
    forall i | index < i < MAX_SYSCALLS ensures Blank(t', i) {
      assert Blank(t, i) && SameRow(t, t', i);
    }
  }

  /** The rule table, filled by the allow and reject functions and compiled by `Lockdown`. */
  class RuleTable {
    var index: nat
    var validations1: nat
    var validations2: nat
    var validations3: nat
    var t: Columns
    ghost var rules: seq<Rule>

    ghost predicate Valid()
      reads this
    {
      && index <= MAX_SYSCALLS && |rules| == index && ValidRules(rules) && Sized(t)
      && (forall i :: 0 <= i < index ==> RowIs(t, i, rules[i]))
      && (forall i :: index <= i < MAX_SYSCALLS ==> Blank(t, i))
      && |RulesCode(rules)| == 2 * index + 3 * validations1 + 5 * validations2 + 7 * validations3
    }

    constructor ()
      ensures Valid() && rules == []
    {
      index, validations1, validations2, validations3 := 0, 0, 0, 0;
      var zero: seq<word> := seq(MAX_SYSCALLS, _ => 0);
      var none: seq<nat> := seq(MAX_SYSCALLS, _ => 0);
      t := Columns(zero, zero, none, zero, none, zero, none, zero);
      rules := [];
    }

    /** What all the allow and reject functions do once their arguments have passed. */
    method Append(r: Rule)
      requires Valid() && index < MAX_SYSCALLS && ValidRule(r)
      modifies this
      ensures Valid() && rules == old(rules) + [r]
    {
      LengthStep(rules, r);
      RowsKept(t, index, rules, r);
      t := WriteRow(t, index, r);
      index := index + 1;
      rules := rules + [r];
      validations1 := validations1 + if |r.checks| == 1 then 1 else 0;
      validations2 := validations2 + if |r.checks| == 2 then 1 else 0;
      validations3 := validations3 + if |r.checks| == 3 then 1 else 0;
    }

    /** `allow_nr`, and `reject_nr` with its error code. */
    method AddPlain(nr: word, errno: word) returns (ok: bool)
      requires Valid()
      modifies this
      ensures Valid()
      ensures ok <==> |old(rules)| < 100 && nr < 0x8000_0000 && errno <= 255
      ensures rules == old(rules) + if ok then [Rule(nr, [], errno)] else []
    {
      ok := index < MAX_SYSCALLS && !Negative(nr) && errno <= 255;
      if ok {
        Append(Rule(nr, [], errno));
      }
    }

    /** `allow_nr_1_arg_match` and `allow_nr_1_arg_mask`. */
    method Allow1(nr: word, c: Check) returns (ok: bool)
      requires Valid()
      modifies this
      ensures Valid()
      ensures ok <==> |old(rules)| < 100 && nr < 0x8000_0000 && ValidCheck(c)
      ensures rules == old(rules) + if ok then [Rule(nr, [c], 0)] else []
    {
      ok := index < MAX_SYSCALLS && !Negative(nr) && 1 <= c.arg <= 6;
      if ok {
        Append(Rule(nr, [c], 0));
      }
    }

    /** `allow_nr_2_arg_match` and `allow_nr_2_arg_mask_match`. */
    method Allow2(nr: word, c1: Check, arg2: nat, val2: word) returns (ok: bool)
      requires Valid()
      modifies this
      ensures Valid()
      ensures ok <==> |old(rules)| < 100 && nr < 0x8000_0000 && ValidCheck(c1) && 1 <= arg2 <= 6
      ensures rules == old(rules) + if ok then [Rule(nr, [c1, Equal(arg2, val2)], 0)] else []
    {
      ok := index < MAX_SYSCALLS && !Negative(nr) && 1 <= c1.arg <= 6 && 1 <= arg2 <= 6;
      if ok {
        Append(Rule(nr, [c1, Equal(arg2, val2)], 0));
      }
    }

    /** `allow_nr_3_arg_match`. */
    method Allow3(nr: word, arg1: nat, val1: word, arg2: nat, val2: word, arg3: nat, val3: word) returns (ok: bool)
      requires Valid()
      modifies this
      ensures Valid()
      ensures ok <==> |old(rules)| < 100 && nr < 0x8000_0000 && 1 <= arg1 <= 6 && 1 <= arg2 <= 6 && 1 <= arg3 <= 6
      ensures rules == old(rules) +
        if ok then [Rule(nr, [Equal(arg1, val1), Equal(arg2, val2), Equal(arg3, val3)], 0)] else []
    {
      ok := index < MAX_SYSCALLS && !Negative(nr) && 1 <= arg1 <= 6 && 1 <= arg2 <= 6 && 1 <= arg3 <= 6;
      if ok {
        Append(Rule(nr, [Equal(arg1, val1), Equal(arg2, val2), Equal(arg3, val3)], 0));
      }
    }

    /** `seccomp_sandbox_lockdown`: the buffer of the precomputed length is filled exactly. */
    method Lockdown() returns (filters: array<Instr>)
      requires Valid()
      ensures fresh(filters) && filters[..] == Compile(rules)
    {
      var len := 2 * index + 3 * validations1 + 5 * validations2 + 7 * validations3 + 5;
      filters := new Instr[len](_ => Ret(RET_KILL));
      var p := EmitHeader(filters);
      p := EmitRows(filters, p, t, index, rules);
      p := Emit(filters, p, Ret(RET_KILL));
      assert filters[..p] == filters[..];
    }
  }

  /** The code of one more row. */
  lemma RowAdded(before: seq<Instr>, rules: seq<Rule>, i: nat)
    requires i < |rules| && ValidRules(rules)
    ensures before + RulesCode(rules[..i]) + RuleCode(rules[i]) == before + RulesCode(rules[..i + 1])
    ensures StartOf(rules, i + 1) == StartOf(rules, i) + 1 + BlockSize(rules[i]) <= 4 + |RulesCode(rules)|
  {
    StartNext(rules, i);
    var tail := RulesCodePrefix(rules, i + 1);
    Assoc(before, RulesCode(rules[..i]), RuleCode(rules[i]));
  }

  /** The loop over the table. */
  method EmitRows(filters: array<Instr>, p0: nat, t: Columns, index: nat, ghost rules: seq<Rule>) returns (p: nat)
    requires ValidRules(rules) && |rules| == index <= MAX_SYSCALLS && Sized(t)
    requires forall i :: 0 <= i < index ==> RowIs(t, i, rules[i])
    requires p0 == 4 && 4 + |RulesCode(rules)| <= filters.Length
    modifies filters
    ensures p == 4 + |RulesCode(rules)|
    ensures filters[..p] == old(filters[..p0]) + RulesCode(rules)
  {
    ghost var before := filters[..p0];
    assert rules[..0] == [] && before + [] == before;
    p := p0;
    var i := 0;
    while i < index
      invariant 0 <= i <= index && p == StartOf(rules, i) <= filters.Length
      invariant filters[..p] == before + RulesCode(rules[..i])
    {
      RowAdded(before, rules, i);
      p := EmitRow(filters, p, t, i, rules[i]);
      i := i + 1;
    }
    assert rules[..index] == rules;
  }

  /** Check the architecture, then load the system call number. */
  method EmitHeader(filters: array<Instr>) returns (p: nat)
    requires 4 <= filters.Length
    modifies filters
    ensures p == 4 && filters[..p] == HEADER
  {
    p := Emit(filters, 0, Ld(4));
    p := Emit(filters, p, Jeq(AUDIT_ARCH_X86_64, 1, 0));
    p := Emit(filters, p, Ret(RET_KILL));
    p := Emit(filters, p, Ld(0));
  }

  lemma Assoc(a: seq<Instr>, b: seq<Instr>, c: seq<Instr>)
    ensures a + (b + c) == (a + b) + c
  {
  }

  /** Write one instruction through the advancing pointer. */
  method Emit(filters: array<Instr>, p: nat, ins: Instr) returns (p': nat)
    requires p < filters.Length
    modifies filters
    ensures p' == p + 1 && filters[..p'] == old(filters[..p]) + [ins]
  {
    filters[p] := ins;
    p' := p + 1;
  }

  /** The load and the test of one argument, as the code works them out from a table entry. */
  method EmitCheck(filters: array<Instr>, p: nat, arg0: nat, val: word, jump: nat, ghost c: Check) returns (p': nat)
    requires p + 2 <= filters.Length && ValidCheck(c) && arg0 == Marked(c) && val == c.val
    modifies filters
    ensures p' == p + 2 && filters[..p'] == old(filters[..p]) + CheckCode(c, jump)
  {
    var arg, test := arg0, Jeq(val, 0, jump);
    if arg0 > 100 {
      arg, test := arg0 - 100, Jset(Complement(val), jump, 0);
    }
    p' := Emit(filters, p, Ld(16 + (arg - 1) * 8));
    p' := Emit(filters, p', test);
  }

  /** The code of one row, in the order of the source: number, third, second and first argument,
      return, reload. */
  method EmitRow(filters: array<Instr>, p: nat, t: Columns, i: nat, ghost r: Rule) returns (p': nat)
    requires Sized(t) && i < MAX_SYSCALLS && ValidRule(r) && RowIs(t, i, r)
    requires p + 1 + BlockSize(r) <= filters.Length
    modifies filters
    ensures p' == p + 1 + BlockSize(r)
    ensures filters[..p'] == old(filters[..p]) + RuleCode(r)
    ensures filters[p' - (if r.checks == [] then 1 else 2)] ==
      Ret(if r.errno == 0 then 0x7fff0000 else 0x00050000 + r.errno)
  {
    ghost var before := filters[..p];
    var blockSize := BlockOf(t, i, r);
    p' := Emit(filters, p, Jeq(t.syscalls[i], 0, blockSize));
    p' := EmitChecks(filters, p', t, i, r);
    p' := EmitEnd(filters, p', if t.errnos[i] == 0 then RET_ALLOW else RET_ERRNO + t.errnos[i], t.args1[i] != 0);
    RuleCodeParts(before, r);
  }

  /** The return of one row, and the reload when there were tests. */
  method EmitEnd(filters: array<Instr>, p: nat, ret: word, reload: bool) returns (p': nat)
    requires p + 2 <= filters.Length || (p + 1 <= filters.Length && !reload)
    modifies filters
    ensures p' == p + (if reload then 2 else 1)
    ensures filters[..p'] == old(filters[..p]) + if reload then [Ret(ret), Ld(0)] else [Ret(ret)]
  {
    Pair(filters[..p], Ret(ret), Ld(0));
    p' := Emit(filters, p, Ret(ret));
    if reload {
      p' := Emit(filters, p', Ld(0));
    }
  }

  function RuleEndCode(r: Rule): seq<Instr>
    requires ValidRule(r)
  {
    if r.checks == [] then [Ret(Action(r))] else [Ret(Action(r)), Ld(0)]
  }

  lemma Pair(x: seq<Instr>, a: Instr, b: Instr)
    ensures x + [a] + [b] == x + [a, b]
  {
  }

  /** How far the number test has to jump. */
  method BlockOf(t: Columns, i: nat, ghost r: Rule) returns (blockSize: nat)
    requires Sized(t) && i < MAX_SYSCALLS && ValidRule(r) && RowIs(t, i, r)
    ensures blockSize == BlockSize(r)
  {
    blockSize := 1;
    if t.args3[i] != 0 {
      blockSize := 8;
    } else if t.args2[i] != 0 {
      blockSize := 6;
    } else if t.args1[i] != 0 {
      blockSize := 4;
    }
  }

  lemma RuleCodeParts(x: seq<Instr>, r: Rule)
    requires ValidRule(r)
    ensures x + RuleCode(r) == x + [Jeq(r.nr, 0, BlockSize(r))] + ChecksCode(r.checks, |r.checks|) + RuleEndCode(r)
  {
    var a, b, c := [Jeq(r.nr, 0, BlockSize(r))], ChecksCode(r.checks, |r.checks|), RuleEndCode(r);
    assert RuleCode(r) == a + b + c;
    Assoc(x, a, b);
    Assoc(x, a + b, c);
  }

  /** The argument tests of one row. */
  method EmitChecks(filters: array<Instr>, p: nat, t: Columns, i: nat, ghost r: Rule) returns (p': nat)
    requires Sized(t) && i < MAX_SYSCALLS && ValidRule(r) && RowIs(t, i, r)
    requires p + 2 * |r.checks| <= filters.Length
    modifies filters
    ensures p' == p + 2 * |r.checks|
    ensures filters[..p'] == old(filters[..p]) + ChecksCode(r.checks, |r.checks|)
  {
    ghost var cs, before := r.checks, filters[..p];
    ghost var c3 := if |cs| >= 3 then CheckCode(cs[2], 5) else [];
    ghost var c2 := if |cs| >= 2 then CheckCode(cs[1], 3) else [];
    ghost var c1 := if |cs| >= 1 then CheckCode(cs[0], 1) else [];
    p' := p;
    if t.args3[i] != 0 {
      p' := EmitCheck(filters, p', t.args3[i], t.vals3[i], 5, cs[2]);
    }
    assert filters[..p'] == before + c3;
    if t.args2[i] != 0 {
      p' := EmitCheck(filters, p', t.args2[i], t.vals2[i], 3, cs[1]);
    }
    assert filters[..p'] == before + c3 + c2;
    if t.args1[i] != 0 {
      p' := EmitCheck(filters, p', t.args1[i], t.vals1[i], 1, cs[0]);
    }
    assert filters[..p'] == before + c3 + c2 + c1;
    ChecksCodeUnrolled(cs);
    Assoc(before, c3, c2);
    Assoc(before, c3 + c2, c1);
  }

  lemma ChecksCodeUnrolled(cs: seq<Check>)
    requires |cs| <= 3 && forall i :: 0 <= i < |cs| ==> ValidCheck(cs[i])
    ensures ChecksCode(cs, |cs|) ==
      (if |cs| >= 3 then CheckCode(cs[2], 5) else []) + (if |cs| >= 2 then CheckCode(cs[1], 3) else [])
      + (if |cs| >= 1 then CheckCode(cs[0], 1) else [])
  {
    if |cs| >= 1 {
      assert ChecksCode(cs, 1) == CheckCode(cs[0], 1);
    }
    if |cs| >= 2 {
      assert ChecksCode(cs, 2) == CheckCode(cs[1], 3) + CheckCode(cs[0], 1);
    }
    if |cs| == 3 {
      Assoc(CheckCode(cs[2], 5), CheckCode(cs[1], 3), CheckCode(cs[0], 1));
    }
  }
}
