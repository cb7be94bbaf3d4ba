/** Connection accounting of standalone.c: a child counter, a table of connections per address and a
    table from child pid to address, kept in step across accept, fork, fork failure and reaping. */
module Listener {
  import opened Base
  import opened HashTable

  /** A raw address. */
  type Ip = seq<byte>
  type Pid = p: int | 0 < p witness 1

  const BUCKETS: nat := 256

  // ---------------------------------------------------------------------------
  // The hash functions

  /** The bits of one address byte, moved to where `hash_ip` puts them. */
  function Shifted(b: byte, i: nat): bv32 {
    (b as bv32) << (24 - 8 * (i % 4))
  }

  function XorBytes(ip: Ip, n: nat): bv32
    requires n <= |ip|
  {
    if n == 0 then 0 else XorBytes(ip, n - 1) ^ Shifted(ip[n - 1], n - 1)
  }

  function HashIp(ip: Ip): (r: nat)
    ensures r < BUCKETS
  {
    (XorBytes(ip, |ip|) as int) % BUCKETS
  }

  function HashPid(pid: Pid): (r: nat)
    ensures r < BUCKETS
  {
    pid % BUCKETS
  }

  // ---------------------------------------------------------------------------
  // Accounts as values

  datatype Accounts = Accounts(children: int, ipCount: map<Ip, nat>, pidIp: map<Pid, Ip>)

  /** What can happen at the accept point: the accept fails, a child is forked, the fork fails, or
      a dead child is reaped. */
  datatype Event = AcceptFailed | Accepted(ip: Ip, pid: Pid) | ForkFailed(ip: Ip) | Reaped(pid: Pid)

  /** The children of one address. */
  ghost function Of(m: map<Pid, Ip>, ip: Ip): set<Pid> {
    set p | p in m && m[p] == ip
  }

  /** The three accounts agree. */
  ghost predicate Balanced(a: Accounts) {
    && a.children == |a.pidIp|
    && (forall ip :: ip in a.ipCount <==> Of(a.pidIp, ip) != {})
    && (forall ip :: ip in a.ipCount ==> a.ipCount[ip] == |Of(a.pidIp, ip)|)
  }

  datatype Outcome = Ok(accounts: Accounts) | Trap

  /** `handle_ip_count`. */
  function Bump(c: map<Ip, nat>, ip: Ip): map<Ip, nat> {
    c[ip := if ip in c then c[ip] + 1 else 1]
  }

  /** `drop_ip_count`: traps on a missing address and on a zero count. */
  function Dropped(c: map<Ip, nat>, ip: Ip): Option<map<Ip, nat>> {
    if ip !in c || c[ip] == 0 then None
    else if c[ip] == 1 then Some(c - {ip})
    else Some(c[ip := c[ip] - 1])
  }

  function Drop(a: Accounts, ip: Ip): Outcome {
    match Dropped(a.ipCount, ip)
    case None => Trap
    case Some(c) => Ok(a.(ipCount := c))
  }

  /** The effect of one event on the accounts, traps included. */
  function Apply(a: Accounts, e: Event): Outcome {
    match e
    case AcceptFailed => Ok(a)
    case Accepted(ip, pid) =>
      if pid in a.pidIp then Trap
      else Ok(Accounts(a.children + 1, Bump(a.ipCount, ip), a.pidIp[pid := ip]))
    case ForkFailed(ip) =>
      Drop(a.(ipCount := Bump(a.ipCount, ip)), ip)
    case Reaped(pid) =>
      if pid !in a.pidIp then Trap
      else match Drop(a.(children := a.children - 1), a.pidIp[pid])
        case Trap => Trap
        case Ok(b) => Ok(b.(pidIp := b.pidIp - {pid}))
  }

  // ---------------------------------------------------------------------------
  // Every run

  /** The kernel's side: the children not yet reaped. */
  function LiveAfter(live: set<Pid>, e: Event): set<Pid> {
    match e
    case Accepted(_, pid) => live + {pid}
    case Reaped(pid) => live - {pid}
    case _ => live
  }

  /** A new child gets a pid that no unreaped child has; only an unreaped child is reaped. */
  predicate Possible(live: set<Pid>, e: Event) {
    match e
    case Accepted(_, pid) => pid !in live
    case Reaped(pid) => pid in live
    case _ => true
  }

  ghost predicate PossibleRun(live: set<Pid>, es: seq<Event>)
    decreases |es|
  {
    es != [] ==> Possible(live, es[0]) && PossibleRun(LiveAfter(live, es[0]), es[1..])
  }

  function Run(a: Accounts, es: seq<Event>): Outcome
    decreases |es|
  {
    if es == [] then Ok(a)
    else match Apply(a, es[0])
      case Trap => Trap
      case Ok(b) => Run(b, es[1..])
  }

  function LiveRun(live: set<Pid>, es: seq<Event>): set<Pid>
    decreases |es|
  {
    if es == [] then live else LiveRun(LiveAfter(live, es[0]), es[1..])
  }

  lemma OfAdded(m: map<Pid, Ip>, pid: Pid, ip: Ip)
    requires pid !in m
    ensures Of(m[pid := ip], ip) == Of(m, ip) + {pid} && pid !in Of(m, ip)
    ensures |m[pid := ip]| == |m| + 1
  {
    assert m[pid := ip].Keys == m.Keys + {pid};
  }

  lemma OfOthers(m: map<Pid, Ip>, pid: Pid, ip: Ip, i: Ip)
    requires pid !in m && i != ip
    ensures Of(m[pid := ip], i) == Of(m, i)
  {
  }

  lemma OfRemoved(m: map<Pid, Ip>, pid: Pid)
    requires pid in m
    ensures Of(m - {pid}, m[pid]) == Of(m, m[pid]) - {pid} && pid in Of(m, m[pid])
    ensures forall i :: i != m[pid] ==> Of(m - {pid}, i) == Of(m, i)
    ensures |m - {pid}| == |m| - 1
  {
    assert (m - {pid}).Keys == m.Keys - {pid};
  }

  /** Taking back a bump is no change at all. */
  lemma DropUndoesBump(a: Accounts, ip: Ip)
    requires ip in a.ipCount ==> a.ipCount[ip] > 0
    ensures Drop(a.(ipCount := Bump(a.ipCount, ip)), ip) == Ok(a)
  {
    var c := Bump(a.ipCount, ip);
    if ip in a.ipCount {
      assert c[ip := c[ip] - 1] == a.ipCount;
    } else {
      assert c - {ip} == a.ipCount;
    }
  }

  lemma AcceptedBalanced(a: Accounts, ip: Ip, pid: Pid)
    requires Balanced(a) && pid !in a.pidIp
    ensures Balanced(Apply(a, Accepted(ip, pid)).accounts)
  {
    OfAdded(a.pidIp, pid, ip);
    var b := Apply(a, Accepted(ip, pid)).accounts;
    forall i
      ensures i in b.ipCount <==> Of(b.pidIp, i) != {}
      ensures i in b.ipCount ==> b.ipCount[i] == |Of(b.pidIp, i)|
    {
      if i == ip {
        OneMore(a, ip, pid);
      } else {
        OfOthers(a.pidIp, pid, ip, i);
      }
    }
  }

  /** The count of the address itself. */
  lemma OneMore(a: Accounts, ip: Ip, pid: Pid)
    requires Balanced(a) && pid !in a.pidIp
    ensures Of(a.pidIp[pid := ip], ip) != {} && Bump(a.ipCount, ip)[ip] == |Of(a.pidIp[pid := ip], ip)|
  {
    OfAdded(a.pidIp, pid, ip);
    assert ip !in a.ipCount ==> Of(a.pidIp, ip) == {};
  }

  lemma ReapedBalanced(a: Accounts, pid: Pid)
    requires Balanced(a) && pid in a.pidIp
    ensures Apply(a, Reaped(pid)).Ok? && Balanced(Apply(a, Reaped(pid)).accounts)
    ensures Apply(a, Reaped(pid)).accounts.pidIp == a.pidIp - {pid}
  {
    OfRemoved(a.pidIp, pid);
    var ip := a.pidIp[pid];
    var s := Of(a.pidIp, ip);
    assert |s - {pid}| == |s| - 1;
    var b := Apply(a, Reaped(pid)).accounts;
    forall i ensures i in b.ipCount <==> Of(b.pidIp, i) != {} {
      assert i == ip ==> Of(b.pidIp, i) == s - {pid};
    }
  }

  /** One possible event from balanced accounts: no trap, and balanced again. */
  lemma ApplyBalanced(a: Accounts, e: Event)
    requires Balanced(a) && Possible(a.pidIp.Keys, e)
    ensures Apply(a, e).Ok? && Balanced(Apply(a, e).accounts)
    ensures Apply(a, e).accounts.pidIp.Keys == LiveAfter(a.pidIp.Keys, e)
  {
    match e
    case AcceptFailed =>
    case Accepted(ip, pid) =>
      AcceptedBalanced(a, ip, pid);
      assert a.pidIp[pid := ip].Keys == a.pidIp.Keys + {pid};
    case ForkFailed(ip) =>
      assert ip in a.ipCount ==> Of(a.pidIp, ip) != {};
      DropUndoesBump(a, ip);
    case Reaped(pid) =>
      ReapedBalanced(a, pid);
      assert (a.pidIp - {pid}).Keys == a.pidIp.Keys - {pid};
  }

  /** Safety of every run from the start: no trap is reached, the child counter is the number of
      unreaped children, an address is counted exactly when it has one, and its count is their
      number. */
  lemma {:induction false} RunBalanced(a: Accounts, es: seq<Event>)
    requires Balanced(a) && PossibleRun(a.pidIp.Keys, es)
    ensures Run(a, es).Ok? && Balanced(Run(a, es).accounts)
    ensures Run(a, es).accounts.pidIp.Keys == LiveRun(a.pidIp.Keys, es)
    decreases |es|
  {
    if es != [] {
      ApplyBalanced(a, es[0]);
      RunBalanced(Apply(a, es[0]).accounts, es[1..]);
    }
  }

  const START := Accounts(0, map[], map[])

  lemma EveryRunFromStart(es: seq<Event>)
    requires PossibleRun({}, es)
    ensures Run(START, es).Ok? && Balanced(Run(START, es).accounts)
    ensures Run(START, es).accounts.children == |LiveRun({}, es)|
    ensures Run(START, es).accounts.pidIp.Keys == LiveRun({}, es)
  {
    assert START.pidIp.Keys == {};
    assert Balanced(START) by {
      assert forall ip :: Of(map[], ip) == {};
    }
    RunBalanced(START, es);
    var m := Run(START, es).accounts.pidIp;
    assert |m| == |m.Keys|;
  }

  // ---------------------------------------------------------------------------
  // The code

  /** `handle_ip_count`: the duplicate-key trap of the table is not reached. */
  method HandleIpCount(t: Table<Ip, nat>, ip: Ip) returns (count: nat)
    requires t.Valid()
    modifies t.Repr
    ensures t.Valid() && fresh(t.Repr - old(t.Repr))
    ensures t.model == Bump(old(t.model), ip) && count == t.model[ip]
  {
    var n := t.Lookup(ip);
    if n == null {
      count := 1;
      FirstCount(t, ip, count);
    } else {
      count := CountUp(t, n);
    }
  }

  /** An address that has no count yet. */
  method FirstCount(t: Table<Ip, nat>, ip: Ip, count: nat)
    requires t.Valid() && ip !in t.model && count == 1
    modifies t.Repr
    ensures t.Valid() && fresh(t.Repr - old(t.Repr)) && t.model == Bump(old(t.model), ip)
  {
    var ok := t.Add(ip, count);
    assert ok;
  }

  /** One more, through the pointer that a lookup returned. */
  method CountUp(t: Table<Ip, nat>, n: Node<Ip, nat>) returns (count: nat)
    requires t.Valid() && t.Points(n) && n.value == t.model[n.key]
    modifies t`model, n`value
    ensures t.Valid() && t.Repr == old(t.Repr) && t.model == Bump(old(t.model), n.key) && count == t.model[n.key]
  {
    count := n.value + 1;
    t.Store(n, count);
  }

  /** `drop_ip_count`. */
  method DropIpCount(t: Table<Ip, nat>, ip: Ip) returns (trap: bool)
    requires t.Valid()
    modifies t.Repr
    ensures t.Valid() && t.Repr == old(t.Repr)
    ensures trap <==> Dropped(old(t.model), ip).None?
    ensures !trap ==> t.model == Dropped(old(t.model), ip).value
  {
    var n := t.Lookup(ip);
    if n == null || n.value == 0 {
      return true;
    }
    TakeOne(t, n);
    trap := false;
  }

  /** One less; at zero the entry goes. */
  method TakeOne(t: Table<Ip, nat>, n: Node<Ip, nat>)
    requires t.Valid() && t.Points(n) && n in t.Repr && n.value == t.model[n.key] && n.value > 0
    modifies t.Repr
    ensures t.Valid() && t.Repr == old(t.Repr)
    ensures Dropped(old(t.model), n.key) == Some(t.model)
  {
    ghost var m := t.model;
    var count := CountDown(t, n);
    DroppedTo(m, n.key, count);
    if count == 0 {
      FreeZero(t, n.key, m);
    }
  }

  method FreeZero(t: Table<Ip, nat>, ip: Ip, ghost m: map<Ip, nat>)
    requires t.Valid() && t.model == m[ip := 0]
    modifies t.Repr
    ensures t.Valid() && t.Repr == old(t.Repr) && t.model == m - {ip}
  {
    var ok := t.Free(ip);
    StoredThenFreed(m, ip);
  }

  lemma DroppedTo(m: map<Ip, nat>, ip: Ip, count: nat)
    requires ip in m && m[ip] == count + 1
    ensures Dropped(m, ip) == Some(if count == 0 then m - {ip} else m[ip := count])
  {
  }

  /** One less. */
  method CountDown(t: Table<Ip, nat>, n: Node<Ip, nat>) returns (count: nat)
    requires t.Valid() && t.Points(n) && n.value == t.model[n.key] && n.value > 0
    modifies t`model, n`value
    ensures t.Valid() && t.Repr == old(t.Repr)
    ensures t.model == old(t.model)[n.key := count] && count == old(t.model)[n.key] - 1
  {
    count := n.value - 1;
    t.Store(n, count);
  }

  lemma StoredThenFreed(c: map<Ip, nat>, ip: Ip)
    ensures c[ip := 0] - {ip} == c - {ip}
  {
  }

  /** The address that the pid table points to. */
  method AddressOf(t: Table<Pid, Ip>, pid: Pid) returns (found: bool, ip: Ip)
    requires t.Valid()
    ensures found <==> pid in t.model
    ensures found ==> ip == t.model[pid]
  {
    var n := t.Lookup(pid);
    if n == null {
      return false, [];
    }
    return true, n.value;
  }

  /** The count of a dead child's address goes down. */
  method DropFor(ipCount: Table<Ip, nat>, pidIp: Table<Pid, Ip>, pid: Pid) returns (trap: bool)
    requires ipCount.Valid() && pidIp.Valid() && ipCount.Repr !! pidIp.Repr
    modifies ipCount.Repr
    ensures ipCount.Valid() && ipCount.Repr == old(ipCount.Repr)
    ensures pidIp.Valid() && pidIp.Repr == old(pidIp.Repr) && pidIp.model == old(pidIp.model)
    ensures trap <==> pid !in pidIp.model || Dropped(old(ipCount.model), pidIp.model[pid]).None?
    ensures !trap ==> ipCount.model == Dropped(old(ipCount.model), pidIp.model[pid]).value
  {
    var found, ip := AddressOf(pidIp, pid);
    if !found {
      return true;
    }
    trap := DropIpCount(ipCount, ip);
  }

  /** The tables when a dead child is reaped. */
  method ReapTables(ipCount: Table<Ip, nat>, pidIp: Table<Pid, Ip>, pid: Pid) returns (trap: bool)
    requires ipCount.Valid() && pidIp.Valid() && ipCount.Repr !! pidIp.Repr
    modifies ipCount.Repr, pidIp.Repr
    ensures ipCount.Valid() && pidIp.Valid() && ipCount.Repr == old(ipCount.Repr) && pidIp.Repr == old(pidIp.Repr)
    ensures trap <==> pid !in old(pidIp.model) || Dropped(old(ipCount.model), old(pidIp.model)[pid]).None?
    ensures !trap ==> ipCount.model == Dropped(old(ipCount.model), old(pidIp.model)[pid]).value
    ensures !trap ==> pidIp.model == old(pidIp.model) - {pid}
  {
    trap := DropFor(ipCount, pidIp, pid);
    if !trap {
      Forget(ipCount, pidIp, pid);
    }
  }

  /** The child's own entry goes. */
  method Forget(ghost ipCount: Table<Ip, nat>, pidIp: Table<Pid, Ip>, pid: Pid)
    requires ipCount.Valid() && pidIp.Valid() && ipCount.Repr !! pidIp.Repr && pid in pidIp.model
    modifies pidIp.Repr
    ensures pidIp.Valid() && pidIp.Repr == old(pidIp.Repr) && pidIp.model == old(pidIp.model) - {pid}
    ensures ipCount.Valid() && ipCount.Repr == old(ipCount.Repr) && ipCount.model == old(ipCount.model)
  {
    var ok := pidIp.Free(pid);
    assert ok;
  }

  /** The tables when a connection is accepted and a child forked for it. */
  method EnterChild(ipCount: Table<Ip, nat>, pidIp: Table<Pid, Ip>, ip: Ip, pid: Pid)
    returns (numThisIp: nat, trap: bool)
    requires ipCount.Valid() && pidIp.Valid() && ipCount.Repr !! pidIp.Repr
    modifies ipCount.Repr, pidIp.Repr
    ensures ipCount.Valid() && pidIp.Valid() && ipCount.Repr !! pidIp.Repr
    ensures fresh(ipCount.Repr - old(ipCount.Repr)) && fresh(pidIp.Repr - old(pidIp.Repr))
    ensures ipCount.model == Bump(old(ipCount.model), ip) && numThisIp == ipCount.model[ip]
    ensures trap <==> pid in old(pidIp.model)
    ensures !trap ==> pidIp.model == old(pidIp.model)[pid := ip]
  {
    numThisIp := HandleIpCount(ipCount, ip);
    var ok := pidIp.Add(pid, ip);
    trap := !ok;
  }

  /** The counts when the fork failed. */
  method CountAndDrop(ipCount: Table<Ip, nat>, ip: Ip) returns (numThisIp: nat, trap: bool)
    requires ipCount.Valid()
    modifies ipCount.Repr
    ensures ipCount.Valid() && fresh(ipCount.Repr - old(ipCount.Repr))
    ensures numThisIp == Bump(old(ipCount.model), ip)[ip]
    ensures trap <==> Dropped(Bump(old(ipCount.model), ip), ip).None?
    ensures !trap ==> ipCount.model == Dropped(Bump(old(ipCount.model), ip), ip).value
  {
    numThisIp := HandleIpCount(ipCount, ip);
    trap := DropIpCount(ipCount, ip);
  }

  /** What a new connection is told, when the accounts are balanced, are the numbers after it has been
      entered: all unreaped children, and those of its own address. */
  lemma Numbers(a: Accounts, ip: Ip, pid: Pid)
    requires Balanced(a) && pid !in a.pidIp
    ensures var b := Apply(a, Accepted(ip, pid)).accounts;
      a.children + 1 == |b.pidIp| && Bump(a.ipCount, ip)[ip] == |Of(b.pidIp, ip)|
  {
    OneMore(a, ip, pid);
    OfAdded(a.pidIp, pid, ip);
  }

  lemma ApplyReaped(a: Accounts, b: Accounts, pid: Pid, trap: bool)
    requires trap <==> pid !in a.pidIp || Dropped(a.ipCount, a.pidIp[pid]).None?
    requires !trap ==> b.ipCount == Dropped(a.ipCount, a.pidIp[pid]).value
    requires !trap ==> b.pidIp == a.pidIp - {pid} && b.children == a.children - 1
    ensures Apply(a, Reaped(pid)) == if trap then Trap else Ok(b)
  {
  }

  lemma ApplyForked(a: Accounts, b: Accounts, ip: Ip, pid: Pid, trap: bool)
    requires trap <==> pid in a.pidIp
    requires !trap ==> b == Accounts(a.children + 1, Bump(a.ipCount, ip), a.pidIp[pid := ip])
    ensures Apply(a, Accepted(ip, pid)) == if trap then Trap else Ok(b)
  {
  }

  lemma ApplyFailed(a: Accounts, b: Accounts, ip: Ip, trap: bool)
    requires trap <==> Dropped(Bump(a.ipCount, ip), ip).None?
    requires !trap ==> b == Accounts(a.children, Dropped(Bump(a.ipCount, ip), ip).value, a.pidIp)
    ensures Apply(a, ForkFailed(ip)) == if trap then Trap else Ok(b)
  {
  }

  class Server {
    var children: int
    const ipCount: Table<Ip, nat>
    const pidIp: Table<Pid, Ip>

    ghost predicate Valid()
      reads this, ipCount, ipCount.Repr, pidIp, pidIp.Repr
    {
      && ipCount.Valid() && pidIp.Valid()
      && ipCount.Repr !! pidIp.Repr && this !in ipCount.Repr && this !in pidIp.Repr
    }

    ghost function View(): Accounts
      reads this, ipCount, pidIp
    {
      Accounts(children, ipCount.model, pidIp.model)
    }

    /** Two empty tables of 256 buckets. */
    constructor ()
      ensures Valid() && fresh(ipCount.Repr) && fresh(pidIp.Repr) && View() == START
    {
      children := 0;
      ipCount := new Table(BUCKETS, HashIp);
      pidIp := new Table(BUCKETS, HashPid);
    }

    /** One accepted connection in the parent: `fork` is the pid of the new child, or negative when
        the fork failed. The numbers for the child count the unreaped children, itself included. */
    method Serve(ip: Ip, fork: int) returns (numChildren: int, numThisIp: nat, trap: bool)
      requires Valid() && fork != 0
      modifies this, ipCount.Repr, pidIp.Repr
      ensures Valid()
      ensures fresh(ipCount.Repr - old(ipCount.Repr)) && fresh(pidIp.Repr - old(pidIp.Repr))
      ensures Apply(old(View()), if fork > 0 then Accepted(ip, fork) else ForkFailed(ip)) ==
        if trap then Trap else Ok(View())
      ensures numChildren == old(children) + 1 && numThisIp == Bump(old(ipCount.model), ip)[ip]
    {
      ghost var before := View();
      if fork > 0 {
        numChildren, numThisIp, trap := ServeForked(ip, fork);
        ApplyForked(before, View(), ip, fork, trap);
      } else {
        numChildren, numThisIp, trap := ServeFailed(ip);
      }
    }

    method ServeForked(ip: Ip, pid: Pid) returns (numChildren: int, numThisIp: nat, trap: bool)
      requires Valid()
      modifies this, ipCount.Repr, pidIp.Repr
      ensures Valid()
      ensures fresh(ipCount.Repr - old(ipCount.Repr)) && fresh(pidIp.Repr - old(pidIp.Repr))
      ensures trap <==> pid in old(pidIp.model)
      ensures !trap ==> pidIp.model == old(pidIp.model)[pid := ip]
      ensures children == numChildren == old(children) + 1
      ensures ipCount.model == Bump(old(ipCount.model), ip) && numThisIp == ipCount.model[ip]
    {
      children := children + 1;
      numChildren := children;
      numThisIp, trap := EnterChild(ipCount, pidIp, ip, pid);
    }

    method ServeFailed(ip: Ip) returns (numChildren: int, numThisIp: nat, trap: bool)
      requires Valid()
      modifies this, ipCount.Repr
      ensures Valid() && fresh(ipCount.Repr - old(ipCount.Repr))
      ensures Apply(old(View()), ForkFailed(ip)) == if trap then Trap else Ok(View())
      ensures numChildren == old(children) + 1 && numThisIp == Bump(old(ipCount.model), ip)[ip]
    {
      ghost var before := View();
      children := children + 1;
      numChildren := children;
      numThisIp, trap := CountAndDrop(ipCount, ip);
      children := children - 1;
      ApplyFailed(before, View(), ip, trap);
    }

    /** One turn of `handle_sigchld`. */
    method ReapOne(pid: Pid) returns (trap: bool)
      requires Valid()
      modifies this, ipCount.Repr, pidIp.Repr
      ensures Valid() && ipCount.Repr == old(ipCount.Repr) && pidIp.Repr == old(pidIp.Repr)
      ensures Apply(old(View()), Reaped(pid)) == if trap then Trap else Ok(View())
    {
      ghost var before := View();
      children := children - 1;
      trap := ReapTables(ipCount, pidIp, pid);
      ApplyReaped(before, View(), pid, trap);
    }

    /** `handle_sigchld`: reap until the kernel reports no more dead children. */
    method HandleSigchld(pids: seq<Pid>) returns (trap: bool)
      requires Valid()
      modifies this, ipCount.Repr, pidIp.Repr
      ensures Valid()
      ensures Run(old(View()), Reaps(pids)) == if trap then Trap else Ok(View())
    {
      var i := 0;
      ghost var start := View();
      assert pids[0..] == pids;
      while i < |pids|
        invariant 0 <= i <= |pids|
        invariant Valid() && ipCount.Repr == old(ipCount.Repr) && pidIp.Repr == old(pidIp.Repr)
        invariant Run(start, Reaps(pids)) == Run(View(), Reaps(pids[i..]))
      {
        ReapsStep(pids, i);
        trap := ReapOne(pids[i]);
        if trap {
          return;
        }
        i := i + 1;
      }
      trap := false;
    }

    /** One event of the accept loop. */
    method Handle(e: Event) returns (trap: bool)
      requires Valid()
      modifies this, ipCount.Repr, pidIp.Repr
      ensures Valid()
      ensures fresh(ipCount.Repr - old(ipCount.Repr)) && fresh(pidIp.Repr - old(pidIp.Repr))
      ensures Apply(old(View()), e) == if trap then Trap else Ok(View())
    {
      match e {
        case AcceptFailed => trap := false;
        case Accepted(ip, pid) =>
          var c, n;
          c, n, trap := Serve(ip, pid);
        case ForkFailed(ip) =>
          var c, n;
          c, n, trap := Serve(ip, -1);
        case Reaped(pid) =>
          trap := ReapOne(pid);
      }
    }

    /** The accept loop, over whatever happens at its accept points. */
    method HandleAll(events: seq<Event>) returns (trap: bool)
      requires Valid()
      modifies this, ipCount.Repr, pidIp.Repr
      ensures Valid()
      ensures Run(old(View()), events) == if trap then Trap else Ok(View())
    {
      var i := 0;
      ghost var end := Run(View(), events);
      assert events[0..] == events;
      while i < |events|
        invariant 0 <= i <= |events| && Valid()
        invariant fresh(ipCount.Repr - old(ipCount.Repr)) && fresh(pidIp.Repr - old(pidIp.Repr))
        invariant end == Run(View(), events[i..])
      {
        RunStep(View(), events, i);
        trap := Handle(events[i]);
        if trap {
          return;
        }
        i := i + 1;
      }
      trap := false;
    }

    /** Over every possible run of the accept loop no trap is reached and the accounts stay balanced. */
    method AcceptLoop(events: seq<Event>)
      requires Valid() && View() == START && PossibleRun({}, events)
      modifies this, ipCount.Repr, pidIp.Repr
      ensures Valid() && Balanced(View())
      ensures pidIp.model.Keys == LiveRun({}, events)
    {
      EveryRunFromStart(events);
      var trap := HandleAll(events);
      assert !trap;
    }
  }

  lemma RunStep(a: Accounts, es: seq<Event>, i: nat)
    requires i < |es|
    ensures Run(a, es[i..]) ==
      match Apply(a, es[i]) case Trap => Trap case Ok(b) => Run(b, es[i + 1..])
  {
    assert es[i..][1..] == es[i + 1..];
  }

  function Reaps(pids: seq<Pid>): seq<Event> {
    if pids == [] then [] else [Reaped(pids[0])] + Reaps(pids[1..])
  }

  lemma ReapsStep(pids: seq<Pid>, i: nat)
    requires i < |pids|
    ensures Reaps(pids[i..]) != [] && Reaps(pids[i..])[0] == Reaped(pids[i])
    ensures Reaps(pids[i..])[1..] == Reaps(pids[i + 1..])
  {
    assert pids[i..][1..] == pids[i + 1..];
  }
}
