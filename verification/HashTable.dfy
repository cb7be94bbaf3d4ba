/** The chained hash table of hash.c: an array of buckets, each a doubly linked list of nodes. */
module HashTable {
  import opened Base

  class Node<K, V> {
    const key: K
    var value: V
    var prev: Node?<K, V>
    var next: Node?<K, V>

    constructor (key: K, value: V)
      ensures this.key == key && this.value == value && prev == null && next == null
    {
      this.key, this.value := key, value;
      prev, next := null, null;
    }
  }

  // ---------------------------------------------------------------------------
  // One bucket

  function First<K, V>(c: seq<Node<K, V>>): Node?<K, V> {
    if c == [] then null else c[0]
  }

  /** The nodes of a bucket, in list order, with consistent links both ways. */
  ghost predicate Linked<K, V>(c: seq<Node<K, V>>)
    reads c`prev, c`next
  {
    && (forall i {:trigger c[i].prev} :: 0 <= i < |c| ==> c[i].prev == if i == 0 then null else c[i - 1])
    && (forall i {:trigger c[i].next} :: 0 <= i < |c| ==> c[i].next == if i == |c| - 1 then null else c[i + 1])
  }

  ghost predicate DistinctKeys<K, V>(c: seq<Node<K, V>>) {
    forall i, j :: 0 <= i < j < |c| ==> c[i].key != c[j].key
  }

  /** Put a new node in front of the list. */
  method PushFront<K, V>(h: Node<K, V>, head: Node?<K, V>, ghost c: seq<Node<K, V>>)
    requires Linked(c) && DistinctKeys(c) && head == First(c) && h !in c && h.prev == null && h.next == null
    modifies h`next, c`prev
    ensures Linked([h] + c)
  {
    if head != null {
      h.next := head;
      head.prev := h;
    }
    ghost var c' := [h] + c;
    assert c'[0] == h && forall i :: 0 < i < |c'| ==> c'[i] == c[i - 1];
  }

  /** Take a node out of the middle or the end, or, when it has no predecessor, off the front. */
  method Unlink<K, V>(n: Node<K, V>, ghost c: seq<Node<K, V>>, ghost i: nat)
    requires Linked(c) && DistinctKeys(c) && i < |c| && c[i] == n
    modifies c`prev, c`next
    ensures Linked(Without(c, i))
    ensures n.prev == old(n.prev) && n.next == old(n.next)
  {
    assert n.prev == (if i == 0 then null else c[i - 1]) && n.next == if i == |c| - 1 then null else c[i + 1];
    if n.prev != null {
      n.prev.next := n.next;
    }
    if n.next != null {
      n.next.prev := n.prev;
    }
    ghost var c' := Without(c, i);
    assert forall j :: 0 <= j < |c'| ==> c'[j] == if j < i then c[j] else c[j + 1];
  }

  // ---------------------------------------------------------------------------
  // The table

  /** `K` stands for the key bytes and `V` for the value bytes of a node. */
  class Table<K(==, !new), V> {
    const hash: K -> nat
    const nodes: array<Node?<K, V>>
    ghost var chains: seq<seq<Node<K, V>>>
    /** The finite map the table stands for. */
    ghost var model: map<K, V>
    ghost var Repr: set<object>

    /** The parts of the table are its own, and every hash names a bucket. */
    ghost predicate Shape()
      reads this
    {
      && this in Repr && nodes in Repr && |chains| == nodes.Length
      && (forall k :: hash(k) < nodes.Length)
      && (forall b, i :: 0 <= b < |chains| && 0 <= i < |chains[b]| ==> chains[b][i] in Repr)
    }

    /** Every bucket is an acyclic list with consistent links both ways. */
    ghost predicate Links()
      requires Shape()
      reads this, Repr
    {
      forall b :: 0 <= b < |chains| ==> nodes[b] == First(chains[b]) && Linked(chains[b])
    }

    /** Keys are distinct and in the bucket their hash names. */
    ghost predicate KeysOk(cs: seq<seq<Node<K, V>>>) {
      && (forall b :: 0 <= b < |cs| ==> DistinctKeys(cs[b]))
      && (forall b, i :: 0 <= b < |cs| && 0 <= i < |cs[b]| ==> hash(cs[b][i].key) == b)
    }

    ghost predicate HasKey(c: seq<Node<K, V>>, key: K) {
      exists i :: 0 <= i < |c| && c[i].key == key
    }

    /** The keys of the map are those of the nodes. */
    ghost predicate Found(cs: seq<seq<Node<K, V>>>, m: map<K, V>)
      requires forall k :: hash(k) < |cs|
    {
      forall k :: k in m <==> HasKey(cs[hash(k)], k)
    }

    /** The nodes of a bucket hold the values of the map. */
    ghost predicate Holds(c: seq<Node<K, V>>, m: map<K, V>)
      reads c`value
    {
      forall i :: 0 <= i < |c| ==> c[i].key in m && c[i].value == m[c[i].key]
    }

    ghost predicate Valid()
      reads this, Repr
      ensures Valid() ==> this in Repr && nodes in Repr
    {
      && Shape() && Links() && KeysOk(chains) && Found(chains, model)
      && (forall b :: 0 <= b < |chains| ==> Holds(chains[b], model))
    }

    /** `hash_alloc`: all buckets empty. */
    constructor (buckets: nat, hash: K -> nat)
      requires forall k :: hash(k) < buckets
      ensures Valid() && fresh(Repr) && model == map[]
    {
      this.hash := hash;
      var a := new Node?<K, V>[buckets](_ => null);
      nodes := a;
      chains := seq(buckets, _ => []);
      model := map[];
      Repr := {this, a};
    }

    /** `hash_get_node_by_key`: walk the bucket of the key. */
    method GetNode(key: K) returns (n: Node?<K, V>, ghost i: nat)
      requires Valid()
      ensures n == null <==> key !in model
      ensures n != null ==> n in Repr && n.key == key && n.value == model[key]
      ensures n != null ==> i < |chains[hash(key)]| && chains[hash(key)][i] == n
    {
      var b := hash(key);
      ghost var c := chains[b];
      assert Linked(c);
      n := nodes[b];
      i := 0;
      while n != null && n.key != key
        invariant 0 <= i <= |c| && n == (if i == |c| then null else c[i])
        invariant forall j :: 0 <= j < i ==> c[j].key != key
        decreases |c| - i
      {
        n := n.next;
        i := i + 1;
      }
    }

    /** `n` is the node a lookup of its key finds. */
    ghost predicate Points(n: Node<K, V>)
      reads this
    {
      n.key in model && hash(n.key) < |chains| && n in chains[hash(n.key)]
    }

    /** `hash_lookup_entry`: the node whose value the returned pointer points to, or null. */
    method Lookup(key: K) returns (n: Node?<K, V>)
      requires Valid()
      ensures n == null <==> key !in model
      ensures n != null ==> Points(n) && n in Repr && n.key == key && n.value == model[key]
    {
      ghost var i;
      n, i := GetNode(key);
    }

    /** Write through the pointer that a lookup returned. */
    method Store(n: Node<K, V>, value: V)
      requires Valid() && Points(n)
      modifies this`model, n`value
      ensures Valid() && model == old(model)[n.key := value]
    {
      SetValue(n, value);
      HoldsStored(n, model, value);
      Remember(model[n.key := value]);
    }

    method SetValue(n: Node<K, V>, value: V)
      requires Shape() && Links()
      modifies n`value
      ensures Shape() && Links() && n.value == value
    {
      n.value := value;
      assert forall b :: 0 <= b < |chains| ==> Linked(chains[b]);
    }

    /** The nodes hold the updated map once the one of its key does. */
    lemma HoldsStored(n: Node<K, V>, m: map<K, V>, value: V)
      requires Shape() && KeysOk(chains) && Points(n) && n.value == value
      requires forall b, i :: 0 <= b < |chains| && 0 <= i < |chains[b]| && chains[b][i] != n ==>
        chains[b][i].key in m && chains[b][i].value == m[chains[b][i].key]
      ensures forall b :: 0 <= b < |chains| ==> Holds(chains[b], m[n.key := value])
    {
      forall b, i | 0 <= b < |chains| && 0 <= i < |chains[b]| && chains[b][i].key == n.key
        ensures chains[b][i] == n
      {
        SameNode(n, b, i);
      }
    }

    /** The buckets stand for the map `m`. */
    method Remember(ghost m: map<K, V>)
      requires Shape() && Links() && KeysOk(chains) && Found(chains, m)
      requires forall b :: 0 <= b < |chains| ==> Holds(chains[b], m)
      modifies this`model
      ensures Valid() && model == m
    {
      model := m;
      assert forall b :: 0 <= b < |chains| ==> Linked(chains[b]);
    }

    /** A key has only one node. */
    lemma SameNode(n: Node<K, V>, b: nat, i: nat)
      requires Shape() && KeysOk(chains) && Points(n) && b < |chains| && i < |chains[b]| && chains[b][i].key == n.key
      ensures chains[b][i] == n
    {
      var j :| 0 <= j < |chains[b]| && chains[b][j] == n;
    }

    /** The new node goes to the front of bucket `b`. */
    method LinkIn(h: Node<K, V>, b: nat)
      requires Shape() && Links() && KeysOk(chains) && b < nodes.Length
      requires forall b' :: 0 <= b' < |chains| ==> Holds(chains[b'], model)
      requires h !in Repr && h.prev == null && h.next == null && hash(h.key) == b
      modifies nodes, h`next, chains[b]`prev, this`chains, this`Repr
      ensures chains == old(chains)[b := [h] + old(chains)[b]] && Repr == old(Repr) + {h}
      ensures Shape() && Links()
      ensures Holds(old(chains)[b], model)
      ensures forall b' :: 0 <= b' < |chains| && b' != b ==> Holds(chains[b'], model)
    {
      ghost var c := chains[b];
      PushFront(h, nodes[b], c);
      nodes[b] := h;
      chains := chains[b := [h] + c];
      Repr := Repr + {h};
      forall b' | 0 <= b' < |chains| ensures nodes[b'] == First(chains[b']) && Linked(chains[b']) {
        if b' != b {
          assert forall i :: 0 <= i < |chains[b']| ==> chains[b'][i] !in c;
        }
      }
    }

    /** `hash_add_entry`: a duplicate key is a bug; otherwise a copy goes to the front of its bucket. */
    method Add(key: K, value: V) returns (ok: bool)
      requires Valid()
      modifies Repr
      ensures Valid() && fresh(Repr - old(Repr))
      ensures ok <==> key !in old(model)
      ensures model == if ok then old(model)[key := value] else old(model)
    {
      var dup := Lookup(key);
      ok := dup == null;
      if ok {
        var h := new Node(key, value);
        Insert(h);
      }
    }

    method Insert(h: Node<K, V>)
      requires Valid() && h !in Repr && h.key !in model && h.prev == null && h.next == null
      modifies Repr, h
      ensures Valid() && Repr == old(Repr) + {h} && model == old(model)[h.key := old(h.value)]
    {
      var b := hash(h.key);
      ghost var c := chains[b];
      KeysAdded(chains, b, h);
      FoundAdded(chains, model, b, h, h.value);
      LinkIn(h, b);
      HoldsAdded(chains, c, model, b, h);
      Remember(model[h.key := h.value]);
    }

    /** Bucket `b` is now `[h] + c`; the others are as before. */
    lemma HoldsAdded(cs: seq<seq<Node<K, V>>>, c: seq<Node<K, V>>, m: map<K, V>, b: nat, h: Node<K, V>)
      requires b < |cs| && KeysOk(cs) && hash(h.key) == b && cs[b] == [h] + c && Holds(c, m)
      requires forall b' :: 0 <= b' < |cs| && b' != b ==> Holds(cs[b'], m)
      ensures forall b' :: 0 <= b' < |cs| ==> Holds(cs[b'], m[h.key := h.value])
    {
      assert forall i :: 0 < i < |cs[b]| ==> cs[b][i] == c[i - 1] && cs[b][i].key != cs[b][0].key;
    }

    lemma KeysAdded(cs: seq<seq<Node<K, V>>>, b: nat, h: Node<K, V>)
      requires KeysOk(cs) && b < |cs| && hash(h.key) == b && !HasKey(cs[b], h.key)
      ensures KeysOk(cs[b := [h] + cs[b]])
    {
      var c := [h] + cs[b];
      assert forall i :: 0 < i < |c| ==> c[i] == cs[b][i - 1];
    }

    lemma FoundAdded(cs: seq<seq<Node<K, V>>>, m: map<K, V>, b: nat, h: Node<K, V>, value: V)
      requires (forall k :: hash(k) < |cs|) && Found(cs, m) && hash(h.key) == b
      ensures Found(cs[b := [h] + cs[b]], m[h.key := value])
    {
      var c := [h] + cs[b];
      forall k ensures HasKey(c, k) <==> k == h.key || HasKey(cs[b], k) {
        if i :| 0 <= i < |cs[b]| && cs[b][i].key == k {
          assert c[i + 1].key == k;
        }
        if k == h.key {
          assert c[0].key == k;
        }
      }
    }

    /** The node with index `i` leaves bucket `b`. */
    method LinkOut(n: Node<K, V>, b: nat, ghost i: nat)
      requires Shape() && Links() && KeysOk(chains) && b < nodes.Length && i < |chains[b]| && chains[b][i] == n
      requires forall b' :: 0 <= b' < |chains| ==> Holds(chains[b'], model)
      modifies nodes, chains[b]`prev, chains[b]`next, this`chains
      ensures chains == old(chains)[b := Without(old(chains)[b], i)]
      ensures Shape() && Links()
      ensures Holds(old(chains)[b], model)
      ensures forall b' :: 0 <= b' < |chains| && b' != b ==> Holds(chains[b'], model)
    {
      ghost var c := chains[b];
      if n.prev == null {
        nodes[b] := n.next;
      }
      Unlink(n, c, i);
      chains := chains[b := Without(c, i)];
      forall b' | 0 <= b' < |chains| ensures nodes[b'] == First(chains[b']) && Linked(chains[b']) {
        if b' != b {
          assert forall j :: 0 <= j < |chains[b']| ==> chains[b'][j] !in c;
        }
      }
    }

    /** `hash_free_entry`: a missing key is a bug; otherwise the node is taken out of its list. */
    method Free(key: K) returns (ok: bool)
      requires Valid()
      modifies Repr
      ensures Valid() && Repr == old(Repr)
      ensures ok <==> key in old(model)
      ensures model == old(model) - {key}
    {
      ghost var i;
      var n;
      n, i := GetNode(key);
      ok := n != null;
      if ok {
        FreeNode(n, i);
      }
    }

    method FreeNode(n: Node<K, V>, ghost i: nat)
      requires Valid() && i < |chains[hash(n.key)]| && chains[hash(n.key)][i] == n
      modifies Repr
      ensures Valid() && Repr == old(Repr) && model == old(model) - {n.key}
    {
      var b := hash(n.key);
      ghost var c := chains[b];
      KeysRemoved(chains, b, i);
      FoundRemoved(chains, model, b, i);
      LinkOut(n, b, i);
      HoldsRemoved(chains, c, model, b, i);
      Remember(model - {n.key});
    }

    /** Bucket `b` is now `c` without index `i`; the others are as before. */
    lemma HoldsRemoved(cs: seq<seq<Node<K, V>>>, c: seq<Node<K, V>>, m: map<K, V>, b: nat, i: nat)
      requires b < |cs| && KeysOk(cs) && i < |c| && hash(c[i].key) == b && cs[b] == Without(c, i)
      requires DistinctKeys(c) && Holds(c, m)
      requires forall b' :: 0 <= b' < |cs| && b' != b ==> Holds(cs[b'], m)
      ensures forall b' :: 0 <= b' < |cs| ==> Holds(cs[b'], m - {c[i].key})
    {
      assert forall j :: 0 <= j < |cs[b]| ==> cs[b][j] == if j < i then c[j] else c[j + 1];
    }

    lemma KeysRemoved(cs: seq<seq<Node<K, V>>>, b: nat, i: nat)
      requires KeysOk(cs) && b < |cs| && i < |cs[b]|
      ensures KeysOk(cs[b := Without(cs[b], i)])
    {
      var c := Without(cs[b], i);
      assert forall j :: 0 <= j < |c| ==> c[j] == if j < i then cs[b][j] else cs[b][j + 1];
    }

    lemma FoundRemoved(cs: seq<seq<Node<K, V>>>, m: map<K, V>, b: nat, i: nat)
      requires (forall k :: hash(k) < |cs|) && KeysOk(cs) && Found(cs, m) && b < |cs| && i < |cs[b]|
      ensures Found(cs[b := Without(cs[b], i)], m - {cs[b][i].key})
    {
      var c, c' := cs[b], Without(cs[b], i);
      assert forall j :: 0 <= j < |c'| ==> c'[j] == if j < i then c[j] else c[j + 1];
      forall k ensures HasKey(c', k) <==> k != c[i].key && HasKey(c, k) {
        if j :| 0 <= j < |c| && c[j].key == k && k != c[i].key {
          assert c'[if j < i then j else j - 1] == c[j];
        }
      }
    }
  }
}
