/** kv_store.c: the chained hash table behind put and get, used by one thread at a time. */
module KvStore {
  import opened Wrappers

  /** `next` is the address of a node, 0 the null pointer; node `a` is element a - 1 of the pool. */
  datatype Node = Node(key: nat, value: nat, next: nat)

  /** malloc gives out fresh nodes and a new node points to an older one, so every chain ends. */
  ghost predicate Pool(nodes: seq<Node>) {
    forall i :: 0 <= i < |nodes| ==> nodes[i].next <= i
  }

  /** The value of the first node with `key` in the chain from `p`. */
  ghost function Find(nodes: seq<Node>, p: nat, key: nat): Option<nat>
    requires Pool(nodes) && p <= |nodes|
    decreases p
  {
    if p == 0 then None
    else if nodes[p - 1].key == key then Some(nodes[p - 1].value)
    else Find(nodes, nodes[p - 1].next, key)
  }

  lemma {:induction false} FindInLonger(nodes: seq<Node>, n: Node, p: nat, key: nat)
    requires Pool(nodes) && p <= |nodes| && Pool(nodes + [n])
    ensures Find(nodes + [n], p, key) == Find(nodes, p, key)
    decreases p
  {
    if p > 0 && nodes[p - 1].key != key {
      FindInLonger(nodes, n, nodes[p - 1].next, key);
    }
  }

  lemma FindFirst(nodes: seq<Node>, p: nat, key: nat)
    requires Pool(nodes) && 1 <= p <= |nodes|
    ensures Find(nodes, p, key) ==
      if nodes[p - 1].key == key then Some(nodes[p - 1].value) else Find(nodes, nodes[p - 1].next, key)
  {
  }

  /** Overwriting the value of node `c` changes what is found for its key only, and only where `c` is met first. */
  lemma {:induction false} FindAfterStore(nodes: seq<Node>, c: nat, v: nat, p: nat, key: nat)
    requires Pool(nodes) && 1 <= c <= |nodes| && p <= |nodes|
    ensures var after := nodes[c - 1 := nodes[c - 1].(value := v)];
      && Pool(after)
      && (nodes[c - 1].key != key ==> Find(after, p, key) == Find(nodes, p, key))
      && (FirstAt(nodes, p, key, c) ==> Find(after, p, key) == Some(v))
    decreases p
  {
    var after := nodes[c - 1 := nodes[c - 1].(value := v)];
    if p > 0 && nodes[p - 1].key != key {
      FindAfterStore(nodes, c, v, nodes[p - 1].next, key);
    }
  }

  /** Node `c` is the first with `key` in the chain from `p`. */
  ghost predicate FirstAt(nodes: seq<Node>, p: nat, key: nat, c: nat)
    requires Pool(nodes) && p <= |nodes|
    decreases p
  {
    p != 0 && if nodes[p - 1].key == key then p == c else FirstAt(nodes, nodes[p - 1].next, key, c)
  }

  class HashTable {
    const size: nat
    const heads: array<nat>
    var nodes: seq<Node>
    ghost var contents: map<nat, nat>

    function Hash(key: nat): nat
      requires size > 0
    {
      key % size
    }

    ghost predicate Valid()
      reads this, heads
    {
      && size > 0 && heads.Length == size && Pool(nodes)
      && (forall i :: 0 <= i < size ==> heads[i] <= |nodes|)
      && (forall key: nat ::
            Find(nodes, heads[Hash(key)], key) == if key in contents then Some(contents[key]) else None)
    }

    /** init_hash_table. */
    constructor (size: nat)
      requires size > 0
      ensures Valid() && fresh(heads) && contents == map[]
    {
      this.size := size;
      heads := new nat[size](_ => 0);
      nodes := [];
      contents := map[];
    }

    /** The walk along the chain: the first node with the key, or 0. */
    method Walk(key: nat) returns (current: nat)
      requires Valid()
      ensures current == 0 ==> Find(nodes, heads[Hash(key)], key) == None
      ensures current != 0 ==> current <= |nodes| && nodes[current - 1].key == key
      ensures current != 0 ==> FirstAt(nodes, heads[Hash(key)], key, current)
      ensures current != 0 ==> Find(nodes, heads[Hash(key)], key) == Some(nodes[current - 1].value)
    {
      current := heads[Hash(key)];
      while current != 0
        invariant current <= |nodes|
        invariant Find(nodes, heads[Hash(key)], key) == Find(nodes, current, key)
        invariant forall c: nat :: FirstAt(nodes, current, key, c) ==> FirstAt(nodes, heads[Hash(key)], key, c)
        decreases current
      {
        if nodes[current - 1].key == key {
          assert FirstAt(nodes, current, key, current);
          return;
        }
        current := nodes[current - 1].next;
      }
    }

    method Insert(key: nat, value: nat)
      requires Valid()
      modifies this`nodes, this`contents, heads
      ensures Valid() && contents == old(contents)[key := value]
    {
      hide Find, FirstAt;
      var current := Walk(key);
      if current != 0 {
        forall k: nat
          ensures var after := nodes[current - 1 := nodes[current - 1].(value := value)];
            && Pool(after)
            && Find(after, heads[Hash(k)], k) == if k == key then Some(value) else Find(nodes, heads[Hash(k)], k)
        {
          FindAfterStore(nodes, current, value, heads[Hash(k)], k);
        }
        nodes := nodes[current - 1 := nodes[current - 1].(value := value)];
      } else {
        var index := Hash(key);
        var node := Node(key, value, heads[index]);
        var longer := nodes + [node];
        forall k: nat
          ensures Find(longer, heads[Hash(k)], k) == Find(nodes, heads[Hash(k)], k)
          ensures Hash(k) == index ==>
            Find(longer, |longer|, k) == if k == key then Some(value) else Find(nodes, heads[index], k)
        {
          FindInLonger(nodes, node, heads[Hash(k)], k);
          FindFirst(longer, |longer|, k);
        }
        nodes := longer;
        heads[index] := |longer|;
      }
      contents := contents[key := value];
    }

    /** 0 when the key is not there. */
    method Search(key: nat) returns (value: nat)
      requires Valid()
      ensures value == if key in contents then contents[key] else 0
    {
      var current := Walk(key);
      value := if current != 0 then nodes[current - 1].value else 0;
    }
  }
}
