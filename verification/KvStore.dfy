/** The store as the program keeps it: list nodes in recency order and an index from keys to those
    nodes, both changed in place. Every method is proved against the value functions of `Lru`. */
module KvStore {
  import opened Text
  import opened Numbers
  import L = Lru

  class Node {
    const key: string
    var value: string

    constructor (key: string, value: string)
      ensures this.key == key && this.value == value
    {
      this.key, this.value := key, value;
    }
  }

  ghost function EntriesOf(nodes: seq<Node>): (es: L.Entries)
    reads nodes
    ensures |es| == |nodes|
    ensures forall i :: 0 <= i < |es| ==> es[i] == L.Entry(nodes[i].key, nodes[i].value)
  {
    seq(|nodes|, i requires 0 <= i < |nodes| reads nodes => L.Entry(nodes[i].key, nodes[i].value))
  }

  /** The list with one node unlinked. */
  function Without(nodes: seq<Node>, n: Node): (r: seq<Node>)
    ensures forall m :: m in r ==> m in nodes && m != n
    ensures forall m :: m in nodes && m != n ==> m in r
  {
    if nodes == [] then []
    else if nodes[0] == n then Without(nodes[1..], n)
    else [nodes[0]] + Without(nodes[1..], n)
  }

  ghost predicate DistinctKeys(nodes: seq<Node>) {
    forall i, j :: 0 <= i < j < |nodes| ==> nodes[i].key != nodes[j].key
  }

  /** List and index hold the same nodes. Keys never change, so this does not depend on the heap. */
  ghost predicate Linked(nodes: seq<Node>, index: map<string, Node>) {
    && DistinctKeys(nodes)
    && (forall i :: 0 <= i < |nodes| ==> nodes[i].key in index && index[nodes[i].key] == nodes[i])
    && (forall k :: k in index ==> index[k] in nodes && index[k].key == k)
  }

  lemma LinkedPush(nodes: seq<Node>, index: map<string, Node>, n: Node)
    requires Linked(nodes, index) && n.key !in index
    ensures Linked([n] + nodes, index[n.key := n])
  {
  }

  lemma LinkedPop(nodes: seq<Node>, index: map<string, Node>)
    requires Linked(nodes, index) && nodes != []
    ensures Linked(nodes[..|nodes| - 1], index - {nodes[|nodes| - 1].key})
  {
    var last := nodes[|nodes| - 1];
    forall k | k in index - {last.key} ensures index[k] in nodes[..|nodes| - 1] {
      var i :| 0 <= i < |nodes| && nodes[i] == index[k];
      assert nodes[..|nodes| - 1][i] == nodes[i];
    }
  }

  lemma {:induction false} WithoutKeepsDistinct(nodes: seq<Node>, n: Node)
    requires DistinctKeys(nodes)
    ensures DistinctKeys(Without(nodes, n))
  {
    if nodes != [] {
      WithoutKeepsDistinct(nodes[1..], n);
      var rest := Without(nodes[1..], n);
      forall j | 0 <= j < |rest| ensures rest[j].key != nodes[0].key {
        assert rest[j] in nodes[1..];
      }
    }
  }

  lemma LinkedErase(nodes: seq<Node>, index: map<string, Node>, n: Node)
    requires Linked(nodes, index) && n in nodes
    ensures Linked(Without(nodes, n), index - {n.key})
  {
    WithoutKeepsDistinct(nodes, n);
    var rest := Without(nodes, n);
    forall i | 0 <= i < |rest|
      ensures rest[i].key in index - {n.key} && (index - {n.key})[rest[i].key] == rest[i]
    {
      assert rest[i] in nodes;
    }
  }

  lemma LinkedMove(nodes: seq<Node>, index: map<string, Node>, n: Node)
    requires Linked(nodes, index) && n in nodes
    ensures Linked([n] + Without(nodes, n), index)
    ensures |[n] + Without(nodes, n)| == |nodes|
  {
    LinkedErase(nodes, index, n);
    LinkedPush(Without(nodes, n), index - {n.key}, n);
    assert index == (index - {n.key})[n.key := n];
    WithoutLength(nodes, n);
  }

  lemma {:induction false} WithoutLength(nodes: seq<Node>, n: Node)
    requires DistinctKeys(nodes)
    ensures |Without(nodes, n)| == if n in nodes then |nodes| - 1 else |nodes|
  {
    if nodes != [] {
      WithoutLength(nodes[1..], n);
    }
  }

  /** Unlinking a node is removal by its key. */
  lemma {:induction false} WithoutIsRemove(nodes: seq<Node>, n: Node)
    requires forall m :: m in nodes && m.key == n.key ==> m == n
    ensures EntriesOf(Without(nodes, n)) == L.Remove(EntriesOf(nodes), n.key)
  {
    if nodes != [] {
      WithoutIsRemove(nodes[1..], n);
      assert EntriesOf(nodes)[1..] == EntriesOf(nodes[1..]);
      if nodes[0] != n {
        assert nodes[0] in nodes;
        EntriesPush(nodes[0], Without(nodes[1..], n));
      }
    }
  }

  /** The index answers exactly like a search of the list. */
  lemma IndexIsLookup(nodes: seq<Node>, index: map<string, Node>, key: string)
    requires Linked(nodes, index)
    ensures key in index <==> L.Has(EntriesOf(nodes), key)
    ensures key in index ==> L.Lookup(EntriesOf(nodes), key) == Some(index[key].value)
    ensures L.Distinct(EntriesOf(nodes))
  {
    var es := EntriesOf(nodes);
    L.LookupIndex(es, key);
    if key in index {
      var i :| 0 <= i < |nodes| && nodes[i] == index[key];
      assert es[i].key == key;
    }
  }

  lemma EntriesPush(n: Node, nodes: seq<Node>)
    ensures EntriesOf([n] + nodes) == [L.Entry(n.key, n.value)] + EntriesOf(nodes)
  {
    assert ([n] + nodes)[1..] == nodes;
  }

  lemma EntriesTake(nodes: seq<Node>, count: nat)
    requires count <= |nodes|
    ensures EntriesOf(nodes[..count]) == EntriesOf(nodes)[..count]
  {
  }

  ghost function Inserted(n: Node, was: seq<Node>, capacity: nat): seq<Node> {
    if capacity == 0 || |was| + 1 <= capacity then [n] + was else ([n] + was)[..capacity]
  }

  lemma EntriesInserted(n: Node, was: seq<Node>, capacity: nat)
    ensures EntriesOf(Inserted(n, was, capacity)) == L.Trim([L.Entry(n.key, n.value)] + EntriesOf(was), capacity)
  {
    EntriesPush(n, was);
    if capacity != 0 && |was| + 1 > capacity { EntriesTake([n] + was, capacity); }
  }

  /** Overwriting the value held under `key` does not change what removing `key` leaves. */
  lemma {:induction false} RemoveIgnoresValue(a: L.Entries, b: L.Entries, key: string)
    requires |a| == |b|
    requires forall i :: 0 <= i < |a| ==> a[i].key == b[i].key && (a[i].key == key || a[i] == b[i])
    ensures L.Remove(a, key) == L.Remove(b, key)
  {
    if a != [] { RemoveIgnoresValue(a[1..], b[1..], key); }
  }

  class KVStore {
    const capacity: nat
    var lru: seq<Node>
    var index: map<string, Node>
    ghost var nodes: set<Node>  // every node this store may touch

    ghost predicate Valid()
      reads this
    {
      && Linked(lru, index)
      && (capacity != 0 ==> |lru| <= capacity)
      && (forall i :: 0 <= i < |lru| ==> lru[i] in nodes)
    }

    ghost function Entries(): (es: L.Entries)
      reads this, lru
    {
      EntriesOf(lru)
    }

    constructor (capacity: nat)
      ensures Valid() && Entries() == [] && this.capacity == capacity && nodes == {}
    {
      this.capacity := capacity;
      lru, index, nodes := [], map[], {};
    }

    /** Moves a linked node to the front. */
    method Splice(n: Node)
      requires Valid() && n in lru
      modifies `lru
      ensures Valid()
      ensures Entries() == [L.Entry(n.key, n.value)] + L.Remove(old(Entries()), n.key)
    {
      LinkedMove(lru, index, n);
      WithoutIsRemove(lru, n);
      EntriesPush(n, Without(lru, n));
      lru := [n] + Without(lru, n);
    }

    /** Unlinks the last node and drops its index entry. */
    method PopBack()
      requires Linked(lru, index) && lru != []
      modifies `lru, `index
      ensures Linked(lru, index) && lru == old(lru)[..|old(lru)| - 1]
    {
      LinkedPop(lru, index);
      index := index - {lru[|lru| - 1].key};
      lru := lru[..|lru| - 1];
    }

    /** Evicts from the back until the list fits. */
    method EvictOverflow()
      requires Linked(lru, index)
      modifies `lru, `index
      ensures Linked(lru, index)
      ensures lru == if capacity == 0 || |old(lru)| <= capacity then old(lru) else old(lru)[..capacity]
    {
      if capacity != 0 {
        while |lru| > capacity
          invariant |lru| <= |old(lru)| && lru == old(lru)[..|lru|]
          invariant |lru| >= capacity || |lru| == |old(lru)|
          invariant Linked(lru, index)
        {
          PopBack();
        }
      }
    }

    /** Links a new node at the front and evicts what no longer fits. */
    method EmplaceFront(key: string, value: string) returns (n: Node)
      requires Valid() && key !in index
      modifies this
      ensures Valid() && fresh(n) && nodes == old(nodes) + {n}
      ensures n.key == key && n.value == value
      ensures lru == Inserted(n, old(lru), capacity)
    {
      n := new Node(key, value);
      LinkedPush(lru, index, n);
      lru := [n] + lru;
      index := index[key := n];
      nodes := nodes + {n};
      EvictOverflow();
    }

    method SetExisting(key: string, value: string)
      requires Valid() && key in index
      modifies `lru, nodes
      ensures Valid()
      ensures Entries() == [L.Entry(key, value)] + L.Remove(old(Entries()), key)
    {
      var n := index[key];
      n.value := value;
      RemoveIgnoresValue(old(Entries()), Entries(), key);
      Splice(n);
    }

    method SetNew(key: string, value: string)
      requires Valid() && key !in index
      modifies this
      ensures Valid() && fresh(nodes - old(nodes))
      ensures Entries() == L.Trim([L.Entry(key, value)] + old(Entries()), capacity)
    {
      var n := EmplaceFront(key, value);
      EntriesInserted(n, old(lru), capacity);
    }

    method Set(key: string, value: string)
      requires Valid()
      modifies this, nodes
      ensures Valid() && fresh(nodes - old(nodes))
      ensures Entries() == L.Set(old(Entries()), capacity, key, value)
    {
      IndexIsLookup(lru, index, key);
      if key in index {
        SetExisting(key, value);
      } else {
        SetNew(key, value);
      }
    }

    method Get(key: string) returns (value: Option<string>)
      requires Valid()
      modifies `lru
      ensures Valid()
      ensures value == L.Lookup(old(Entries()), key)
      ensures Entries() == L.Touch(old(Entries()), key)
    {
      IndexIsLookup(lru, index, key);
      if key !in index {
        return None;
      }
      var n := index[key];
      Splice(n);
      return Some(n.value);
    }

    method Del(key: string) returns (existed: bool)
      requires Valid()
      modifies `lru, `index
      ensures Valid()
      ensures existed == L.Has(old(Entries()), key)
      ensures Entries() == L.Remove(old(Entries()), key)
    {
      IndexIsLookup(lru, index, key);
      L.RemoveFacts(Entries(), key);
      if key !in index {
        return false;
      }
      var n := index[key];
      LinkedErase(lru, index, n);
      WithoutIsRemove(lru, n);
      WithoutLength(lru, n);
      lru := Without(lru, n);
      index := index - {key};
      return true;
    }

    method Exists(key: string) returns (found: bool)
      requires Valid()
      ensures found == L.Has(Entries(), key)
    {
      IndexIsLookup(lru, index, key);
      return key in index;
    }

    /** Visits every entry, most recently used first, and leaves the recency order alone. */
    method ForEach() returns (visited: L.Entries)
      requires Valid()
      ensures visited == Entries()
    {
      visited := [];
      for i := 0 to |lru|
        invariant visited == Entries()[..i]
      {
        visited := visited + [L.Entry(lru[i].key, lru[i].value)];
      }
    }

    /** Read, add and write back under one lock. None is the `invalid_argument` exception. */
    method IncrementBy(key: string, delta: int) returns (updated: Option<int>)
      requires Valid()
      modifies this, nodes
      ensures Valid() && fresh(nodes - old(nodes))
      ensures updated == L.Incremented(old(Entries()), key, delta)
      ensures Entries() == match updated
                           case Some(n) => L.Set(old(Entries()), capacity, key, Decimal(n))
                           case None => old(Entries())
    {
      IndexIsLookup(lru, index, key);
      var current := 0;
      if key in index {
        var parsed := Stoll(index[key].value);
        if parsed == None {
          return None;
        }
        current := parsed.value;
      }
      var sum := Wrap64(current + delta);
      assert L.Incremented(Entries(), key, delta) == Some(sum);
      Set(key, Decimal(sum));
      return Some(sum);
    }
  }
}
