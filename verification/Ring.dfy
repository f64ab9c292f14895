/** The consistent hash ring: positions of virtual nodes and the nodes that own them. */
module Ring {
  import opened Text
  import opened Numbers
  import opened Hash

  type Ring = map<nat, string>

  predicate OnRing(ring: Ring) { forall p :: p in ring ==> p < RING_SIZE }

  /** Clockwise distance: (p - h) modulo 2^64. */
  function Dist(h: nat, p: nat): (d: int)
    requires h < RING_SIZE && p < RING_SIZE
    ensures 0 <= d < RING_SIZE && (h + d) % RING_SIZE == p
  {
    if p >= h then p - h else p + RING_SIZE - h
  }

  /** The specification of a lookup: the position at the least clockwise distance. */
  ghost predicate IsSuccessor(ring: Ring, h: nat, p: nat)
    requires h < RING_SIZE && OnRing(ring)
  {
    p in ring && forall q :: q in ring ==> Dist(h, p) <= Dist(h, q)
  }

  lemma SuccessorUnique(ring: Ring, h: nat, p: nat, q: nat)
    requires h < RING_SIZE && OnRing(ring) && IsSuccessor(ring, h, p) && IsSuccessor(ring, h, q)
    ensures p == q
  {
    assert Dist(h, p) <= Dist(h, q) && Dist(h, q) <= Dist(h, p);
  }

  lemma {:induction false} SuccessorExists(ring: Ring, h: nat)
    requires h < RING_SIZE && OnRing(ring) && ring != map[]
    ensures exists p :: IsSuccessor(ring, h, p)
    decreases |ring|
  {
    var p :| p in ring;
    var rest := ring - {p};
    assert forall q :: q in ring ==> q == p || q in rest;
    if rest == map[] {
      assert IsSuccessor(ring, h, p);
    } else {
      SuccessorExists(rest, h);
      var q :| IsSuccessor(rest, h, q);
      if Dist(h, q) <= Dist(h, p) { assert IsSuccessor(ring, h, q); } else { assert IsSuccessor(ring, h, p); }
    }
  }

  /** The node responsible for a key that hashes to `h`; "" on an empty ring. */
  ghost function Owner(ring: Ring, h: nat): string
    requires h < RING_SIZE && OnRing(ring)
  {
    if ring == map[] then ""
    else
      SuccessorExists(ring, h);
      var p :| IsSuccessor(ring, h, p);
      ring[p]
  }

  lemma OwnerIs(ring: Ring, h: nat, p: nat)
    requires h < RING_SIZE && OnRing(ring) && IsSuccessor(ring, h, p)
    ensures Owner(ring, h) == ring[p]
  {
    SuccessorExists(ring, h);
    var q :| IsSuccessor(ring, h, q) && Owner(ring, h) == ring[q];
    SuccessorUnique(ring, h, p, q);
  }

  // ---------------------------------------------------------------- adding and removing nodes

  function VirtualNode(id: string, i: nat): (p: nat)
    ensures p < RING_SIZE
  {
    Position(id + "#" + Decimal(i))
  }

  /** The first virtual node of `shard0` by its number: label and hash together. */
  lemma FirstVirtualNode()
    ensures VirtualNode("shard0", 0) == 0x3ecd2fc3f6932c7
  {
    assert "shard0" + "#" + Decimal(0) == "shard0#0";
    DigestOfVirtualNode();
  }

  /** The virtual nodes of a node, in the order they are written. */
  function PositionList(id: string, n: nat): seq<nat> {
    seq(n, i requires 0 <= i < n => VirtualNode(id, i))
  }

  function AsSet(ps: seq<nat>): set<nat> { set p | p in ps }

  function Positions(id: string, n: nat): set<nat> { AsSet(PositionList(id, n)) }

  /** Gives the positions to `id` one after another, whoever had them before. */
  function Claim(ring: Ring, ps: seq<nat>, id: string): Ring {
    if ps == [] then ring else Claim(ring, ps[..|ps| - 1], id)[ps[|ps| - 1] := id]
  }

  function Add(ring: Ring, id: string, n: nat): Ring { Claim(ring, PositionList(id, n), id) }

  function Remove(ring: Ring, id: string, n: nat): Ring { ring - Positions(id, n) }

  ghost predicate Claimed(ring: Ring, grown: Ring, ps: set<nat>, id: string) {
    && grown.Keys == ring.Keys + ps
    && forall p :: p in grown ==> grown[p] == if p in ps then id else ring[p]
  }

  lemma {:induction false} ClaimFacts(ring: Ring, ps: seq<nat>, id: string)
    ensures Claimed(ring, Claim(ring, ps, id), AsSet(ps), id)
  {
    if ps != [] {
      var init, last := ps[..|ps| - 1], ps[|ps| - 1];
      ClaimFacts(ring, init, id);
      assert ps == init + [last];
      assert AsSet(ps) == AsSet(init) + {last};
    }
  }

  lemma PositionListStep(ring: Ring, id: string, n: nat)
    ensures PositionList(id, n + 1) == PositionList(id, n) + [VirtualNode(id, n)]
    ensures Add(ring, id, n + 1) == Add(ring, id, n)[VirtualNode(id, n) := id]
  {
    var ps := PositionList(id, n);
    assert PositionList(id, n + 1) == ps + [VirtualNode(id, n)];
    assert (ps + [VirtualNode(id, n)])[..n] == ps;
  }

  lemma RemoveOneMore(ring: Ring, ps: seq<nat>, p: nat)
    ensures ring - AsSet(ps + [p]) == ring - AsSet(ps) - {p}
    ensures ring - AsSet([]) == ring
  {
    assert AsSet(ps + [p]) == AsSet(ps) + {p};
  }

  lemma AddFacts(ring: Ring, id: string, n: nat)
    requires OnRing(ring)
    ensures Claimed(ring, Add(ring, id, n), Positions(id, n), id)
    ensures OnRing(Add(ring, id, n))
  {
    ClaimFacts(ring, PositionList(id, n), id);
  }

  lemma AddStaysOnRing(ring: Ring, id: string, n: nat)
    requires OnRing(ring)
    ensures OnRing(Add(ring, id, n))
  {
    AddFacts(ring, id, n);
  }

  /** Adding a node moves keys only to that node, even when its positions collide with others. */
  lemma AddMovesKeysOnlyToNewNode(ring: Ring, id: string, n: nat, h: nat)
    requires h < RING_SIZE && OnRing(ring)
    ensures OnRing(Add(ring, id, n))
    ensures Owner(Add(ring, id, n), h) != Owner(ring, h) ==> Owner(Add(ring, id, n), h) == id
  {
    var grown := Add(ring, id, n);
    AddFacts(ring, id, n);
    if grown != map[] {
      SuccessorExists(grown, h);
      var p :| IsSuccessor(grown, h, p);
      OwnerIs(grown, h, p);
      if p !in Positions(id, n) {
        assert p in ring;
        assert IsSuccessor(ring, h, p);
        OwnerIs(ring, h, p);
      }
    }
  }

  /** Adding a node and removing it again restores the ring exactly when none of the node's positions
      was taken before; a collision makes the removal take the other node's position with it. */
  lemma RemoveUndoesAddIffDisjoint(ring: Ring, id: string, n: nat)
    ensures Remove(Add(ring, id, n), id, n) == ring <==> Positions(id, n) !! ring.Keys
  {
    ClaimFacts(ring, PositionList(id, n), id);
    var back := Remove(Add(ring, id, n), id, n);
    assert back.Keys == ring.Keys - Positions(id, n);
    if Positions(id, n) !! ring.Keys {
      assert back.Keys == ring.Keys;
      assert forall p :: p in ring ==> back[p] == ring[p];
    } else {
      var p :| p in Positions(id, n) && p in ring.Keys;
      assert p !in back;
    }
  }

  /** Removing a node moves only the keys it owned, provided no other node sits on its positions. */
  lemma RemoveMovesOnlyOwnedKeys(ring: Ring, id: string, n: nat, h: nat)
    requires h < RING_SIZE && OnRing(ring)
    requires forall p :: p in Positions(id, n) && p in ring ==> ring[p] == id
    ensures OnRing(Remove(ring, id, n))
    ensures Owner(Remove(ring, id, n), h) != Owner(ring, h) ==> Owner(ring, h) == id
  {
    var left := Remove(ring, id, n);
    if ring != map[] {
      SuccessorExists(ring, h);
      var p :| IsSuccessor(ring, h, p);
      OwnerIs(ring, h, p);
      if p !in Positions(id, n) {
        assert p in left;
        assert IsSuccessor(left, h, p);
        OwnerIs(left, h, p);
      }
    }
  }

  /** Virtual nodes with the same index of two ids that differ in one byte are at different places. */
  lemma SimilarIdsDoNotCollide(pre: string, c: char, d: char, post: string, i: nat)
    requires c as int < 256 && d as int < 256 && c != d
    ensures VirtualNode(pre + [c] + post, i) != VirtualNode(pre + [d] + post, i)
  {
    var suffix := "#" + Decimal(i);
    assert pre + [c] + post + "#" + Decimal(i) == pre + [c] + (post + suffix);
    assert pre + [d] + post + "#" + Decimal(i) == pre + [d] + (post + suffix);
    OneByteChangeNeverCollides(pre, c, d, post + suffix);
  }

  /** The ring a router builds from its shard list. */
  function Build(ids: seq<string>, n: nat): Ring {
    if ids == [] then map[] else Add(Build(ids[..|ids| - 1], n), ids[|ids| - 1], n)
  }

  /** Every key belongs to one of the shards the ring was built from. */
  lemma {:induction false} BuildFacts(ids: seq<string>, n: nat)
    ensures OnRing(Build(ids, n))
    ensures forall p :: p in Build(ids, n) ==> Build(ids, n)[p] in ids
    ensures ids != [] && n > 0 ==> Build(ids, n) != map[]
  {
    if ids != [] {
      var init, last := ids[..|ids| - 1], ids[|ids| - 1];
      BuildFacts(init, n);
      AddFacts(Build(init, n), last, n);
      assert ids == init + [last];
      if n > 0 { assert PositionList(last, n)[0] in Positions(last, n); }
    }
  }

  lemma OwnerIsAShard(ids: seq<string>, n: nat, h: nat)
    requires h < RING_SIZE && ids != [] && n > 0
    ensures OnRing(Build(ids, n)) && Owner(Build(ids, n), h) in ids
  {
    BuildFacts(ids, n);
    SuccessorExists(Build(ids, n), h);
    var p :| IsSuccessor(Build(ids, n), h, p);
    OwnerIs(Build(ids, n), h, p);
  }

  // ---------------------------------------------------------------- the ring object

  /** The first position at or after `h`, if there is one (`std::map::lower_bound`). */
  method LowerBound(ring: Ring, h: nat) returns (p: Option<nat>)
    ensures p.Some? ==> p.value in ring && h <= p.value && forall q :: q in ring && h <= q ==> p.value <= q
    ensures p.None? ==> forall q :: q in ring ==> q < h
  {
    var todo := ring.Keys;
    p := None;
    while todo != {}
      invariant todo <= ring.Keys
      invariant p.Some? ==> p.value in ring && h <= p.value
      invariant forall q :: q in ring && q !in todo && h <= q ==> p.Some? && p.value <= q
      decreases |todo|
    {
      var q :| q in todo;
      todo := todo - {q};
      if h <= q && (p.None? || q < p.value) {
        p := Some(q);
      }
    }
  }

  class ConsistentHashRing {
    const virtualNodesPerNode: nat
    var ring: Ring
    var nodes: seq<string>

    ghost predicate Valid()
      reads this
    {
      OnRing(ring)
    }

    constructor (virtualNodesPerNode: nat)
      ensures Valid() && ring == map[] && nodes == [] && this.virtualNodesPerNode == virtualNodesPerNode
    {
      this.virtualNodesPerNode := virtualNodesPerNode;
      ring, nodes := map[], [];
    }

    method AddNode(nodeId: string)
      requires Valid()
      modifies this
      ensures Valid() && ring == Add(old(ring), nodeId, virtualNodesPerNode)
      ensures nodes == old(nodes) + [nodeId]
    {
      for i := 0 to virtualNodesPerNode
        invariant ring == Add(old(ring), nodeId, i) && nodes == old(nodes)
      {
        PositionListStep(old(ring), nodeId, i);
        ring := ring[VirtualNode(nodeId, i) := nodeId];
      }
      nodes := nodes + [nodeId];
      AddStaysOnRing(old(ring), nodeId, virtualNodesPerNode);
    }

    method RemoveNode(nodeId: string)
      requires Valid()
      modifies this
      ensures Valid() && ring == Remove(old(ring), nodeId, virtualNodesPerNode)
      ensures nodes == Without(old(nodes), nodeId)
    {
      RemoveOneMore(ring, [], 0);
      for i := 0 to virtualNodesPerNode
        invariant ring == Remove(old(ring), nodeId, i) && nodes == old(nodes)
      {
        PositionListStep(old(ring), nodeId, i);
        RemoveOneMore(old(ring), PositionList(nodeId, i), VirtualNode(nodeId, i));
        ring := ring - {VirtualNode(nodeId, i)};
      }
      nodes := Without(nodes, nodeId);
    }

    /** The lookup meets its specification for every key: lower bound, wrapping to the lowest position
        past the highest one, is the least clockwise distance. */
    method GetNode(key: string) returns (node: string)
      requires Valid()
      ensures node == Owner(ring, Position(key))
    {
      if ring == map[] {
        return "";
      }
      var hash := Position(key);
      var it := LowerBound(ring, hash);
      if it == None {
        it := LowerBound(ring, 0);
        SuccessorExists(ring, hash);
      }
      assert IsSuccessor(ring, hash, it.value);
      OwnerIs(ring, hash, it.value);
      return ring[it.value];
    }
  }

  function Without(ids: seq<string>, id: string): seq<string> {
    if ids == [] then []
    else if ids[0] == id then Without(ids[1..], id)
    else [ids[0]] + Without(ids[1..], id)
  }
}
