/**
 * The consistent-hash ring (internal/orchestrator/hashring.go).  `hash` places
 * keys and `point` places the virtual nodes of a node; both are arbitrary, so
 * collisions are included.
 */
module HashRing {
  import opened Sorting

  /** The first point at or after `h`, or the smallest one if there is none. */
  ghost predicate IsSuccessor(points: set<nat>, h: nat, x: nat)
  {
    && x in points
    && if exists y :: y in points && y >= h
       then x >= h && forall y :: y in points && y >= h ==> x <= y
       else forall y :: y in points ==> x <= y
  }

  /** `node` is responsible for the keys at `h`. */
  ghost predicate Serves(owners: map<nat, string>, h: nat, node: string)
  {
    if owners == map[] then node == ""
    else exists x :: IsSuccessor(owners.Keys, h, x) && owners[x] == node
  }

  /** At most one node is responsible. */
  lemma ServesOne(owners: map<nat, string>, h: nat, a: string, b: string)
    requires Serves(owners, h, a) && Serves(owners, h, b)
    ensures a == b
  {
  }

  // ---- Adding a node ----

  /** The points of the first `n` virtual nodes. */
  ghost function Points(point: (string, nat) -> nat, node: string, n: nat): set<nat>
  {
    set i | 0 <= i < n :: point(node, i)
  }

  /** The new node takes all its points, even those of other nodes. */
  ghost function WithNode(owners: map<nat, string>, point: (string, nat) -> nat, node: string, n: nat): map<nat, string>
  {
    map x | x in owners.Keys + Points(point, node, n) :: if x in Points(point, node, n) then node else owners[x]
  }

  /** The node owns each of its points, and nothing else changed hands. */
  ghost predicate Claims(before: map<nat, string>, after: map<nat, string>, point: (string, nat) -> nat, node: string, n: int)
  {
    && (forall i: nat :: i < n ==> point(node, i) in after && after[point(node, i)] == node)
    && (forall x :: x in before ==> x in after)
    && (forall x :: x in after ==> (x in before && after[x] == before[x]) || exists i: nat :: i < n && x == point(node, i))
  }

  lemma WithNodeIs(owners: map<nat, string>, point: (string, nat) -> nat, node: string, n: int)
    ensures Claims(owners, WithNode(owners, point, node, if n < 0 then 0 else n), point, node, n)
  {
  }

  lemma NoPointsYet(owners: map<nat, string>, point: (string, nat) -> nat, node: string)
    ensures WithNode(owners, point, node, 0) == owners
  {
  }

  lemma NextPoint(owners: map<nat, string>, point: (string, nat) -> nat, node: string, i: nat)
    ensures WithNode(owners, point, node, i + 1) == WithNode(owners, point, node, i)[point(node, i) := node]
  {
    assert Points(point, node, i + 1) == Points(point, node, i) + {point(node, i)};
  }

  /** Consistent hashing is monotone: after a node was added, a key is served by
      the node that served it before or by the new node. */
  lemma AddingMovesKeysToNewNodeOnly(owners: map<nat, string>, point: (string, nat) -> nat, node: string, n: nat, h: nat, before: string, after: string)
    requires Serves(owners, h, before)
    requires Serves(WithNode(owners, point, node, n), h, after)
    ensures after == before || after == node
  {
    hide Points;
    var more := Points(point, node, n);
    var now := WithNode(owners, point, node, n);
    if now != map[] {
      var x' :| IsSuccessor(now.Keys, h, x') && now[x'] == after;
      if x' !in more {
        assert x' in owners;
        SuccessorOfFewer(owners.Keys, now.Keys, h, x');
        assert Serves(owners, h, owners[x']);
        ServesOne(owners, h, before, after);
      }
    } else {
      assert owners.Keys <= now.Keys;
    }
  }

  /** A successor that was already there was the successor already. */
  lemma SuccessorOfFewer(few: set<nat>, many: set<nat>, h: nat, x: nat)
    requires few <= many && x in few && IsSuccessor(many, h, x)
    ensures IsSuccessor(few, h, x)
  {
  }

  /** The outcome does not depend on the order of additions exactly when the
      two nodes share no point. */
  lemma OrderMattersIffCollision(owners: map<nat, string>, point: (string, nat) -> nat, a: string, b: string, n: nat)
    requires a != b
    ensures WithNode(WithNode(owners, point, a, n), point, b, n) == WithNode(WithNode(owners, point, b, n), point, a, n)
       <==> Points(point, a, n) !! Points(point, b, n)
  {
    hide Points;
    var ab := WithNode(WithNode(owners, point, a, n), point, b, n);
    var ba := WithNode(WithNode(owners, point, b, n), point, a, n);
    if x :| x in Points(point, a, n) && x in Points(point, b, n) {
      assert ab[x] == b && ba[x] == a;
    } else {
      assert ab.Keys == ba.Keys;
      assert forall x :: x in ab ==> ab[x] == ba[x];
    }
  }

  // ---- The ring ----

  function AsReal(x: nat): real
  {
    x as real
  }

  class Ring {
    const hash: string -> nat
    const point: (string, nat) -> nat
    const virtualNodes: int
    var nodes: seq<string>
    var ring: seq<nat>
    var nodeMap: map<nat, string>

    /** The ring is sorted and lists the points that have an owner. */
    ghost predicate Valid()
      reads this
    {
      SortedBy(AsReal, ring) && forall x :: x in ring <==> x in nodeMap
    }

    constructor (hash: string -> nat, point: (string, nat) -> nat, virtualNodes: int)
      ensures Valid() && nodeMap == map[] && nodes == []
      ensures this.hash == hash && this.point == point && this.virtualNodes == virtualNodes
    {
      this.hash, this.point, this.virtualNodes := hash, point, virtualNodes;
      nodes, ring, nodeMap := [], [], map[];
    }

    method AddNode(node: string)
      requires Valid()
      modifies this
      ensures Valid()
      ensures nodes == old(nodes) + [node]
      ensures nodeMap == WithNode(old(nodeMap), point, node, if virtualNodes < 0 then 0 else virtualNodes)
      ensures Claims(old(nodeMap), nodeMap, point, node, virtualNodes)
    {
      hide WithNode, Points, Claims;
      WithNodeIs(nodeMap, point, node, virtualNodes);
      nodes := nodes + [node];
      var i := 0;
      NoPointsYet(nodeMap, point, node);
      while i < virtualNodes
        invariant 0 <= i && (virtualNodes >= 0 ==> i <= virtualNodes)
        invariant virtualNodes < 0 ==> i == 0
        invariant nodes == old(nodes) + [node]
        invariant forall x :: x in ring <==> x in nodeMap
        invariant nodeMap == WithNode(old(nodeMap), point, node, i)
      {
        var h := point(node, i);
        NextPoint(old(nodeMap), point, node, i);
        ring := ring + [h];
        nodeMap := nodeMap[h := node];
        i := i + 1;
      }
      var sorted := SortBy(AsReal, ring);
      SameMembers(sorted, ring);
      ring := sorted;
    }

    /** The node responsible for a key; no node when there is none. */
    method GetNode(key: string) returns (node: string)
      requires Valid()
      ensures Serves(nodeMap, hash(key), node)
    {
      if |ring| == 0 {
        assert nodeMap == map[] by {
          assert forall x :: x !in nodeMap;
        }
        return "";
      }
      var h := hash(key);
      var lo, hi := 0, |ring|;
      while lo < hi
        invariant 0 <= lo <= hi <= |ring|
        invariant forall i :: 0 <= i < lo ==> ring[i] < h
        invariant forall i :: hi <= i < |ring| ==> ring[i] >= h
      {
        var mid := (lo + hi) / 2;
        if ring[mid] >= h {
          Ordered(ring, mid);
          hi := mid;
        } else {
          Ordered(ring, mid);
          lo := mid + 1;
        }
      }
      var idx := if lo == |ring| then 0 else lo;
      SearchFindsSuccessor(ring, nodeMap.Keys, h, lo);
      assert ring[idx] in ring;
      node := nodeMap[ring[idx]];
      assert nodeMap != map[];
    }
  }

  lemma SameMembers(a: seq<nat>, b: seq<nat>)
    requires multiset(a) == multiset(b)
    ensures forall x :: x in a <==> x in b
  {
    assert forall x :: x in a <==> x in multiset(a);
    assert forall x :: x in b <==> x in multiset(b);
  }

  lemma Ordered(ring: seq<nat>, mid: nat)
    requires SortedBy(AsReal, ring) && mid < |ring|
    ensures forall i :: 0 <= i <= mid ==> ring[i] <= ring[mid]
    ensures forall i :: mid <= i < |ring| ==> ring[mid] <= ring[i]
  {
    forall i | 0 <= i < mid
      ensures ring[i] <= ring[mid]
    {
      assert AsReal(ring[i]) <= AsReal(ring[mid]);
    }
    forall i | mid < i < |ring|
      ensures ring[mid] <= ring[i]
    {
      assert AsReal(ring[mid]) <= AsReal(ring[i]);
    }
  }

  lemma SearchFindsSuccessor(ring: seq<nat>, points: set<nat>, h: nat, at: nat)
    requires SortedBy(AsReal, ring) && |ring| > 0 && at <= |ring|
    requires forall x :: x in ring <==> x in points
    requires forall i :: 0 <= i < at ==> ring[i] < h
    requires forall i :: at <= i < |ring| ==> ring[i] >= h
    ensures IsSuccessor(points, h, ring[if at == |ring| then 0 else at])
  {
    var idx := if at == |ring| then 0 else at;
    Ordered(ring, idx);
    assert ring[idx] in ring;
    forall y | y in points
      ensures at == |ring| ==> y < h && ring[0] <= y
      ensures at < |ring| && y >= h ==> ring[at] <= y
    {
      var i :| 0 <= i < |ring| && ring[i] == y;
    }
  }
}
