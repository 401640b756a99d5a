/** tools/mesh_telemetry.py: the registry of node heartbeats and the live capacity read off it.
    Times and capacities are whole numbers of a fixed small unit. */
module MeshTelemetry {
  import opened Sums

  datatype Node = Node(backend: string, capacity: int, beat: int)

  type Nodes = map<string, Node>

  predicate Live(n: Node, now: int, ttl: int) {
    now - n.beat <= ttl
  }

  function LiveNodes(nodes: Nodes, now: int, ttl: int): Nodes {
    map id | id in nodes && Live(nodes[id], now, ttl) :: nodes[id]
  }

  /** What each of these nodes offers on a backend. */
  function Offers(nodes: Nodes, backend: string): map<string, int> {
    map id | id in nodes && nodes[id].backend == backend :: nodes[id].capacity
  }

  /** The capacity the mesh has on a backend: no order of the nodes is involved. */
  ghost function Free(nodes: Nodes, backend: string, now: int, ttl: int): int {
    Sum(Offers(LiveNodes(nodes, now, ttl), backend))
  }

  /** A backend that is not in the table has nothing to offer. */
  function Get(availability: map<string, int>, backend: string): int {
    if backend in availability then availability[backend] else 0
  }

  ghost function Backends(nodes: Nodes): set<string> {
    set id | id in nodes :: nodes[id].backend
  }

  /** The availability table: the backends with a live node, each with its live capacity. */
  ghost function Available(nodes: Nodes, now: int, ttl: int): map<string, int> {
    map b | b in Backends(LiveNodes(nodes, now, ttl)) :: Free(nodes, b, now, ttl)
  }

  /** A backend with no live node reads as zero, so looking a backend up always gives its capacity. */
  lemma LooksUpFree(nodes: Nodes, now: int, ttl: int, backend: string)
    ensures Get(Available(nodes, now, ttl), backend) == Free(nodes, backend, now, ttl)
  {
  }

  lemma OffersUpdate(nodes: Nodes, id: string, n: Node, backend: string)
    ensures Offers(nodes[id := n], backend)
      == if n.backend == backend then Offers(nodes, backend)[id := n.capacity] else Offers(nodes, backend) - {id}
  {
  }

  /** Adding one more node to the table keeps every backend's entry the sum over the nodes seen. */
  lemma CountIn(out: map<string, int>, seen: Nodes, id: string, n: Node)
    requires id !in seen && forall b :: Get(out, b) == Sum(Offers(seen, b))
    ensures var more := out[n.backend := Get(out, n.backend) + n.capacity];
      forall b :: Get(more, b) == Sum(Offers(seen[id := n], b))
  {
    var more := out[n.backend := Get(out, n.backend) + n.capacity];
    forall b
      ensures Get(more, b) == Sum(Offers(seen[id := n], b))
    {
      OffersUpdate(seen, id, n, b);
      if b == n.backend {
        SumUpdate(Offers(seen, b), id, n.capacity);
      } else {
        assert Offers(seen, b) - {id} == Offers(seen, b);
      }
    }
  }

  lemma BackendsUpdate(nodes: Nodes, id: string, n: Node)
    requires id !in nodes
    ensures Backends(nodes[id := n]) == Backends(nodes) + {n.backend}
  {
    var more := nodes[id := n];
    forall b | b in Backends(nodes) + {n.backend}
      ensures b in Backends(more)
    {
      if b == n.backend {
        assert more[id].backend == b;
      } else {
        var j :| j in nodes && nodes[j].backend == b;
        assert more[j].backend == b;
      }
    }
  }

  class MeshRegistry {
    const ttl: int
    var nodes: Nodes

    constructor (ttl: int)
      ensures this.ttl == ttl && nodes == map[]
    {
      this.ttl, nodes := ttl, map[];
    }

    method Heartbeat(id: string, backend: string, capacity: int, beat: int)
      modifies this
      ensures nodes == old(nodes)[id := Node(backend, capacity, beat)]
    {
      nodes := nodes[id := Node(backend, capacity, beat)];
    }

    /** The live capacity per backend, adding up the nodes in any order. */
    method Availability(now: int) returns (out: map<string, int>)
      ensures out == Available(nodes, now, ttl)
    {
      var live := LiveNodes(nodes, now, ttl);
      var seen: Nodes := map[];
      out := map[];
      while live.Keys - seen.Keys != {}
        invariant forall id :: id in seen ==> id in live && seen[id] == live[id]
        invariant forall b :: Get(out, b) == Sum(Offers(seen, b))
        invariant out.Keys == Backends(seen)
        decreases live.Keys - seen.Keys
      {
        var id :| id in live.Keys - seen.Keys;
        var n := live[id];
        CountIn(out, seen, id, n);
        BackendsUpdate(seen, id, n);
        out := out[n.backend := Get(out, n.backend) + n.capacity];
        seen := seen[id := n];
      }
      assert seen == live by {
        forall id | id in live ensures id in seen {
          assert id !in live.Keys - seen.Keys;
        }
      }
      forall b | b in out
        ensures out[b] == Free(nodes, b, now, ttl)
      {
        assert out[b] == Get(out, b);
      }
    }
  }

  /** Between heartbeats nothing comes back: with capacities that are not negative, a backend's live
      capacity never rises as time passes. */
  lemma NeverRises(nodes: Nodes, backend: string, earlier: int, later: int, ttl: int)
    requires earlier <= later
    requires forall id :: id in nodes ==> nodes[id].capacity >= 0
    ensures 0 <= Free(nodes, backend, later, ttl) <= Free(nodes, backend, earlier, ttl)
  {
    SumSubmap(map[], Offers(LiveNodes(nodes, later, ttl), backend));
    SumSubmap(Offers(LiveNodes(nodes, later, ttl), backend), Offers(LiveNodes(nodes, earlier, ttl), backend));
  }

  /** What one node counts for on a backend: its capacity, if it is there and its last heartbeat is no older than the
      TTL. */
  function Counts(nodes: Nodes, id: string, backend: string, now: int, ttl: int): int {
    if id in nodes && nodes[id].backend == backend && now - nodes[id].beat <= ttl then nodes[id].capacity else 0
  }

  /** A registry without nodes has no capacity, and each heartbeat replaces what its node counted for by what it counts
      for now, on every backend and at any time. */
  lemma HeartbeatMoves(nodes: Nodes, id: string, n: Node, backend: string, now: int, ttl: int)
    ensures Free(map[], backend, now, ttl) == 0
    ensures var after := nodes[id := n];
      Free(after, backend, now, ttl)
      == Free(nodes, backend, now, ttl) - Counts(nodes, id, backend, now, ttl) + Counts(after, id, backend, now, ttl)
  {
    assert LiveNodes(map[], now, ttl) == map[] && Offers(map[], backend) == map[];
    var before := Offers(LiveNodes(nodes, now, ttl), backend);
    var after := Offers(LiveNodes(nodes[id := n], now, ttl), backend);
    var rest := before - {id};
    if id in before {
      assert before == rest[id := before[id]];
      SumUpdate(rest, id, before[id]);
    } else {
      assert before == rest;
    }
    if id in after {
      assert after == rest[id := after[id]];
      SumUpdate(rest, id, after[id]);
    } else {
      assert after == rest;
    }
  }

  /** A backend is in the table exactly when some node of it has a last heartbeat no older than the TTL. */
  lemma PresentIff(nodes: Nodes, backend: string, now: int, ttl: int)
    ensures backend in Available(nodes, now, ttl)
      <==> exists id :: id in nodes && nodes[id].backend == backend && now - nodes[id].beat <= ttl
  {
    var live := LiveNodes(nodes, now, ttl);
    if id :| id in nodes && nodes[id].backend == backend && now - nodes[id].beat <= ttl {
      assert id in live && live[id].backend == backend;
    }
  }

  // ----- whole runs of heartbeats -----

  datatype Beat = Beat(id: string, node: Node)

  function After(beats: seq<Beat>): Nodes {
    if beats == [] then map[]
    else After(beats[..|beats| - 1])[beats[|beats| - 1].id := beats[|beats| - 1].node]
  }

  /** The i-th beat is the last its node sent. */
  ghost predicate Latest(beats: seq<Beat>, i: nat)
    requires i < |beats|
  {
    forall j :: i < j < |beats| ==> beats[j].id != beats[i].id
  }

  /** A node in the registry is where its last heartbeat put it. */
  lemma {:induction false} LastBeatCounts(beats: seq<Beat>, id: string) returns (i: nat)
    requires id in After(beats)
    ensures i < |beats| && Latest(beats, i) && beats[i] == Beat(id, After(beats)[id])
  {
    var n := |beats| - 1;
    if beats[n].id == id {
      i := n;
    } else {
      i := LastBeatCounts(beats[..n], id);
    }
  }

  /** Never "assume it is still up": capacity on a backend is backed by a node of that backend whose
      last heartbeat is within the TTL and announced a positive capacity. */
  lemma CapacityIsBacked(beats: seq<Beat>, backend: string, now: int, ttl: int) returns (i: nat)
    requires Free(After(beats), backend, now, ttl) > 0
    ensures i < |beats| && Latest(beats, i)
    ensures beats[i].node.backend == backend && beats[i].node.capacity > 0 && now - beats[i].node.beat <= ttl
  {
    var id := SumPositive(Offers(LiveNodes(After(beats), now, ttl), backend));
    i := LastBeatCounts(beats, id);
  }

  /** Once every last heartbeat from a backend is older than the TTL, the backend counts for nothing. */
  lemma SilenceIsAbsence(beats: seq<Beat>, backend: string, now: int, ttl: int)
    requires forall i :: 0 <= i < |beats| && Latest(beats, i) && beats[i].node.backend == backend ==>
               now - beats[i].node.beat > ttl
    ensures Free(After(beats), backend, now, ttl) == 0
    ensures backend !in Available(After(beats), now, ttl)
  {
    var live := LiveNodes(After(beats), now, ttl);
    var offers := Offers(live, backend);
    assert forall id :: id in live && live[id].backend == backend ==> id in offers;
    if id :| id in offers {
      var i := LastBeatCounts(beats, id);
    }
    assert offers == map[];
  }
}
