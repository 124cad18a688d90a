/** The match callback of the spislave bus: it claims the available child nodes
    of a device by setting their OF_POPULATED flag, and accepts every pairing. */
module Match {
  import opened DriverModel

  /** The child nodes after one match over `s`: every available node is marked
      populated, and nothing else changes. Its own contract is only that no node
      is lost; the per-node facts are the lemma ClaimedAt. */
  function Claimed(s: seq<Node>): (r: seq<Node>)
    ensures |r| == |s|
  {
    if s == [] then []
    else [if s[0].available then s[0].(populated := true) else s[0]] + Claimed(s[1..])
  }

  /** Node `k` after a match keeps its availability, and is populated iff it was
      populated or is available. */
  lemma {:induction false} ClaimedAt(s: seq<Node>, k: int)
    requires 0 <= k < |s|
    ensures Claimed(s)[k].available == s[k].available
    ensures Claimed(s)[k].populated == (s[k].populated || s[k].available)
  {
    if k > 0 {
      ClaimedAt(s[1..], k - 1);
    }
  }

  /** The positions of the nodes that a match over `s` claims for the first time:
      available, and not yet populated (the nodes the source reports as found). */
  ghost function NewlyClaimed(s: seq<Node>): (ks: set<int>)
  {
    set i | 0 <= i < |s| && s[i].available && !s[i].populated
  }

  /** No populated flag is ever cleared, and unavailable nodes are left exactly as
      they were. */
  lemma {:induction false} ClaimedMonotone(s: seq<Node>, k: int)
    requires 0 <= k < |s|
    ensures s[k].populated ==> Claimed(s)[k].populated
    ensures !s[k].available ==> Claimed(s)[k] == s[k]
  {
    var r := Claimed(s);
    ClaimedAt(s, k);
    if !s[k].available {
      assert r[k] == Node(r[k].available, r[k].populated);
    }
  }

  /** A flag that changes is exactly a newly claimed node. */
  lemma {:induction false} NewlyClaimedFlipped(s: seq<Node>, k: int)
    requires 0 <= k < |s|
    ensures k in NewlyClaimed(s) <==> (!s[k].populated && Claimed(s)[k].populated)
  {
    ClaimedAt(s, k);
  }

  /** Matching is idempotent on node state: a second match over the same nodes,
      for the same or any other device, changes nothing and claims nothing. */
  lemma {:induction false} MatchIdempotent(s: seq<Node>)
    ensures Claimed(Claimed(s)) == Claimed(s)
    ensures NewlyClaimed(Claimed(s)) == {}
  {
    var c := Claimed(s);
    forall k | 0 <= k < |s|
      ensures Claimed(c)[k] == c[k]
    {
      ClaimedAt(s, k);
      ClaimedAt(c, k);
      assert Claimed(c)[k] == Node(c[k].available, c[k].populated);
    }
    forall i | 0 <= i < |c|
      ensures c[i].populated || !c[i].available
    {
      ClaimedAt(s, i);
    }
  }

  /** `of_node_test_and_set_flag(node, OF_POPULATED)`, taken as one sequential
      step: set the flag on `nodes[i]` and report whether it was already set. */
  method TestAndSetPopulated(nodes: array<Node>, i: int) returns (was: bool)
    requires 0 <= i < nodes.Length
    modifies nodes
    ensures was == old(nodes[i].populated)
    ensures nodes[i] == old(nodes[i]).(populated := true)
    ensures forall k :: 0 <= k < nodes.Length && k != i ==> nodes[k] == old(nodes[k])
  {
    was := nodes[i].populated;
    nodes[i] := nodes[i].(populated := true);
  }

  /** `spislave_device_match`: walk the available child nodes of `dev`,
      test-and-set each one's populated flag, and return 1 whatever happened.
      `claimed` collects the nodes found unclaimed. */
  method DeviceMatch(dev: SpiSlave, drv: SpiSlaveDriver) returns (r: int, ghost claimed: set<int>)
    modifies dev.children
    ensures r == 1
    ensures dev.children[..] == Claimed(old(dev.children[..]))
    ensures claimed == NewlyClaimed(old(dev.children[..]))
  {
    var nodes := dev.children;
    ghost var before := nodes[..];
    claimed := {};
    var i := 0;
    while i < nodes.Length
      invariant 0 <= i <= nodes.Length
      invariant forall k :: 0 <= k < i ==>
                  nodes[k].available == before[k].available &&
                  nodes[k].populated == (before[k].populated || before[k].available)
      invariant forall k :: i <= k < nodes.Length ==> nodes[k] == before[k]
      invariant claimed == set k | 0 <= k < i && before[k].available && !before[k].populated
    {
      if nodes[i].available {
        var was := TestAndSetPopulated(nodes, i);
        if !was {
          claimed := claimed + {i};
        }
      }
      i := i + 1;
    }
    r := 1;
    var after := Claimed(before);
    forall k | 0 <= k < nodes.Length
      ensures nodes[k] == after[k]
    {
      ClaimedAt(before, k);
      assert nodes[k] == Node(after[k].available, after[k].populated);
    }
    assert nodes[..] == after;
  }

  /** Two devices whose node pointers lead to the same children: once either has
      been matched, matching the other claims nothing and changes no flag. */
  method MatchShared(a: SpiSlave, b: SpiSlave, drv: SpiSlaveDriver)
      returns (ghost first: set<int>, ghost second: set<int>)
    requires a.children == b.children
    modifies a.children
    ensures first == NewlyClaimed(old(a.children[..]))
    ensures second == {}
    ensures a.children[..] == Claimed(old(a.children[..]))
  {
    var r;
    r, first := DeviceMatch(a, drv);
    r, second := DeviceMatch(b, drv);
    MatchIdempotent(old(a.children[..]));
  }
}
