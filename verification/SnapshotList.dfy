/** The list of snapshots a database hands out: a circular doubly linked list around a dummy head,
    oldest snapshot first. */
module SnapshotList {

  class SnapshotImpl {
    var prev: SnapshotImpl?
    var next: SnapshotImpl?
    const sequenceNumber: nat

    constructor (sequenceNumber: nat)
      ensures this.sequenceNumber == sequenceNumber
    {
      this.sequenceNumber := sequenceNumber;
      prev, next := null, null;
    }
  }

  ghost predicate Distinct(nodes: seq<SnapshotImpl>) {
    forall i, j :: 0 <= i < j < |nodes| ==> nodes[i] != nodes[j]
  }

  ghost predicate Ordered(snapshots: seq<SnapshotImpl>) {
    forall i, j :: 0 <= i < j < |snapshots| ==> snapshots[i].sequenceNumber <= snapshots[j].sequenceNumber
  }

  /** The nodes form a ring, in this order. */
  ghost predicate Linked(nodes: seq<SnapshotImpl>)
    reads nodes
  {
    forall i :: 0 <= i < |nodes| ==> Joined(nodes[i], nodes[Succ(nodes, i)])
  }

  predicate Joined(a: SnapshotImpl, b: SnapshotImpl)
    reads a, b
  {
    a.next == b && b.prev == a
  }

  function Succ(nodes: seq<SnapshotImpl>, i: nat): (j: nat)
    requires i < |nodes|
    ensures j < |nodes|
  {
    if i + 1 == |nodes| then 0 else i + 1
  }

  ghost function Without<T>(s: seq<T>, i: nat): (r: seq<T>)
    requires i < |s|
    ensures |r| == |s| - 1
    ensures forall j :: 0 <= j < |r| ==> r[j] == s[if j < i then j else j + 1]
  {
    s[..i] + s[i + 1..]
  }

  class List {
    const head: SnapshotImpl
    ghost var nodes: seq<SnapshotImpl>    // the head, then the snapshots from oldest to newest

    ghost predicate Valid()
      reads this, nodes
    {
      && nodes != [] && nodes[0] == head
      && Distinct(nodes) && Linked(nodes) && Ordered(nodes[1..])
    }

    /** The snapshots held, oldest first. */
    ghost function Snapshots(): seq<SnapshotImpl>
      reads this
      requires nodes != []
    {
      nodes[1..]
    }

    constructor ()
      ensures Valid() && Snapshots() == [] && fresh(nodes)
    {
      var h := new SnapshotImpl(0);
      h.prev := h;
      h.next := h;
      head := h;
      nodes := [h];
    }

    predicate Empty()
      requires Valid()
      reads this, nodes
      ensures Empty() <==> Snapshots() == []
    {
      assert Joined(nodes[0], nodes[Succ(nodes, 0)]);
      head.next == head
    }

    method Oldest() returns (s: SnapshotImpl)
      requires Valid() && Snapshots() != []
      ensures s == Snapshots()[0]
      ensures forall t :: t in Snapshots() ==> s.sequenceNumber <= t.sequenceNumber
    {
      assert Joined(nodes[0], nodes[Succ(nodes, 0)]);
      s := head.next;
    }

    method Newest() returns (s: SnapshotImpl)
      requires Valid() && Snapshots() != []
      ensures s == Snapshots()[|Snapshots()| - 1]
      ensures forall t :: t in Snapshots() ==> t.sequenceNumber <= s.sequenceNumber
    {
      assert Joined(nodes[|nodes| - 1], nodes[Succ(nodes, |nodes| - 1)]);
      s := head.prev;
    }

    method New(sequenceNumber: nat) returns (snapshot: SnapshotImpl)
      requires Valid()
      requires forall t :: t in Snapshots() ==> t.sequenceNumber <= sequenceNumber
      modifies this, nodes
      ensures Valid() && fresh(snapshot) && snapshot.sequenceNumber == sequenceNumber
      ensures Snapshots() == old(Snapshots()) + [snapshot]
    {
      snapshot := new SnapshotImpl(sequenceNumber);
      ghost var last := |nodes| - 1;
      assert Joined(nodes[last], nodes[Succ(nodes, last)]);
      snapshot.next := head;
      snapshot.prev := head.prev;
      snapshot.prev.next := snapshot;
      snapshot.next.prev := snapshot;
      ghost var ring := nodes;
      nodes := ring + [snapshot];
      Appended(ring, snapshot);
    }

    method Delete(snapshot: SnapshotImpl)
      requires Valid() && snapshot in Snapshots()
      modifies this, nodes
      ensures Valid()
      ensures exists i :: 0 <= i < |old(Snapshots())| && old(Snapshots())[i] == snapshot
                       && Snapshots() == Without(old(Snapshots()), i)
      ensures snapshot !in Snapshots()
    {
      hide Without, Distinct, Ordered;
      ghost var i :| 1 <= i < |nodes| && nodes[i] == snapshot;
      ghost var ring := nodes;
      Neighbours(ring, i);
      TakeOut(ring, i);
      snapshot.prev.next := snapshot.next;
      snapshot.next.prev := snapshot.prev;
      nodes := Without(ring, i);
      Unlinked(ring, i);
    }
  }

  lemma Neighbours(nodes: seq<SnapshotImpl>, i: nat)
    requires 1 <= i < |nodes| && Linked(nodes) && Distinct(nodes)
    ensures nodes[i].next == nodes[Succ(nodes, i)] && nodes[i].prev == nodes[i - 1]
    ensures forall j :: 0 <= j < |nodes| ==> (nodes[j] == nodes[i - 1] <==> j == i - 1)
    ensures forall j :: 0 <= j < |nodes| ==> (nodes[j] == nodes[Succ(nodes, i)] <==> j == Succ(nodes, i))
  {
    assert Joined(nodes[i - 1], nodes[Succ(nodes, i - 1)]) && Joined(nodes[i], nodes[Succ(nodes, i)]);
  }

  /** A ring stays a ring when a node is joined in behind the last one. */
  lemma Appended(nodes: seq<SnapshotImpl>, last: SnapshotImpl)
    requires nodes != []
    requires Joined(nodes[|nodes| - 1], last) && Joined(last, nodes[0])
    requires forall j :: 0 <= j < |nodes| - 1 ==> Joined(nodes[j], nodes[Succ(nodes, j)])
    ensures Linked(nodes + [last])
  {
    hide Joined;
    var ring, n := nodes + [last], |nodes|;
    forall j | 0 <= j <= n
      ensures Joined(ring[j], ring[Succ(ring, j)])
    {
      if j < n - 1 {
        assert Joined(nodes[j], nodes[Succ(nodes, j)]);
      }
    }
  }

  lemma TakeOut(nodes: seq<SnapshotImpl>, i: nat)
    requires 1 <= i < |nodes| && Distinct(nodes) && Ordered(nodes[1..])
    ensures var rest := Without(nodes, i);
      && rest[0] == nodes[0] && rest[1..] == Without(nodes[1..], i - 1)
      && Ordered(rest[1..]) && nodes[i] !in rest
  {
  }

  /** A ring stays a ring without node `i` once its neighbours are joined. */
  lemma Unlinked(nodes: seq<SnapshotImpl>, i: nat)
    requires 1 <= i < |nodes| && Distinct(nodes)
    requires Joined(nodes[i - 1], nodes[Succ(nodes, i)])
    requires forall j :: 0 <= j < |nodes| && j != i && Succ(nodes, j) != i ==> Joined(nodes[j], nodes[Succ(nodes, j)])
    ensures Distinct(Without(nodes, i)) && Linked(Without(nodes, i))
  {
    hide Joined;
    var rest := Without(nodes, i);
    forall j | 0 <= j < |rest|
      ensures Joined(rest[j], rest[Succ(rest, j)])
    {
      var from := if j < i then j else j + 1;
      assert rest[j] == nodes[from];
      assert rest[Succ(rest, j)] == nodes[if from == i - 1 then Succ(nodes, i) else Succ(nodes, from)];
    }
  }
}
