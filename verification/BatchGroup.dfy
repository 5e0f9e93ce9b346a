/** Which of the queued writers the one at the head of the queue writes for. */
module BatchGroup {
  import opened Bytes
  import opened Varint

  datatype Op = Put(key: Slice, value: Slice) | Delete(key: Slice)

  /** A null batch asks for a memtable switch only. */
  datatype Writer = Writer(batch: Option<seq<Op>>, sync: bool)

  const BATCH_HEADER := 12
  const LARGE_GROUP := 0x10_0000
  const SMALL_BATCH := 0x2_0000

  function OpsBytes(ops: seq<Op>): nat {
    if ops == [] then 0
    else
      var op := ops[|ops| - 1];
      OpsBytes(ops[..|ops| - 1]) + 1 + |LengthPrefixed(op.key)| + if op.Put? then |LengthPrefixed(op.value)| else 0
  }

  function ByteSize(ops: seq<Op>): nat {
    BATCH_HEADER + OpsBytes(ops)
  }

  function MaxGroupBytes(first: seq<Op>): nat {
    if ByteSize(first) <= SMALL_BATCH then ByteSize(first) + SMALL_BATCH else LARGE_GROUP
  }

  function OpsOf(w: Writer): seq<Op> {
    if w.batch.Some? then w.batch.value else []
  }

  /** The operations of the first `n` writers, in queue order. */
  function GroupOps(ws: seq<Writer>, n: nat): seq<Op>
    requires n <= |ws|
  {
    if n == 0 then [] else GroupOps(ws, n - 1) + OpsOf(ws[n - 1])
  }

  function GroupBytes(ws: seq<Writer>, n: nat): nat
    requires n <= |ws|
  {
    if n == 0 then 0 else GroupBytes(ws, n - 1) + if ws[n - 1].batch.Some? then ByteSize(ws[n - 1].batch.value) else 0
  }

  /** Writer `j` may not ride in the group: it wants a sync and the leader does not, or it is too much. */
  predicate Stops(ws: seq<Writer>, j: nat)
    requires j < |ws| && ws[0].batch.Some?
  {
    || (ws[j].sync && !ws[0].sync)
    || (ws[j].batch.Some? && GroupBytes(ws, j + 1) > MaxGroupBytes(ws[0].batch.value))
  }

  /** The first `n` writers form a group that could not be longer. */
  ghost predicate IsGroup(ws: seq<Writer>, n: nat) {
    && 0 < n <= |ws| && ws[0].batch.Some?
    && (forall j :: 1 <= j < n ==> !Stops(ws, j))
    && (n < |ws| ==> Stops(ws, n))
  }

  lemma OneMore(ws: seq<Writer>, n: nat)
    requires n < |ws|
    ensures GroupOps(ws, n + 1) == GroupOps(ws, n) + OpsOf(ws[n])
    ensures GroupBytes(ws, n + 1) == GroupBytes(ws, n) + if ws[n].batch.Some? then ByteSize(ws[n].batch.value) else 0
    ensures GroupOps(ws, 0) == [] && GroupBytes(ws, 0) == 0
  {
  }

  /** `copied`: the group's batch is a copy, and the leader's own batch is left alone. */
  method BuildBatchGroup(ws: seq<Writer>) returns (result: seq<Op>, n: nat, copied: bool)
    requires ws != [] && ws[0].batch.Some?
    ensures IsGroup(ws, n)
    ensures result == GroupOps(ws, n)
    ensures copied <==> exists j :: 1 <= j < n && ws[j].batch.Some?
  {
    hide ByteSize, GroupOps, GroupBytes;
    OneMore(ws, 0);
    var first := ws[0];
    result := first.batch.value;
    copied := false;
    var size := ByteSize(first.batch.value);
    var maxSize := LARGE_GROUP;
    if size <= SMALL_BATCH {
      maxSize := size + SMALL_BATCH;
    }
    n := 1;
    while n < |ws|
      invariant 1 <= n <= |ws|
      invariant maxSize == MaxGroupBytes(first.batch.value)
      invariant size == GroupBytes(ws, n) && result == GroupOps(ws, n)
      invariant forall j :: 1 <= j < n ==> !Stops(ws, j)
      invariant copied <==> exists j :: 1 <= j < n && ws[j].batch.Some?
    {
      OneMore(ws, n);
      var w := ws[n];
      if w.sync && !first.sync {
        break;
      }
      if w.batch.Some? {
        size := size + ByteSize(w.batch.value);
        if size > maxSize {
          break;
        }
        copied := true;
        result := result + w.batch.value;
      }
      n := n + 1;
    }
  }

  // ----- in plain numbers -----

  /** The contents of a write batch: sequence number, count, and the operations, each with its type. */
  function BatchBytes(sequence: nat, count: nat, ops: seq<Op>): Slice {
    EncodeFixed(8, sequence) + EncodeFixed(4, count) + OpsContents(ops)
  }

  function OpsContents(ops: seq<Op>): Slice {
    if ops == [] then []
    else
      var op := ops[|ops| - 1];
      OpsContents(ops[..|ops| - 1]) + ([if op.Put? then 1 else 0] + LengthPrefixed(op.key))
      + (if op.Put? then LengthPrefixed(op.value) else [])
  }

  /** What is counted as a batch's size is the length of its contents. */
  lemma {:induction false} SizeIsLength(sequence: nat, count: nat, ops: seq<Op>)
    ensures ByteSize(ops) == |BatchBytes(sequence, count, ops)|
  {
    hide LengthPrefixed;
    if ops != [] {
      SizeIsLength(sequence, count, ops[..|ops| - 1]);
    }
  }

  /** A leader with a batch of at most 128 KiB takes at most 128 KiB more; any other takes a group of at most 1 MiB. A
      writer behind the group did not fit, or wants a sync that the leader does not. */
  lemma GroupBounds(ws: seq<Writer>, n: nat)
    requires IsGroup(ws, n)
    ensures var size := ByteSize(ws[0].batch.value);
      var limit := if size <= 131072 then size + 131072 else 1048576;
      && (1 < n && ws[n - 1].batch.Some? ==> GroupBytes(ws, n) <= limit)
      && (n < |ws| ==> (ws[n].sync && !ws[0].sync) || (ws[n].batch.Some? && GroupBytes(ws, n + 1) > limit))
  {
    hide ByteSize, GroupBytes;
    if 1 < n {
      assert !Stops(ws, n - 1);
    }
  }

  /** A group led by a writer that does not sync holds no writer that does; there is one group only. */
  lemma {:induction false} GroupIsSound(ws: seq<Writer>, n: nat, n': nat)
    requires IsGroup(ws, n) && IsGroup(ws, n')
    ensures n == n'
    ensures forall j :: 0 <= j < n && ws[j].sync ==> ws[0].sync
    ensures 1 < n && ws[n - 1].batch.Some? ==> GroupBytes(ws, n) <= MaxGroupBytes(ws[0].batch.value)
  {
    forall j | 0 <= j < n && ws[j].sync
      ensures ws[0].sync
    {
      assert j > 0 ==> !Stops(ws, j);
    }
    if 1 < n {
      assert !Stops(ws, n - 1);
    }
    if n < n' {
    } else if n' < n {
    }
  }
}
