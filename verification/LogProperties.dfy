/** What a reader gets back from a log: all of it, what is left of it after a cut, and what is left
    of it after one block was overwritten. */
module LogProperties {
  import opened Bytes
  import opened LogFormat
  import opened LogReader
  import opened LogPlacement
  import opened LogDamage
  import opened LogAssembly

  lemma {:induction false} LogIsPlaced(crc: Crc, records: seq<Slice>)
    ensures Placed(crc, LogBytes(crc, records), AllFragments(records))
  {
    LayoutIsPlaced(crc, AllFragments(records));
  }

  /** The last physical record of the first k records ends where the log of these k records ends. */
  lemma {:induction false} RecordEnd(crc: Crc, records: seq<Slice>, k: nat)
    requires k <= |records|
    ensures PhysCount(records, k) <= |AllFragments(records)|
    ensures EndAt(AllFragments(records), PhysCount(records, k)) == |LogBytes(crc, records[..k])|
  {
    hide EndAt, AllFragments, PlacedAt;
    CountMonotone(records, k, |records|);
    assert records[..|records|] == records;
    LogIsPlaced(crc, records[..k]);
    var ps, count := AllFragments(records), PhysCount(records, k);
    assert ps[..count] == AllFragments(records[..k]);
    EndOfPrefix(ps, count, count);
  }

  /** Cutting a log at any byte loses exactly the records that do not end before the cut, and nothing is
      reported as corrupt. */
  lemma Truncation(crc: Crc, records: seq<Slice>, cut: nat) returns (n: nat)
    requires cut <= |LogBytes(crc, records)|
    ensures n <= |records| && |LogBytes(crc, records[..n])| <= cut
    ensures n < |records| ==> cut < |LogBytes(crc, records[..n + 1])|
    ensures ReadAll(crc, LogBytes(crc, records)[..cut]) == Output(records[..n], [])
  {
    hide EventsAt, Assemble, Placed, AllFragments, EndAt, LogBytes;
    var log, ps := LogBytes(crc, records), AllFragments(records);
    LogIsPlaced(crc, records);
    StartOfLog(ps);
    var m := CutEvents(crc, log, ps, log[..cut], 0);
    assert ps[0..m] == ps[..m];
    n := BrokenLog(records, m, [End]);
    assert records[..n] + [] == records[..n];
    RecordEnd(crc, records, n);
    EndMonotone(ps, PhysCount(records, n), m);
    if n < |records| {
      RecordEnd(crc, records, n + 1);
      EndMonotone(ps, m + 1, PhysCount(records, n + 1));
    }
  }

  lemma {:induction false} StartOfLog(ps: seq<Phys>)
    ensures EndAt(ps, 0) == 0
  {
  }

  /** Reading a log returns the records written, in order, and reports nothing. */
  lemma RoundTrip(crc: Crc, records: seq<Slice>)
    ensures ReadAll(crc, LogBytes(crc, records)) == Output(records, [])
  {
    hide EventsAt, Assemble, AllFragments, EndAt, LogBytes;
    var log, ps := LogBytes(crc, records), AllFragments(records);
    var n := Truncation(crc, records, |log|);
    assert log[..|log|] == log && records[..|records|] == records;
    if n < |records| {
      RecordEnd(crc, records, n + 1);
      RecordEnd(crc, records, |records|);
      EndMonotone(ps, PhysCount(records, n + 1), |ps|);
    }
  }

  /** Some fragment of record `k` lies in the block at `lo`. */
  ghost predicate Touches(records: seq<Slice>, k: nat, lo: nat)
    requires k < |records|
  {
    exists i :: PhysCount(records, k) <= i < PhysCount(records, k + 1)
             && i < |AllFragments(records)| && InBlockAt(AllFragments(records), i, lo)
  }

  /** Overwriting one block loses only records with a fragment in that block, and adds none. */
  lemma DamageConfined(crc: Crc, records: seq<Slice>, data: Slice, lo: nat) returns (a: nat, b: nat)
    requires DamagedBlock(LogBytes(crc, records), data, lo)
    requires NoForgery(crc, AllFragments(records), data, lo)
    ensures a <= b <= |records|
    ensures forall k :: a <= k < b ==> Touches(records, k, lo)
    ensures ReadAll(crc, data).records == records[..a] + records[b..]
  {
    hide EventsAt, Assemble, Placed, AllFragments, EndAt, LogBytes, DamagedBlock, NoForgery, InBlockAt;
    var ps := AllFragments(records);
    LogIsPlaced(crc, records);
    StartOfLog(ps);
    var i, j, gap := DamagedEvents(crc, LogBytes(crc, records), ps, data, lo, 0);
    assert ps[0..i] == ps[..i];
    var tail := gap + (FragmentEvents(ps[j..]) + [End]);
    assert EventsAt(crc, data, 0) == FragmentEvents(ps[..i]) + tail;
    assert gap == [] ==> tail == [End];
    a := BrokenLog(records, i, tail);
    b := |records|;
    if gap != [] {
      assert tail[1..] == FragmentEvents(ps[j..]) + [End];
      b := HeadlessLog(records, j, [End]);
      BreakHere([End], false, []);
      assert records[b..] + [] == records[b..];
      if b < a {
        CountMonotone(records, b, a);
      }
    }
    LostRecords(records, i, j, a, b, lo);
  }

  lemma {:induction false} LostRecords(records: seq<Slice>, i: nat, j: nat, a: nat, b: nat, lo: nat)
    requires i <= j <= |AllFragments(records)|
    requires i < j || j == |AllFragments(records)|
    requires forall m :: i <= m < j ==> InBlockAt(AllFragments(records), m, lo)
    requires a <= b <= |records| && (a < |records| ==> i < PhysCount(records, a + 1))
    requires (b == |records| && j == |AllFragments(records)|) || (b > 0 ==> PhysCount(records, b - 1) < j)
    ensures forall k :: a <= k < b ==> Touches(records, k, lo)
  {
    hide AllFragments, InBlockAt;
    forall k | a <= k < b
      ensures Touches(records, k, lo)
    {
      CountMonotone(records, a + 1, k + 1);
      CountMonotone(records, k, k + 1);
      CountMonotone(records, k, b - 1);
      CountMonotone(records, k + 1, |records|);
      assert records[..|records|] == records;
      var m := if i < PhysCount(records, k) then PhysCount(records, k) else i;
      assert InBlockAt(AllFragments(records), m, lo);
    }
  }
}
