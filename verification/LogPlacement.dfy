/** Where the physical records of a log lie, and what the reader meets at each of these places. */
module LogPlacement {
  import opened Bytes
  import opened LogFormat
  import opened LogReader

  ghost predicate Sound(ps: seq<Phys>) {
    forall i :: 0 <= i < |ps| ==> FULL_TYPE <= ps[i].t <= LAST_TYPE && |ps[i].payload| <= BLOCK_SIZE - HEADER_SIZE
  }

  /** Where the next header goes in a file of `pos` bytes. */
  function AfterPad(pos: nat): (at: nat)
    ensures at >= pos
  {
    pos + Pad(pos % BLOCK_SIZE)
  }

  /** Offset in the file of the first byte after the first `i` physical records. */
  ghost function EndAt(ps: seq<Phys>, i: nat): nat
    requires i <= |ps|
  {
    if i == 0 then 0 else AfterPad(EndAt(ps, i - 1)) + HEADER_SIZE + |ps[i - 1].payload|
  }

  /** Offset in the file of the header of physical record `i`. */
  ghost function HeaderAt(ps: seq<Phys>, i: nat): (at: nat)
    requires i < |ps|
  {
    AfterPad(EndAt(ps, i))
  }

  /** `log` consists of the physical records `ps`, each where it belongs and inside its block. */
  ghost predicate Placed(crc: Crc, log: Slice, ps: seq<Phys>) {
    && Sound(ps)
    && |log| == EndAt(ps, |ps|)
    && forall i :: 0 <= i < |ps| ==> PlacedAt(crc, log, ps, i)
  }

  ghost predicate PlacedAt(crc: Crc, log: Slice, ps: seq<Phys>, i: nat)
    requires i < |ps| && |ps[i].payload| <= BLOCK_SIZE - HEADER_SIZE
  {
    && EndAt(ps, i + 1) <= BlockLimit(HeaderAt(ps, i))
    && EndAt(ps, i + 1) <= |log|
    && log[HeaderAt(ps, i)..EndAt(ps, i + 1)] == PhysBytes(crc, ps[i])
  }

  lemma {:induction false} EndMonotone(ps: seq<Phys>, i: nat, j: nat)
    requires i <= j <= |ps|
    ensures EndAt(ps, i) <= EndAt(ps, j)
    ensures i < j ==> EndAt(ps, i) <= HeaderAt(ps, i) < EndAt(ps, j)
    decreases j
  {
    hide AfterPad;
    if i < j {
      EndMonotone(ps, i, j - 1);
    }
  }

  lemma EndStep(ps: seq<Phys>, i: nat)
    requires i < |ps|
    ensures EndAt(ps, i) <= HeaderAt(ps, i)
    ensures EndAt(ps, i + 1) == HeaderAt(ps, i) + HEADER_SIZE + |ps[i].payload|
  {
  }

  lemma {:induction false} EndOfPrefix(ps: seq<Phys>, k: nat, i: nat)
    requires i <= k <= |ps|
    ensures EndAt(ps[..k], i) == EndAt(ps, i)
    decreases i
  {
    hide AfterPad;
    if i > 0 {
      EndOfPrefix(ps, k, i - 1);
    }
  }

  /** The writer's layout places every physical record. */
  lemma {:induction false} LayoutIsPlaced(crc: Crc, ps: seq<Phys>)
    requires Fits(0, ps)
    ensures Placed(crc, Layout(crc, 0, ps), ps)
    decreases |ps|
  {
    hide PhysBytes, Zeros, Placed;
    if ps == [] {
      NothingPlaced(crc);
    } else {
      var n := |ps| - 1;
      var before, p := ps[..n], ps[n];
      assert ps == before + [p];
      FitsSplit(0, before, [p]);
      LayoutAppend(crc, 0, before, [p]);
      LayoutEnd(crc, 0, before);
      LayoutIsPlaced(crc, before);
      SingleLayout(crc, EndOff(0, before), p);
      LastPlaced(crc, Layout(crc, 0, before), before, p);
    }
  }

  lemma NothingPlaced(crc: Crc)
    ensures Placed(crc, [], [])
  {
  }

  lemma {:induction false} FitsSplit(off: nat, a: seq<Phys>, b: seq<Phys>)
    requires off < BLOCK_SIZE && Fits(off, a + b)
    ensures Fits(off, a) && Fits(EndOff(off, a), b)
    decreases |a|
  {
    if a == [] {
      assert a + b == b;
    } else {
      assert (a + b)[1..] == a[1..] + b;
      FitsSplit(NextOff(off, a[0]), a[1..], b);
    }
  }

  lemma {:induction false} SingleLayout(crc: Crc, off: nat, p: Phys)
    requires off < BLOCK_SIZE && Fits(off, [p])
    ensures Layout(crc, off, [p]) == Zeros(Pad(off)) + PhysBytes(crc, p)
  {
    assert [p][1..] == [];
    assert Layout(crc, NextOff(off, p), [p][1..]) == [];
  }

  lemma {:induction false} LastPlaced(crc: Crc, log: Slice, ps: seq<Phys>, p: Phys)
    requires Placed(crc, log, ps)
    requires Fits(|log| % BLOCK_SIZE, [p])
    ensures Placed(crc, log + (Zeros(Pad(|log| % BLOCK_SIZE)) + PhysBytes(crc, p)), ps + [p])
  {
    hide PhysBytes, Zeros, EndAt;
    var log' := log + (Zeros(Pad(|log| % BLOCK_SIZE)) + PhysBytes(crc, p));
    forall i | 0 <= i < |ps|
      ensures PlacedAt(crc, log', ps + [p], i)
    {
      PlacedExtends(crc, log, ps, log', ps + [p], i);
    }
    assert (ps + [p])[..|ps|] == ps;
    EndOfPrefix(ps + [p], |ps|, |ps|);
    EndOfLast(ps, p);
    assert log'[HeaderAt(ps + [p], |ps|)..] == PhysBytes(crc, p);
    HeaderFits(|log|, |p.payload|);
  }

  lemma {:induction false} EndOfLast(ps: seq<Phys>, p: Phys)
    ensures var n := |ps|;
      EndAt(ps + [p], n + 1) == HeaderAt(ps + [p], n) + HEADER_SIZE + |p.payload|
  {
  }

  lemma HeaderFits(pos: nat, length: nat)
    requires length <= Avail(pos % BLOCK_SIZE)
    ensures AfterPad(pos) + HEADER_SIZE + length <= BlockLimit(AfterPad(pos))
  {
    if BLOCK_SIZE - pos % BLOCK_SIZE < HEADER_SIZE {
      NextBlock(AfterPad(pos));
    }
  }

  lemma PlacedExtends(crc: Crc, log: Slice, ps: seq<Phys>, log': Slice, ps': seq<Phys>, i: nat)
    requires ps <= ps' && log <= log' && i < |ps|
    requires |ps[i].payload| <= BLOCK_SIZE - HEADER_SIZE && PlacedAt(crc, log, ps, i)
    ensures PlacedAt(crc, log', ps', i)
  {
    hide PhysBytes, AfterPad, EndAt;
    assert ps'[..|ps|] == ps;
    EndOfPrefix(ps', |ps|, i);
    EndOfPrefix(ps', |ps|, i + 1);
    EndMonotone(ps, i, i + 1);
    var from, to := HeaderAt(ps, i), EndAt(ps, i + 1);
    assert log'[..|log|] == log;
    assert log'[from..to] == log[from..to];
  }

  // ----- what the reader meets -----

  ghost function FragmentEvents(ps: seq<Phys>): (events: seq<Event>)
    ensures |events| == |ps|
  {
    seq(|ps|, i requires 0 <= i < |ps| => Fragment(ps[i].t, ps[i].payload))
  }

  lemma PadReachesLimit(pos: nat)
    ensures AfterPad(pos) == pos || (AfterPad(pos) == BlockLimit(pos) && AfterPad(pos) - pos < HEADER_SIZE)
  {
    assert pos == pos / BLOCK_SIZE * BLOCK_SIZE + pos % BLOCK_SIZE;
  }

  /** The reader passes over a trailer, whatever is in it. */
  lemma {:induction false} SkipPad(crc: Crc, data: Slice, pos: nat)
    requires AfterPad(pos) <= |data|
    ensures EventsAt(crc, data, pos) == EventsAt(crc, data, AfterPad(pos))
  {
    hide ParseBuffer, AfterPad, BlockLimit;
    PadReachesLimit(pos);
  }

  lemma ParsePhysBytes(crc: Crc, p: Phys, rest: Slice)
    requires FULL_TYPE <= p.t <= LAST_TYPE && |p.payload| < 65536
    ensures ParseBuffer(crc, PhysBytes(crc, p) + rest) == Good(p.t, p.payload)
    ensures PayloadLength(PhysBytes(crc, p)) == |p.payload|
  {
    var buffer, stored, n := PhysBytes(crc, p) + rest, Stored(crc, p.t, p.payload), |p.payload|;
    Pow256Values();
    FixedRoundTrip(4, stored);
    assert buffer[..4] == EncodeFixed(4, stored);
    assert buffer[6..HEADER_SIZE + n] == [p.t] + p.payload;
    UnmaskMask(crc([p.t] + p.payload));
    assert buffer[HEADER_SIZE..HEADER_SIZE + n] == p.payload;
  }

  /** An intact physical record is delivered, and reading goes on behind it. */
  lemma ReadPlaced(crc: Crc, data: Slice, ps: seq<Phys>, i: nat)
    requires i < |ps| && Sound(ps) && PlacedAt(crc, data, ps, i)
    ensures EndAt(ps, i) <= EndAt(ps, i + 1) <= |data|
    ensures EventsAt(crc, data, EndAt(ps, i))
         == [Fragment(ps[i].t, ps[i].payload)] + EventsAt(crc, data, EndAt(ps, i + 1))
  {
    hide ParseBuffer, PhysBytes, AfterPad, BlockLimit;
    var at, next := HeaderAt(ps, i), EndAt(ps, i + 1);
    SkipPad(crc, data, EndAt(ps, i));
    var end := BlockEnd(data, at);
    assert data[at..end] == PhysBytes(crc, ps[i]) + data[next..end];
    ParsePhysBytes(crc, ps[i], data[next..end]);
  }

  lemma {:induction false} AtTheEnd(crc: Crc, data: Slice)
    ensures EventsAt(crc, data, |data|) == [End]
  {
  }
}
