/** What the physical layer of the reader delivers from a log that was cut short or damaged. */
module LogDamage {
  import opened Bytes
  import opened LogFormat
  import opened LogReader
  import opened LogChecksum
  import opened LogPlacement

  // ----- physical layer -----

  lemma EventsSplit(ps: seq<Phys>, i: nat, m: nat)
    requires i < m <= |ps|
    ensures FragmentEvents(ps[i..m]) == [Fragment(ps[i].t, ps[i].payload)] + FragmentEvents(ps[i + 1..m])
  {
  }

  /** A log cut off at byte |data| yields the physical records that end before the cut. */
  lemma {:induction false} CutEvents(crc: Crc, log: Slice, ps: seq<Phys>, data: Slice, i: nat) returns (m: nat)
    requires Placed(crc, log, ps) && data <= log
    requires i <= |ps| && EndAt(ps, i) <= |data|
    ensures i <= m <= |ps| && EndAt(ps, m) <= |data|
    ensures m < |ps| ==> |data| < EndAt(ps, m + 1)
    ensures EventsAt(crc, data, EndAt(ps, i)) == FragmentEvents(ps[i..m]) + [End]
    decreases |ps| - i
  {
    hide ParseBuffer, PhysBytes, AfterPad, BlockLimit, EventsAt, EndAt;
    if i == |ps| {
      m := i;
      AtTheEnd(crc, data);
    } else if EndAt(ps, i + 1) <= |data| {
      assert PlacedAt(crc, log, ps, i);
      assert data[HeaderAt(ps, i)..EndAt(ps, i + 1)] == log[HeaderAt(ps, i)..EndAt(ps, i + 1)] by {
        EndMonotone(ps, i, i + 1);
      }
      ReadPlaced(crc, data, ps, i);
      m := CutEvents(crc, log, ps, data, i + 1);
      EventsSplit(ps, i, m);
    } else {
      m := i;
      CutInside(crc, log, ps, data, i);
    }
  }

  /** A physical record that is cut short looks like the end of the file. */
  lemma CutInside(crc: Crc, log: Slice, ps: seq<Phys>, data: Slice, i: nat)
    requires Placed(crc, log, ps) && data <= log
    requires i < |ps| && EndAt(ps, i) <= |data| < EndAt(ps, i + 1)
    ensures EventsAt(crc, data, EndAt(ps, i)) == [End]
  {
    hide PhysBytes, EndAt;
    var at, next := HeaderAt(ps, i), EndAt(ps, i + 1);
    assert PlacedAt(crc, log, ps, i);
    if |data| < at {
      CutInPad(crc, data, EndAt(ps, i));
    } else {
      SkipPad(crc, data, EndAt(ps, i));
      if |data| - at >= HEADER_SIZE {
        assert data == log[..|data|];
        ParsePhysBytes(crc, ps[i], []);
        assert PayloadLength(data[at..]) == PayloadLength(log[at..next]);
      }
    }
  }

  lemma {:induction false} CutInPad(crc: Crc, data: Slice, pos: nat)
    requires pos <= |data| < AfterPad(pos)
    ensures EventsAt(crc, data, pos) == [End]
  {
    hide ParseBuffer, AfterPad, BlockLimit;
    PadReachesLimit(pos);
  }

  /** `data` is `log` with any bytes in the block that starts at `lo` overwritten. */
  ghost predicate DamagedBlock(log: Slice, data: Slice, lo: nat) {
    && lo % BLOCK_SIZE == 0
    && |data| == |log|
    && forall k :: 0 <= k < |log| && !(lo <= k < lo + BLOCK_SIZE) ==> data[k] == log[k]
  }

  ghost predicate InBlockAt(ps: seq<Phys>, i: nat, lo: nat)
    requires i < |ps|
  {
    lo <= HeaderAt(ps, i) < lo + BLOCK_SIZE
  }

  /** Where the writer put a physical record into the block at `lo`, the stored checksum fits no type and payload but
      those written. */
  ghost predicate NoForgery(crc: Crc, ps: seq<Phys>, data: Slice, lo: nat) {
    forall i :: 0 <= i < |ps| && InBlockAt(ps, i, lo) && ChecksumFits(crc, data, HeaderAt(ps, i)) ==>
      Covered(data, HeaderAt(ps, i)) == [ps[i].t] + ps[i].payload
  }

  /** So the reader accepts nothing else there. */
  lemma AcceptsWhatWasWritten(crc: Crc, ps: seq<Phys>, data: Slice, lo: nat, i: nat)
    requires NoForgery(crc, ps, data, lo) && i < |ps| && InBlockAt(ps, i, lo) && HeaderAt(ps, i) <= |data|
    ensures var parsed := ParsedAt(crc, data, HeaderAt(ps, i));
      parsed.Good? ==> parsed == Good(ps[i].t, ps[i].payload)
  {
    hide ParsedAt, ChecksumFits, Covered, Blank, HeaderAt;
    var at := HeaderAt(ps, i);
    var parsed := ParsedAt(crc, data, at);
    AcceptedIffChecked(crc, data, at);
    if parsed.Good? {
      SameParts(parsed.t, parsed.payload, ps[i].t, ps[i].payload);
    }
  }

  lemma SameParts(t: byte, payload: Slice, t': byte, payload': Slice)
    ensures [t] + payload == [t'] + payload' ==> t == t' && payload == payload'
  {
    assert ([t] + payload)[1..] == payload && ([t'] + payload')[1..] == payload';
    assert ([t] + payload)[0] == t && ([t'] + payload')[0] == t';
  }

  lemma LimitBelow(pos: nat, lo: nat)
    requires pos < lo && lo % BLOCK_SIZE == 0
    ensures BlockLimit(pos) <= lo
  {
  }

  lemma LimitInBlock(pos: nat, lo: nat)
    requires lo <= pos < lo + BLOCK_SIZE && lo % BLOCK_SIZE == 0
    ensures BlockLimit(pos) == lo + BLOCK_SIZE
  {
  }

  /** Outside the damaged block physical records are intact. */
  lemma Intact(crc: Crc, log: Slice, ps: seq<Phys>, data: Slice, lo: nat, i: nat)
    requires Placed(crc, log, ps) && DamagedBlock(log, data, lo)
    requires i < |ps| && !InBlockAt(ps, i, lo)
    ensures PlacedAt(crc, data, ps, i)
  {
    hide PhysBytes, AfterPad, BlockLimit, EndAt;
    assert PlacedAt(crc, log, ps, i);
    EndMonotone(ps, i, i + 1);
    if HeaderAt(ps, i) < lo {
      LimitBelow(HeaderAt(ps, i), lo);
    }
    assert data[HeaderAt(ps, i)..EndAt(ps, i + 1)] == log[HeaderAt(ps, i)..EndAt(ps, i + 1)];
  }

  /** Behind the damaged block everything is read as it was written. */
  lemma {:induction false} TailEvents(crc: Crc, log: Slice, ps: seq<Phys>, data: Slice, lo: nat, i: nat)
    requires Placed(crc, log, ps) && DamagedBlock(log, data, lo)
    requires i <= |ps| && (i < |ps| ==> HeaderAt(ps, i) >= lo + BLOCK_SIZE)
    ensures EndAt(ps, i) <= |data|
    ensures EventsAt(crc, data, EndAt(ps, i)) == FragmentEvents(ps[i..]) + [End]
    decreases |ps| - i
  {
    hide ParseBuffer, PhysBytes, AfterPad, BlockLimit, EventsAt, EndAt;
    EndMonotone(ps, i, |ps|);
    if i == |ps| {
      AtTheEnd(crc, data);
    } else {
      Intact(crc, log, ps, data, lo, i);
      ReadPlaced(crc, data, ps, i);
      if i + 1 < |ps| {
        EndMonotone(ps, i, i + 1);
        assert EndAt(ps, i + 1) <= HeaderAt(ps, i + 1) by { EndMonotone(ps, i + 1, i + 2); }
      }
      TailEvents(crc, log, ps, data, lo, i + 1);
      EventsSplit(ps, i, |ps|);
      assert ps[i..|ps|] == ps[i..] && ps[i + 1..|ps|] == ps[i + 1..];
    }
  }

  /** The first physical record behind the damaged block, and that the reader finds it after dropping the block. */
  lemma {:induction false} Resume(crc: Crc, log: Slice, ps: seq<Phys>, data: Slice, lo: nat, i: nat) returns (b: nat)
    requires Placed(crc, log, ps) && DamagedBlock(log, data, lo)
    requires i < |ps| && InBlockAt(ps, i, lo)
    ensures i < b <= |ps|
    ensures forall j :: i <= j < b ==> InBlockAt(ps, j, lo)
    ensures HeaderAt(ps, i) <= |data|
    ensures EventsAt(crc, data, BlockEnd(data, HeaderAt(ps, i))) == FragmentEvents(ps[b..]) + [End]
    decreases |ps| - i
  {
    hide ParseBuffer, PhysBytes, AfterPad, BlockLimit, EventsAt, EndAt;
    EndMonotone(ps, i, i + 1);
    EndMonotone(ps, i + 1, |ps|);
    assert PlacedAt(crc, log, ps, i);
    var hi := lo + BLOCK_SIZE;
    LimitInBlock(HeaderAt(ps, i), lo);
    if i + 1 < |ps| {
      EndMonotone(ps, i + 1, i + 2);
    }
    if i + 1 < |ps| && HeaderAt(ps, i + 1) < hi {
      b := Resume(crc, log, ps, data, lo, i + 1);
      LimitInBlock(HeaderAt(ps, i + 1), lo);
    } else {
      b := i + 1;
      TailEvents(crc, log, ps, data, lo, b);
      if b < |ps| {
        EndMonotone(ps, b + 1, |ps|);
        ReachBlockEnd(crc, data, EndAt(ps, b), lo);
      }
    }
  }

  lemma ReachBlockEnd(crc: Crc, data: Slice, pos: nat, lo: nat)
    requires lo % BLOCK_SIZE == 0
    requires lo < pos <= lo + BLOCK_SIZE <= AfterPad(pos) <= |data|
    ensures EventsAt(crc, data, pos) == EventsAt(crc, data, lo + BLOCK_SIZE)
  {
    hide EventsAt;
    if pos < lo + BLOCK_SIZE {
      LimitInBlock(pos, lo);
      PadReachesLimit(pos);
      SkipPad(crc, data, pos);
    }
  }

  /** A record is delivered, or the rest of its block is dropped, or the end of the file is reported. */
  lemma EnterBlock(crc: Crc, data: Slice, ps: seq<Phys>, i: nat) returns (event: Event)
    requires i < |ps| && HeaderAt(ps, i) + HEADER_SIZE <= BlockLimit(HeaderAt(ps, i))
    requires HeaderAt(ps, i) + HEADER_SIZE <= |data|
    ensures EndAt(ps, i) <= |data|
    ensures var parsed, at, events := ParsedAt(crc, data, HeaderAt(ps, i)), HeaderAt(ps, i), EventsAt(crc, data, EndAt(ps, i));
      match event
      case Fragment(t, payload) =>
        parsed == Good(t, payload) && at + HEADER_SIZE + |payload| <= |data|
        && events == [event] + EventsAt(crc, data, at + HEADER_SIZE + |payload|)
      case Bad(_) => !parsed.Good? && events == [event] + EventsAt(crc, data, BlockEnd(data, at))
      case End => !parsed.Good? && events == [End] && BlockEnd(data, at) == |data|
  {
    hide ParseBuffer, BlockLimit, AfterPad;
    SkipPad(crc, data, EndAt(ps, i));
    event := EventsAt(crc, data, HeaderAt(ps, i))[0];
  }

  lemma SameLength(log: Slice, data: Slice, lo: nat)
    requires DamagedBlock(log, data, lo)
    ensures |data| == |log|
  {
  }

  /** At the place of physical record `i`: that record, or the rest of the damaged block is lost. */
  lemma EventForRecord(crc: Crc, log: Slice, ps: seq<Phys>, data: Slice, lo: nat, i: nat) returns (event: Event)
    requires Placed(crc, log, ps) && DamagedBlock(log, data, lo) && NoForgery(crc, ps, data, lo)
    requires i < |ps|
    ensures EndAt(ps, i) <= EndAt(ps, i + 1) <= |data| && HeaderAt(ps, i) <= |data|
    ensures var events := EventsAt(crc, data, EndAt(ps, i));
      match event
      case Fragment(t, payload) =>
        event == Fragment(ps[i].t, ps[i].payload) && events == [event] + EventsAt(crc, data, EndAt(ps, i + 1))
      case Bad(_) =>
        InBlockAt(ps, i, lo) && events == [event] + EventsAt(crc, data, BlockEnd(data, HeaderAt(ps, i)))
      case End =>
        InBlockAt(ps, i, lo) && events == [End] && BlockEnd(data, HeaderAt(ps, i)) == |data|
  {
    hide ParseBuffer, PhysBytes, AfterPad, BlockLimit, EventsAt, EndAt, DamagedBlock, NoForgery, ParsedAt;
    assert PlacedAt(crc, log, ps, i);
    EndStep(ps, i);
    EndMonotone(ps, i + 1, |ps|);
    SameLength(log, data, lo);
    if InBlockAt(ps, i, lo) {
      event := EnterBlock(crc, data, ps, i);
      AcceptsWhatWasWritten(crc, ps, data, lo, i);
    } else {
      Intact(crc, log, ps, data, lo, i);
      ReadPlaced(crc, data, ps, i);
      event := Fragment(ps[i].t, ps[i].payload);
    }
  }

  lemma Reassociate(a: seq<Event>, b: seq<Event>, c: seq<Event>, d: seq<Event>)
    ensures a + (b + c + d) == (a + b) + c + d
  {
  }

  /** The physical records `a` to `b` of the damaged block are lost, and `gap` says whether the reader
      reports a bad record in their place or the end of the file. */
  lemma {:induction false} DamagedEvents(crc: Crc, log: Slice, ps: seq<Phys>, data: Slice, lo: nat, i: nat)
    returns (a: nat, b: nat, gap: seq<Event>)
    requires Placed(crc, log, ps) && DamagedBlock(log, data, lo) && NoForgery(crc, ps, data, lo)
    requires i <= |ps|
    ensures i <= a <= b <= |ps| && EndAt(ps, i) <= |data|
    ensures forall j :: a <= j < b ==> InBlockAt(ps, j, lo)
    ensures (gap == [] && b == |ps|) || (|gap| == 1 && gap[0].Bad? && a < b)
    ensures EventsAt(crc, data, EndAt(ps, i)) == FragmentEvents(ps[i..a]) + gap + (FragmentEvents(ps[b..]) + [End])
    decreases |ps| - i
  {
    hide ParseBuffer, PhysBytes, AfterPad, BlockLimit, EventsAt, EndAt, HeaderAt, Placed, NoForgery, DamagedBlock;
    if i == |ps| {
      a, b, gap := i, i, [];
      EndOfLog(crc, log, ps, data, lo);
    } else {
      var event := EventForRecord(crc, log, ps, data, lo, i);
      if event.Fragment? {
        a, b, gap := DamagedEvents(crc, log, ps, data, lo, i + 1);
        EventsSplit(ps, i, a);
        Reassociate([event], FragmentEvents(ps[i + 1..a]), gap, FragmentEvents(ps[b..]) + [End]);
      } else {
        b := Resume(crc, log, ps, data, lo, i);
        a, gap := i, if event.Bad? then [event] else [];
        if event.End? {
          AtTheEnd(crc, data);
          assert |FragmentEvents(ps[b..]) + [End]| == 1;
        }
      }
    }
  }

  lemma {:induction false} EndOfLog(crc: Crc, log: Slice, ps: seq<Phys>, data: Slice, lo: nat)
    requires Placed(crc, log, ps) && DamagedBlock(log, data, lo)
    ensures EndAt(ps, |ps|) == |data| && EventsAt(crc, data, |data|) == [End]
  {
    AtTheEnd(crc, data);
  }
}
