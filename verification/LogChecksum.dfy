/** What the reader owes to the checksums, stated on the bytes of the file: nothing is accepted without a matching
    one, a mismatch is reported, and no fragment is dropped without a report. */
module LogChecksum {
  import opened Bytes
  import opened LogFormat
  import opened LogReader

  /** The length that a header at `at` announces. */
  function Announced(data: Slice, at: nat): (n: nat)
    requires at + 7 <= |data|
  {
    var low: int, high: int := data[at + 4], data[at + 5];
    low + 256 * high
  }

  /** A physical record of that length stays within its block and the file. */
  predicate LengthFits(data: Slice, at: nat) {
    at + 7 <= |data| && at + 7 + Announced(data, at) <= BlockEnd(data, at)
  }

  /** Type and payload: what the checksum is computed over. */
  function Covered(data: Slice, at: nat): Slice
    requires LengthFits(data, at)
  {
    data[at + 6..at + 7 + Announced(data, at)]
  }

  predicate ChecksumFits(crc: Crc, data: Slice, at: nat) {
    LengthFits(data, at) && crc(Covered(data, at)) == Unmask(DecodeFixed(data[at..at + 4]))
  }

  /** Space that was allocated and never written. */
  predicate Blank(data: Slice, at: nat)
    requires LengthFits(data, at)
  {
    data[at + 6] == 0 && Announced(data, at) == 0
  }

  /** What the reader finds at `at` in the block around it. */
  ghost function ParsedAt(crc: Crc, data: Slice, at: nat): Parsed
    requires at <= |data|
  {
    var buffer := data[at..BlockEnd(data, at)];
    if |buffer| < HEADER_SIZE then TooLong else ParseBuffer(crc, buffer)
  }

  /** It is accepted if and only if its length and its checksum fit, and it is not blank; then it is what the checksum
      covers. */
  lemma AcceptedIffChecked(crc: Crc, data: Slice, at: nat)
    requires at <= |data|
    ensures ParsedAt(crc, data, at).Good? <==> ChecksumFits(crc, data, at) && !Blank(data, at)
    ensures var p := ParsedAt(crc, data, at); p.Good? ==> Covered(data, at) == [p.t] + p.payload
  {
    hide BlockLimit;
    var end := BlockEnd(data, at);
    var buffer := data[at..end];
    if |buffer| >= HEADER_SIZE {
      var n := PayloadLength(buffer);
      assert n == Announced(data, at);
      if HEADER_SIZE + n <= |buffer| {
        assert buffer[6..HEADER_SIZE + n] == Covered(data, at);
        assert buffer[..4] == data[at..at + 4];
        assert Covered(data, at) == [buffer[6]] + buffer[HEADER_SIZE..HEADER_SIZE + n];
      }
    }
  }

  /** Every fragment that the reader delivers, from any file, carries a matching checksum over its type and payload. */
  lemma {:induction false} AcceptedIsChecked(crc: Crc, data: Slice, pos: nat, k: nat) returns (at: nat)
    requires pos <= |data| && k < |EventsAt(crc, data, pos)| && EventsAt(crc, data, pos)[k].Fragment?
    ensures pos <= at && ChecksumFits(crc, data, at)
    ensures var e := EventsAt(crc, data, pos)[k]; Covered(data, at) == [e.t] + e.payload
    decreases |data| - pos
  {
    hide ParseBuffer, BlockLimit, ChecksumFits, Covered, Blank;
    AcceptedIffChecked(crc, data, pos);
    var end := BlockEnd(data, pos);
    if end - pos < HEADER_SIZE {
      at := AcceptedIsChecked(crc, data, end, k);
    } else if k == 0 {
      at := pos;
    } else {
      var p := ParseBuffer(crc, data[pos..end]);
      at := AcceptedIsChecked(crc, data, if p.Good? then pos + HEADER_SIZE + |p.payload| else end, k - 1);
    }
  }

  /** Where the length fits and the checksum does not, the rest of the block is dropped, and the bytes dropped are
      reported. */
  lemma {:induction false} MismatchIsReported(crc: Crc, data: Slice, pos: nat)
    requires LengthFits(data, pos) && !ChecksumFits(crc, data, pos) && !Blank(data, pos)
    ensures EventsAt(crc, data, pos)
         == [Bad([Report(BlockEnd(data, pos) - pos, ChecksumMismatch)])] + EventsAt(crc, data, BlockEnd(data, pos))
  {
    hide BlockLimit;
    var end := BlockEnd(data, pos);
    var buffer := data[pos..end];
    assert PayloadLength(buffer) == Announced(data, pos);
    assert buffer[6..7 + Announced(data, pos)] == Covered(data, pos) && buffer[..4] == data[pos..pos + 4];
  }

  /** A length that leaves the block is reported too, except at the end of the file. */
  lemma {:induction false} OverlongIsReported(crc: Crc, data: Slice, pos: nat)
    requires pos <= |data| && pos + 7 <= BlockEnd(data, pos) && !LengthFits(data, pos)
    ensures EventsAt(crc, data, pos)
         == if AtEof(data, pos) then [End]
            else [Bad([Report(BlockEnd(data, pos) - pos, BadRecordLength)])] + EventsAt(crc, data, BlockEnd(data, pos))
  {
    hide BlockLimit;
    assert PayloadLength(data[pos..BlockEnd(data, pos)]) == Announced(data, pos);
  }

  /** Space that was never written drops the rest of the block too, without a report. */
  lemma {:induction false} BlankIsSilent(crc: Crc, data: Slice, pos: nat)
    requires LengthFits(data, pos) && Blank(data, pos)
    ensures EventsAt(crc, data, pos) == [Bad([])] + EventsAt(crc, data, BlockEnd(data, pos))
  {
    hide BlockLimit;
    assert PayloadLength(data[pos..BlockEnd(data, pos)]) == Announced(data, pos);
  }

  // ----- nothing is dropped silently -----

  ghost predicate OnlyWritten(events: seq<Event>) {
    forall e :: e in events && e.Fragment? ==> e.t != EOF_TYPE && e.t != BAD_RECORD_TYPE
  }

  ghost function Lengths(records: seq<Slice>): nat {
    if records == [] then 0 else |records[0]| + Lengths(records[1..])
  }

  ghost function ReportedBytes(reports: seq<Report>): nat {
    if reports == [] then 0 else reports[0].bytes + ReportedBytes(reports[1..])
  }

  /** Payload bytes that the physical layer delivers, and bytes that it reports as dropped. */
  ghost function EventBytes(events: seq<Event>): nat {
    if events == [] then 0
    else (match events[0]
          case Fragment(_, payload) => |payload|
          case Bad(reports) => ReportedBytes(reports)
          case End => 0) + EventBytes(events[1..])
  }

  lemma {:induction false} ReportedBoth(a: seq<Report>, b: seq<Report>)
    ensures ReportedBytes(a + b) == ReportedBytes(a) + ReportedBytes(b)
  {
    if a == [] {
      assert a + b == b;
    } else {
      ReportedBoth(a[1..], b);
      assert (a + b)[1..] == a[1..] + b;
    }
  }

  /** One event: its bytes, and those gathered before it, are gathered, returned or reported. */
  lemma StepAccounts(e: Event, inFragmented: bool, scratch: Slice)
    requires !e.End? && OnlyWritten([e]) && (!inFragmented ==> scratch == [])
    ensures var step := StepOn(e, inFragmented, scratch);
      match step
      case Stop => false
      case Continue(inFragmented', scratch', reports) =>
        && (!inFragmented' ==> scratch' == [])
        && EventBytes([e]) + |scratch| == |scratch'| + ReportedBytes(reports)
      case Return(record, reports) => EventBytes([e]) + |scratch| == |record| + ReportedBytes(reports)
  {
    assert e in [e];
    assert EventBytes([e][1..]) == 0;
    if e.Bad? {
      ReportedBoth(e.reports, Abandoned(inFragmented, scratch));
    }
    assert forall r: Report :: ReportedBytes([r]) == r.bytes by {
      forall r: Report
        ensures ReportedBytes([r]) == r.bytes
      {
        assert ReportedBytes([r][1..]) == 0;
      }
    }
  }

  lemma {:induction false} EventBytesSplit(events: seq<Event>)
    requires events != []
    ensures EventBytes(events) == EventBytes([events[0]]) + EventBytes(events[1..])
  {
    assert EventBytes([events[0]][1..]) == 0;
  }

  /** The end of the file comes once, at the end. */
  ghost predicate EndsOnce(events: seq<Event>) {
    && events != [] && events[|events| - 1].End?
    && forall i :: 0 <= i < |events| - 1 ==> !events[i].End?
  }

  lemma {:induction false} EventsEndOnce(crc: Crc, data: Slice, pos: nat)
    requires pos <= |data|
    ensures EndsOnce(EventsAt(crc, data, pos))
    decreases |data| - pos
  {
    hide ParseBuffer, BlockLimit;
    var end := BlockEnd(data, pos);
    if end - pos < HEADER_SIZE {
      if !AtEof(data, pos) {
        EventsEndOnce(crc, data, end);
      }
    } else {
      var p := ParseBuffer(crc, data[pos..end]);
      if p.Good? {
        EventsEndOnce(crc, data, pos + HEADER_SIZE + |p.payload|);
      } else if !(p.TooLong? && AtEof(data, pos)) {
        EventsEndOnce(crc, data, end);
      }
    }
  }

  /** Bytes of a record that was begun when the file ends. */
  ghost function Unfinished(events: seq<Event>, inFragmented: bool, scratch: Slice): nat {
    if events == [] then |scratch|
    else
      match StepOn(events[0], inFragmented, scratch)
      case Stop => |scratch|
      case Continue(inFragmented', scratch', _) => Unfinished(events[1..], inFragmented', scratch')
      case Return(_, _) => Unfinished(events[1..], false, [])
  }

  lemma {:induction false} Accounting(events: seq<Event>, inFragmented: bool, scratch: Slice)
    requires EndsOnce(events) && OnlyWritten(events) && (!inFragmented ==> scratch == [])
    ensures var all := Assemble(events, inFragmented, scratch);
      EventBytes(events) + |scratch|
      == Lengths(all.records) + ReportedBytes(all.reports) + Unfinished(events, inFragmented, scratch)
    decreases |events|
  {
    hide StepOn, EventBytes;
    EventBytesSplit(events);
    if events[0].End? {
      LastEvent(events, inFragmented, scratch);
    } else {
      forall e | e in [events[0]]
        ensures e in events
      {
      }
      StepAccounts(events[0], inFragmented, scratch);
      match StepOn(events[0], inFragmented, scratch)
      case Stop =>
        assert false;
      case Continue(inFragmented', scratch', reports) =>
        Accounting(events[1..], inFragmented', scratch');
        ReportedBoth(reports, Assemble(events[1..], inFragmented', scratch').reports);
      case Return(record, reports) =>
        Accounting(events[1..], false, []);
        ReportedBoth(reports, Assemble(events[1..], false, []).reports);
        assert ([record] + Assemble(events[1..], false, []).records)[1..] == Assemble(events[1..], false, []).records;
    }
  }

  lemma {:induction false} LastEvent(events: seq<Event>, inFragmented: bool, scratch: Slice)
    requires EndsOnce(events) && events[0].End?
    ensures EventBytes(events) == 0 && Unfinished(events, inFragmented, scratch) == |scratch|
    ensures Assemble(events, inFragmented, scratch) == Output([], [])
  {
    assert |events| == 1;
  }

  /** Every payload byte that the reader meets in a file is in a record that it returns, or in a report, or belongs to a
      record that the end of the file cuts off; and every byte reported by the physical layer is reported on. */
  lemma {:induction false} NothingIsDroppedSilently(crc: Crc, data: Slice)
    requires OnlyWritten(EventsAt(crc, data, 0))
    ensures EventBytes(EventsAt(crc, data, 0))
         == Lengths(ReadAll(crc, data).records) + ReportedBytes(ReadAll(crc, data).reports)
          + Unfinished(EventsAt(crc, data, 0), false, [])
  {
    hide EventsAt, Assemble, EventBytes;
    EventsEndOnce(crc, data, 0);
    Accounting(EventsAt(crc, data, 0), false, []);
  }
}
