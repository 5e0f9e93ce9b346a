/** log::Reader: reassembles the records of a log file.

    The reader is specified in two layers. `EventsAt` is what ReadPhysicalRecord delivers, one
    event per call, from a position of the file on. `Assemble` is what ReadRecord makes of these
    events. Both are defined on arbitrary bytes. */
module LogReader {
  import opened Bytes
  import opened LogFormat

  const EOF_TYPE: nat := 5
  const BAD_RECORD_TYPE: nat := 6

  datatype Reason =
    | BadRecordLength
    | ChecksumMismatch
    | PartialRecordWithoutEnd1
    | PartialRecordWithoutEnd2
    | MissingStart1
    | MissingStart2
    | ErrorInMiddle
    | UnknownRecordType

  /** A call of Reporter::Corruption. */
  datatype Report = Report(bytes: nat, reason: Reason)

  /** The outcome of one call of ReadPhysicalRecord: a physical record, a bad one, or the end. */
  datatype Event =
    | Fragment(t: byte, payload: Slice)
    | Bad(reports: seq<Report>)
    | End

  // ----- physical layer -----

  /** Where the block around `pos` ends. */
  function BlockLimit(pos: nat): (limit: nat)
    ensures limit > pos && limit % BLOCK_SIZE == 0
  {
    pos / BLOCK_SIZE * BLOCK_SIZE + BLOCK_SIZE
  }

  lemma SameBlock(pos: nat, q: nat)
    requires pos <= q < BlockLimit(pos)
    ensures BlockLimit(q) == BlockLimit(pos)
  {
  }

  lemma NextBlock(start: nat)
    requires start % BLOCK_SIZE == 0
    ensures BlockLimit(start) == start + BLOCK_SIZE
  {
  }

  /** End of the part of the block around `pos` that the file holds. */
  function BlockEnd(data: Slice, pos: nat): (end: nat)
    requires pos <= |data|
    ensures pos <= end <= |data|
  {
    if BlockLimit(pos) < |data| then BlockLimit(pos) else |data|
  }

  /** Reading the block around `pos` gets fewer than BLOCK_SIZE bytes. */
  predicate AtEof(data: Slice, pos: nat)
    requires pos <= |data|
  {
    |data| < BlockLimit(pos)
  }

  datatype Parsed = TooLong | ZeroFill | BadChecksum | Good(t: byte, payload: Slice)

  function PayloadLength(header: Slice): (length: nat)
    requires |header| >= HEADER_SIZE
  {
    var low: int, high: int := header[4], header[5];
    low + high * 256
  }

  /** What the header at the front of `buffer` announces. */
  function ParseBuffer(crc: Crc, buffer: Slice): (p: Parsed)
    requires |buffer| >= HEADER_SIZE
    ensures p.Good? ==> HEADER_SIZE + |p.payload| <= |buffer|
  {
    var length := PayloadLength(buffer);
    if HEADER_SIZE + length > |buffer| then TooLong
    else if buffer[6] == ZERO_TYPE && length == 0 then ZeroFill
    else if crc(buffer[6..HEADER_SIZE + length]) != Unmask(DecodeFixed(buffer[..4])) then BadChecksum
    else Good(buffer[6], buffer[HEADER_SIZE..HEADER_SIZE + length])
  }

  /** What the reader meets when the unread part of the file begins at `pos`. */
  ghost function EventsAt(crc: Crc, data: Slice, pos: nat): (events: seq<Event>)
    requires pos <= |data|
    ensures |events| > 0
    decreases |data| - pos
  {
    var end := BlockEnd(data, pos);
    if end - pos < HEADER_SIZE then
      if AtEof(data, pos) then [End] else EventsAt(crc, data, end)
    else
      match ParseBuffer(crc, data[pos..end])
      case TooLong =>
        if AtEof(data, pos) then [End]
        else [Bad([Report(end - pos, BadRecordLength)])] + EventsAt(crc, data, end)
      case ZeroFill =>
        [Bad([])] + EventsAt(crc, data, end)
      case BadChecksum =>
        [Bad([Report(end - pos, ChecksumMismatch)])] + EventsAt(crc, data, end)
      case Good(t, payload) =>
        [Fragment(t, payload)] + EventsAt(crc, data, pos + HEADER_SIZE + |payload|)
  }

  // ----- logical layer -----

  /** Records returned and corruptions reported until the reader reports the end of the log. */
  datatype Output = Output(records: seq<Slice>, reports: seq<Report>)

  /** Effect of one event on ReadRecord: it stops, goes on with a new scratch, or returns a record. */
  datatype Step =
    | Stop
    | Continue(inFragmented: bool, scratch: Slice, reports: seq<Report>)
    | Return(record: Slice, reports: seq<Report>)

  /** The report about the fragments gathered so far when an unexpected first fragment arrives. */
  function Partial(inFragmented: bool, scratch: Slice, reason: Reason): seq<Report> {
    if inFragmented && scratch != [] then [Report(|scratch|, reason)] else []
  }

  function Abandoned(inFragmented: bool, scratch: Slice): seq<Report> {
    if inFragmented then [Report(|scratch|, ErrorInMiddle)] else []
  }

  function StepOn(event: Event, inFragmented: bool, scratch: Slice): Step {
    match event
    case End => Stop
    case Bad(reports) => Continue(false, [], reports + Abandoned(inFragmented, scratch))
    case Fragment(t, payload) =>
      if t == FULL_TYPE then
        Return(payload, Partial(inFragmented, scratch, PartialRecordWithoutEnd1))
      else if t == FIRST_TYPE then
        Continue(true, payload, Partial(inFragmented, scratch, PartialRecordWithoutEnd2))
      else if t == MIDDLE_TYPE then
        if inFragmented then Continue(true, scratch + payload, [])
        else Continue(false, scratch, [Report(|payload|, MissingStart1)])
      else if t == LAST_TYPE then
        if inFragmented then Return(scratch + payload, [])
        else Continue(false, scratch, [Report(|payload|, MissingStart2)])
      else if t == EOF_TYPE then
        Stop
      else if t == BAD_RECORD_TYPE then
        Continue(false, [], Abandoned(inFragmented, scratch))
      else
        Continue(false, [], [Report(|payload| + if inFragmented then |scratch| else 0, UnknownRecordType)])
  }

  /** The reports ReadPhysicalRecord makes with an event. */
  function Reported(event: Event): seq<Report> {
    if event.Bad? then event.reports else []
  }

  /** What ReadRecord makes of `events`; `scratch` holds the fragments gathered so far. */
  ghost function Assemble(events: seq<Event>, inFragmented: bool, scratch: Slice): Output
    decreases |events|
  {
    if events == [] then
      Output([], [])
    else
      match StepOn(events[0], inFragmented, scratch)
      case Stop => Output([], [])
      case Continue(inFragmented', scratch', reports) =>
        var rest := Assemble(events[1..], inFragmented', scratch');
        Output(rest.records, reports + rest.reports)
      case Return(record, reports) =>
        var rest := Assemble(events[1..], false, []);
        Output([record] + rest.records, reports + rest.reports)
  }

  /** One event's share of Assemble's output, on top of the reports made before it. */
  lemma {:induction false} AssembleStep(events: seq<Event>, inFragmented: bool, scratch: Slice, before: seq<Report>, after: seq<Report>)
    requires events != []
    requires var step := StepOn(events[0], inFragmented, scratch);
      if step.Stop? then after == before else after == before + step.reports
    ensures var all := Assemble(events, inFragmented, scratch);
      match StepOn(events[0], inFragmented, scratch)
      case Stop => all.records == [] && before + all.reports == after
      case Continue(inFragmented', scratch', _) =>
        var rest := Assemble(events[1..], inFragmented', scratch');
        all.records == rest.records && before + all.reports == after + rest.reports
      case Return(record, _) =>
        var rest := Assemble(events[1..], false, []);
        all.records == [record] + rest.records && before + all.reports == after + rest.reports
  {
    hide StepOn;
    match StepOn(events[0], inFragmented, scratch)
    case Stop =>
    case Continue(inFragmented', scratch', reports) =>
      assert before + reports + Assemble(events[1..], inFragmented', scratch').reports
          == before + (reports + Assemble(events[1..], inFragmented', scratch').reports);
    case Return(record, reports) =>
      assert before + reports + Assemble(events[1..], false, []).reports
          == before + (reports + Assemble(events[1..], false, []).reports);
  }

  /** Everything the reader returns and reports for a file. */
  ghost function ReadAll(crc: Crc, data: Slice): Output {
    Assemble(EventsAt(crc, data, 0), false, [])
  }

  // ----- the reader itself -----

  class Reader {
    const crc: Crc
    const file: Slice               // contents of the file
    var buffer: Slice               // unread part of the last block read
    var eof: bool                   // the last block read was a short one
    var endOfBufferOffset: nat      // how much of the file was read into buffers
    var reports: seq<Report>        // calls of the reporter

    ghost predicate Valid()
      reads this
    {
      && |buffer| <= endOfBufferOffset <= |file|
      && buffer == file[Pos()..endOfBufferOffset]
      && (eof ==> endOfBufferOffset == |file| && AtEof(file, Pos()))
      && (!eof ==> endOfBufferOffset % BLOCK_SIZE == 0)
      && (!eof && |buffer| > 0 ==> endOfBufferOffset == BlockLimit(Pos()))
    }

    /** Offset in the file of the next byte to parse. */
    ghost function Pos(): nat
      reads this
      requires |buffer| <= endOfBufferOffset
    {
      endOfBufferOffset - |buffer|
    }

    ghost function Ahead(): seq<Event>
      reads this
      requires Valid()
    {
      EventsAt(crc, file, Pos())
    }

    constructor (crc: Crc, file: Slice)
      ensures Valid() && this.crc == crc && this.file == file && reports == []
      ensures Pos() == 0
    {
      hide BlockLimit;
      this.crc, this.file := crc, file;
      buffer, eof, endOfBufferOffset, reports := [], false, 0, [];
    }

    method ReadPhysicalRecord() returns (event: Event)
      requires Valid()
      modifies this
      ensures Valid()
      ensures reports == old(reports) + Reported(event)
      ensures event.End? ==> old(Ahead()) == [End]
      ensures !event.End? ==> old(Ahead()) == [event] + Ahead() && Pos() > old(Pos())
    {
      hide ParseBuffer, BlockLimit;
      while |buffer| < HEADER_SIZE
        invariant Valid() && reports == old(reports)
        invariant Ahead() == old(Ahead()) && Pos() >= old(Pos())
        decreases !eof, |file| - endOfBufferOffset
      {
        ghost var pos := Pos();
        if eof {
          // the file ends inside a header: no report
          buffer := [];
          SameBlock(pos, Pos());
          return End;
        }
        // a whole block was read: the few bytes left are its padding
        NextBlock(endOfBufferOffset);
        var n := if |file| - endOfBufferOffset < BLOCK_SIZE then |file| - endOfBufferOffset else BLOCK_SIZE;
        buffer := file[endOfBufferOffset..endOfBufferOffset + n];
        endOfBufferOffset := endOfBufferOffset + n;
        eof := |buffer| < BLOCK_SIZE;
      }
      event := ParsePhysicalRecord();
    }

    /** The part of ReadPhysicalRecord that parses the header at the front of the buffer. */
    method ParsePhysicalRecord() returns (event: Event)
      requires Valid() && |buffer| >= HEADER_SIZE
      modifies this
      ensures Valid()
      ensures reports == old(reports) + Reported(event)
      ensures event.End? ==> old(Ahead()) == [End]
      ensures !event.End? ==> old(Ahead()) == [event] + Ahead() && Pos() > old(Pos())
    {
      hide ParseBuffer, BlockLimit;
      ghost var pos := Pos();
      var dropSize, parsed := |buffer|, ParseBuffer(crc, buffer);
      buffer := if parsed.Good? then buffer[HEADER_SIZE + |parsed.payload|..] else [];
      if eof || |buffer| > 0 {
        SameBlock(pos, Pos());
      }
      match parsed {
        case TooLong =>
          if eof {
            return End;  // a record cut off by the end of the file: no report
          }
          event := Bad([Report(dropSize, BadRecordLength)]);
        case ZeroFill =>
          event := Bad([]);
        case BadChecksum =>
          event := Bad([Report(dropSize, ChecksumMismatch)]);
        case Good(t, payload) =>
          return Fragment(t, payload);
      }
      reports := reports + event.reports;
    }

    method ReadRecord() returns (record: Option<Slice>)
      requires Valid()
      modifies this
      ensures Valid()
      ensures var before, after := Assemble(old(Ahead()), false, []), Assemble(Ahead(), false, []);
        if record.Some? then
          && before.records == [record.value] + after.records
          && old(reports) + before.reports == reports + after.reports
          && Pos() > old(Pos())
        else
          before.records == [] && reports == old(reports) + before.reports
    {
      hide StepOn, Assemble, EventsAt;
      var scratch: Slice, inFragmentedRecord := [], false;
      ghost var before := Assemble(Ahead(), false, []);
      while true
        invariant Valid() && Pos() >= old(Pos())
        invariant var rest := Assemble(Ahead(), inFragmentedRecord, scratch);
          before.records == rest.records && old(reports) + before.reports == reports + rest.reports
        decreases |file| - Pos()
      {
        ghost var ahead, reported := Ahead(), reports;
        var event := ReadPhysicalRecord();
        var step := TakeEvent(event, inFragmentedRecord, scratch);
        assert ahead[0] == event && (event.End? || ahead[1..] == Ahead());
        assert reports == reported + if step.Stop? then [] else step.reports;
        AssembleStep(ahead, inFragmentedRecord, scratch, reported, reports);
        match step {
          case Stop =>
            return None;
          case Return(r, _) =>
            return Some(r);
          case Continue(inFragmented', scratch', _) =>
            inFragmentedRecord, scratch := inFragmented', scratch';
        }
      }
    }

    /** The switch on the record type in ReadRecord; `event`'s own reports have been made already. */
    method TakeEvent(event: Event, inFragmentedRecord: bool, scratch: Slice) returns (step: Step)
      modifies `reports
      ensures step == StepOn(event, inFragmentedRecord, scratch)
      ensures event.End? ==> step.Stop?
      ensures event.Bad? ==> !step.Stop?
      ensures old(reports) <= reports
      ensures if step.Stop? then reports == old(reports)
              else step.reports == Reported(event) + reports[|old(reports)|..]
    {
      var alreadyReported := |reports|;
      step := Continue(inFragmentedRecord, scratch, []);
      match event {
        case End =>
          return Stop;
        case Bad(_) =>
          if inFragmentedRecord {
            ReportCorruption(|scratch|, ErrorInMiddle);
          }
          step := Continue(false, [], []);
        case Fragment(t, fragment) =>
          if t == FULL_TYPE {
            if inFragmentedRecord && scratch != [] {
              ReportCorruption(|scratch|, PartialRecordWithoutEnd1);
            }
            step := Return(fragment, []);
          } else if t == FIRST_TYPE {
            if inFragmentedRecord && scratch != [] {
              ReportCorruption(|scratch|, PartialRecordWithoutEnd2);
            }
            step := Continue(true, fragment, []);
          } else if t == MIDDLE_TYPE {
            if !inFragmentedRecord {
              ReportCorruption(|fragment|, MissingStart1);
            } else {
              step := Continue(true, scratch + fragment, []);
            }
          } else if t == LAST_TYPE {
            if !inFragmentedRecord {
              ReportCorruption(|fragment|, MissingStart2);
            } else {
              step := Return(scratch + fragment, []);
            }
          } else if t == EOF_TYPE {
            return Stop;
          } else if t == BAD_RECORD_TYPE {
            if inFragmentedRecord {
              ReportCorruption(|scratch|, ErrorInMiddle);
            }
            step := Continue(false, [], []);
          } else {
            ReportCorruption(|fragment| + if inFragmentedRecord then |scratch| else 0, UnknownRecordType);
            step := Continue(false, [], []);
          }
      }
      step := step.(reports := Reported(event) + reports[alreadyReported..]);
    }

    method ReportCorruption(bytes: nat, reason: Reason)
      modifies `reports
      ensures reports == old(reports) + [Report(bytes, reason)]
    {
      reports := reports + [Report(bytes, reason)];
    }
  }

  /** Reads a log from its beginning until the reader reports its end. */
  method ReadLog(crc: Crc, file: Slice) returns (output: Output)
    ensures output == ReadAll(crc, file)
  {
    var reader := new Reader(crc, file);
    var records: seq<Slice> := [];
    while true
      invariant fresh(reader) && reader.Valid() && reader.crc == crc && reader.file == file
      invariant var rest := Assemble(reader.Ahead(), false, []);
        ReadAll(crc, file) == Output(records + rest.records, reader.reports + rest.reports)
      decreases |file| - reader.Pos()
    {
      var record := reader.ReadRecord();
      if record.None? {
        break;
      }
      records := records + [record.value];
    }
    output := Output(records, reader.reports);
  }
}
