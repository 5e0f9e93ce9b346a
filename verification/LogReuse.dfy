/** What becomes of a log that is opened again and written to, when it may end anywhere: a crash leaves the bytes of
    a record that was cut off in the file, and new records go behind them. */
module LogReuse {
  import opened Bytes
  import opened LogFormat
  import opened LogReader
  import opened LogChecksum
  import opened LogPlacement
  import opened LogDamage
  import opened LogAssembly
  import opened LogProperties

  /** Where a reader gives up on the last block of a file: at its end, or at what is not a whole physical record. */
  ghost function GiveUp(crc: Crc, data: Slice, pos: nat): (q: nat)
    requires pos <= |data|
    ensures pos <= q <= |data|
    decreases |data| - pos
  {
    var end := BlockEnd(data, pos);
    if end - pos < HEADER_SIZE then
      if AtEof(data, pos) then pos else GiveUp(crc, data, end)
    else
      match ParseBuffer(crc, data[pos..end])
      case Good(t, payload) => GiveUp(crc, data, pos + HEADER_SIZE + |payload|)
      case _ => if AtEof(data, pos) then pos else GiveUp(crc, data, end)
  }

  /** The reader came to the end of the file, up to a trailer too short for a header. Who opens a file to append to
      it can tell by comparing its length with the place where the reader gave up. */
  ghost predicate EndsWhole(crc: Crc, file: Slice) {
    AfterPad(GiveUp(crc, file, 0)) >= |file|
  }

  /** Another header fits into the last block of a file. */
  predicate RoomInBlock(file: Slice) {
    BLOCK_SIZE - |file| % BLOCK_SIZE >= HEADER_SIZE
  }

  // ----- a file and a longer one -----

  lemma GoodStays(crc: Crc, buffer: Slice, rest: Slice)
    requires |buffer| >= HEADER_SIZE && ParseBuffer(crc, buffer).Good?
    ensures ParseBuffer(crc, buffer + rest) == ParseBuffer(crc, buffer)
  {
    var n := HEADER_SIZE + PayloadLength(buffer);
    assert (buffer + rest)[..4] == buffer[..4];
    assert (buffer + rest)[6..n] == buffer[6..n] && (buffer + rest)[HEADER_SIZE..n] == buffer[HEADER_SIZE..n];
  }

  /** A block that the file fills reads the same when the file is longer. */
  lemma FullBlock(data: Slice, data': Slice, pos: nat)
    requires data <= data' && pos <= |data| && !AtEof(data, pos)
    ensures BlockEnd(data', pos) == BlockEnd(data, pos) == BlockLimit(pos) && !AtEof(data', pos)
    ensures data'[pos..BlockLimit(pos)] == data[pos..BlockLimit(pos)]
  {
  }

  /** A whole physical record in the last block reads the same when the file is longer. */
  lemma RecordStays(crc: Crc, data: Slice, data': Slice, pos: nat)
    requires data <= data' && pos <= |data|
    requires BlockEnd(data, pos) - pos >= HEADER_SIZE && ParseBuffer(crc, data[pos..BlockEnd(data, pos)]).Good?
    ensures BlockEnd(data', pos) >= BlockEnd(data, pos)
    ensures ParseBuffer(crc, data'[pos..BlockEnd(data', pos)]) == ParseBuffer(crc, data[pos..BlockEnd(data, pos)])
  {
    hide ParseBuffer, BlockLimit;
    var end, end' := BlockEnd(data, pos), BlockEnd(data', pos);
    assert data'[pos..end'] == data[pos..end] + data'[end..end'];
    GoodStays(crc, data[pos..end], data'[end..end']);
  }

  ghost predicate StopsAt(crc: Crc, data: Slice, pos: nat)
    requires pos <= |data|
  {
    AtEof(data, pos) && !ParsedAt(crc, data, pos).Good?
  }

  /** Before the reader gives up, one step is the same in both files. */
  lemma SharedStep(crc: Crc, data: Slice, data': Slice, pos: nat) returns (first: seq<Event>, next: nat)
    requires data <= data' && pos <= |data| && !StopsAt(crc, data, pos)
    ensures pos < next <= |data| && GiveUp(crc, data, pos) == GiveUp(crc, data, next)
    ensures EventsAt(crc, data, pos) == first + EventsAt(crc, data, next)
    ensures EventsAt(crc, data', pos) == first + EventsAt(crc, data', next)
    ensures forall e :: e in first ==> !e.End?
  {
    hide ParseBuffer, BlockLimit;
    next, first := BlockEnd(data, pos), [];
    if ParsedAt(crc, data, pos).Good? {
      var p := ParsedAt(crc, data, pos);
      RecordStays(crc, data, data', pos);
      next, first := pos + HEADER_SIZE + |p.payload|, [Fragment(p.t, p.payload)];
    } else {
      FullBlock(data, data', pos);
      if next - pos >= HEADER_SIZE {
        first := [EventsAt(crc, data, pos)[0]];
      }
    }
  }

  lemma {:induction false} GivesUpHere(crc: Crc, data: Slice, pos: nat)
    requires pos <= |data| && StopsAt(crc, data, pos)
    ensures GiveUp(crc, data, pos) == pos
  {
    hide ParseBuffer, BlockLimit;
  }

  /** Up to the place where the reader gives up it meets the same in a longer file. No whole physical record is
      there. */
  lemma {:induction false} SharedEvents(crc: Crc, data: Slice, data': Slice, pos: nat) returns (front: seq<Event>)
    requires data <= data' && pos <= |data|
    ensures var q := GiveUp(crc, data, pos);
      && EventsAt(crc, data, pos) == front + EventsAt(crc, data, q)
      && EventsAt(crc, data', pos) == front + EventsAt(crc, data', q)
      && StopsAt(crc, data, q)
    ensures forall e :: e in front ==> !e.End?
    decreases |data| - pos
  {
    hide EventsAt, GiveUp, StopsAt;
    if StopsAt(crc, data, pos) {
      GivesUpHere(crc, data, pos);
      front := [];
    } else {
      var first, next := SharedStep(crc, data, data', pos);
      var rest := SharedEvents(crc, data, data', next);
      front := first + rest;
      var q := GiveUp(crc, data, next);
      assert first + (rest + EventsAt(crc, data, q)) == front + EventsAt(crc, data, q);
      assert first + (rest + EventsAt(crc, data', q)) == front + EventsAt(crc, data', q);
    }
  }

  // ----- what ReadRecord makes of it -----

  ghost predicate GoesOn(e: Event) {
    !e.End? && (e.Fragment? ==> e.t != EOF_TYPE)
  }

  lemma AssembleOne(e: Event, inFragmented: bool, scratch: Slice)
    returns (records: seq<Slice>, inFragmented': bool, scratch': Slice)
    requires GoesOn(e)
    ensures |records| <= 1
    ensures forall t :: Assemble([e] + t, inFragmented, scratch).records
                     == records + Assemble(t, inFragmented', scratch').records
  {
    records, inFragmented', scratch' := [], false, [];
    match StepOn(e, inFragmented, scratch) {
      case Continue(inFragmented1, scratch1, _) => inFragmented', scratch' := inFragmented1, scratch1;
      case Return(record, _) => records := [record];
    }
    forall t
      ensures Assemble([e] + t, inFragmented, scratch).records == records + Assemble(t, inFragmented', scratch').records
    {
      assert ([e] + t)[0] == e && ([e] + t)[1..] == t;
    }
  }

  /** Events yield the same records, and leave the reader in the same state, whatever comes next. */
  lemma {:induction false} AssembleFront(front: seq<Event>, tail: seq<Event>, tail': seq<Event>, inFragmented: bool,
                                         scratch: Slice)
    returns (records: seq<Slice>, inFragmented': bool, scratch': Slice)
    requires forall e :: e in front ==> GoesOn(e)
    ensures Assemble(front + tail, inFragmented, scratch).records
         == records + Assemble(tail, inFragmented', scratch').records
    ensures Assemble(front + tail', inFragmented, scratch).records
         == records + Assemble(tail', inFragmented', scratch').records
    decreases |front|
  {
    hide Assemble, GoesOn;
    if front == [] {
      assert front + tail == tail && front + tail' == tail';
      records, inFragmented', scratch' := [], inFragmented, scratch;
    } else {
      assert front + tail == [front[0]] + (front[1..] + tail) && front + tail' == [front[0]] + (front[1..] + tail');
      var first, inFragmented1, scratch1 := AssembleOne(front[0], inFragmented, scratch);
      var rest;
      rest, inFragmented', scratch' := AssembleFront(front[1..], tail, tail', inFragmented1, scratch1);
      records := first + rest;
    }
  }

  /** A first fragment starts a record, whatever was gathered before it. */
  lemma {:induction false} NewRecordStarts(events: seq<Event>, inFragmented: bool, scratch: Slice)
    requires events != [] && events[0].Fragment? && (events[0].t == FULL_TYPE || events[0].t == FIRST_TYPE)
    ensures Assemble(events, inFragmented, scratch).records == Assemble(events, false, []).records
  {
  }

  lemma {:induction false} FirstOfAll(records: seq<Slice>, off: nat)
    requires off < BLOCK_SIZE && records != []
    ensures var ps := AllFragments(records, off); ps != [] && (ps[0].t == FULL_TYPE || ps[0].t == FIRST_TYPE)
    decreases |records|
  {
    hide Avail;
    if |records| == 1 {
      assert records[..0] == [] && AllFragments(records[..0], off) == [];
      assert AllFragments(records, off) == [] + LastFragments(records, off);
    } else {
      FirstOfAll(records[..|records| - 1], off);
    }
  }

  // ----- what lies behind the place -----

  /** From the place where they were written, physical records are read one after another. */
  lemma {:induction false} ReadLayout(crc: Crc, data: Slice, pos: nat, ps: seq<Phys>)
    requires pos <= |data| && Fits(pos % BLOCK_SIZE, ps) && data[pos..] == Layout(crc, pos % BLOCK_SIZE, ps)
    ensures EventsAt(crc, data, pos) == FragmentEvents(ps) + [End]
    decreases |ps|
  {
    hide EventsAt, PhysBytes, BlockLimit;
    if ps == [] {
      AtTheEnd(crc, data);
    } else {
      var next := LayoutStep(crc, data, pos, ps);
      ReadLayout(crc, data, next, ps[1..]);
      assert ps[0..] == ps;
      EventsSplit(ps, 0, |ps|);
      assert ps[0..|ps|] == ps && ps[1..|ps|] == ps[1..];
    }
  }

  /** The first of them, and where the others lie. */
  lemma LayoutStep(crc: Crc, data: Slice, pos: nat, ps: seq<Phys>) returns (next: nat)
    requires pos <= |data| && ps != []
    requires Fits(pos % BLOCK_SIZE, ps) && data[pos..] == Layout(crc, pos % BLOCK_SIZE, ps)
    ensures next == AfterPad(pos) + HEADER_SIZE + |ps[0].payload| <= |data|
    ensures next <= BlockLimit(AfterPad(pos))
    ensures Fits(next % BLOCK_SIZE, ps[1..]) && data[next..] == Layout(crc, next % BLOCK_SIZE, ps[1..])
    ensures EventsAt(crc, data, pos) == [Fragment(ps[0].t, ps[0].payload)] + EventsAt(crc, data, next)
  {
    hide EventsAt, PhysBytes, BlockLimit, Zeros;
    var off, at := pos % BLOCK_SIZE, AfterPad(pos);
    next := at + HEADER_SIZE + |ps[0].payload|;
    var head, rest := Zeros(Pad(off)) + PhysBytes(crc, ps[0]), Layout(crc, NextOff(off, ps[0]), ps[1..]);
    assert data[pos..] == head + rest;
    Slices(data, pos, Pad(off), Zeros(Pad(off)), PhysBytes(crc, ps[0]), rest);
    NextPlace(pos, ps[0]);
    HeaderFits(pos, |ps[0].payload|);
    SkipPad(crc, data, pos);
    ReadOne(crc, data, at, ps[0]);
  }

  lemma Slices(data: Slice, pos: nat, n: nat, a: Slice, b: Slice, c: Slice)
    requires pos <= |data| && data[pos..] == a + b + c && |a| == n
    ensures pos + n + |b| <= |data| && data[pos + n..pos + n + |b|] == b && data[pos + n + |b|..] == c
  {
    assert data[pos + n..pos + n + |b|] == data[pos..][n..n + |b|];
    assert data[pos + n + |b|..] == data[pos..][n + |b|..];
  }

  lemma StartInBlock(pos: nat)
    ensures AfterPad(pos) % BLOCK_SIZE == Start(pos % BLOCK_SIZE)
  {
    var off := pos % BLOCK_SIZE;
    if BLOCK_SIZE - off < HEADER_SIZE {
      GrowInBlock(pos, off, BLOCK_SIZE - off);
    }
  }

  lemma NextPlace(pos: nat, p: Phys)
    requires |p.payload| <= Avail(pos % BLOCK_SIZE)
    ensures (AfterPad(pos) + HEADER_SIZE + |p.payload|) % BLOCK_SIZE == NextOff(pos % BLOCK_SIZE, p)
  {
    hide AfterPad, Start;
    StartInBlock(pos);
    GrowInBlock(AfterPad(pos), Start(pos % BLOCK_SIZE), HEADER_SIZE + |p.payload|);
  }

  lemma ReadOne(crc: Crc, data: Slice, at: nat, p: Phys)
    requires FULL_TYPE <= p.t <= LAST_TYPE && |p.payload| < 65536
    requires at + HEADER_SIZE + |p.payload| <= |data| && at + HEADER_SIZE + |p.payload| <= BlockLimit(at)
    requires data[at..at + HEADER_SIZE + |p.payload|] == PhysBytes(crc, p)
    ensures EventsAt(crc, data, at)
         == [Fragment(p.t, p.payload)] + EventsAt(crc, data, at + HEADER_SIZE + |p.payload|)
  {
    hide ParseBuffer, PhysBytes, BlockLimit;
    var end, next := BlockEnd(data, at), at + HEADER_SIZE + |p.payload|;
    assert data[at..end] == PhysBytes(crc, p) + data[next..end];
    ParsePhysBytes(crc, p, data[next..end]);
  }

  /** A reader that drops the rest of a block goes on with the first of these physical records behind it; those
      with a header in the block are lost. */
  lemma {:induction false} ResumeBehind(crc: Crc, data: Slice, pos: nat, ps: seq<Phys>, limit: nat) returns (j: nat)
    requires pos <= |data| && Fits(pos % BLOCK_SIZE, ps) && data[pos..] == Layout(crc, pos % BLOCK_SIZE, ps)
    requires limit % BLOCK_SIZE == 0 && limit - BLOCK_SIZE < pos <= limit
    ensures j <= |ps| && (j == 0 <==> ps == [] || limit - pos < HEADER_SIZE)
    ensures var end := if limit < |data| then limit else |data|;
      EventsAt(crc, data, end) == FragmentEvents(ps[j..]) + [End]
    decreases |ps|
  {
    hide EventsAt, PhysBytes, BlockLimit, Layout;
    j := 0;
    assert ps[0..] == ps;
    if ps == [] {
      NothingLaid(crc, pos % BLOCK_SIZE);
      AtTheEnd(crc, data);
    } else if limit - pos < HEADER_SIZE {
      ReadLayout(crc, data, pos, ps);
      var next := LayoutStep(crc, data, pos, ps);
      PadToLimit(pos, limit);
      if pos < limit {
        SkipPad(crc, data, pos);
      }
    } else {
      var next := LayoutStep(crc, data, pos, ps);
      NoPad(pos, limit);
      j := ResumeBehind(crc, data, next, ps[1..], limit);
      assert ps[1..][j..] == ps[j + 1..];
      j := j + 1;
    }
  }

  lemma {:induction false} NothingLaid(crc: Crc, off: nat)
    requires off < BLOCK_SIZE
    ensures Layout(crc, off, []) == []
  {
  }

  lemma PadToLimit(pos: nat, limit: nat)
    requires limit % BLOCK_SIZE == 0 && limit - HEADER_SIZE < pos <= limit
    ensures AfterPad(pos) == limit
  {
  }

  lemma NoPad(pos: nat, limit: nat)
    requires limit % BLOCK_SIZE == 0 && limit - BLOCK_SIZE < pos <= limit - HEADER_SIZE
    ensures AfterPad(pos) == pos && BlockLimit(pos) == limit
  {
  }

  // ----- writing to a file that ends anywhere -----

  /** No physical record has the type that the reader takes for the end of the file. */
  ghost predicate NoEofType(crc: Crc, file: Slice) {
    forall e :: e in EventsAt(crc, file, 0) && e.Fragment? ==> e.t != EOF_TYPE
  }

  /** What is left of a cut record and what is written behind it do not have a fitting checksum together. */
  ghost predicate NothingCompleted(crc: Crc, file: Slice, more: seq<Slice>) {
    !EndsWhole(crc, file) ==> !ChecksumFits(crc, Appended(crc, file, more), GiveUp(crc, file, 0))
  }

  /** What the reader gave up on yields nothing. */
  lemma {:induction false} NothingThere(crc: Crc, file: Slice, q: nat, inFragmented: bool, scratch: Slice)
    requires q <= |file| && StopsAt(crc, file, q)
    ensures Assemble(EventsAt(crc, file, q), inFragmented, scratch).records == []
  {
    hide ParseBuffer, BlockLimit;
    AtTheEnd(crc, file);
  }

  /** With more behind it, what the reader gave up on is the end of the file, or a bad record: then the rest of the
      block is dropped. */
  lemma Blocked(crc: Crc, file: Slice, data: Slice, q: nat) returns (event: Event)
    requires file <= data && q < |file| && AfterPad(q) == q && StopsAt(crc, file, q)
    requires !ParsedAt(crc, data, q).Good?
    ensures BlockEnd(data, q) == if BlockLimit(q) < |data| then BlockLimit(q) else |data|
    ensures event.Bad? ==> EventsAt(crc, data, q) == [event] + EventsAt(crc, data, BlockEnd(data, q))
    ensures !event.Bad? ==> EventsAt(crc, data, q) == [End] && BlockEnd(data, q) == |data|
  {
    hide ParseBuffer;
    event := EventsAt(crc, data, q)[0];
    assert AfterPad(q) == q ==> BlockLimit(q) - q >= HEADER_SIZE;
  }

  /** Where a file ends whole, reading goes on with the first new physical record. */
  lemma {:induction false} GoesOnBehind(crc: Crc, file: Slice, data: Slice, q: nat)
    requires file <= data && q <= |file| <= AfterPad(q) && AtEof(file, q) && AfterPad(|file|) <= |data|
    ensures EventsAt(crc, data, q) == EventsAt(crc, data, |file|)
  {
    hide EventsAt, BlockLimit;
    PadReachesLimit(q);
    PadReachesLimit(|file|);
    if q < |file| {
      SameBlock(q, |file|);
      TrailerEnds(q, |file|);
      SkipPad(crc, data, q);
      SkipPad(crc, data, |file|);
    }
  }

  lemma TrailerEnds(q: nat, pos: nat)
    requires q < pos <= AfterPad(q) && pos < BlockLimit(q)
    ensures AfterPad(pos) == AfterPad(q)
  {
  }

  lemma RoomLeft(file: Slice, q: nat)
    requires q < |file| < BlockLimit(q)
    ensures BlockLimit(q) % BLOCK_SIZE == 0 && BlockLimit(q) - BLOCK_SIZE < |file|
    ensures RoomInBlock(file) <==> BlockLimit(q) - |file| >= HEADER_SIZE
  {
  }

  lemma {:induction false} AppendedParts(crc: Crc, file: Slice, more: seq<Slice>)
    ensures var data, off := Appended(crc, file, more), |file| % BLOCK_SIZE;
      && file <= data && data[|file|..] == Layout(crc, off, AllFragments(more, off))
      && (more == [] ==> data == file)
      && (more != [] ==> AfterPad(|file|) <= |data|)
  {
    hide PhysBytes, Zeros;
    if more != [] {
      FirstOfAll(more, |file| % BLOCK_SIZE);
    }
  }

  /** The new records behind a whole end are all returned. */
  lemma {:induction false} BehindWholeEnd(crc: Crc, file: Slice, more: seq<Slice>, q: nat, inFragmented: bool, scratch: Slice)
    requires q <= |file| <= AfterPad(q) && StopsAt(crc, file, q)
    ensures Assemble(EventsAt(crc, Appended(crc, file, more), q), inFragmented, scratch).records == more
  {
    hide EventsAt, Assemble, AllFragments, Layout, Appended, AfterPad;
    var data, off := Appended(crc, file, more), |file| % BLOCK_SIZE;
    AppendedParts(crc, file, more);
    if more == [] {
      NothingThere(crc, file, q, inFragmented, scratch);
    } else {
      var ps := AllFragments(more, off);
      GoesOnBehind(crc, file, data, q);
      ReadLayout(crc, data, |file|, ps);
      FirstOfAll(more, off);
      FirstEvent(ps, [End]);
      NewRecordStarts(FragmentEvents(ps) + [End], inFragmented, scratch);
      WholeLog(more, [End], off);
      BreakHere([End], false, []);
      assert more + [] == more;
    }
  }

  /** Behind what the reader gives up on it misses the new records that begin in the same block, if there are any. */
  lemma BehindCutRecord(crc: Crc, file: Slice, more: seq<Slice>, q: nat, inFragmented: bool, scratch: Slice)
    returns (k: nat)
    requires q < |file| && AfterPad(q) == q && StopsAt(crc, file, q)
    requires !ParsedAt(crc, Appended(crc, file, more), q).Good?
    ensures k <= |more| && (k == 0 <==> more == [] || !RoomInBlock(file))
    ensures Assemble(EventsAt(crc, Appended(crc, file, more), q), inFragmented, scratch).records == more[k..]
  {
    hide EventsAt, Assemble, AllFragments, Layout, Appended, AfterPad, ParsedAt, BlockLimit, RoomInBlock;
    var data, off, limit := Appended(crc, file, more), |file| % BLOCK_SIZE, BlockLimit(q);
    AppendedParts(crc, file, more);
    RoomLeft(file, q);
    var ps := AllFragments(more, off);
    var j := ResumeBehind(crc, data, |file|, ps, limit);
    var event := Blocked(crc, file, data, q);
    if more == [] {
      NoFragments(more, [], off);
    } else {
      FirstOfAll(more, off);
    }
    if event.Bad? {
      var tail := FragmentEvents(ps[j..]) + [End];
      BadFirst(event, tail, inFragmented, scratch);
      k := HeadlessLog(more, j, [End], off);
      BreakHere([End], false, []);
      assert more[k..] + [] == more[k..];
      CountFromZero(more, off);
    } else {
      k := |more|;
      AtTheEnd(crc, data);
      assert |FragmentEvents(ps[j..]) + [End]| == 1;
      BreakHere([End], inFragmented, scratch);
    }
  }

  lemma CountFromZero(records: seq<Slice>, off: nat)
    requires off < BLOCK_SIZE
    ensures PhysCount(records, 0, off) == 0
  {
    assert records[..0] == [];
  }

  lemma {:induction false} BadFirst(event: Event, tail: seq<Event>, inFragmented: bool, scratch: Slice)
    requires event.Bad?
    ensures Assemble([event] + tail, inFragmented, scratch).records == Assemble(tail, false, []).records
  {
    assert ([event] + tail)[1..] == tail;
  }

  /** Writing to any file, however it ends, leaves the records that were readable, and makes the new ones readable
      from number `k` on. That is all of them if and only if nothing is written, or the file ends whole, or its last
      block has no room for another header. */
  lemma ReusedLog(crc: Crc, file: Slice, more: seq<Slice>) returns (k: nat)
    requires NoEofType(crc, file) && NothingCompleted(crc, file, more)
    ensures k <= |more|
    ensures k == 0 <==> more == [] || EndsWhole(crc, file) || !RoomInBlock(file)
    ensures ReadAll(crc, Appended(crc, file, more)).records == ReadAll(crc, file).records + more[k..]
  {
    hide EventsAt, Assemble, Appended, AfterPad, GiveUp, StopsAt, ParsedAt, RoomInBlock, Layout, AllFragments, ChecksumFits, Blank,
         Covered;
    var data := Appended(crc, file, more);
    AppendedParts(crc, file, more);
    var front := SharedEvents(crc, file, data, 0);
    var q := GiveUp(crc, file, 0);
    var before, after := EventsAt(crc, file, q), EventsAt(crc, data, q);
    forall e | e in front
      ensures GoesOn(e)
    {
      assert e in EventsAt(crc, file, 0);
    }
    var records, inFragmented, scratch := AssembleFront(front, before, after, false, []);
    NothingThere(crc, file, q, inFragmented, scratch);
    assert records + [] == records;
    if EndsWhole(crc, file) {
      k := 0;
      assert more[0..] == more;
      BehindWholeEnd(crc, file, more, q, inFragmented, scratch);
    } else {
      NotInTrailer(crc, file, q);
      AcceptedIffChecked(crc, data, q);
      k := BehindCutRecord(crc, file, more, q, inFragmented, scratch);
    }
  }

  lemma NotInTrailer(crc: Crc, file: Slice, q: nat)
    requires q <= |file| && StopsAt(crc, file, q) && AfterPad(q) < |file|
    ensures AfterPad(q) == q
  {
    hide ParsedAt, AfterPad, BlockLimit;
    PadReachesLimit(q);
  }

  /** In other words: the new records come back, all of them, if and only if the file ended whole or had no room. */
  lemma ReuseIsSafe(crc: Crc, file: Slice, more: seq<Slice>)
    requires NoEofType(crc, file) && NothingCompleted(crc, file, more)
    ensures ReadAll(crc, Appended(crc, file, more)).records == ReadAll(crc, file).records + more
        <==> more == [] || EndsWhole(crc, file) || !RoomInBlock(file)
  {
    hide ReadAll, Appended, EndsWhole, RoomInBlock, NoEofType, NothingCompleted;
    var k := ReusedLog(crc, file, more);
    var before := ReadAll(crc, file).records;
    if k == 0 {
      assert more[0..] == more;
    } else {
      assert |before + more[k..]| < |before + more|;
    }
  }

  /** An accepted record that the file alone does not hold reaches beyond its end. */
  lemma AcceptedReaches(crc: Crc, file: Slice, data: Slice, q: nat)
    requires file <= data && q <= |file| && StopsAt(crc, file, q) && ParsedAt(crc, data, q).Good?
    ensures |file| < q + HEADER_SIZE + |ParsedAt(crc, data, q).payload| <= BlockEnd(data, q)
  {
    hide BlockLimit;
    var p := ParsedAt(crc, data, q);
    var n, end, end' := q + HEADER_SIZE + |p.payload|, BlockEnd(file, q), BlockEnd(data, q);
    if n <= |file| {
      assert end == |file| <= end' && file == data[..|file|];
      assert data[q..end'][..end - q] == data[q..end] == file[q..end];
      SameParse(crc, data[q..end'], end - q);
    }
  }

  lemma SameParse(crc: Crc, buffer: Slice, n: nat)
    requires HEADER_SIZE <= n <= |buffer| && ParseBuffer(crc, buffer).Good?
    requires HEADER_SIZE + |ParseBuffer(crc, buffer).payload| <= n
    ensures ParseBuffer(crc, buffer[..n]) == ParseBuffer(crc, buffer)
  {
    var m := HEADER_SIZE + PayloadLength(buffer);
    assert buffer[..n][..4] == buffer[..4];
    assert buffer[..n][6..m] == buffer[6..m] && buffer[..n][HEADER_SIZE..m] == buffer[HEADER_SIZE..m];
  }

  /** Without room, what the padding may do is to complete the cut record, if all that is missing of it is zeros: then
      that record may come back as well, and the new ones do in any case. */
  lemma PaddingMayComplete(crc: Crc, file: Slice, more: seq<Slice>) returns (extra: seq<Slice>)
    requires NoEofType(crc, file) && !EndsWhole(crc, file) && !RoomInBlock(file) && more != []
    requires ParsedAt(crc, Appended(crc, file, more), GiveUp(crc, file, 0)).Good?
    requires ParsedAt(crc, Appended(crc, file, more), GiveUp(crc, file, 0)).t != EOF_TYPE
    ensures |extra| <= 1
    ensures ReadAll(crc, Appended(crc, file, more)).records == ReadAll(crc, file).records + extra + more
  {
    hide EventsAt, Assemble, Appended, AfterPad, GiveUp, StopsAt, RoomInBlock, Layout, AllFragments, ParseBuffer, BlockLimit;
    var data, off := Appended(crc, file, more), |file| % BLOCK_SIZE;
    AppendedParts(crc, file, more);
    var front := SharedEvents(crc, file, data, 0);
    var q := GiveUp(crc, file, 0);
    var before, after, p := EventsAt(crc, file, q), EventsAt(crc, data, q), ParsedAt(crc, data, q);
    forall e | e in front
      ensures GoesOn(e)
    {
      assert e in EventsAt(crc, file, 0);
    }
    var records, inFragmented, scratch := AssembleFront(front, before, after, false, []);
    NothingThere(crc, file, q, inFragmented, scratch);
    assert records + [] == records;
    NotInTrailer(crc, file, q);
    var next := q + HEADER_SIZE + |p.payload|;
    AcceptedReaches(crc, file, data, q);
    var ps := AllFragments(more, off);
    BehindCompleted(crc, file, data, q, next, ps);
    var event := Fragment(p.t, p.payload);
    var inFragmented1, scratch1;
    extra, inFragmented1, scratch1 := AssembleOne(event, inFragmented, scratch);
    FirstOfAll(more, off);
    FirstEvent(ps, [End]);
    NewRecordStarts(FragmentEvents(ps) + [End], inFragmented1, scratch1);
    WholeLog(more, [End], off);
    BreakHere([End], false, []);
    assert more + [] == more;
    assert Assemble([event] + (FragmentEvents(ps) + [End]), inFragmented, scratch).records == extra + more;
    assert records + (extra + more) == records + extra + more;
  }

  lemma ReadAccepted(crc: Crc, data: Slice, q: nat)
    requires q <= |data| && ParsedAt(crc, data, q).Good?
    ensures var p := ParsedAt(crc, data, q);
      && q + HEADER_SIZE + |p.payload| <= |data|
      && EventsAt(crc, data, q) == [Fragment(p.t, p.payload)] + EventsAt(crc, data, q + HEADER_SIZE + |p.payload|)
  {
    hide ParseBuffer, BlockLimit;
  }

  /** Behind a record that ends in the padding the new physical records are read. */
  lemma {:induction false} BehindCompleted(crc: Crc, file: Slice, data: Slice, q: nat, next: nat, ps: seq<Phys>)
    requires file <= data && q < |file| && AtEof(file, q) && !RoomInBlock(file)
    requires ParsedAt(crc, data, q).Good? && next == q + HEADER_SIZE + |ParsedAt(crc, data, q).payload|
    requires |file| < next <= BlockLimit(q) && AfterPad(|file|) <= |data|
    requires Fits(|file| % BLOCK_SIZE, ps) && data[|file|..] == Layout(crc, |file| % BLOCK_SIZE, ps)
    ensures EventsAt(crc, data, q)
         == [Fragment(ParsedAt(crc, data, q).t, ParsedAt(crc, data, q).payload)] + (FragmentEvents(ps) + [End])
  {
    hide ParsedAt, Layout, BlockLimit, AfterPad, RoomInBlock, EventsAt, Fits;
    var limit := BlockLimit(q);
    ReadAccepted(crc, data, q);
    RoomLeft(file, q);
    PadToLimit(|file|, limit);
    PadToLimit(next, limit);
    SkipPad(crc, data, |file|);
    SkipPad(crc, data, next);
    ReadLayout(crc, data, |file|, ps);
  }

  // ----- a log that was cut -----

  /** Byte `cut` of a log lies inside a physical record, header included. */
  ghost predicate InsideRecord(records: seq<Slice>, cut: nat) {
    exists i :: 0 <= i < |AllFragments(records)| && Inside(AllFragments(records), i, cut)
  }

  ghost predicate Inside(ps: seq<Phys>, i: nat, cut: nat)
    requires i < |ps|
  {
    HeaderAt(ps, i) < cut < EndAt(ps, i + 1)
  }

  lemma {:induction false} SkipPadGiveUp(crc: Crc, data: Slice, pos: nat)
    requires AfterPad(pos) <= |data|
    ensures GiveUp(crc, data, pos) == GiveUp(crc, data, AfterPad(pos))
  {
    hide ParseBuffer, AfterPad, BlockLimit;
    PadReachesLimit(pos);
  }

  /** The reader does not give up on an intact physical record. */
  lemma PassPlaced(crc: Crc, data: Slice, ps: seq<Phys>, i: nat)
    requires i < |ps| && Sound(ps) && PlacedAt(crc, data, ps, i)
    ensures EndAt(ps, i) <= EndAt(ps, i + 1) <= |data|
    ensures GiveUp(crc, data, EndAt(ps, i)) == GiveUp(crc, data, EndAt(ps, i + 1))
  {
    hide ParseBuffer, PhysBytes, AfterPad, BlockLimit;
    var at, next := HeaderAt(ps, i), EndAt(ps, i + 1);
    SkipPadGiveUp(crc, data, EndAt(ps, i));
    var end := BlockEnd(data, at);
    assert data[at..end] == PhysBytes(crc, ps[i]) + data[next..end];
    ParsePhysBytes(crc, ps[i], data[next..end]);
  }

  /** It gives up on one that is cut short, or in the trailer before it. */
  lemma GiveUpInside(crc: Crc, log: Slice, ps: seq<Phys>, data: Slice, i: nat)
    requires Placed(crc, log, ps) && data <= log
    requires i < |ps| && EndAt(ps, i) <= |data| < EndAt(ps, i + 1)
    ensures AfterPad(GiveUp(crc, data, EndAt(ps, i))) == HeaderAt(ps, i)
  {
    hide PhysBytes, EndAt, AfterPad, BlockLimit;
    var at, next := HeaderAt(ps, i), EndAt(ps, i + 1);
    assert PlacedAt(crc, log, ps, i);
    if |data| < at {
      PadReachesLimit(EndAt(ps, i));
    } else {
      SkipPadGiveUp(crc, data, EndAt(ps, i));
      EndStep(ps, i);
      if |data| - at >= HEADER_SIZE {
        assert data == log[..|data|];
        ParsePhysBytes(crc, ps[i], []);
        assert PayloadLength(data[at..]) == PayloadLength(log[at..next]);
      }
      HeaderNeedsNoPad(at);
    }
  }

  lemma HeaderNeedsNoPad(at: nat)
    requires at + HEADER_SIZE <= BlockLimit(at)
    ensures AfterPad(at) == at
  {
  }

  /** Of a log cut at byte |data| the first `m` physical records are whole; the file ends whole unless the cut is
      inside the next one. */
  lemma {:induction false} CutGiveUp(crc: Crc, log: Slice, ps: seq<Phys>, data: Slice, i: nat) returns (m: nat)
    requires Placed(crc, log, ps) && data <= log
    requires i <= |ps| && EndAt(ps, i) <= |data|
    ensures i <= m <= |ps| && EndAt(ps, m) <= |data|
    ensures m < |ps| ==> |data| < EndAt(ps, m + 1)
    ensures AfterPad(GiveUp(crc, data, EndAt(ps, i))) >= |data| <==> m == |ps| || !Inside(ps, m, |data|)
    decreases |ps| - i
  {
    hide ParseBuffer, PhysBytes, AfterPad, BlockLimit, EventsAt, EndAt;
    if i == |ps| {
      m := i;
    } else if EndAt(ps, i + 1) <= |data| {
      assert PlacedAt(crc, log, ps, i);
      assert data[HeaderAt(ps, i)..EndAt(ps, i + 1)] == log[HeaderAt(ps, i)..EndAt(ps, i + 1)] by {
        EndMonotone(ps, i, i + 1);
      }
      PassPlaced(crc, data, ps, i);
      m := CutGiveUp(crc, log, ps, data, i + 1);
    } else {
      m := i;
      GiveUpInside(crc, log, ps, data, i);
    }
  }

  /** A cut log ends whole if and only if the cut is not inside a physical record. */
  lemma CutEndsWhole(crc: Crc, records: seq<Slice>, cut: nat)
    requires cut <= |LogBytes(crc, records)|
    ensures EndsWhole(crc, LogBytes(crc, records)[..cut]) <==> !InsideRecord(records, cut)
  {
    hide Placed, AllFragments, EndAt, LogBytes, GiveUp, AfterPad, HeaderAt;
    var log, ps := LogBytes(crc, records), AllFragments(records);
    LogIsPlaced(crc, records);
    StartOfLog(ps);
    var m := CutGiveUp(crc, log, ps, log[..cut], 0);
    if i :| 0 <= i < |ps| && Inside(ps, i, cut) {
      OnlyInside(ps, i, m, cut);
    }
    assert m < |ps| && Inside(ps, m, cut) ==> InsideRecord(records, cut);
  }

  lemma OnlyInside(ps: seq<Phys>, i: nat, m: nat, cut: nat)
    requires i < |ps| && m <= |ps| && Inside(ps, i, cut)
    requires EndAt(ps, m) <= cut && (m < |ps| ==> cut < EndAt(ps, m + 1))
    ensures i == m
  {
    hide AfterPad, EndAt;
    EndMonotone(ps, i, i + 1);
    if i < m {
      EndMonotone(ps, i + 1, m);
    } else if m < i {
      EndMonotone(ps, m + 1, i);
    }
  }

  /** A writer's log has no such type, however it is cut. */
  lemma CutHasNoEofType(crc: Crc, records: seq<Slice>, cut: nat)
    requires cut <= |LogBytes(crc, records)|
    ensures NoEofType(crc, LogBytes(crc, records)[..cut])
  {
    hide PlacedAt, AllFragments, EndAt, LogBytes, EventsAt;
    var log, ps := LogBytes(crc, records), AllFragments(records);
    LogIsPlaced(crc, records);
    StartOfLog(ps);
    var m := CutEvents(crc, log, ps, log[..cut], 0);
    forall e | e in EventsAt(crc, log[..cut], 0) && e.Fragment?
      ensures e.t != EOF_TYPE
    {
      var i :| 0 <= i < |ps[0..m]| && FragmentEvents(ps[0..m])[i] == e;
      assert ps[0..m][i] == ps[i];
    }
  }

  /** A log cut at any byte, opened again and written to: the records that end before the cut come back, and then
      the new ones, all of them if and only if the cut is not inside a physical record or its block has no room. */
  lemma ReusedCutLog(crc: Crc, records: seq<Slice>, cut: nat, more: seq<Slice>) returns (n: nat)
    requires cut <= |LogBytes(crc, records)| && NothingCompleted(crc, LogBytes(crc, records)[..cut], more)
    ensures n <= |records| && |LogBytes(crc, records[..n])| <= cut
    ensures n < |records| ==> cut < |LogBytes(crc, records[..n + 1])|
    ensures ReadAll(crc, Appended(crc, LogBytes(crc, records)[..cut], more)).records == records[..n] + more
        <==> more == [] || !InsideRecord(records, cut) || BLOCK_SIZE - cut % BLOCK_SIZE < HEADER_SIZE
  {
    hide ReadAll, LogBytes, Appended, EndsWhole, InsideRecord, NoEofType, NothingCompleted;
    var file := LogBytes(crc, records)[..cut];
    n := Truncation(crc, records, cut);
    CutHasNoEofType(crc, records, cut);
    CutEndsWhole(crc, records, cut);
    ReuseIsSafe(crc, file, more);
  }

  /** It happens: a record is cut off inside its header, the log is opened again, and what is written then, synced or
      not, is never read. Nothing is reported. */
  lemma CutRecordHidesNewOnes(crc: Crc, b: Slice, c: Slice)
    requires |b| == 100 && |c| == 1
    ensures |LogBytes(crc, [b])| == 107
    ensures ReadAll(crc, Appended(crc, LogBytes(crc, [b])[..7], [c])) == Output([], [])
  {
    hide Zeros, EncodeFixed;
    OneRecord(crc, 0, b);
    var file := LogBytes(crc, [b])[..7];
    OneRecord(crc, 7, c);
    var data := Appended(crc, file, [c]);
    assert data[..7] == file;
    assert PayloadLength(data) == 100;
    assert data[0..BlockEnd(data, 0)] == data;
    assert EventsAt(crc, data, 0) == [End];
  }

  lemma {:induction false} OneRecord(crc: Crc, off: nat, r: Slice)
    requires off + HEADER_SIZE + |r| < BLOCK_SIZE
    ensures AllFragments([r], off) == [Phys(FULL_TYPE, r)]
    ensures Layout(crc, off, [Phys(FULL_TYPE, r)]) == PhysBytes(crc, Phys(FULL_TYPE, r))
  {
    var p := Phys(FULL_TYPE, r);
    assert [r][..0] == [] && AllFragments([r][..0], off) == [];
    assert r[..|r|] == r;
    assert AllFragments([r], off) == [] + Fragments(off, r, true);
    SingleLayout(crc, off, p);
    assert Zeros(0) == [];
    assert [] + PhysBytes(crc, p) == PhysBytes(crc, p);
  }
}
