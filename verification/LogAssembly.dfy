/** How ReadRecord puts the fragments of a list of records together again, when they are all there,
    when they break off, and when it starts in the middle of them. */
module LogAssembly {
  import opened Bytes
  import opened LogFormat
  import opened LogReader
  import opened LogPlacement

  lemma FirstEvent(ps: seq<Phys>, tail: seq<Event>)
    requires ps != []
    ensures var events := FragmentEvents(ps) + tail;
      events[0] == Fragment(ps[0].t, ps[0].payload) && events[1..] == FragmentEvents(ps[1..]) + tail
  {
  }

  lemma EventsAppend(a: seq<Phys>, b: seq<Phys>, tail: seq<Event>)
    ensures FragmentEvents(a + b) + tail == FragmentEvents(a) + (FragmentEvents(b) + tail)
  {
  }

  /** What stands between records, or breaks one off, event by event. A bad record is reported with what was gathered; type
      5 is taken for the end of the file, type 6 for a bad record, and other unknown types are reported. */
  lemma {:induction false} OddEvents(t: byte, payload: Slice, reports: seq<Report>, inFragmented: bool, scratch: Slice, tail: seq<Event>)
    ensures var rest := Assemble(tail, false, []);
      var broken := if inFragmented then [Report(|scratch|, ErrorInMiddle)] else [];
      && Assemble([Bad(reports)] + tail, inFragmented, scratch) == Output(rest.records, reports + broken + rest.reports)
      && (t == 5 ==> Assemble([Fragment(t, payload)] + tail, inFragmented, scratch) == Output([], []))
      && (t == 6 ==>
            Assemble([Fragment(t, payload)] + tail, inFragmented, scratch) == Output(rest.records, broken + rest.reports))
      && (t == 0 || t > 6 ==>
            Assemble([Fragment(t, payload)] + tail, inFragmented, scratch)
            == Output(rest.records,
                      [Report(|payload| + if inFragmented then |scratch| else 0, UnknownRecordType)] + rest.reports))
  {
    assert ([Bad(reports)] + tail)[1..] == tail && ([Fragment(t, payload)] + tail)[1..] == tail;
  }

  /** All fragments of a record, the first `done` bytes of which have been read. */
  lemma {:induction false} WholeRecord(off: nat, done: Slice, data: Slice, begin: bool, tail: seq<Event>)
    requires off < BLOCK_SIZE && (begin ==> done == [])
    ensures var rest := Assemble(tail, false, []);
      Assemble(FragmentEvents(Fragments(off, data, begin)) + tail, !begin, done)
        == Output([done + data] + rest.records, rest.reports)
    decreases |Fragments(off, data, begin)|
  {
    hide Avail, NextOff;
    var ps := Fragments(off, data, begin);
    FirstEvent(ps, tail);
    var n := FragmentLength(off, |data|);
    if n == |data| {
      assert data[..n] == data && ps[1..] == [];
      assert FragmentEvents(ps[1..]) + tail == tail;
      var rest := Assemble(tail, false, []);
      assert [] + rest.reports == rest.reports;
      assert begin ==> done + data == data;
    } else {
      assert ps[1..] == Fragments(NextOff(off, ps[0]), data[n..], false);
      assert begin ==> done + data[..n] == data[..n];
      WholeRecord(NextOff(off, ps[0]), done + data[..n], data[n..], false, tail);
      assert done + data[..n] + data[n..] == done + data;
    }
  }

  /** Where the fragments break off the reader meets the end of the log or a bad record. */
  ghost predicate Breaks(tail: seq<Event>) {
    tail != [] && (tail[0].End? || tail[0].Bad?)
  }

  /** What the reader returns after the break; nothing after the end of the log. */
  ghost function Beyond(tail: seq<Event>): seq<Slice>
    requires Breaks(tail)
  {
    if tail[0].End? then [] else Assemble(tail[1..], false, []).records
  }

  /** The first fragment of a record, and the others. */
  lemma {:induction false} FirstPhys(off: nat, data: Slice, begin: bool)
    requires off < BLOCK_SIZE
    ensures var ps, n := Fragments(off, data, begin), FragmentLength(off, |data|);
      && n <= |data| && ps != [] && ps[0] == Phys(FragmentType(begin, n == |data|), data[..n])
      && |ps[0].payload| <= Avail(off)
      && (n == |data| <==> |ps| == 1)
      && (n < |data| ==> ps[1..] == Fragments(NextOff(off, ps[0]), data[n..], false))
  {
  }

  lemma {:induction false} BreakHere(tail: seq<Event>, inFragmented: bool, scratch: Slice)
    requires Breaks(tail)
    ensures Assemble(tail, inFragmented, scratch).records == Beyond(tail)
    ensures tail[0].End? ==> Assemble(tail, inFragmented, scratch).reports == []
  {
  }

  /** A fragment that is not the last one of its record is gathered. */
  lemma {:induction false} GatherOne(events: seq<Event>, begin: bool, done: Slice)
    requires events != [] && events[0].Fragment? && events[0].t == FragmentType(begin, false) && (begin ==> done == [])
    ensures Assemble(events, !begin, done) == Assemble(events[1..], true, done + events[0].payload)
  {
    var rest := Assemble(events[1..], true, done + events[0].payload);
    assert [] + rest.reports == rest.reports;
    assert begin ==> done + events[0].payload == events[0].payload;
  }

  /** A record of which only the first `m` fragments are there is dropped; at the end of the log, silently. */
  lemma {:induction false} BrokenRecord(off: nat, done: Slice, data: Slice, begin: bool, m: nat, tail: seq<Event>)
    requires off < BLOCK_SIZE && (begin ==> done == []) && Breaks(tail)
    requires m < |Fragments(off, data, begin)|
    ensures var all := Assemble(FragmentEvents(Fragments(off, data, begin)[..m]) + tail, !begin, done);
      && all.records == Beyond(tail)
      && (tail[0].End? ==> all.reports == [])
    decreases m
  {
    hide Avail, NextOff, Assemble, Fragments, FragmentLength, Beyond;
    var ps := Fragments(off, data, begin);
    if m == 0 {
      assert FragmentEvents(ps[..m]) + tail == tail;
      BreakHere(tail, !begin, done);
    } else {
      FirstPhys(off, data, begin);
      FirstEvent(ps[..m], tail);
      assert ps[..m][1..] == ps[1..][..m - 1];
      var n := FragmentLength(off, |data|);
      GatherOne(FragmentEvents(ps[..m]) + tail, begin, done);
      BrokenRecord(NextOff(off, ps[0]), done + data[..n], data[n..], false, m - 1, tail);
    }
  }

  /** A fragment that does not begin a record is skipped when no record was begun. */
  lemma {:induction false} SkipHeadless(events: seq<Event>)
    requires events != [] && events[0].Fragment? && (events[0].t == MIDDLE_TYPE || events[0].t == LAST_TYPE)
    ensures Assemble(events, false, []).records == Assemble(events[1..], false, []).records
  {
  }

  /** Fragments without the first one of their record are skipped. */
  lemma {:induction false} HeadlessRecord(off: nat, data: Slice, m: nat, begin: bool, tail: seq<Event>)
    requires off < BLOCK_SIZE
    requires m <= |Fragments(off, data, begin)| && (begin ==> m > 0)
    ensures Assemble(FragmentEvents(Fragments(off, data, begin)[m..]) + tail, false, []).records
         == Assemble(tail, false, []).records
    decreases |Fragments(off, data, begin)|
  {
    hide Avail, NextOff, Assemble, Fragments, FragmentLength;
    var ps := Fragments(off, data, begin);
    FirstPhys(off, data, begin);
    var n := FragmentLength(off, |data|);
    if m == |ps| {
      assert FragmentEvents(ps[m..]) + tail == tail;
    } else if m > 0 {
      assert ps[m..] == ps[1..][m - 1..];
      HeadlessRecord(NextOff(off, ps[0]), data[n..], m - 1, false, tail);
    } else {
      assert ps[m..] == ps && ps[1..][0..] == ps[1..];
      FirstEvent(ps, tail);
      SkipHeadless(FragmentEvents(ps) + tail);
      if |ps| > 1 {
        HeadlessRecord(NextOff(off, ps[0]), data[n..], 0, false, tail);
      } else {
        assert FragmentEvents(ps[1..]) + tail == tail;
      }
    }
  }

  // ----- lists of records -----

  /** The number of physical records of the first k records. */
  ghost function PhysCount(records: seq<Slice>, k: nat, off: nat := 0): nat
    requires k <= |records| && off < BLOCK_SIZE
  {
    |AllFragments(records[..k], off)|
  }

  ghost function LastFragments(records: seq<Slice>, off: nat := 0): (last: seq<Phys>)
    requires records != [] && off < BLOCK_SIZE
    ensures AllFragments(records, off) == AllFragments(records[..|records| - 1], off) + last && last != []
  {
    Fragments(EndOff(off, AllFragments(records[..|records| - 1], off)), records[|records| - 1], true)
  }

  lemma {:induction false} CountMonotone(records: seq<Slice>, k: nat, l: nat, off: nat := 0)
    requires k <= l <= |records| && off < BLOCK_SIZE
    ensures AllFragments(records[..k], off) <= AllFragments(records[..l], off)
    ensures k < l ==> PhysCount(records, k, off) < PhysCount(records, l, off)
    decreases l
  {
    if k < l {
      CountMonotone(records, k, l - 1, off);
      var last := LastFragments(records[..l], off);
      assert records[..l][..l - 1] == records[..l - 1];
    }
  }

  lemma {:induction false} NoFragments(records: seq<Slice>, tail: seq<Event>, off: nat := 0)
    requires records == [] && off < BLOCK_SIZE
    ensures AllFragments(records, off) == [] && FragmentEvents([]) + tail == tail
  {
  }

  lemma {:induction false} WholeLast(records: seq<Slice>, tail: seq<Event>, off: nat := 0)
    requires records != [] && off < BLOCK_SIZE
    ensures var rest := Assemble(tail, false, []);
      Assemble(FragmentEvents(LastFragments(records, off)) + tail, false, [])
        == Output([records[|records| - 1]] + rest.records, rest.reports)
  {
    hide Assemble, Fragments, AllFragments;
    var record := records[|records| - 1];
    WholeRecord(EndOff(off, AllFragments(records[..|records| - 1], off)), [], record, true, tail);
    assert [] + record == record;
  }

  lemma {:induction false} WholeLog(records: seq<Slice>, tail: seq<Event>, off: nat := 0)
    requires off < BLOCK_SIZE
    ensures var rest := Assemble(tail, false, []);
      Assemble(FragmentEvents(AllFragments(records, off)) + tail, false, [])
        == Output(records + rest.records, rest.reports)
    decreases |records|
  {
    hide Assemble, AllFragments, LastFragments;
    if records == [] {
      NoFragments(records, tail, off);
    } else {
      var before, last := records[..|records| - 1], LastFragments(records, off);
      var rest := Assemble(tail, false, []);
      EventsAppend(AllFragments(before, off), last, tail);
      WholeLast(records, tail, off);
      WholeLog(before, FragmentEvents(last) + tail, off);
      assert before + ([records[|records| - 1]] + rest.records) == records + rest.records;
    }
  }

  /** Of the first `m` physical records the reader makes the `a` records that are complete. */
  lemma {:induction false} BrokenLog(records: seq<Slice>, m: nat, tail: seq<Event>) returns (a: nat)
    requires m <= |AllFragments(records)| && Breaks(tail)
    ensures a <= |records| && PhysCount(records, a) <= m
    ensures a < |records| ==> m < PhysCount(records, a + 1)
    ensures var all := Assemble(FragmentEvents(AllFragments(records)[..m]) + tail, false, []);
      && all.records == records[..a] + Beyond(tail)
      && (tail[0].End? ==> all.reports == [])
    decreases |records|
  {
    hide Assemble, AllFragments;
    var ps, n := AllFragments(records), |records| - 1;
    if m == |ps| {
      a := |records|;
      assert ps[..m] == ps && records[..a] == records;
      WholeLog(records, tail);
      BreakHere(tail, false, []);
    } else {
      NoFragments([], tail);
      var before, last := records[..n], LastFragments(records);
      var count := |AllFragments(before)|;
      assert records[..n + 1] == records;
      if m <= count {
        assert ps[..m] == AllFragments(before)[..m];
        a := BrokenLog(before, m, tail);
        assert before[..a] == records[..a];
        assert a < n ==> before[..a + 1] == records[..a + 1];
      } else {
        a := n;
        assert ps[..m] == AllFragments(before) + last[..m - count];
        EventsAppend(AllFragments(before), last[..m - count], tail);
        WholeLog(before, FragmentEvents(last[..m - count]) + tail);
        BrokenRecord(EndOff(0, AllFragments(before)), [], records[n], true, m - count, tail);
      }
    }
  }

  /** From physical record `j` on the reader makes the records that begin there, from record `b` on. */
  lemma {:induction false} HeadlessLog(records: seq<Slice>, j: nat, tail: seq<Event>, off: nat := 0) returns (b: nat)
    requires off < BLOCK_SIZE && j <= |AllFragments(records, off)|
    ensures b <= |records| && j <= PhysCount(records, b, off)
    ensures b > 0 ==> PhysCount(records, b - 1, off) < j
    ensures Assemble(FragmentEvents(AllFragments(records, off)[j..]) + tail, false, []).records
         == records[b..] + Assemble(tail, false, []).records
    decreases |records|
  {
    hide Assemble, AllFragments;
    var ps, n := AllFragments(records, off), |records| - 1;
    if records == [] {
      b := 0;
      NoFragments(records, tail, off);
      assert ps[j..] == [] && records[..b] == [];
    } else {
      var before, last := records[..n], LastFragments(records, off);
      var count, rest := |AllFragments(before, off)|, Assemble(tail, false, []).records;
      assert records[..n + 1] == records;
      if j <= count {
        assert ps[j..] == AllFragments(before, off)[j..] + last;
        EventsAppend(AllFragments(before, off)[j..], last, tail);
        b := HeadlessLog(before, j, FragmentEvents(last) + tail, off);
        WholeLast(records, tail, off);
        assert before[..b] == records[..b];
        assert b > 0 ==> before[..b - 1] == records[..b - 1];
        assert before[b..] + ([records[n]] + rest) == records[b..] + rest;
      } else {
        b := n + 1;
        assert ps[j..] == last[j - count..];
        HeadlessRecord(EndOff(off, AllFragments(before, off)), records[n], j - count, true, tail);
      }
    }
  }
}
