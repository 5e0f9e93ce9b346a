/** The write-ahead log format: blocks, physical records, and the fragmentation of a record.

    The checksum is a parameter: `crc` maps the type byte and the payload of a physical record
    to a CRC32C value. Nothing here depends on which function it is. */
module LogFormat {
  import opened Bytes

  const BLOCK_SIZE: nat := 32768
  const HEADER_SIZE: nat := 7

  const ZERO_TYPE: byte := 0
  const FULL_TYPE: byte := 1
  const FIRST_TYPE: byte := 2
  const MIDDLE_TYPE: byte := 3
  const LAST_TYPE: byte := 4

  const MASK_DELTA: nat := 0xa282ead8
  const TWO_32: nat := 0x1_0000_0000

  type Crc = Slice -> uint32

  /** Rotate right by 15 bits, then add a constant, in 32-bit arithmetic. */
  function Mask(crc: uint32): uint32 {
    (crc / 0x8000 + crc % 0x8000 * 0x2_0000 + MASK_DELTA) % TWO_32
  }

  function Unmask(masked: nat): uint32 {
    var rot := (masked - MASK_DELTA) % TWO_32;
    rot / 0x2_0000 + rot % 0x2_0000 * 0x8000
  }

  lemma UnmaskMask(crc: uint32)
    ensures Unmask(Mask(crc)) == crc
  {
    var high, low := crc / 0x8000, crc % 0x8000;
    var rot := high + low * 0x2_0000;
    assert (Mask(crc) - MASK_DELTA) % TWO_32 == rot;
    assert rot / 0x2_0000 == low && rot % 0x2_0000 == high;
  }

  /** A physical record: its type and its payload. */
  datatype Phys = Phys(t: byte, payload: Slice)

  function Stored(crc: Crc, t: byte, payload: Slice): uint32 {
    Mask(crc([t] + payload))
  }

  function PhysBytes(crc: Crc, p: Phys): (s: Slice)
    requires |p.payload| < 65536
    ensures |s| == HEADER_SIZE + |p.payload|
  {
    EncodeFixed(4, Stored(crc, p.t, p.payload)) + [|p.payload| % 256, |p.payload| / 256, p.t] + p.payload
  }

  /** Bytes of trailer before the next header, when a block is filled up to offset `off`. */
  function Pad(off: nat): nat
    requires off < BLOCK_SIZE
  {
    if BLOCK_SIZE - off < HEADER_SIZE then BLOCK_SIZE - off else 0
  }

  /** Where in its block the next header goes. */
  function Start(off: nat): (start: nat)
    requires off < BLOCK_SIZE
    ensures start <= BLOCK_SIZE - HEADER_SIZE
  {
    if BLOCK_SIZE - off < HEADER_SIZE then 0 else off
  }

  function Avail(off: nat): nat
    requires off < BLOCK_SIZE
  {
    BLOCK_SIZE - Start(off) - HEADER_SIZE
  }

  /** A block that is full to the end is offset 0 of the next one. */
  function InBlock(blockOffset: nat): (off: nat)
    requires blockOffset <= BLOCK_SIZE
    ensures off < BLOCK_SIZE
  {
    if blockOffset == BLOCK_SIZE then 0 else blockOffset
  }

  /** The block offset after `p` is written at `off`. */
  function NextOff(off: nat, p: Phys): (next: nat)
    requires off < BLOCK_SIZE && |p.payload| <= Avail(off)
    ensures next < BLOCK_SIZE
  {
    InBlock(Start(off) + HEADER_SIZE + |p.payload|)
  }

  /** No physical record of `ps`, laid out from block offset `off`, crosses a block boundary. */
  ghost predicate Fits(off: nat, ps: seq<Phys>)
    requires off < BLOCK_SIZE
    decreases |ps|
  {
    ps == [] || (
      && FULL_TYPE <= ps[0].t <= LAST_TYPE
      && |ps[0].payload| <= Avail(off)
      && Fits(NextOff(off, ps[0]), ps[1..]))
  }

  /** The bytes of `ps` when the file's length is `off` modulo the block size. */
  ghost function Layout(crc: Crc, off: nat, ps: seq<Phys>): Slice
    requires off < BLOCK_SIZE && Fits(off, ps)
    decreases |ps|
  {
    if ps == [] then []
    else Zeros(Pad(off)) + PhysBytes(crc, ps[0]) + Layout(crc, NextOff(off, ps[0]), ps[1..])
  }

  function FragmentLength(off: nat, left: nat): nat
    requires off < BLOCK_SIZE
  {
    if left < Avail(off) then left else Avail(off)
  }

  function FragmentType(begin: bool, end: bool): byte {
    if begin && end then FULL_TYPE
    else if begin then FIRST_TYPE
    else if end then LAST_TYPE
    else MIDDLE_TYPE
  }

  /** How the writer cuts a record (or what is left of one) into physical records. */
  ghost function Fragments(off: nat, data: Slice, begin: bool): (ps: seq<Phys>)
    requires off < BLOCK_SIZE
    ensures |ps| > 0 && Fits(off, ps)
    decreases |data|, if Avail(off) == 0 then 1 else 0
  {
    var n := FragmentLength(off, |data|);
    var p := Phys(FragmentType(begin, n == |data|), data[..n]);
    if n == |data| then
      [p]
    else
      var rest := Fragments(NextOff(off, p), data[n..], false);
      assert ([p] + rest)[1..] == rest;
      [p] + rest
  }

  ghost function EndOff(off: nat, ps: seq<Phys>): (end: nat)
    requires off < BLOCK_SIZE && Fits(off, ps)
    ensures end < BLOCK_SIZE
    decreases |ps|
  {
    if ps == [] then off else EndOff(NextOff(off, ps[0]), ps[1..])
  }

  lemma {:induction false} FitsAppend(off: nat, a: seq<Phys>, b: seq<Phys>)
    requires off < BLOCK_SIZE && Fits(off, a) && Fits(EndOff(off, a), b)
    ensures Fits(off, a + b)
    ensures EndOff(off, a + b) == EndOff(EndOff(off, a), b)
    decreases |a|
  {
    if a == [] {
      assert a + b == b;
    } else {
      FitsAppend(NextOff(off, a[0]), a[1..], b);
      assert (a + b)[1..] == a[1..] + b;
    }
  }

  lemma {:induction false} LayoutAppend(crc: Crc, off: nat, a: seq<Phys>, b: seq<Phys>)
    requires off < BLOCK_SIZE && Fits(off, a) && Fits(EndOff(off, a), b)
    ensures Fits(off, a + b)
    ensures Layout(crc, off, a + b) == Layout(crc, off, a) + Layout(crc, EndOff(off, a), b)
    decreases |a|
  {
    hide PhysBytes, Zeros, Pad, NextOff;
    FitsAppend(off, a, b);
    if a == [] {
      assert a + b == b;
    } else {
      var next := NextOff(off, a[0]);
      LayoutAppend(crc, next, a[1..], b);
      assert (a + b)[0] == a[0] && (a + b)[1..] == a[1..] + b;
      Regroup(Zeros(Pad(off)) + PhysBytes(crc, a[0]), Layout(crc, next, a[1..]), Layout(crc, EndOff(off, a), b));
    }
  }

  lemma Regroup(head: Slice, tail: Slice, more: Slice)
    ensures head + tail + more == head + (tail + more)
  {
  }

  /** The physical records of a whole list of records, from block offset `off` on. */
  ghost function AllFragments(records: seq<Slice>, off: nat := 0): (ps: seq<Phys>)
    requires off < BLOCK_SIZE
    ensures Fits(off, ps)
  {
    if records == [] then
      []
    else
      var before := AllFragments(records[..|records| - 1], off);
      var last := Fragments(EndOff(off, before), records[|records| - 1], true);
      FitsAppend(off, before, last);
      before + last
  }

  lemma WholeBlocks(x: nat, y: nat)
    requires y == x || y == x + BLOCK_SIZE || y == x + 2 * BLOCK_SIZE
    ensures y % BLOCK_SIZE == x % BLOCK_SIZE
  {
  }

  /** The block offset of a file that grows by `n` bytes within its last block. */
  lemma GrowInBlock(length: nat, start: nat, n: nat)
    requires start == length % BLOCK_SIZE && start + n <= BLOCK_SIZE
    ensures (length + n) % BLOCK_SIZE == InBlock(start + n)
  {
  }

  /** Writing moves the block offset by exactly the bytes written. */
  lemma {:induction false} LayoutEnd(crc: Crc, off: nat, ps: seq<Phys>)
    requires off < BLOCK_SIZE && Fits(off, ps)
    ensures (off + |Layout(crc, off, ps)|) % BLOCK_SIZE == EndOff(off, ps)
    decreases |ps|
  {
    if ps != [] {
      var next := NextOff(off, ps[0]);
      var rest := |Layout(crc, next, ps[1..])|;
      LayoutEnd(crc, next, ps[1..]);
      assert |Layout(crc, off, ps)| == Pad(off) + HEADER_SIZE + |ps[0].payload| + rest;
      WholeBlocks(next + rest, off + |Layout(crc, off, ps)|);
    }
  }

  /** What appending `record` adds to a file whose last block is filled up to `off`. */
  ghost function RecordBytes(crc: Crc, off: nat, record: Slice, begin: bool := true): Slice
    requires off < BLOCK_SIZE
  {
    Layout(crc, off, Fragments(off, record, begin))
  }

  /** After `written`, the first fragment `p` of `data` and then the bytes that are left to write. */
  lemma FirstFragment(crc: Crc, off: nat, data: Slice, begin: bool, n: nat, written: Slice) returns (left: Slice)
    requires off < BLOCK_SIZE && n == FragmentLength(off, |data|)
    ensures var p := Phys(FragmentType(begin, n == |data|), data[..n]);
      && written + RecordBytes(crc, off, data, begin) == written + Zeros(Pad(off)) + PhysBytes(crc, p) + left
      && left == if n == |data| then [] else RecordBytes(crc, NextOff(off, p), data[n..], false)
  {
    var ps := Fragments(off, data, begin);
    var p := Phys(FragmentType(begin, n == |data|), data[..n]);
    assert ps[0] == p;
    left := Layout(crc, NextOff(off, p), ps[1..]);
    if n == |data| {
      assert ps == [p];
    } else {
      assert ps == [p] + Fragments(NextOff(off, p), data[n..], false);
      assert ps[1..] == Fragments(NextOff(off, p), data[n..], false);
    }
  }

  /** The whole file that holds `records`. */
  ghost function LogBytes(crc: Crc, records: seq<Slice>): Slice {
    Layout(crc, 0, AllFragments(records))
  }

  /** What becomes of any file when it is opened for appending and `records` are written. */
  ghost function Appended(crc: Crc, file: Slice, records: seq<Slice>): Slice {
    file + Layout(crc, |file| % BLOCK_SIZE, AllFragments(records, |file| % BLOCK_SIZE))
  }

  /** Writing goes on at the length of the file. */
  lemma {:induction false} AppendedMore(crc: Crc, file: Slice, records: seq<Slice>, record: Slice)
    ensures Appended(crc, file, records + [record])
         == Appended(crc, file, records) + RecordBytes(crc, |Appended(crc, file, records)| % BLOCK_SIZE, record)
  {
    hide Layout, Fragments;
    var off := |file| % BLOCK_SIZE;
    var ps := AllFragments(records, off);
    LayoutEnd(crc, off, ps);
    SameOffset(|file|, |Layout(crc, off, ps)|);
    assert (records + [record])[..|records|] == records;
    LayoutAppend(crc, off, ps, Fragments(EndOff(off, ps), record, true));
    Regroup(file, Layout(crc, off, ps), RecordBytes(crc, EndOff(off, ps), record));
  }

  lemma SameOffset(length: nat, n: nat)
    ensures (length % BLOCK_SIZE + n) % BLOCK_SIZE == (length + n) % BLOCK_SIZE
  {
  }

  /** A log is what is appended to an empty file. */
  lemma LogIsAppended(crc: Crc, records: seq<Slice>)
    ensures Appended(crc, [], records) == LogBytes(crc, records)
  {
    assert [] + LogBytes(crc, records) == LogBytes(crc, records);
  }

  /** The log of a list is the log of the list without its last record, continued at that log's length. */
  lemma LogBytesAppend(crc: Crc, records: seq<Slice>, record: Slice)
    ensures LogBytes(crc, records + [record])
         == LogBytes(crc, records) + RecordBytes(crc, |LogBytes(crc, records)| % BLOCK_SIZE, record)
  {
    hide Appended, LogBytes;
    LogIsAppended(crc, records);
    LogIsAppended(crc, records + [record]);
    AppendedMore(crc, [], records, record);
  }
}
