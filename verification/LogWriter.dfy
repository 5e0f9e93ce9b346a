/** log::Writer: appends records to a log file, cut into physical records. */
module LogWriter {
  import opened Bytes
  import opened LogFormat

  class Writer {
    const crc: Crc
    var dest: Slice         // the bytes of the file written to
    var blockOffset: nat    // bytes of the last block in use

    /** After a record that fills a block `blockOffset` is BLOCK_SIZE, after reopening there it is 0. */
    ghost predicate Valid()
      reads this
    {
      blockOffset <= BLOCK_SIZE && InBlock(blockOffset) == |dest| % BLOCK_SIZE
    }

    constructor (crc: Crc)
      ensures Valid() && dest == [] && this.crc == crc
    {
      this.crc := crc;
      dest, blockOffset := [], 0;
    }

    constructor Reopen(crc: Crc, dest: Slice)
      ensures Valid() && this.dest == dest && this.crc == crc
    {
      this.crc := crc;
      this.dest, blockOffset := dest, |dest| % BLOCK_SIZE;
    }

    method AddRecord(slice: Slice)
      requires Valid()
      modifies this
      ensures Valid()
      ensures dest == old(dest) + RecordBytes(crc, |old(dest)| % BLOCK_SIZE, slice)
      ensures forall records: seq<Slice> ::
        old(dest) == LogBytes(crc, records) ==> dest == LogBytes(crc, records + [slice])
      ensures forall file: Slice, records: seq<Slice> ::
        old(dest) == Appended(crc, file, records) ==> dest == Appended(crc, file, records + [slice])
    {
      hide Fragments, Layout, LogBytes, Appended, Fits;
      ghost var off := InBlock(blockOffset);
      ghost var remaining := RecordBytes(crc, off, slice);
      ghost var target := dest + remaining;
      var ptr, left, begin := 0, |slice|, true;
      while true
        invariant Valid() && off == InBlock(blockOffset)
        invariant ptr <= |slice| && left == |slice| - ptr
        invariant remaining == RecordBytes(crc, off, slice[ptr..], begin)
        invariant dest + remaining == target
        decreases left, if Avail(off) == 0 then 1 else 0
      {
        ghost var rest, written := slice[ptr..], dest;
        var leftover := BLOCK_SIZE - blockOffset;
        if leftover < HEADER_SIZE {
          if leftover > 0 {
            GrowInBlock(|dest|, blockOffset, leftover);
            dest := dest + Zeros(leftover);
          }
          blockOffset := 0;
        }
        assert dest == written + Zeros(Pad(off)) && blockOffset == Start(off);

        var avail := BLOCK_SIZE - blockOffset - HEADER_SIZE;
        var fragmentLength := if left < avail then left else avail;
        var end := left == fragmentLength;
        var t := FragmentType(begin, end);
        assert fragmentLength == FragmentLength(off, |rest|);
        assert slice[ptr..ptr + fragmentLength] == rest[..fragmentLength];
        EmitPhysicalRecord(t, slice[ptr..ptr + fragmentLength]);
        remaining := FirstFragment(crc, off, rest, begin, fragmentLength, written);
        off := InBlock(blockOffset);
        assert rest[fragmentLength..] == slice[ptr + fragmentLength..];
        ptr := ptr + fragmentLength;
        left := left - fragmentLength;
        begin := false;
        if left == 0 {
          assert dest + remaining == dest;
          break;
        }
      }
      forall records: seq<Slice> | old(dest) == LogBytes(crc, records)
        ensures dest == LogBytes(crc, records + [slice])
      {
        LogBytesAppend(crc, records, slice);
      }
      forall file: Slice, records: seq<Slice> | old(dest) == Appended(crc, file, records)
        ensures dest == Appended(crc, file, records + [slice])
      {
        AppendedMore(crc, file, records, slice);
      }
    }

    method EmitPhysicalRecord(t: byte, payload: Slice)
      requires blockOffset + HEADER_SIZE + |payload| <= BLOCK_SIZE
      requires blockOffset == |dest| % BLOCK_SIZE
      modifies this
      ensures dest == old(dest) + PhysBytes(crc, Phys(t, payload))
      ensures blockOffset == old(blockOffset) + HEADER_SIZE + |payload| && Valid()
    {
      var stored := Mask(crc([t] + payload));
      var header := EncodeFixed(4, stored) + [|payload| % 256, |payload| / 256, t];
      dest := dest + header;
      dest := dest + payload;
      GrowInBlock(|old(dest)|, blockOffset, HEADER_SIZE + |payload|);
      blockOffset := blockOffset + HEADER_SIZE + |payload|;
    }
  }
}
