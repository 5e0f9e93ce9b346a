/** The log format in plain numbers: blocks of 32768 bytes, headers of 7, the types 1 to 4. */
module LogOnDisk {
  import opened Bytes
  import opened LogFormat
  import opened LogPlacement

  /** Checksums are stored rotated and shifted. */
  lemma MaskIs(crc: uint32)
    ensures Mask(crc) == (crc / 0x8000 + crc % 0x8000 * 0x2_0000 + 0xa282ead8) % 0x1_0000_0000
  {
  }

  ghost function Header(crc: Crc, t: byte, payload: Slice): Slice
    requires |payload| < 65536
  {
    EncodeFixed(4, Mask(crc([t] + payload))) + [|payload| % 256, |payload| / 256, t]
  }

  /** A record that fits its block is one physical record of type 1. */
  lemma ShortRecord(crc: Crc, off: nat, r: Slice)
    requires off + 7 + |r| <= 32768
    ensures RecordBytes(crc, off, r) == Header(crc, 1, r) + r
  {
    hide PhysBytes;
    var p := Phys(FULL_TYPE, r);
    assert r[..|r|] == r;
    assert Fragments(off, r, true) == [p];
    SingleLayout(crc, off, p);
    assert Zeros(0) == [] && [] + PhysBytes(crc, p) == PhysBytes(crc, p);
    OneHeader(crc, p);
  }

  lemma OneHeader(crc: Crc, p: Phys)
    requires |p.payload| < 65536
    ensures PhysBytes(crc, p) == Header(crc, p.t, p.payload) + p.payload
  {
  }

  /** Fewer than 7 bytes at the end of a block are filled with zeros. */
  lemma Trailer(crc: Crc, off: nat, r: Slice)
    requires 32768 - 7 < off < 32768 && |r| <= 32761
    ensures RecordBytes(crc, off, r) == Zeros(32768 - off) + (Header(crc, 1, r) + r)
  {
    hide PhysBytes, Zeros;
    var p := Phys(FULL_TYPE, r);
    assert r[..|r|] == r;
    assert Fragments(off, r, true) == [p];
    SingleLayout(crc, off, p);
    OneHeader(crc, p);
  }

  /** A longer record is cut at the block boundary: type 2, then 4. */
  lemma {:induction false} TwoParts(off: nat, r: Slice, n: nat)
    requires off + 7 + n == 32768 && n < |r| <= n + 32761
    ensures Fragments(off, r, true) == [Phys(2, r[..n]), Phys(4, r[n..])]
  {
    var rest := r[n..];
    assert rest[..|rest|] == rest;
    assert Fragments(0, rest, false) == [Phys(LAST_TYPE, rest)];
    assert Fragments(off, r, true) == [Phys(FIRST_TYPE, r[..n])] + Fragments(0, rest, false);
  }

  /** A record over three blocks: types 2, 3 and 4. */
  lemma {:induction false} ThreeParts(off: nat, r: Slice, n: nat)
    requires off + 7 + n == 32768 && n + 32761 < |r| <= n + 2 * 32761
    ensures Fragments(off, r, true) == [Phys(2, r[..n]), Phys(3, r[n..][..32761]), Phys(4, r[n..][32761..])]
  {
    var rest := r[n..];
    var last := rest[32761..];
    assert last[..|last|] == last;
    assert Fragments(0, last, false) == [Phys(LAST_TYPE, last)];
    assert Fragments(0, rest, false) == [Phys(MIDDLE_TYPE, rest[..32761])] + Fragments(0, last, false);
    assert Fragments(off, r, true) == [Phys(FIRST_TYPE, r[..n])] + Fragments(0, rest, false);
  }
}
