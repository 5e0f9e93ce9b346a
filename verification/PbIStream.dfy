/** pb_istream_t: a buffer that is read from the front, and the primitives that read it. */
module PbIStream {
  import opened Bytes
  import opened PbVarint
  import opened PbFormat
  import opened PbDecoding

  class IStream {
    const data: Slice
    var state: nat        // where the next byte comes from
    var bytesLeft: nat

    ghost predicate Valid()
      reads this
    {
      End() <= |data|
    }

    function End(): nat
      reads this
    {
      state + bytesLeft
    }

    /** What is left to read. */
    ghost function Rest(): Slice
      requires Valid()
      reads this
    {
      data[state..state + bytesLeft]
    }

    /** pb_istream_from_buffer. */
    constructor (data: Slice)
      ensures Valid() && Rest() == data && this.data == data
    {
      this.data, state, bytesLeft := data, 0, |data|;
    }

    /** A substream over the next `size` bytes of another stream. */
    constructor Part(stream: IStream, size: nat)
      requires stream.Valid() && size <= stream.bytesLeft
      ensures Valid() && data == stream.data && state == stream.state && bytesLeft == size
      ensures Rest() == stream.Rest()[..size]
    {
      data, state, bytesLeft := stream.data, stream.state, size;
    }

    /** pb_readbyte. */
    method ReadByte() returns (ok: bool, b: byte)
      requires Valid()
      modifies this
      ensures Valid() && End() == old(End()) && (ok <==> old(Rest()) != [])
      ensures ok ==> b == old(Rest())[0] && Rest() == old(Rest())[1..]
      ensures !ok ==> Rest() == []
    {
      if bytesLeft == 0 {
        return false, 0;
      }
      b := data[state];
      state, bytesLeft := state + 1, bytesLeft - 1;
      ok := true;
    }

    /** pb_read. */
    method Read(count: nat) returns (ok: bool, bytes: Slice)
      requires Valid()
      modifies this
      ensures var r := TakeBytes(old(Rest()), count);
        && Valid() && End() == old(End()) && (ok <==> r.Got?)
        && (ok ==> bytes == r.value && Rest() == r.rest)
        && (!ok ==> Rest() == old(Rest()))
    {
      if bytesLeft < count {
        return false, [];
      }
      bytes := data[state..state + count];
      state, bytesLeft := state + count, bytesLeft - count;
      ok := true;
    }

    /** pb_decode_varint32_eof. `eof`: there was nothing to read. */
    method DecodeVarint32() returns (ok: bool, value: nat, eof: bool)
      requires Valid()
      modifies this
      ensures var r := ReadVarint32(old(Rest()));
        && Valid() && End() == old(End()) && (ok <==> r.Got?) && (eof <==> old(Rest()) == [])
        && (ok ==> value == r.value && Rest() == r.rest)
    {
      hide BitOr, Pow2, Low32;
      ghost var s := Rest();
      value, eof := 0, false;
      var b;
      ok, b := ReadByte();
      if !ok {
        eof := bytesLeft == 0;
        return;
      }
      if b < 128 {
        value := b;
        return;
      }
      var bitpos: nat := 7;
      value := b % 128;
      while true
        invariant Valid() && End() == old(End()) && ReadVarint32(s) == Loop32(Rest(), bitpos, value)
        decreases bytesLeft
      {
        ok, b := ReadByte();
        if !ok {
          return;
        }
        if bitpos >= 32 {
          var signExtension := if bitpos < 63 then 0xff else 0x01;
          if b % 128 != 0 && (value < TWO_31 || b != signExtension) {
            return false, value, false;
          }
        } else {
          value := BitOr(value, Low32(b % 128 * Pow2(bitpos)));
        }
        bitpos := (bitpos + 7) % 256;
        if b < 128 {
          break;
        }
      }
      if bitpos == 35 && b >= 16 {
        return false, value, false;
      }
    }

    /** pb_decode_varint. */
    method DecodeVarint() returns (ok: bool, value: nat)
      requires Valid()
      modifies this
      ensures var r := ReadVarint64(old(Rest()));
        && Valid() && End() == old(End()) && (ok <==> r.Got?)
        && (ok ==> value == r.value && Rest() == r.rest)
    {
      hide BitOr, Pow2, Low64;
      ghost var s := Rest();
      var bitpos: nat := 0;
      value := 0;
      while true
        invariant Valid() && End() == old(End()) && ReadVarint64(s) == Loop64(Rest(), bitpos, value)
        decreases bytesLeft
      {
        if bitpos >= 64 {
          return false, value;
        }
        var b;
        ok, b := ReadByte();
        if !ok {
          return;
        }
        value := BitOr(value, Low64(b % 128 * Pow2(bitpos)));
        bitpos := bitpos + 7;
        if b < 128 {
          return;
        }
      }
    }

    /** pb_skip_varint. */
    method SkipVarint() returns (ok: bool)
      requires Valid()
      modifies this
      ensures var r := PbDecoding.SkipVarint(old(Rest()));
        && Valid() && End() == old(End()) && (ok <==> r.Got?) && (ok ==> Rest() == r.rest)
    {
      ghost var s := Rest();
      while true
        invariant Valid() && End() == old(End()) && PbDecoding.SkipVarint(s) == PbDecoding.SkipVarint(Rest())
        decreases bytesLeft
      {
        var bytes;
        ok, bytes := Read(1);
        if !ok || bytes[0] < 128 {
          return;
        }
      }
    }

    /** pb_skip_string. */
    method SkipString() returns (ok: bool)
      requires Valid()
      modifies this
      ensures var r := ReadPrefixed(old(Rest()));
        && Valid() && End() == old(End()) && (ok <==> r.Got?) && (ok ==> Rest() == r.rest)
    {
      hide ReadVarint32;
      var length, eof;
      ok, length, eof := DecodeVarint32();
      if ok {
        var bytes;
        ok, bytes := Read(length);
      }
    }

    /** pb_skip_field. */
    method SkipField(wireType: nat) returns (ok: bool)
      requires Valid()
      modifies this
      ensures var r := PbDecoding.SkipField(wireType, old(Rest()));
        && Valid() && End() == old(End()) && (ok <==> r.Got?) && (ok ==> Rest() == r.rest)
    {
      hide PbDecoding.SkipVarint, ReadPrefixed;
      var bytes;
      if wireType == WT_VARINT {
        ok := SkipVarint();
      } else if wireType == WT_64BIT {
        ok, bytes := Read(8);
      } else if wireType == WT_STRING {
        ok := SkipString();
      } else if wireType == WT_32BIT {
        ok, bytes := Read(4);
      } else {
        ok := false;
      }
    }

    /** pb_decode_tag. A zero tag byte is an end of the message too. */
    method DecodeTag() returns (ok: bool, tag: nat, wireType: nat, eof: bool)
      requires Valid()
      modifies this
      ensures var r := ReadVarint32(old(Rest()));
        && Valid() && End() == old(End()) && (ok <==> r.Got? && r.value != 0)
        && (ok ==> tag == r.value / 8 && wireType == r.value % 8 && Rest() == r.rest)
        && (eof <==> old(Rest()) == [] || (r.Got? && r.value == 0))
        && (r.Got? ==> Rest() == r.rest)
    {
      hide ReadVarint32;
      tag, wireType := 0, 0;
      var temp;
      ok, temp, eof := DecodeVarint32();
      if !ok {
        return;
      }
      EmptyIsBad(old(Rest()));
      if temp == 0 {
        return false, 0, 0, true;
      }
      tag, wireType := temp / 8, temp % 8;
    }

    /** pb_make_string_substream. Until the substream is closed, `state` stays where the substream begins. */
    method MakeStringSubstream() returns (ok: bool, sub: IStream)
      requires Valid()
      modifies this
      ensures var r := ReadPrefixed(old(Rest()));
        && Valid() && End() <= old(End()) && (ok <==> r.Got?) && fresh(sub) && sub.Valid() && sub.data == data
        && (ok ==> sub.Rest() == r.value && sub.End() + bytesLeft == old(End())
                   && data[sub.End()..old(End())] == r.rest)
    {
      hide ReadVarint32;
      var size, eof;
      ok, size, eof := DecodeVarint32();
      if !ok || bytesLeft < size {
        sub := new IStream.Part(this, 0);
        return false, sub;
      }
      sub := new IStream.Part(this, size);
      bytesLeft := bytesLeft - size;
    }

    /** pb_close_string_substream: whatever is left of the substream is skipped. */
    method CloseStringSubstream(sub: IStream) returns (ok: bool)
      requires Valid() && sub.Valid() && sub != this && sub.data == data && sub.End() + bytesLeft <= |data|
      modifies this, sub
      ensures ok && Valid() && End() == old(sub.End()) + old(bytesLeft) && bytesLeft == old(bytesLeft)
      ensures state == old(sub.End())
    {
      if sub.bytesLeft > 0 {
        var bytes;
        ok, bytes := sub.Read(sub.bytesLeft);
      }
      state := sub.state;
      ok := true;
    }
  }

  lemma EmptyIsBad(s: Slice)
    ensures ReadVarint32(s).Got? ==> s != []
  {
  }
}
