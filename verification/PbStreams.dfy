/** pb_ostream_t: a stream that writes to a buffer, or only counts. */
module PbStreams {
  import opened Bytes
  import opened Coding
  import opened PbVarint
  import V = Varint

  /** What is in the buffer, with the top bit of the last byte unset if `rest` is used up, and what is to come. */
  ghost predicate Filling(done: Slice, rest: nat, s: Slice) {
    if rest > 0 then done + V.EncodeVarint(rest) == s
    else done != [] && done[|done| - 1] >= 128 && done[..|done| - 1] + [done[|done| - 1] - 128] == s
  }

  lemma FillOne(done: Slice, rest: nat, s: Slice)
    requires rest > 0 && Filling(done, rest, s)
    ensures Filling(done + [rest % 128 + 128], rest / 128, s) && |done| < |s|
  {
    var done' := done + [rest % 128 + 128];
    assert done'[..|done|] == done;
    if rest >= 128 {
      assert done + ([rest % 128 + 128] + V.EncodeVarint(rest / 128)) == done' + V.EncodeVarint(rest / 128);
    }
  }

  /** Seven bits at a time into a buffer of ten bytes; the top bit of the last byte is unset in the end. */
  method FillGroups(value: uint64) returns (buffer: array<byte>, n: nat)
    requires value > 0
    ensures fresh(buffer) && n <= buffer.Length == 10 && buffer[..n] == V.EncodeVarint(value)
  {
    hide V.EncodeVarint, Filling;
    TenBytesAreEnough(value);
    ghost var s := V.EncodeVarint(value);
    buffer := new byte[10](_ => 0);
    var rest: nat := value;
    n := 0;
    FillStarts(buffer[..0], value);
    while rest != 0
      invariant n <= |s| && Filling(buffer[..n], rest, s)
      decreases rest
    {
      ghost var before := buffer[..n];
      FillOne(before, rest, s);
      buffer[n] := rest % 128 + 128;
      rest := rest / 128;
      n := n + 1;
      assert buffer[..n] == before + [buffer[n - 1]];
    }
    FillEnds(buffer[..n], s);
    ghost var before := buffer[..n - 1];
    buffer[n - 1] := buffer[n - 1] - 128;
    assert buffer[..n] == before + [buffer[n - 1]];
  }

  lemma {:induction false} FillStarts(done: Slice, value: nat)
    requires done == [] && value > 0
    ensures Filling(done, value, V.EncodeVarint(value))
  {
  }

  lemma FillEnds(done: Slice, s: Slice)
    requires Filling(done, 0, s)
    ensures done != [] && done[|done| - 1] >= 128 && done[..|done| - 1] + [done[|done| - 1] - 128] == s
  {
  }

  class OStream {
    const writing: bool          // there is a callback; without one the stream only counts
    const buf: array<byte>
    const maxSize: nat
    var state: nat               // where the next byte goes
    var written: nat

    ghost predicate Valid()
      reads this
    {
      writing ==> written <= maxSize && state + (maxSize - written) <= buf.Length
    }

    /** pb_ostream_from_buffer. */
    constructor (buf: array<byte>, maxSize: nat)
      requires maxSize <= buf.Length
      ensures Valid() && writing && this.buf == buf && this.maxSize == maxSize && state == 0 && written == 0
    {
      writing, this.buf, this.maxSize, state, written := true, buf, maxSize, 0, 0;
    }

    /** PB_OSTREAM_SIZING. */
    constructor Sizing()
      ensures Valid() && !writing && written == 0 && fresh(buf)
    {
      writing, buf, maxSize, state, written := false, new byte[0], 0, 0, 0;
    }

    /** A substream of `size` bytes over the rest of another stream's buffer. */
    constructor Part(stream: OStream, size: nat)
      requires stream.Valid() && stream.writing && stream.written + size <= stream.maxSize
      ensures Valid() && writing && buf == stream.buf && maxSize == size && state == stream.state && written == 0
    {
      writing, buf, maxSize, state, written := true, stream.buf, size, stream.state, 0;
    }

    /** There is room for `n` more bytes. */
    ghost predicate Fits(n: nat)
      reads this
    {
      writing ==> written + n <= maxSize
    }

    /** The buffer after `s` was written at `p`. */
    ghost function After(before: Slice, p: nat, s: Slice): Slice
      requires writing ==> p + |s| <= |before|
    {
      if writing then Written(before, p, s) else before
    }

    /** The buffer and the pointer were `before` and `p` before `s` was written. */
    ghost predicate Wrote(before: Slice, p: nat, s: Slice)
      reads this, buf
    {
      && state == p + (if writing then |s| else 0)
      && (writing ==> p + |s| <= |before|)
      && buf[..] == After(before, p, s)
    }

    /** Writing `s` and then `t` is writing both. */
    lemma WroteTwice(before: Slice, p: nat, s: Slice, between: Slice, q: nat, t: Slice)
      requires writing ==> p + |s| <= |before|
      requires between == After(before, p, s) && q == p + (if writing then |s| else 0) && Wrote(between, q, t)
      ensures Wrote(before, p, s + t)
    {
      if writing {
        WrittenTwice(before, p, s, t);
      }
    }

    lemma WroteNothing()
      requires Valid()
      ensures Wrote(buf[..], state, [])
    {
    }

    /** A stream that only counts leaves its buffer as it is. */
    lemma WroteUncounted(before: Slice, p: nat, s: Slice)
      requires !writing && buf[..] == before && state == p
      ensures Wrote(before, p, s)
    {
    }

    lemma WroteSo(before: Slice, p: nat, s: Slice)
      requires Wrote(before, p, s)
      ensures (writing ==> p + |s| <= |before|) && buf[..] == After(before, p, s)
      ensures state == p + (if writing then |s| else 0)
    {
    }

    /** The stream was valid, and `s` was appended to it. */
    twostate predicate Appended(s: Slice)
      reads this, buf
    {
      Valid() && old(Fits(|s|)) && written == old(written) + |s| && Wrote(old(buf[..]), old(state), s)
    }

    /** pb_write. */
    method Write(bytes: Slice) returns (ok: bool)
      requires Valid()
      modifies this, buf
      ensures Valid() && (ok <==> old(Fits(|bytes|))) && (ok ==> Appended(bytes))
    {
      if |bytes| > 0 && writing {
        if written + |bytes| > maxSize {
          return false;
        }
        state := CopyBytes(buf, state, bytes);
      }
      written := written + |bytes|;
      if writing && bytes == [] {
        assert buf[..] == After(old(buf[..]), old(state), bytes);
      }
      return true;
    }

    /** pb_write without data, of a stream that only counts. */
    method Count(n: nat)
      requires Valid() && !writing
      modifies this
      ensures Valid() && written == old(written) + n && state == old(state) && buf[..] == old(buf[..])
    {
      written := written + n;
    }

    /** pb_encode_varint: seven bits at a time into a buffer of ten bytes. */
    method EncodeVarint(value: uint64) returns (ok: bool)
      requires Valid()
      modifies this, buf
      ensures var s := V.EncodeVarint(value);
        Valid() && (ok <==> old(Fits(|s|))) && (ok ==> Appended(s))
    {
      if value <= 0x7f {
        ok := Write([value]);
        return;
      }
      var buffer, n := FillGroups(value);
      ok := Write(buffer[..n]);
    }

    /** pb_encode_svarint. */
    method EncodeSvarint(value: int) returns (ok: bool)
      requires Valid() && -(TWO_64 / 2) <= value < TWO_64 / 2
      modifies this, buf
      ensures var s := V.EncodeVarint(Zigzag(value));
        Valid() && (ok <==> old(Fits(|s|))) && (ok ==> Appended(s))
    {
      ZigzagRoundTrip(value, 0);
      ok := EncodeVarint(Zigzag(value));
    }
  }
}
