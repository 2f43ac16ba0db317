/**
 The buffer: a compacting and growing array behind a queue of bytes.
 */
module NetworkBuffer {
  import opened NetworkOrder
  import opened Options

  const PREPEND: nat := 8
  const INITIAL: nat := 1024
  const EXTRA: nat := 65535

  class Buffer {
    var buf: array<Byte>
    var reader: nat
    var writer: nat

    ghost predicate Valid()
      reads this
    {
      reader <= writer <= buf.Length && PREPEND <= buf.Length
    }

    // The bytes of the queue, first to be read first.
    ghost function Contents(): seq<Byte>
      reads this, buf
      requires Valid()
    {
      buf[reader..writer]
    }

    constructor (initial: nat)
      ensures Valid() && fresh(buf) && Contents() == [] && reader == PREPEND && buf.Length == initial + PREPEND
    {
      buf := new Byte[initial + PREPEND](_ => 0);
      reader, writer := PREPEND, PREPEND;
    }

    // A buffer of the initial size.
    constructor Default()
      ensures Valid() && fresh(buf) && Contents() == [] && PrependableSize() == PREPEND && WritableSize() == INITIAL
    {
      buf := new Byte[INITIAL + PREPEND](_ => 0);
      reader, writer := PREPEND, PREPEND;
    }

    function PrependableSize(): nat
      reads this
    {
      reader
    }

    function ReadableSize(): nat
      reads this
      requires Valid()
    {
      writer - reader
    }

    function WritableSize(): nat
      reads this
      requires Valid()
    {
      buf.Length - writer
    }

    // Room for `size` more bytes: nothing to do, a larger array, or the readable bytes moved to the
    // front.  The queue stays what it was.
    method ReserveWritable(size: nat)
      requires Valid()
      modifies this, buf
      ensures Valid() && WritableSize() >= size && Contents() == old(Contents())
      ensures buf == old(buf) || fresh(buf)
      ensures old(WritableSize()) >= size ==> buf == old(buf) && reader == old(reader) && writer == old(writer)
      ensures old(WritableSize()) < size && buf == old(buf) ==> reader == PREPEND
    {
      if WritableSize() >= size { return; }
      if PrependableSize() + WritableSize() < PREPEND + size {
        ghost var before := Contents();
        var larger := new Byte[writer + size](_ => 0);
        forall i | 0 <= i < buf.Length { larger[i] := buf[i]; }
        buf := larger;
        assert Contents() == before;
      } else {
        var size' := ReadableSize();
        ghost var before := Contents();
        forall i | 0 <= i < size' { buf[PREPEND + i] := buf[reader + i]; }
        reader := PREPEND;
        writer := reader + size';
        assert Contents() == before;
      }
    }

    method EndWrite(size: nat)
      requires Valid() && WritableSize() >= size
      modifies this`writer
      ensures Valid() && writer == old(writer) + size
    {
      writer := writer + size;
    }

    // Bytes copied behind the readable ones, not yet counted.
    method CopyIn(data: seq<Byte>)
      requires Valid() && |data| <= WritableSize()
      modifies buf
      ensures Valid() && Contents() == old(Contents()) && buf[writer..writer + |data|] == data
    {
      ghost var before := buf[..];
      forall i | 0 <= i < |data| { buf[writer + i] := data[i]; }
      assert forall i :: reader <= i < writer ==> buf[i] == before[i];
      assert before[reader..writer] == old(Contents());
    }

    method Write(data: seq<Byte>)
      requires Valid()
      modifies this, buf
      ensures Valid() && Contents() == old(Contents()) + data
      ensures buf == old(buf) || fresh(buf)
    {
      ReserveWritable(|data|);
      ghost var before, w := Contents(), writer;
      CopyIn(data);
      assert buf[reader..w + |data|] == buf[reader..w] + buf[w..w + |data|];
      EndWrite(|data|);
      assert Contents() == before + data;
    }

    method WriteInt(n: int, k: nat)
      requires Valid() && Width(k) && Fits(n, k)
      modifies this, buf
      ensures Valid() && Contents() == old(Contents()) + Encode(n, k)
      ensures buf == old(buf) || fresh(buf)
    {
      Write(Encode(n, k));
    }

    // The next integer, left in the buffer.
    method PeekAsInt(k: nat) returns (n: int)
      requires Valid() && Width(k) && ReadableSize() >= k
      ensures n == Decode(Contents()[..k])
    {
      var be := buf[reader..reader + k];
      assert be == Contents()[..k];
      n := Decode(be);
    }

    method ConsumeAll()
      requires Valid()
      modifies this`reader, this`writer
      ensures Valid() && Contents() == [] && reader == PREPEND
    {
      reader := PREPEND;
      writer := reader;
    }

    // Drops bytes off the front; an emptied buffer starts over at the front of the array.
    method Consume(size: nat)
      requires Valid() && size <= ReadableSize()
      modifies this`reader, this`writer
      ensures Valid() && Contents() == old(Contents())[size..]
      ensures Contents() == [] ==> reader == PREPEND
    {
      if size < ReadableSize() {
        reader := reader + size;
      } else {
        ConsumeAll();
      }
    }

    method ReadAsInt(k: nat) returns (n: int)
      requires Valid() && Width(k) && ReadableSize() >= k
      modifies this`reader, this`writer
      ensures Valid() && n == Decode(old(Contents())[..k]) && Contents() == old(Contents())[k..]
    {
      n := PeekAsInt(k);
      Consume(k);
    }

    method ReadAsString(length: nat) returns (s: seq<Byte>)
      requires Valid() && ReadableSize() >= length
      modifies this`reader, this`writer
      ensures Valid() && s == old(Contents())[..length] && Contents() == old(Contents())[length..]
    {
      s := buf[reader..reader + length];
      Consume(length);
    }

    method ReadAllAsString() returns (s: seq<Byte>)
      requires Valid()
      modifies this`reader, this`writer
      ensures Valid() && s == old(Contents()) && Contents() == []
    {
      s := buf[reader..writer];
      ConsumeAll();
    }

    // Bytes in front of the queue.
    method Prepend(data: seq<Byte>)
      requires Valid() && PrependableSize() >= |data|
      modifies this`reader, buf
      ensures Valid() && Contents() == data + old(Contents()) && PrependableSize() == old(PrependableSize()) - |data|
    {
      var start := reader - |data|;
      forall i | 0 <= i < |data| { buf[start + i] := data[i]; }
      assert buf[start..reader] == data && buf[reader..writer] == old(Contents());
      reader := reader - |data|;
      assert buf[reader..writer] == data + old(Contents());
    }

    method PrependInt(n: int, k: nat)
      requires Valid() && (k == 4 || k == 8) && Fits(n, k) && PrependableSize() >= k
      modifies this`reader, buf
      ensures Valid() && Contents() == Encode(n, k) + old(Contents())
    {
      Prepend(Encode(n, k));
    }

    // What `readv` may deliver: as much as the free space and, when that is small, the extra
    // buffer hold.
    ghost predicate Admissible(received: seq<Byte>)
      reads this
      requires Valid()
    {
      |received| <= WritableSize() + (if WritableSize() < EXTRA then EXTRA else 0)
    }
  }

  // A failed read changes nothing; otherwise exactly the bytes received are appended, in order.
  method ReadFD(buf: Buffer, received: Option<seq<Byte>>) returns (count: int)
    requires buf.Valid() && (received.Some? ==> buf.Admissible(received.value))
    modifies buf, buf.buf
    ensures buf.Valid() && (buf.buf == old(buf.buf) || fresh(buf.buf))
    ensures received.None? ==> count == -1 && buf.Contents() == old(buf.Contents())
    ensures received.Some? ==> count == |received.value| && buf.Contents() == old(buf.Contents()) + received.value
  {
    if received.None? { return -1; }
    var data, writable := received.value, buf.WritableSize();
    count := |data|;
    var first := if |data| <= writable then data else data[..writable];
    ghost var before := buf.Contents();
    // The kernel fills the free space of the array first.
    ghost var w := buf.writer;
    buf.CopyIn(first);
    assert buf.buf[buf.reader..w + |first|] == buf.buf[buf.reader..w] + buf.buf[w..w + |first|];
    buf.EndWrite(|first|);
    assert buf.Contents() == before + first;
    if |data| > writable {
      var extra := data[writable..];
      buf.Write(extra);
      assert before + first + extra == before + data;
    }
  }

  // ---------------------------------------------------------------- typed traffic

  method WriteAll(buf: Buffer, vs: seq<Typed>)
    requires buf.Valid() && WellTyped(vs)
    modifies buf, buf.buf
    ensures buf.Valid() && buf.Contents() == old(buf.Contents()) + EncodeAll(vs)
    ensures buf.buf == old(buf.buf) || fresh(buf.buf)
  {
    var i := 0;
    while i < |vs|
      invariant 0 <= i <= |vs| && buf.Valid() && (buf.buf == old(buf.buf) || fresh(buf.buf))
      invariant buf.Contents() + EncodeAll(vs[i..]) == old(buf.Contents()) + EncodeAll(vs)
    {
      assert vs[i..][0] == vs[i] && vs[i..][1..] == vs[i + 1..];
      ghost var c, e, rest := buf.Contents(), Encode(vs[i].value, vs[i].width), EncodeAll(vs[i + 1..]);
      assert c + (e + rest) == c + e + rest;
      buf.WriteInt(vs[i].value, vs[i].width);
      i := i + 1;
    }
  }

  // Reads as many values as the widths name.
  method ReadAll(buf: Buffer, widths: seq<nat>, ghost vs: seq<Typed>, ghost rest: seq<Byte>) returns (values: seq<int>)
    requires buf.Valid() && WellTyped(vs) && widths == Widths(vs) && buf.Contents() == EncodeAll(vs) + rest
    modifies buf`reader, buf`writer
    ensures buf.Valid() && values == Values(vs) && buf.Contents() == rest
  {
    hide Encode, EncodeAll, Decode;
    values := [];
    var i := 0;
    assert vs[0..] == vs;
    while i < |widths|
      invariant 0 <= i <= |widths| && buf.Valid() && values == Values(vs)[..i]
      invariant buf.Contents() == EncodeAll(vs[i..]) + rest
    {
      NextTyped(vs, i, rest, buf.Contents());
      var n := buf.ReadAsInt(widths[i]);
      values := values + [n];
      i := i + 1;
    }
    NoneEncoded(vs[i..], rest);
  }

  // The bytes of the next value, and those behind it.
  lemma NextTyped(vs: seq<Typed>, i: nat, rest: seq<Byte>, c: seq<Byte>)
    requires WellTyped(vs) && i < |vs| && c == EncodeAll(vs[i..]) + rest
    ensures
      var k := vs[i].width;
      |c| >= k && Decode(c[..k]) == vs[i].value && c[k..] == EncodeAll(vs[i + 1..]) + rest
  {
    var k, e, tail := vs[i].width, Encode(vs[i].value, vs[i].width), EncodeAll(vs[i + 1..]);
    assert vs[i..][0] == vs[i] && vs[i..][1..] == vs[i + 1..];
    assert c == e + (tail + rest);
    assert c[..k] == e && c[k..] == tail + rest;
    hide Encode, Decode;
    DecodeEncode(vs[i].value, k);
  }

  lemma NoneEncoded(vs: seq<Typed>, rest: seq<Byte>)
    requires vs == []
    ensures EncodeAll(vs) + rest == rest
  {
  }

  // Behind whatever an empty buffer is given in typed writes, the same integers are read.
  method WriteThenRead(buf: Buffer, vs: seq<Typed>, widths: seq<nat>) returns (values: seq<int>)
    requires buf.Valid() && buf.Contents() == [] && WellTyped(vs) && widths == Widths(vs)
    modifies buf, buf.buf
    ensures buf.Valid() && values == Values(vs) && buf.Contents() == []
  {
    WriteAll(buf, vs);
    assert [] + EncodeAll(vs) == EncodeAll(vs) + [];
    values := ReadAll(buf, widths, vs, []);
  }
  // A header put in front of the queue is read first, and the queue behind it is as it was.  A
  // buffer that was just made or emptied has room for one of eight bytes.
  method PrependThenRead(buf: Buffer, n: int, k: nat) returns (header: int)
    requires buf.Valid() && (k == 4 || k == 8) && Fits(n, k) && buf.PrependableSize() >= k
    modifies buf`reader, buf`writer, buf.buf
    ensures buf.Valid() && header == n && buf.Contents() == old(buf.Contents())
  {
    ghost var queue := buf.Contents();
    buf.PrependInt(n, k);
    DecodeEncode(n, k);
    assert buf.Contents()[..k] == Encode(n, k) && buf.Contents()[k..] == queue;
    header := buf.ReadAsInt(k);
  }
}
