/** bytes.Reader, bytes.Buffer and the shared read helpers. */
module ByteStreams {
  import opened Common
  import opened BigEndian
  import opened Wire

  class Reader {
    const data: seq<byte>
    var pos: nat

    ghost predicate Valid()
      reads this
    {
      pos <= |data|
    }

    /** The bytes not read yet. */
    ghost function Rest(): seq<byte>
      requires Valid()
      reads this
    {
      data[pos..]
    }

    constructor (data: seq<byte>)
      ensures Valid() && this.data == data && pos == 0 && Rest() == data
    {
      this.data := data;
      pos := 0;
    }

    method Len() returns (n: nat)
      requires Valid()
      ensures n == |Rest()|
    {
      n := |data| - pos;
    }

    /** One Read: at most n bytes, fewer near the end, an error at the end. */
    method Read(n: nat) returns (r: Result<seq<byte>>)
      requires Valid()
      modifies this`pos
      ensures Valid()
      ensures r.Failure? <==> old(Rest()) == []
      ensures r.Success? ==> |r.value| == (if n <= |old(Rest())| then n else |old(Rest())|)
      ensures r.Success? ==> old(Rest()) == r.value + Rest()
      ensures r.Failure? ==> r.error == Truncated && Rest() == []
    {
      if pos >= |data| {
        return Failure(Truncated);
      }
      var end := if pos + n <= |data| then pos + n else |data|;
      r := Success(data[pos..end]);
      pos := end;
    }

    /** binary.Read of a fixed-size value: all n bytes, or an error after draining the input. */
    method ReadFull(n: nat) returns (r: Result<seq<byte>>)
      requires Valid() && n > 0
      modifies this`pos
      ensures Valid()
      ensures r.Success? <==> n <= |old(Rest())|
      ensures r.Success? ==> r.value == old(Rest())[..n] && Rest() == old(Rest())[n..]
      ensures r.Failure? ==> r.error == Truncated && Rest() == []
    {
      var part :- Read(n);
      if |part| < n {
        return Failure(Truncated);
      }
      r := Success(part);
    }
  }

  class Buffer {
    var contents: seq<byte>

    constructor ()
      ensures contents == []
    {
      contents := [];
    }

    method Write(b: seq<byte>)
      modifies this
      ensures contents == old(contents) + b
      ensures old(contents) == [] ==> contents == b
    {
      contents := contents + b;
    }

    method WriteUint16(n: uint16)
      modifies this
      ensures contents == old(contents) + U16(n)
      ensures old(contents) == [] ==> contents == U16(n)
    {
      Write(U16(n));
    }

    method WriteUint32(n: uint32)
      modifies this
      ensures contents == old(contents) + U32(n)
      ensures old(contents) == [] ==> contents == U32(n)
    {
      Write(U32(n));
    }
  }

  method ReadUint32(reader: Reader) returns (r: Result<uint32>)
    requires reader.Valid()
    modifies reader`pos
    ensures reader.Valid()
    ensures Agrees(TakeU32(old(reader.Rest())), r, reader.Rest())
    ensures r.Success? <==> old(reader.pos) + 4 <= |reader.data|
    ensures r.Success? ==> reader.pos == old(reader.pos) + 4 && r.value == U32At(reader.data, old(reader.pos))
  {
    var b :- reader.ReadFull(4);
    assert b == reader.data[old(reader.pos)..old(reader.pos) + 4];
    FixedOfValue(b);
    Pow256Widths();
    r := Success(Value(b) as uint32);
  }

  method ReadNonZeroUint32(reader: Reader) returns (r: Result<uint32>)
    requires reader.Valid()
    modifies reader`pos
    ensures reader.Valid()
    ensures Agrees(TakeNonZeroU32(old(reader.Rest())), r, reader.Rest())
    ensures r.Success? <==> old(reader.pos) + 4 <= |reader.data| && U32At(reader.data, old(reader.pos)) != 0
    ensures r.Success? ==> reader.pos == old(reader.pos) + 4 && r.value == U32At(reader.data, old(reader.pos))
  {
    var n :- ReadUint32(reader);
    if n == 0 {
      return Failure(ZeroValue);
    }
    r := Success(n);
  }

  method ReadUint16(reader: Reader) returns (r: Result<uint16>)
    requires reader.Valid()
    modifies reader`pos
    ensures reader.Valid()
    ensures Agrees(TakeU16(old(reader.Rest())), r, reader.Rest())
  {
    var b :- reader.ReadFull(2);
    FixedOfValue(b);
    Pow256Widths();
    r := Success(Value(b) as uint16);
  }

  /** Size zero reads nothing, even at the end; a short read is an error. */
  method ReadBytes(reader: Reader, size: uint32) returns (r: Result<seq<byte>>)
    requires reader.Valid()
    modifies reader`pos
    ensures reader.Valid()
    ensures Agrees(TakeBytes(old(reader.Rest()), size), r, reader.Rest())
    ensures r.Success? <==> old(reader.pos) + size as int <= |reader.data|
    ensures r.Success? ==>
      reader.pos == old(reader.pos) + size as int && r.value == reader.data[old(reader.pos)..reader.pos]
  {
    if size == 0 {
      return Success([]);
    }
    var part :- reader.Read(size as nat);
    if |part| != size as int {
      return Failure(Truncated);
    }
    r := Success(part);
  }
}
