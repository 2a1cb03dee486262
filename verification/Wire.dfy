/**
 Reading from the front of a byte string: the specification of the shared
 reader helpers. A successful read says which bytes it consumed.
 */
module Wire {
  import opened Common
  import opened BigEndian

  function TakeU32(b: seq<byte>): (r: Result<(uint32, seq<byte>)>)
    ensures r.Success? ==> b == U32(r.value.0) + r.value.1
    ensures r.Success? <==> |b| >= 4
  {
    if |b| < 4 then Failure(Truncated)
    else
      FixedOfValue(b[..4]);
      Pow256Widths();
      Success((Value(b[..4]) as uint32, b[4..]))
  }

  /** The 32-bit number at offset o. */
  function U32At(b: seq<byte>, o: nat): uint32
    requires o + 4 <= |b|
  {
    FixedOfValue(b[o..o + 4]);
    Pow256Widths();
    Value(b[o..o + 4]) as uint32
  }

  function TakeNonZeroU32(b: seq<byte>): (r: Result<(uint32, seq<byte>)>)
    ensures r.Success? ==> r.value.0 != 0 && b == U32(r.value.0) + r.value.1
  {
    var (n, rest) :- TakeU32(b);
    if n == 0 then Failure(ZeroValue) else Success((n, rest))
  }

  function TakeU16(b: seq<byte>): (r: Result<(uint16, seq<byte>)>)
    ensures r.Success? ==> b == U16(r.value.0) + r.value.1
    ensures r.Success? <==> |b| >= 2
  {
    if |b| < 2 then Failure(Truncated)
    else
      FixedOfValue(b[..2]);
      Pow256Widths();
      Success((Value(b[..2]) as uint16, b[2..]))
  }

  function TakeBytes(b: seq<byte>, n: uint32): (r: Result<(seq<byte>, seq<byte>)>)
    ensures r.Success? ==> |r.value.0| == n as int && b == r.value.0 + r.value.1
    ensures r.Success? <==> n as int <= |b|
  {
    if |b| < n as int then Failure(Truncated) else Success((b[..n], b[n..]))
  }

  lemma TakeU32Back(n: uint32, t: seq<byte>)
    ensures TakeU32(U32(n) + t) == Success((n, t))
  {
    ValueOfFixed(n as nat, 4);
    Pow256Widths();
    assert (U32(n) + t)[..4] == U32(n);
  }

  lemma TakeNonZeroU32Back(n: uint32, t: seq<byte>)
    requires n != 0
    ensures TakeNonZeroU32(U32(n) + t) == Success((n, t))
  {
    TakeU32Back(n, t);
  }

  lemma TakeU16Back(n: uint16, t: seq<byte>)
    ensures TakeU16(U16(n) + t) == Success((n, t))
  {
    ValueOfFixed(n as nat, 2);
    Pow256Widths();
    assert (U16(n) + t)[..2] == U16(n);
  }

  lemma TakeBytesBack(n: uint32, v: seq<byte>, t: seq<byte>)
    requires |v| == n as int
    ensures TakeBytes(v + t, n) == Success((v, t))
  {
  }

  lemma Reassociate(a: seq<byte>, b: seq<byte>, c: seq<byte>)
    ensures a + b + c == a + (b + c)
  {
  }

  /** The two sides of a fixed-size field determine each other. */
  lemma U32Injective(m: uint32, n: uint32, s: seq<byte>, t: seq<byte>)
    requires U32(m) + s == U32(n) + t
    ensures m == n && s == t
  {
    TakeU32Back(m, s);
    TakeU32Back(n, t);
  }

  /**
   A method that reads from a cursor agrees with a decoder: same result, and on
   success the cursor stands exactly at the bytes the decoder left.
   */
  ghost predicate Agrees<T(!new)>(spec: Result<(T, seq<byte>)>, r: Result<T>, rest: seq<byte>) {
    match spec
    case Success((v, t)) => r == Success(v) && rest == t
    case Failure(e) => r == Failure(e)
  }
}
