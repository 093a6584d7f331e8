/** Little-endian byte streams, and the multi-packet framing on top of them. */
module Serialize {
  import Sequences
  import opened Wrappers

  type Byte = b: int | 0 <= b < 256

  /** An integer (or enum) type of the wire format. */
  datatype IntType = IntType(size: nat, signed: bool)

  const UINT32 := IntType(4, false)

  function Pow256(n: nat): (p: int)
    ensures p >= 1 && (n > 0 ==> p >= 256 && p % 2 == 0)
  {
    if n == 0 then 1 else 256 * Pow256(n - 1)
  }

  /** The values of a type, in two's complement. */
  ghost predicate Fits(t: IntType, value: int) {
    t.size > 0 && if t.signed then -Pow256(t.size) / 2 <= value < Pow256(t.size) / 2 else 0 <= value < Pow256(t.size)
  }

  function ToBytes(u: int, n: nat): (bytes: seq<Byte>)
    requires u >= 0
    ensures |bytes| == n
  {
    if n == 0 then [] else [u % 256] + ToBytes(u / 256, n - 1)
  }

  function FromBytes(bytes: seq<Byte>): (u: int)
    ensures 0 <= u < Pow256(|bytes|)
  {
    if bytes == [] then 0 else bytes[0] + 256 * FromBytes(bytes[1..])
  }

  lemma {:induction false} FromToBytes(u: int, n: nat)
    requires 0 <= u < Pow256(n)
    ensures FromBytes(ToBytes(u, n)) == u
  {
    if n > 0 {
      assert ToBytes(u, n)[1..] == ToBytes(u / 256, n - 1);
      FromToBytes(u / 256, n - 1);
    }
  }

  lemma {:induction false} ToFromBytes(bytes: seq<Byte>)
    ensures ToBytes(FromBytes(bytes), |bytes|) == bytes
  {
    if bytes != [] {
      var first, rest := bytes[0], FromBytes(bytes[1..]);
      ToFromBytes(bytes[1..]);
      LowByte(first, rest);
      assert ToBytes(first + 256 * rest, |bytes|) == [first] + ToBytes(rest, |bytes| - 1);
      assert [first] + bytes[1..] == bytes;
    }
  }

  lemma LowByte(b: Byte, u: nat)
    ensures (b + 256 * u) % 256 == b && (b + 256 * u) / 256 == u
  {
  }

  /** Byte order: a byte behind the others counts for the most. */
  lemma {:induction false} LittleEndian(bytes: seq<Byte>, b: Byte)
    ensures FromBytes(bytes + [b]) == FromBytes(bytes) + b * Pow256(|bytes|)
  {
    if bytes == [] {
      assert [] + [b] == [b] && [b][1..] == [];
    } else {
      var rest, p := bytes[1..], Pow256(|bytes| - 1);
      assert (bytes + [b])[1..] == rest + [b];
      LittleEndian(rest, b);
      Scaled(FromBytes(rest), b, p);
    }
  }

  lemma Scaled(u: int, b: int, p: int)
    ensures 256 * (u + b * p) == 256 * u + b * (256 * p)
  {
  }

  /** For instance, and in two's complement. */
  lemma ByteOrder()
    ensures ToBytes(0x01020304, 4) == [0x04, 0x03, 0x02, 0x01] && FromBytes([0x04, 0x03, 0x02, 0x01]) == 0x01020304
    ensures Pow256(4) == 0x1_0000_0000
    ensures Fits(IntType(4, true), -2) && Encoded(IntType(4, true), -2) == [0xfe, 0xff, 0xff, 0xff]
  {
    assert ToBytes(0x01, 1) == [0x01] + ToBytes(0, 0);
    assert ToBytes(0x0102, 2) == [0x02] + ToBytes(0x01, 1);
    assert ToBytes(0x010203, 3) == [0x03] + ToBytes(0x0102, 2);
    assert ToBytes(0x01020304, 4) == [0x04] + ToBytes(0x010203, 3);
    assert Pow256(1) == 256 && Pow256(2) == 0x1_0000 && Pow256(3) == 0x100_0000;
    FromToBytes(0x01020304, 4);
    assert ToBytes(0xff, 1) == [0xff] + ToBytes(0, 0);
    assert ToBytes(0xffff, 2) == [0xff] + ToBytes(0xff, 1);
    assert ToBytes(0xffffff, 3) == [0xff] + ToBytes(0xffff, 2);
    assert ToBytes(0xfffffffe, 4) == [0xfe] + ToBytes(0xffffff, 3);
  }

  function Encoded(t: IntType, value: int): (bytes: seq<Byte>)
    requires Fits(t, value)
    ensures |bytes| == t.size
  {
    ToBytes(if value < 0 then value + Pow256(t.size) else value, t.size)
  }

  function Decoded(t: IntType, bytes: seq<Byte>): int
    requires |bytes| == t.size
  {
    var u := FromBytes(bytes);
    if t.signed && 2 * u >= Pow256(t.size) then u - Pow256(t.size) else u
  }

  /** Bytes and values of a type correspond one to one. */
  lemma DecodeEncode(t: IntType, value: int)
    requires Fits(t, value)
    ensures Decoded(t, Encoded(t, value)) == value
  {
    FromToBytes(if value < 0 then value + Pow256(t.size) else value, t.size);
  }

  lemma EncodeDecode(t: IntType, bytes: seq<Byte>)
    requires t.size > 0 && |bytes| == t.size
    ensures Fits(t, Decoded(t, bytes)) && Encoded(t, Decoded(t, bytes)) == bytes
  {
    ToFromBytes(bytes);
  }

  // ---- field lists ----

  datatype Field = Int(t: IntType, value: int) | Bytes(bytes: seq<Byte>)

  ghost predicate Storable(f: Field) {
    f.Int? ==> Fits(f.t, f.value)
  }

  function FieldBytes(f: Field): seq<Byte>
    requires Storable(f)
  {
    match f
    case Int(t, value) => Encoded(t, value)
    case Bytes(bytes) => bytes
  }

  function AllBytes(fields: seq<Field>): seq<Byte>
    requires forall f <- fields :: Storable(f)
  {
    if fields == [] then [] else FieldBytes(fields[0]) + AllBytes(fields[1..])
  }

  class Serializer {
    var result: seq<Byte>

    constructor ()
      ensures result == []
    {
      result := [];
    }

    method Store(f: Field) returns (stored: nat)
      requires Storable(f)
      modifies this
      ensures result == old(result) + FieldBytes(f) && stored == |FieldBytes(f)|
    {
      var bytes := FieldBytes(f);
      result := result + bytes;
      stored := |bytes|;
    }

    /** The variadic form: the first field, then the rest. */
    method StoreAll(fields: seq<Field>) returns (stored: nat)
      requires forall f <- fields :: Storable(f)
      modifies this
      ensures result == old(result) + AllBytes(fields) && stored == |AllBytes(fields)|
    {
      if fields == [] {
        stored := 0;
      } else {
        stored := Store(fields[0]);
        var rest := StoreAll(fields[1..]);
        stored := stored + rest;
      }
    }
  }

  datatype Error = NotEnoughData

  /** What is read, field by field, and what is left: the fields read before the data ran out stay read. */
  ghost function GotAll(data: seq<Byte>, types: seq<IntType>): (Result<seq<int>, Error>, seq<Byte>) {
    if types == [] then (Success([]), data)
    else if types[0].size > |data| then (Failure(NotEnoughData), data)
    else
      var (rest, left) := GotAll(data[types[0].size..], types[1..]);
      (if rest.Success? then Success([Decoded(types[0], data[..types[0].size])] + rest.value) else rest, left)
  }

  class Deserializer {
    var data: seq<Byte>

    constructor (bytes: seq<Byte>)
      ensures data == bytes
    {
      data := bytes;
    }

    method GetBytes(size: nat) returns (r: Result<seq<Byte>, Error>)
      modifies this
      ensures size > |old(data)| ==> r == Failure(NotEnoughData) && data == old(data)
      ensures size <= |old(data)| ==> r == Success(old(data)[..size]) && data == old(data)[size..]
    {
      if size > |data| {
        return Failure(NotEnoughData);
      }
      r := Success(data[..size]);
      data := data[size..];
    }

    method Get(t: IntType) returns (r: Result<int, Error>)
      modifies this
      ensures t.size > |old(data)| ==> r == Failure(NotEnoughData) && data == old(data)
      ensures t.size <= |old(data)| ==> r == Success(Decoded(t, old(data)[..t.size])) && data == old(data)[t.size..]
    {
      var bytes := GetBytes(t.size);
      if bytes.Failure? {
        return Failure(bytes.error);
      }
      r := Success(Decoded(t, bytes.value));
    }

    method GetAll(types: seq<IntType>) returns (r: Result<seq<int>, Error>)
      modifies this
      ensures (r, data) == GotAll(old(data), types)
    {
      if types == [] {
        return Success([]);
      }
      var first := Get(types[0]);
      if first.Failure? {
        return Failure(first.error);
      }
      var rest := GetAll(types[1..]);
      r := if rest.Success? then Success([first.value] + rest.value) else rest;
    }
  }

  function IntFields(types: seq<IntType>, values: seq<int>): (fields: seq<Field>)
    requires |types| == |values|
    ensures |fields| == |types| && forall i :: 0 <= i < |types| ==> fields[i] == Int(types[i], values[i])
  {
    seq(|types|, i requires 0 <= i < |types| => Int(types[i], values[i]))
  }

  lemma StoreFirst(types: seq<IntType>, values: seq<int>)
    requires 0 < |types| == |values| && forall i :: 0 <= i < |types| ==> Fits(types[i], values[i])
    ensures AllBytes(IntFields(types, values)) == Encoded(types[0], values[0]) + AllBytes(IntFields(types[1..], values[1..]))
  {
    assert IntFields(types, values)[1..] == IntFields(types[1..], values[1..]);
  }

  lemma GotFirst(types: seq<IntType>, bytes: seq<Byte>, tail: seq<Byte>)
    requires types != [] && |bytes| == types[0].size
    ensures var (rest, left) := GotAll(tail, types[1..]);
            GotAll(bytes + tail, types) == (if rest.Success? then Success([Decoded(types[0], bytes)] + rest.value) else rest, left)
  {
    assert (bytes + tail)[..|bytes|] == bytes && (bytes + tail)[|bytes|..] == tail;
  }

  /** Reading the same field list gives back what was stored, and leaves what follows. */
  lemma {:induction false} GetUndoesStore(types: seq<IntType>, values: seq<int>, rest: seq<Byte>)
    requires |types| == |values| && forall i :: 0 <= i < |types| ==> Fits(types[i], values[i])
    ensures GotAll(AllBytes(IntFields(types, values)) + rest, types) == (Success(values), rest)
  {
    if types == [] {
      assert AllBytes(IntFields(types, values)) + rest == rest;
    } else {
      var bytes, others := Encoded(types[0], values[0]), AllBytes(IntFields(types[1..], values[1..]));
      StoreFirst(types, values);
      Sequences.Associative(bytes, others, rest);
      GotFirst(types, bytes, others + rest);
      DecodeEncode(types[0], values[0]);
      GetUndoesStore(types[1..], values[1..], rest);
      assert [values[0]] + values[1..] == values;
    }
  }

  lemma {:induction false} ValuesFit(data: seq<Byte>, types: seq<IntType>)
    requires forall t <- types :: t.size > 0
    ensures var r := GotAll(data, types).0;
            r.Success? ==> |r.value| == |types| && forall i :: 0 <= i < |types| ==> Fits(types[i], r.value[i])
  {
    var r := GotAll(data, types).0;
    if types != [] && r.Success? {
      ValuesFit(data[types[0].size..], types[1..]);
      EncodeDecode(types[0], data[..types[0].size]);
      forall i | 0 <= i < |types| ensures Fits(types[i], r.value[i]) {
        assert i > 0 ==> types[i] == types[1..][i - 1] && r.value[i] == r.value[1..][i - 1];
      }
    }
  }

  /** Whatever can be read, storing it again gives back the bytes it was read from. */
  lemma {:induction false} StoreUndoesGet(data: seq<Byte>, types: seq<IntType>)
    requires forall t <- types :: t.size > 0
    ensures var (r, left) := GotAll(data, types);
            r.Success? ==>
              && |r.value| == |types| && (forall i :: 0 <= i < |types| ==> Fits(types[i], r.value[i]))
              && AllBytes(IntFields(types, r.value)) + left == data
  {
    ValuesFit(data, types);
    var (r, left) := GotAll(data, types);
    if types == [] {
      assert AllBytes([]) + data == data;
    } else if r.Success? {
      var n, rest := types[0].size, r.value[1..];
      StoreUndoesGet(data[n..], types[1..]);
      assert GotAll(data[n..], types[1..]) == (Success(rest), left);
      EncodeDecode(types[0], data[..n]);
      StoreFirst(types, r.value);
      Reassembled(data, n, AllBytes(IntFields(types[1..], rest)), left);
    }
  }

  lemma Reassembled(data: seq<Byte>, n: nat, others: seq<Byte>, left: seq<Byte>)
    requires n <= |data| && others + left == data[n..]
    ensures (data[..n] + others) + left == data
  {
    Sequences.Associative(data[..n], others, left);
    assert data == data[..n] + data[n..];
  }

  // ---- multi packets ----

  /** One framed packet: its length as four bytes, then the packet. */
  function Framed(packet: seq<Byte>): seq<Byte>
    requires |packet| < Pow256(4)
  {
    ToBytes(|packet|, 4) + packet
  }

  function FramedAll(packets: seq<seq<Byte>>): seq<Byte>
    requires forall p <- packets :: |p| < Pow256(4)
  {
    if packets == [] then [] else Framed(packets[0]) + FramedAll(packets[1..])
  }

  /** The data does not start with a complete packet. */
  ghost predicate Truncated(data: seq<Byte>) {
    |data| < 4 || |data| - 4 < FromBytes(data[..4])
  }

  ghost function Frames(data: seq<Byte>): seq<seq<Byte>> {
    if Truncated(data) then []
    else var end := 4 + FromBytes(data[..4]); [data[4..end]] + Frames(data[end..])
  }

  ghost function Remainder(data: seq<Byte>): seq<Byte> {
    if Truncated(data) then data else Remainder(data[4 + FromBytes(data[..4])..])
  }

  ghost function NonEmpty(packets: seq<seq<Byte>>): seq<seq<Byte>> {
    if packets == [] then []
    else (if packets[0] == [] then [] else [packets[0]]) + NonEmpty(packets[1..])
  }

  /** Just the empty packets are left out, and the others stay in order. */
  lemma {:induction false} NonEmptyInOrder(packets: seq<seq<Byte>>, more: seq<seq<Byte>>)
    ensures NonEmpty(packets + more) == NonEmpty(packets) + NonEmpty(more)
  {
    if packets == [] {
      assert packets + more == more;
    } else {
      assert (packets + more)[1..] == packets[1..] + more;
      NonEmptyInOrder(packets[1..], more);
      var first: seq<seq<Byte>> := if packets[0] == [] then [] else [packets[0]];
      Sequences.Associative(first, NonEmpty(packets[1..]), NonEmpty(more));
    }
  }

  lemma NonEmptyOne(p: seq<Byte>)
    ensures NonEmpty([p]) == if p == [] then [] else [p]
  {
    assert [p][1..] == [];
  }

  /** `delivered` lists the arguments of the `handlePacket` calls. */
  method HandleMulti(payload: seq<Byte>) returns (delivered: seq<seq<Byte>>)
    ensures delivered == NonEmpty(Frames(payload))
  {
    delivered := [];
    var deserializer := new Deserializer(payload);
    while |deserializer.data| > 0
      invariant fresh(deserializer)
      invariant delivered + NonEmpty(Frames(deserializer.data)) == NonEmpty(Frames(payload))
      decreases |deserializer.data|
    {
      NextPacket(deserializer.data, delivered);
      var size := deserializer.Get(UINT32);
      if size.Failure? { break; }
      if size.value > 0 {
        var subBytes := deserializer.GetBytes(size.value);
        if subBytes.Failure? { return; }
        delivered := delivered + [subBytes.value];
      }
    }
  }

  /** What one iteration finds, in terms of the two reads it makes. */
  lemma NextPacket(data: seq<Byte>, delivered: seq<seq<Byte>>)
    requires data != []
    ensures Truncated(data) ==> NonEmpty(Frames(data)) == [] && delivered + [] == delivered
    ensures |data| >= 4 ==>
              var size := FromBytes(data[..4]);
              && (|data[4..]| < size <==> Truncated(data))
              && (!Truncated(data) && size > 0 ==>
                    delivered + NonEmpty(Frames(data)) == (delivered + [data[4..][..size]]) + NonEmpty(Frames(data[4..][size..])))
              && (size == 0 ==> NonEmpty(Frames(data)) == NonEmpty(Frames(data[4..])))
  {
    if |data| >= 4 && !Truncated(data) {
      var size := FromBytes(data[..4]);
      assert data[4..][..size] == data[4..4 + size] && data[4..][size..] == data[4 + size..];
      assert Frames(data)[1..] == Frames(data[4 + size..]);
    }
  }

  lemma FrameSplits(data: seq<Byte>)
    requires !Truncated(data)
    ensures var end := 4 + FromBytes(data[..4]);
            |data[4..end]| < Pow256(4) && Framed(data[4..end]) + data[end..] == data
  {
    ToFromBytes(data[..4]);
  }

  lemma FramedAllCons(p: seq<Byte>, packets: seq<seq<Byte>>, rest: seq<Byte>)
    requires forall q <- [p] + packets :: |q| < Pow256(4)
    ensures forall q <- packets :: |q| < Pow256(4)
    ensures FramedAll([p] + packets) + rest == Framed(p) + (FramedAll(packets) + rest)
  {
    assert forall q <- packets :: q in [p] + packets;
    assert ([p] + packets)[1..] == packets;
  }

  /** Any data is a series of complete packets and a remainder that does not start with one ... */
  lemma {:induction false} FramesCoverData(data: seq<Byte>)
    ensures forall p <- Frames(data) :: |p| < Pow256(4)
    ensures data == FramedAll(Frames(data)) + Remainder(data)
    ensures Truncated(Remainder(data))
    decreases |data|
  {
    if Truncated(data) {
      assert FramedAll([]) + data == data;
    } else {
      var end := 4 + FromBytes(data[..4]);
      FramesCoverData(data[end..]);
      FrameSplits(data);
      FramedAllCons(data[4..end], Frames(data[end..]), Remainder(data[end..]));
    }
  }

  lemma FirstFrame(p: seq<Byte>, tail: seq<Byte>)
    requires |p| < Pow256(4)
    ensures var data := Framed(p) + tail;
            !Truncated(data) && Frames(data) == [p] + Frames(tail) && Remainder(data) == Remainder(tail)
  {
    var head, data := ToBytes(|p|, 4), Framed(p) + tail;
    FromToBytes(|p|, 4);
    assert data[..4] == head;
    assert data[4..4 + |p|] == p;
    assert data[4 + |p|..] == tail;
  }

  /** ... and in only one way, so a body built from packets is taken apart into these packets, and
      a body cut off in the middle yields the packets that are complete. */
  lemma {:induction false} FramesAreUnique(packets: seq<seq<Byte>>, rest: seq<Byte>)
    requires (forall p <- packets :: |p| < Pow256(4)) && Truncated(rest)
    ensures Frames(FramedAll(packets) + rest) == packets && Remainder(FramedAll(packets) + rest) == rest
  {
    if packets == [] {
      assert FramedAll(packets) + rest == rest;
    } else {
      FramesAreUnique(packets[1..], rest);
      FirstFrame(packets[0], FramedAll(packets[1..]) + rest);
      assert packets == [packets[0]] + packets[1..];
      FramedAllCons(packets[0], packets[1..], rest);
    }
  }
}
