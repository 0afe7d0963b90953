/** The memory buffers that encoding writes to and decoding reads from
    (src/comms/Buffer.cc, include/crisp/comms/Buffer.hh). */
module Buffers {
  import opened Bytes

  datatype EncodeResult = SUCCESS | INSUFFICIENT_SPACE

  datatype ReadResult = READ | BUFFER_UNDERFLOW

  class MemoryEncodeBuffer {
    const data: array<byte>
    var offset: nat

    ghost predicate Valid() reads this { offset <= data.Length }

    ghost function Written(): (s: seq<byte>)
      requires Valid()
      reads this, data
      ensures |s| == offset
    {
      data[..offset]
    }

    function Room(): nat
      requires Valid()
      reads this
    {
      data.Length - offset
    }

    constructor (size: nat)
      ensures Valid() && fresh(data) && Written() == [] && Room() == size
    {
      data := new byte[size](_ => 0);
      offset := 0;
    }

    /** All of the bytes or, without room for them, none. */
    method Write(buf: seq<byte>) returns (r: EncodeResult)
      requires Valid()
      modifies this`offset, data
      ensures Valid()
      ensures r == SUCCESS <==> |buf| <= old(Room())
      ensures Written() == old(Written()) + (if r == SUCCESS then buf else [])
    {
      if data.Length - offset < |buf| { return INSUFFICIENT_SPACE; }
      forall i | 0 <= i < |buf| { data[offset + i] := buf[i]; }
      assert data[offset..offset + |buf|] == buf;
      offset := offset + |buf|;
      return SUCCESS;
    }
  }

  class DecodeBuffer {
    const data: array<byte>
    var offset: nat

    ghost predicate Valid() reads this { offset <= data.Length }

    /** What is still to be read. */
    ghost function Rest(): (s: seq<byte>)
      requires Valid()
      reads this, data
      ensures |s| == data.Length - offset
    {
      data[offset..]
    }

    constructor (data: array<byte>, offset: nat := 0)
      ensures this.data == data && this.offset == offset
      ensures Valid() <==> offset <= data.Length
      ensures Valid() ==> Rest() == data[offset..]
    {
      this.data := data;
      this.offset := offset;
    }

    /** All of the bytes asked for or, when they are not there, none. */
    method Read(size: nat) returns (r: ReadResult, bytes: seq<byte>)
      requires Valid()
      modifies this`offset
      ensures Valid()
      ensures r == READ <==> size <= |old(Rest())|
      ensures r == READ ==> bytes == old(Rest())[..size] && Rest() == old(Rest())[size..]
      ensures r != READ ==> bytes == [] && Rest() == old(Rest())
    {
      if data.Length - offset < size { return BUFFER_UNDERFLOW, []; }
      bytes := data[offset..offset + size];
      assert bytes == data[offset..][..size];
      offset := offset + size;
      r := READ;
    }
  }
}

/** Encoding and decoding of declarations, module inputs and sensors on buffers. */
module RecordTranscoding {
  import opened Bytes
  import opened Buffers
  import opened NamedRecords
  import opened Emission
  import Declarations

  method WriteBound(present: bool, value: seq<byte>, width: nat, buf: MemoryEncodeBuffer) returns (r: EncodeResult)
    requires buf.Valid() && width <= |value|
    modifies buf`offset, buf.data
    ensures buf.Valid() && (r == SUCCESS <==> |Declarations.Bound(present, value, width)| <= old(buf.Room()))
    ensures buf.Written() == old(buf.Written()) + if r == SUCCESS then Declarations.Bound(present, value, width) else []
  {
    r := SUCCESS;
    if present { r := buf.Write(value[..width]); }
  }

  /** The bounds that are present, in order, until one does not fit. */
  method EncodeTailTo(d: Decl, buf: MemoryEncodeBuffer) returns (r: EncodeResult)
    requires Declarations.WellFormed(d) && buf.Valid()
    modifies buf`offset, buf.data
    ensures buf.Valid()
    ensures (r == SUCCESS, buf.Written())
      == (EmitTail(d, old(buf.Room())).0, old(buf.Written()) + EmitTail(d, old(buf.Room())).1)
  {
    var w := Declarations.Width(d);
    ghost var before := buf.Written();
    ghost var n, lo, hi := Declarations.Bound(d.hasNeutral, d.neutral, w), Declarations.Bound(d.hasMinimum, d.minimum, w),
      Declarations.Bound(d.hasMaximum, d.maximum, w);
    EmitThree(n, lo, hi, buf.Room());
    hide Declarations.Width, EmitAll, Declarations.Bound;
    r := WriteBound(d.hasNeutral, d.neutral, w, buf);
    assert before + [] == before;
    if r != SUCCESS { return; }
    r := WriteBound(d.hasMinimum, d.minimum, w, buf);
    assert before + n + [] == before + n;
    if r != SUCCESS { return; }
    Regroup(before, n, lo);
    r := WriteBound(d.hasMaximum, d.maximum, w, buf);
    assert before + (n + lo) + [] == before + (n + lo);
    Regroup(before, n + lo, hi);
  }

  method ReadBoundFrom(present: bool, before: seq<byte>, width: nat, buf: DecodeBuffer) returns (value: seq<byte>)
    requires buf.Valid()
    modifies buf`offset
    ensures buf.Valid() && (value, buf.Rest()) == Declarations.ReadBound(present, before, width, old(buf.Rest()))
  {
    value := before;
    if present {
      var r, bytes := buf.Read(width);
      if r == READ { value := Declarations.Overlay(before, bytes); }
    }
  }

  method DecodeTailFrom(d0: Decl, buf: DecodeBuffer) returns (d: Decl)
    requires buf.Valid()
    modifies buf`offset
    ensures buf.Valid() && (d, buf.Rest()) == Declarations.DecodeTail(d0, old(buf.Rest()))
  {
    hide Declarations.ReadBound, Declarations.TailSize, Declarations.Width;
    d := d0;
    if buf.data.Length - buf.offset < Declarations.TailSize(d) { return; }
    var w := Declarations.Width(d);
    var neutral := ReadBoundFrom(d.hasNeutral, d.neutral, w, buf);
    var minimum := ReadBoundFrom(d.hasMinimum, d.minimum, w, buf);
    var maximum := ReadBoundFrom(d.hasMaximum, d.maximum, w, buf);
    d := d.(neutral := neutral, minimum := minimum, maximum := maximum);
  }

  method DecodeNameFrom(length: nat, buf: DecodeBuffer) returns (name: Name)
    requires buf.Valid()
    modifies buf`offset
    ensures buf.Valid() && (name, buf.Rest()) == DecodeName(length, old(buf.Rest()))
  {
    name := NoName;
    if length > 0 {
      var r, bytes := buf.Read(length);
      name := if r == READ then Text(bytes) else Unfilled;
    }
  }

  /** The shared body of `encode`: header, tail, name. */
  method EncodeNamed(header: seq<byte>, d: Decl, nameLength: nat, name: Name, buf: MemoryEncodeBuffer)
    requires Declarations.WellFormed(d) && GoodName(nameLength, name) && buf.Valid()
    requires |header| + (nameLength + Declarations.TailSize(d)) <= buf.Room()
    modifies buf`offset, buf.data
    ensures buf.Valid()
    ensures buf.Written() == old(buf.Written()) + (header + (Declarations.EncodeTail(d) + EncodeName(nameLength, name)))
  {
    hide Declarations.EncodeTail, Declarations.TailSize, Declarations.WellFormed, EmitTail;
    ghost var before, tail, nm := buf.Written(), Declarations.EncodeTail(d), EncodeName(nameLength, name);
    NameLength(nameLength, name);
    Declarations.TailLength(d);
    var _ := buf.Write(header);
    TailSuccess(d, buf.Room());
    var _ := EncodeTailTo(d, buf);
    if nameLength > 0 && name != NoName {
      var _ := buf.Write(name.chars);
    }
    Regroup(before, header, tail);
    Regroup(before, header + tail, nm);
    Regroup(header, tail, nm);
  }

  /** The whole record is written or nothing is. */
  method EncodeInputTo(i: Input, buf: MemoryEncodeBuffer) returns (r: EncodeResult)
    requires GoodInput(i) && buf.Valid()
    modifies buf`offset, buf.data
    ensures buf.Valid()
    ensures r == SUCCESS <==> |EncodeInput(i)| <= old(buf.Room())
    ensures buf.Written() == old(buf.Written()) + (if r == SUCCESS then EncodeInput(i) else [])
  {
    hide InputHeader, Declarations.EncodeTail, Declarations.TailSize, EncodeName;
    InputRoundTrip(i, []);
    if buf.Room() < InputSize(i) { return INSUFFICIENT_SPACE; }
    EncodeNamed(InputHeader(i), i.decl, i.nameLength, i.name, buf);
    r := SUCCESS;
  }

  method DecodeInputFrom(buf: DecodeBuffer) returns (i: Input)
    requires buf.Valid()
    modifies buf`offset
    ensures buf.Valid() && (i, buf.Rest()) == DecodeInput(old(buf.Rest()))
  {
    hide Declarations.DecodeHeader, Declarations.DecodeTail, DecodeName, ByteValue, Declarations.TailSize;
    i := Input(0, 0, Declarations.BLANK, NoName);
    ghost var s := buf.Rest();
    var r, h := buf.Read(5);
    if r == READ {
      i := Input(ByteValue(h[0]), ByteValue(h[1]), Declarations.DecodeHeader(h[2..5]), NoName);
      assert h[2..5] == s[2..5];
    }
    assert (i, buf.Rest()) == DecodeInputHeader(s);
    var d := DecodeTailFrom(i.decl, buf);
    var name := DecodeNameFrom(i.nameLength, buf);
    i := i.(decl := d, name := name);
  }

  method EncodeSensorTo(x: Sensor, buf: MemoryEncodeBuffer) returns (r: EncodeResult)
    requires GoodSensor(x) && buf.Valid()
    modifies buf`offset, buf.data
    ensures buf.Valid()
    ensures r == SUCCESS <==> |EncodeSensor(x)| <= old(buf.Room())
    ensures buf.Written() == old(buf.Written()) + (if r == SUCCESS then EncodeSensor(x) else [])
  {
    hide SensorHeader, Declarations.EncodeTail, Declarations.TailSize, EncodeName;
    SensorRoundTrip(x, []);
    if buf.Room() < SensorSize(x) { return INSUFFICIENT_SPACE; }
    EncodeNamed(SensorHeader(x), x.decl, x.nameLength, x.name, buf);
    r := SUCCESS;
  }

  method DecodeSensorFrom(buf: DecodeBuffer) returns (x: Sensor)
    requires buf.Valid()
    modifies buf`offset
    ensures buf.Valid() && (x, buf.Rest()) == DecodeSensor(old(buf.Rest()))
  {
    hide Declarations.DecodeHeader, Declarations.DecodeTail, DecodeName, ByteValue, Declarations.TailSize, IdValue,
      UnpackSensorId, UnpackSensorType, UnpackSensorMode;
    x := Sensor(0, 0, false, 0, Declarations.BLANK, NoName);
    ghost var s := buf.Rest();
    var r, h := buf.Read(6);
    if r == READ {
      x := Sensor(IdValue(UnpackSensorId(h[0], h[1])), UnpackSensorType(h[1]), UnpackSensorMode(h[1]), ByteValue(h[2]),
                  Declarations.DecodeHeader(h[3..6]), NoName);
      assert h[3..6] == s[3..6];
    }
    assert (x, buf.Rest()) == DecodeSensorHeader(s);
    var d := DecodeTailFrom(x.decl, buf);
    var name := DecodeNameFrom(x.nameLength, buf);
    x := x.(decl := d, name := name);
  }
}
