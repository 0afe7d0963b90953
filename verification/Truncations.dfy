/** Decoding where bytes are missing: which reads fall short unnoticed, and what they leave. */
module Truncations {
  import opened Bytes
  import opened Records
  import opened NamedRecords
  import opened Configurations
  import D = Declarations

  /** A tail of which not all is there is not read at all, even where a bound would fit. */
  lemma ShortTail(d: D.Decl, s: seq<byte>)
    requires |s| < D.Width(d) * (D.Flag(d.hasNeutral) + D.Flag(d.hasMinimum) + D.Flag(d.hasMaximum))
    ensures D.DecodeTail(d, s) == (d, s)
  {}

  /** A name of which not all is there is left unfilled, and its bytes are read for what follows. */
  lemma ShortName(length: nat, s: seq<byte>)
    requires |s| < length
    ensures DecodeName(length, s) == (Unfilled, s)
  {}

  /** A blank declaration has every field at zero. */
  lemma BlankDeclaration()
    ensures D.BLANK.typ == 0 && D.BLANK.width == 0 && D.BLANK.arraySizeWidth == 0
    ensures !D.BLANK.isArray && !D.BLANK.isSigned && !D.BLANK.hasNeutral && !D.BLANK.hasMinimum && !D.BLANK.hasMaximum
    ensures D.BLANK.neutral == D.BLANK.minimum == D.BLANK.maximum == Fill(16)
  {}

  /** Without a whole header an input or a sensor is blank, and nothing is read. */
  lemma ShortRecord(s: seq<byte>)
    ensures |s| < 5 ==> DecodeInput(s) == (Input(0, 0, D.BLANK, NoName), s)
    ensures |s| < 6 ==> DecodeSensor(s) == (Sensor(0, 0, false, 0, D.BLANK, NoName), s)
  {}

  /** Without a whole header a module is what `reset` leaves: emptied, the counters at zero, its id kept. An owned
      name is dropped; a name it did not own goes too, but for its length, which now asks for bytes. */
  lemma ShortModule(m: Module, s: seq<byte>)
    requires |s| < 4
    ensures var length := if m.ownsName && m.name != NoName then 0 else m.nameLength;
      length > |s| || length == 0 ==>
      DecodeModuleInto(m, s) == (Module(m.id, 0, 0, length, if length == 0 then NoName else Unfilled, [], [], 0, 0, length > 0), s)
    ensures DecodeModule(s) == (Module(0, 0, 0, 0, NoName, [], [], 0, 0, false), s)
  {}

  /** `reset` itself: the name stays when it is not owned. */
  lemma AfterReset(m: Module)
    ensures ResetModule(m) == Module(m.id, 0, 0, if m.ownsName && m.name != NoName then 0 else m.nameLength,
      if m.ownsName then NoName else m.name, [], [], 0, 0, false)
  {}

  /** A decoded module owns its name exactly when it has one, and goes on counting where its last input and last
      sensor end, in eight bits. */
  lemma CountersAfterDecoding(m: Module, s: seq<byte>)
    ensures var m' := DecodeModuleInto(m, s).0;
      && (m'.ownsName <==> m'.nameLength > 0)
      && |m'.inputs| == m'.numInputs && |m'.sensors| == m'.numSensors
      && m'.nextInputId == (if m'.inputs == [] then 0 else if m'.inputs[|m'.inputs| - 1].id % 256 == 255 then 0
                            else m'.inputs[|m'.inputs| - 1].id % 256 + 1)
      && m'.nextSensorId == (if m'.sensors == [] then 0 else if m'.sensors[|m'.sensors| - 1].id % 256 == 255 then 0
                             else m'.sensors[|m'.sensors| - 1].id % 256 + 1)
  {
    hide DecodeInput, DecodeSensor, DecodeName, ByteValue;
  }

  /** Without a count there is no configuration: the one failure that is reported. */
  lemma ShortConfiguration(s: seq<byte>)
    ensures DecodeConfiguration(s).0 == BUFFER_UNDERFLOW <==> s == []
    ensures s == [] ==> DecodeConfiguration(s) == (BUFFER_UNDERFLOW, Configuration(0, [], 0), [])
    ensures s != [] ==> var c := DecodeConfiguration(s).1; |c.modules| == c.numModules == ByteValue(s[0]) && c.nextModuleId == 0
  {
    hide DecodeModule, ByteValue;
  }
}
