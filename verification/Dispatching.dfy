/** Dispatching a message to its handler (include/crisp/comms/bits/MessageDispatcher.tcc): the body is
    decoded on the spot, control messages against the node's own configuration. */
module Dispatching {
  import opened Messages
  import opened Configurations
  import opened ControlCodec
  import opened Outcomes

  /** Why a loop over messages ends. */
  datatype Why = EndOfStream | BadChecksum | Thrown | AssertFailed | OutOfRange | Overrun

  datatype Dispatch = Handled | Fails(why: Why)

  /** The types whose handlers take a body. */
  predicate TakesBody(t: nat) {
    t == HANDSHAKE || t == HANDSHAKE_RESPONSE || t == CONFIGURATION_RESPONSE || t == MODULE_CONTROL
  }

  /** `dispatch`: ERROR and SENSOR_DATA throw, as does a missing body; a control that the node's
      configuration cannot decode fails there and then. */
  function DispatchOf(config: Countable, m: Message): Dispatch {
    if m.header.typ == ERROR || m.header.typ == SENSOR_DATA then Fails(Thrown)
    else if TakesBody(m.header.typ) && m.body.NoBody? then Fails(Thrown)
    else if m.header.typ != MODULE_CONTROL then Handled
    else
      match DecodeControl(config, m.body.bytes)
      case Done(_) => Handled
      case AssertionFailed => Fails(AssertFailed)
      case OutOfBounds => Fails(OutOfRange)
  }

  /** What can be dispatched, as a sender can tell: a type that is handled, with a body if it takes one, and
      for a control, bytes that decode against the node's configuration. */
  predicate Dispatchable(config: Configuration, m: Message) {
    && m.header.typ != ERROR && m.header.typ != SENSOR_DATA
    && (TakesBody(m.header.typ) ==> m.body.Data?)
    && (m.header.typ == MODULE_CONTROL ==> Decodes(config, m.body.bytes))
  }

  /** Why dispatching fails, by type number: ERROR (3) and SENSOR_DATA (6) throw, as does a message without the
      body it should have; a MODULE_CONTROL (7) fails as its bytes do. Everything else is handled. */
  lemma DispatchReasons(config: Countable, m: Message)
    ensures var d, t := DispatchOf(config, m), m.header.typ;
      && (d == Fails(Thrown) <==> t == 3 || t == 6 || (m.body.NoBody? && (t == 0 || t == 1 || t == 5 || t == 7)))
      && (d == Fails(AssertFailed) <==> t == 7 && m.body.Data? && Asserts(config, m.body.bytes))
      && (d == Fails(OutOfRange) <==> t == 7 && m.body.Data? && !Decodes(config, m.body.bytes) && !Asserts(config, m.body.bytes))
      && (d.Fails? ==> d.why == Thrown || d.why == AssertFailed || d.why == OutOfRange)
  {
    hide Decodes, DecodeControl, Asserts;
    if m.header.typ == MODULE_CONTROL && m.body.Data? { DecodesIff(config, m.body.bytes); }
  }

  /** Dispatching fails exactly on what is not dispatchable. */
  lemma HandledIff(config: Countable, m: Message)
    ensures DispatchOf(config, m) == Handled <==> Dispatchable(config, m)
  {
    hide Decodes, DecodeControl;
    if m.header.typ == MODULE_CONTROL && m.body.Data? { DecodesIff(config, m.body.bytes); }
  }
}
