/** Two nodes, each with its own role, protocol and version, shaking hands over a connection
    (include/crisp/comms/bits/MessageDispatcher.tcc, include/crisp/comms/bits/BasicNode.tcc). Queued
    messages go out in order; handlers are posted to a pool and run in any order. */
module Handshakes {
  import opened Bytes

  datatype Role = MASTER | SLAVE

  datatype Acknowledge = ACK | NACK_UNKNOWN_PROTOCOL | NACK_ROLE_CONFLICT | NACK_VERSION_CONFLICT

  datatype Identity = Identity(role: Role, protocol: nat, version: nat)

  datatype Note = Hello(from: Identity) | Answer(ack: Acknowledge, role: Role) | Sync

  datatype Side = A | B

  /** The two identities; any at all. */
  datatype World = World(a: Identity, b: Identity)

  datatype Timer = Unset | Armed | Expired | Cancelled

  /** `due` while the halt timer's handler is queued: it gets there when the timer runs out, and cancelling
      the timer does not take it back. `halts` counts the handler's calls of `halt`. */
  datatype Node = Node(
    launched: bool,
    queue: seq<Note>,
    wire: seq<Note>,
    handlers: multiset<Note>,
    timer: Timer,
    due: bool,
    halts: nat,
    syncActions: nat,
    rejections: nat)

  /** `closed` once anything in transit was lost; `early` holds the sides whose ACK was handled before
      their halt timer was set. */
  datatype State = State(a: Node, b: Node, closed: bool, early: set<Side>)

  const IDLE := Node(false, [], [], multiset{}, Unset, false, 0, 0, 0)
  const START := State(IDLE, IDLE, false, {})

  function Other(x: Side): Side { if x == A then B else A }

  function Id(w: World, x: Side): Identity { if x == A then w.a else w.b }

  function Get(s: State, x: Side): Node { if x == A then s.a else s.b }

  function Put(s: State, x: Side, n: Node): State { if x == A then s.(a := n) else s.(b := n) }

  // ----- The handlers -----

  /** What a node answers to a handshake: protocol, then role, then version. */
  function Judge(me: Identity, from: Identity): Acknowledge {
    if from.protocol != me.protocol then NACK_UNKNOWN_PROTOCOL
    else if from.role == me.role then NACK_ROLE_CONFLICT
    else if from.version != me.version then NACK_VERSION_CONFLICT
    else ACK
  }

  function Opposite(r: Role): Role { if r == MASTER then SLAVE else MASTER }

  function Reply(me: Identity, from: Identity): Note { Answer(Judge(me, from), Opposite(from.role)) }

  /** A received note's handler. An ACK cancels the halt timer if it is set by then, and schedules the
      periodic SYNC. */
  function Handled(me: Identity, n: Node, note: Note): Node {
    match note
    case Hello(from) => n.(queue := n.queue + [Reply(me, from)])
    case Answer(ack, _) =>
      if ack == ACK then n.(timer := if n.timer == Armed then Cancelled else n.timer, syncActions := n.syncActions + 1)
      else n.(rejections := n.rejections + 1)
    case Sync => n
  }

  // ----- Steps -----

  datatype Step =
    | Launch(x: Side)          // send the handshake, start the workers and both loops
    | SetTimer(x: Side)        // the rest of launch
    | Transmit(x: Side)        // the send loop writes the next message
    | Receive(x: Side)         // the receive loop dispatches the next one to a handler
    | Handle(x: Side, note: Note)
    | Tick(x: Side)            // a scheduled SYNC goes out
    | Expire(x: Side)          // the halt timer runs out: its handler is queued
    | RunHalt(x: Side)         // that handler calls `halt`
    | Close                    // the connection drops what is in transit

  predicate Enabled(s: State, step: Step) {
    match step
    case Launch(x) => !Get(s, x).launched
    case SetTimer(x) => Get(s, x).launched && Get(s, x).timer == Unset
    case Transmit(x) => Get(s, x).launched && Get(s, x).queue != []
    case Receive(x) => Get(s, x).launched && Get(s, Other(x)).wire != []
    case Handle(x, note) => note in Get(s, x).handlers
    case Tick(x) => Get(s, x).syncActions > 0
    case Expire(x) => Get(s, x).timer == Armed
    case RunHalt(x) => Get(s, x).due
    case Close => true
  }

  function Do(w: World, s: State, step: Step): State
    requires Enabled(s, step)
  {
    match step
    case Launch(x) =>
      var n := Get(s, x);
      Put(s, x, n.(launched := true, queue := n.queue + [Hello(Id(w, x))]))
    case SetTimer(x) => Put(s, x, Get(s, x).(timer := Armed))
    case Transmit(x) =>
      var n := Get(s, x);
      Put(s, x, n.(queue := n.queue[1..], wire := n.wire + [n.queue[0]]))
    case Receive(x) =>
      var n, peer := Get(s, x), Get(s, Other(x));
      Put(Put(s, Other(x), peer.(wire := peer.wire[1..])), x, n.(handlers := n.handlers + multiset{peer.wire[0]}))
    case Handle(x, note) =>
      var n := Get(s, x);
      var early := if note.Answer? && note.ack == ACK && n.timer == Unset then s.early + {x} else s.early;
      Put(s, x, Handled(Id(w, x), n.(handlers := n.handlers - multiset{note}), note)).(early := early)
    case Tick(x) => Put(s, x, Get(s, x).(queue := Get(s, x).queue + [Sync]))
    case Expire(x) => Put(s, x, Get(s, x).(timer := Expired, due := true))
    case RunHalt(x) => Put(s, x, Get(s, x).(due := false, halts := Get(s, x).halts + 1))
    case Close => State(s.a.(wire := []), s.b.(wire := []), true, s.early)
  }

  predicate Possible(w: World, s: State, steps: seq<Step>)
    decreases steps
  {
    steps == [] || (Enabled(s, steps[0]) && Possible(w, Do(w, s, steps[0]), steps[1..]))
  }

  function Run(w: World, s: State, steps: seq<Step>): State
    requires Possible(w, s, steps)
    decreases steps
  {
    if steps == [] then s else Run(w, Do(w, s, steps[0]), steps[1..])
  }

  // ----- The invariant -----

  /** How many copies of a note sent by x are not yet handled, wherever they are. */
  function InTransit(s: State, x: Side, note: Note): nat {
    multiset(Get(s, x).queue)[note] + multiset(Get(s, x).wire)[note] + Get(s, Other(x)).handlers[note]
  }

  function HelloOf(w: World, x: Side): Note { Hello(Id(w, x)) }

  function AnswerOf(w: World, x: Side): Note { Reply(Id(w, x), Id(w, Other(x))) }

  /** Notes that x may have sent: its handshake, its answer and SYNC. */
  ghost predicate Known(w: World, s: State, x: Side) {
    forall note :: InTransit(s, x, note) > 0 ==> note == HelloOf(w, x) || note == AnswerOf(w, x) || note == Sync
  }

  /** Where the single token of x's handshake is: the handshake itself on its way, then its answer on
      the way back, then the verdict. */
  function Tokens(w: World, s: State, x: Side): nat {
    InTransit(s, x, HelloOf(w, x)) + InTransit(s, Other(x), AnswerOf(w, Other(x)))
    + Get(s, x).syncActions + Get(s, x).rejections
  }

  predicate VerdictsFit(n: Node, ack: Acknowledge) {
    (n.syncActions > 0 ==> ack == ACK) && (n.rejections > 0 ==> ack != ACK)
  }

  /** A scheduled SYNC goes with a settled halt timer unless the ACK came early; then it is never cancelled.
      The handler of a timer that has run out is queued until it has called `halt`, once. */
  predicate TimerFits(n: Node, early: bool) {
    && (if early then n.timer != Cancelled && n.syncActions > 0
        else n.syncActions > 0 ==> n.timer == Expired || n.timer == Cancelled)
    && n.halts + (if n.due then 1 else 0) == (if n.timer == Expired then 1 else 0)
  }

  predicate TokensFit(tokens: nat, launched: bool, closed: bool) {
    var due := if launched then 1 else 0;
    tokens <= due && (!closed ==> tokens == due)
  }

  ghost predicate SideInv(w: World, s: State, x: Side) {
    && Known(w, s, x)
    && TokensFit(Tokens(w, s, x), Get(s, x).launched, s.closed)
    && VerdictsFit(Get(s, x), Judge(Id(w, Other(x)), Id(w, x)))
    && TimerFits(Get(s, x), x in s.early)
  }

  ghost predicate Inv(w: World, s: State) { SideInv(w, s, A) && SideInv(w, s, B) }

  lemma StartInv(w: World)
    ensures Inv(w, START)
  {}

  lemma HeadAndRest(q: seq<Note>, note: Note)
    requires q != []
    ensures multiset(q)[note] == multiset(q[1..])[note] + (if note == q[0] then 1 else 0)
  {
    assert q == [q[0]] + q[1..];
  }

  /** The notes a step has x send: a handshake, a SYNC or an answer. */
  predicate Adds(w: World, step: Step, x: Side, note: Note) {
    match step
    case Launch(y) => x == y && note == HelloOf(w, x)
    case Tick(y) => x == y && note == Sync
    case Handle(y, n) => x == y && n.Hello? && note == Reply(Id(w, y), n.from)
    case _ => false
  }

  predicate Removes(step: Step, x: Side, note: Note) { step.Handle? && x != step.x && note == step.note }

  lemma Append(q: seq<Note>, n: Note, note: Note)
    ensures multiset(q + [n])[note] == multiset(q)[note] + (if note == n then 1 else 0)
  {}

  lemma TransmitTransit(w: World, s: State, y: Side, x: Side, note: Note)
    requires Enabled(s, Transmit(y))
    ensures InTransit(Do(w, s, Transmit(y)), x, note) == InTransit(s, x, note)
  {
    var n := Get(s, y);
    HeadAndRest(n.queue, note);
    Append(n.wire, n.queue[0], note);
  }

  lemma ReceiveTransit(w: World, s: State, y: Side, x: Side, note: Note)
    requires Enabled(s, Receive(y))
    ensures InTransit(Do(w, s, Receive(y)), x, note) == InTransit(s, x, note)
  {
    HeadAndRest(Get(s, Other(y)).wire, note);
  }

  lemma LaunchTransit(w: World, s: State, y: Side, x: Side, note: Note)
    requires Enabled(s, Launch(y))
    ensures InTransit(Do(w, s, Launch(y)), x, note)
      == InTransit(s, x, note) + (if x == y && note == HelloOf(w, y) then 1 else 0)
  {
    Append(Get(s, y).queue, HelloOf(w, y), note);
  }

  lemma TickTransit(w: World, s: State, y: Side, x: Side, note: Note)
    requires Enabled(s, Tick(y))
    ensures InTransit(Do(w, s, Tick(y)), x, note) == InTransit(s, x, note) + (if x == y && note == Sync then 1 else 0)
  {
    Append(Get(s, y).queue, Sync, note);
  }

  lemma HandlePieces(w: World, s: State, y: Side, note: Note)
    requires Enabled(s, Handle(y, note))
    ensures var n, s' := Get(s, y), Do(w, s, Handle(y, note));
      && Get(s', y).queue == (if note.Hello? then n.queue + [Reply(Id(w, y), note.from)] else n.queue)
      && Get(s', y).wire == n.wire && Get(s', y).handlers == n.handlers - multiset{note} && note in n.handlers
      && Get(s', Other(y)) == Get(s, Other(y))
  {
    hide Reply, Id;
  }

  lemma HandleOwnTransit(w: World, s: State, x: Side, n: Note, note: Note)
    requires Enabled(s, Handle(x, n))
    ensures InTransit(Do(w, s, Handle(x, n)), x, note) == InTransit(s, x, note) + (if Adds(w, Handle(x, n), x, note) then 1 else 0)
  {
    HandlePieces(w, s, x, n);
    if n.Hello? { Append(Get(s, x).queue, Reply(Id(w, x), n.from), note); }
    hide Reply, Id, Do, Get, Handled, Enabled;
  }

  lemma HandlePeerTransit(w: World, s: State, x: Side, n: Note, note: Note)
    requires Enabled(s, Handle(Other(x), n))
    ensures InTransit(Do(w, s, Handle(Other(x), n)), x, note) == InTransit(s, x, note) - (if note == n then 1 else 0)
  {
    HandlePieces(w, s, Other(x), n);
    hide Reply, Id, Do, Get, Handled, Enabled;
  }

  lemma HandleTransit(w: World, s: State, step: Step, x: Side, note: Note)
    requires Enabled(s, step) && step.Handle?
    ensures InTransit(Do(w, s, step), x, note) == InTransit(s, x, note)
      + (if Adds(w, step, x, note) then 1 else 0) - (if Removes(step, x, note) then 1 else 0)
  {
    hide Reply, Id, Do, Get, Handled, Enabled, InTransit;
    if x == step.x { HandleOwnTransit(w, s, x, step.note, note); } else { HandlePeerTransit(w, s, x, step.note, note); }
  }

  lemma SetTimerTransit(w: World, s: State, y: Side, x: Side, note: Note)
    requires Enabled(s, SetTimer(y))
    ensures InTransit(Do(w, s, SetTimer(y)), x, note) == InTransit(s, x, note)
  {}

  lemma ExpireTransit(w: World, s: State, y: Side, x: Side, note: Note)
    requires Enabled(s, Expire(y))
    ensures InTransit(Do(w, s, Expire(y)), x, note) == InTransit(s, x, note)
  {}

  lemma RunHaltTransit(w: World, s: State, y: Side, x: Side, note: Note)
    requires Enabled(s, RunHalt(y))
    ensures InTransit(Do(w, s, RunHalt(y)), x, note) == InTransit(s, x, note)
  {}

  lemma CloseTransit(w: World, s: State, x: Side, note: Note)
    ensures InTransit(Do(w, s, Close), x, note) <= InTransit(s, x, note)
  {}

  /** Writing and dispatching move notes along; only handlers, launches, ticks and a closed connection
      change what is in transit. */
  lemma TransitAfter(w: World, s: State, step: Step, x: Side, note: Note)
    requires Enabled(s, step)
    ensures var before, after := InTransit(s, x, note), InTransit(Do(w, s, step), x, note);
      if step.Close? then after <= before
      else after == before + (if Adds(w, step, x, note) then 1 else 0) - (if Removes(step, x, note) then 1 else 0)
  {
    hide InTransit, Do, Reply, Id, HelloOf;
    match step
    case Transmit(y) => TransmitTransit(w, s, y, x, note);
    case Receive(y) => ReceiveTransit(w, s, y, x, note);
    case Handle(_, _) => HandleTransit(w, s, step, x, note);
    case Launch(y) => LaunchTransit(w, s, y, x, note);
    case Tick(y) => TickTransit(w, s, y, x, note);
    case Close => CloseTransit(w, s, x, note);
    case SetTimer(y) => SetTimerTransit(w, s, y, x, note);
    case Expire(y) => ExpireTransit(w, s, y, x, note);
    case RunHalt(y) => RunHaltTransit(w, s, y, x, note);
  }

  // ----- What a step does to a node -----

  /** A handler runs on an answer that accepts, or that rejects. */
  predicate Accepts(step: Step, x: Side) { step.Handle? && step.x == x && step.note.Answer? && step.note.ack == ACK }

  predicate Rejects(step: Step, x: Side) { step.Handle? && step.x == x && step.note.Answer? && step.note.ack != ACK }

  lemma VerdictAfter(w: World, s: State, step: Step, x: Side)
    requires Enabled(s, step)
    ensures var n, n' := Get(s, x), Get(Do(w, s, step), x);
      && n'.syncActions == n.syncActions + (if Accepts(step, x) then 1 else 0)
      && n'.rejections == n.rejections + (if Rejects(step, x) then 1 else 0)
      && n'.launched == (n.launched || step == Launch(x))
      && (step == Launch(x) ==> !n.launched)
      && Do(w, s, step).closed == (s.closed || step.Close?)
  {
    hide Reply, Id;
    if step.Handle? { HandledVerdict(Get(s, step.x), Id(w, step.x), step.note); }
    hide Handled;
  }

  lemma HandledVerdict(n: Node, me: Identity, note: Note)
    ensures var m := n.(handlers := n.handlers - multiset{note}); var n' := Handled(me, m, note);
      && n'.syncActions == n.syncActions + (if note.Answer? && note.ack == ACK then 1 else 0)
      && n'.rejections == n.rejections + (if note.Answer? && note.ack != ACK then 1 else 0)
      && n'.launched == n.launched
  {
    hide Reply;
  }

  lemma TimerAfter(w: World, s: State, step: Step, x: Side)
    requires Enabled(s, step) && TimerFits(Get(s, x), x in s.early)
    requires Accepts(step, x) ==> Get(s, x).syncActions == 0
    ensures var s' := Do(w, s, step); TimerFits(Get(s', x), x in s'.early)
  {
    hide Reply, Id;
    if step.Handle? {
      hide Do, Get, Handled, Enabled;
      HandleTimer(w, s, step.x, step.note, x);
    }
  }

  lemma HandleTimer(w: World, s: State, y: Side, note: Note, x: Side)
    requires Enabled(s, Handle(y, note)) && TimerFits(Get(s, x), x in s.early)
    requires Accepts(Handle(y, note), x) ==> Get(s, x).syncActions == 0
    ensures var s' := Do(w, s, Handle(y, note)); TimerFits(Get(s', x), x in s'.early)
  {
    hide Reply, Id;
  }

  lemma TokensAfter(w: World, s: State, step: Step, x: Side)
    requires Enabled(s, step)
    requires step.Handle? ==> var y := Other(step.x); step.note == HelloOf(w, y) || step.note == AnswerOf(w, y) || step.note == Sync
    ensures var s' := Do(w, s, step);
      if step.Close? then Tokens(w, s', x) <= Tokens(w, s, x)
      else Tokens(w, s', x) == Tokens(w, s, x) + if step == Launch(x) then 1 else 0
  {
    VerdictAfter(w, s, step, x);
    TransitAfter(w, s, step, x, HelloOf(w, x));
    TransitAfter(w, s, step, Other(x), AnswerOf(w, Other(x)));
    hide InTransit, Do, Get, Id, Judge, Enabled;
  }

  lemma KnownAfter(w: World, s: State, step: Step, x: Side)
    requires Enabled(s, step) && Known(w, s, x)
    requires step.Handle? ==> var y := Other(step.x); step.note == HelloOf(w, y) || step.note == AnswerOf(w, y) || step.note == Sync
    ensures Known(w, Do(w, s, step), x)
  {
    forall note ensures InTransit(Do(w, s, step), x, note) > 0 ==> note == HelloOf(w, x) || note == AnswerOf(w, x) || note == Sync {
      TransitAfter(w, s, step, x, note);
      hide InTransit, Do, Get, Id, Judge, Enabled;
    }
  }

  lemma HandledIsKnown(w: World, s: State, step: Step)
    requires Inv(w, s) && Enabled(s, step) && step.Handle?
    ensures var y := Other(step.x);
      && InTransit(s, y, step.note) > 0
      && (step.note == HelloOf(w, y) || step.note == AnswerOf(w, y) || step.note == Sync)
  {
    hide Reply, Id, Judge;
  }

  /** A verdict follows the judgement it carries. */
  lemma VerdictsAfter(w: World, s: State, step: Step, x: Side)
    requires Enabled(s, step) && VerdictsFit(Get(s, x), Judge(Id(w, Other(x)), Id(w, x)))
    requires step.Handle? ==> var y := Other(step.x); step.note == HelloOf(w, y) || step.note == AnswerOf(w, y) || step.note == Sync
    ensures VerdictsFit(Get(Do(w, s, step), x), Judge(Id(w, Other(x)), Id(w, x)))
  {
    VerdictAfter(w, s, step, x);
    hide Do, Get, Id, Judge, Enabled;
  }

  /** The token that a verdict uses up was in transit, so there is no verdict yet. */
  lemma FirstVerdict(w: World, s: State, step: Step, x: Side)
    requires SideInv(w, s, x) && Enabled(s, step) && Accepts(step, x)
    requires InTransit(s, Other(x), step.note) > 0 && step.note == AnswerOf(w, Other(x))
    ensures Get(s, x).syncActions == 0
  {
    hide InTransit, Known, Get, Judge, Id, Enabled;
  }

  lemma StepKeepsSide(w: World, s: State, step: Step, x: Side)
    requires Inv(w, s) && Enabled(s, step)
    ensures SideInv(w, Do(w, s, step), x)
  {
    if step.Handle? { HandledIsKnown(w, s, step); }
    VerdictAfter(w, s, step, x);
    TokensAfter(w, s, step, x);
    KnownAfter(w, s, step, x);
    VerdictsAfter(w, s, step, x);
    if Accepts(step, x) { FirstVerdict(w, s, step, x); }
    hide Do, Get, InTransit, Known, Enabled, Judge, Id, VerdictsFit, Tokens, Accepts, Rejects, TimerFits, HelloOf, AnswerOf;
    TimerAfter(w, s, step, x);
  }

  lemma {:induction false} RunKeepsInv(w: World, s: State, steps: seq<Step>)
    requires Inv(w, s) && Possible(w, s, steps)
    ensures Inv(w, Run(w, s, steps))
    decreases steps
  {
    hide SideInv, Do, Enabled;
    if steps != [] {
      StepKeepsSide(w, s, steps[0], A);
      StepKeepsSide(w, s, steps[0], B);
      RunKeepsInv(w, Do(w, s, steps[0]), steps[1..]);
    }
  }

  // ----- Which steps change what -----

  /** What a node has sent and its peer has not yet dispatched, in order. */
  function Sent(n: Node): seq<Note> { n.wire + n.queue }

  /** It grows at the end by what is sent and shrinks at the front by what is dispatched. */
  function SentAfter(w: World, s: State, step: Step, x: Side): seq<Note>
    requires Enabled(s, step)
  {
    var sent := Sent(Get(s, x));
    if step == Launch(x) then sent + [Hello(Id(w, x))]
    else if step == Tick(x) then sent + [Sync]
    else if step.Handle? && step.x == x && step.note.Hello? then sent + [Reply(Id(w, x), step.note.from)]
    else if step == Receive(Other(x)) then sent[1..]
    else if step.Close? then Get(s, x).queue
    else sent
  }

  lemma MovingInOrder(w: World, s: State, step: Step, x: Side)
    requires Enabled(s, step) && (step.Transmit? || step.Receive?)
    ensures Sent(Get(Do(w, s, step), x)) == SentAfter(w, s, step, x)
  {
    hide Reply, Id;
    var n := Get(s, x);
    if step == Transmit(x) { HeadMoves(n.wire, n.queue); }
    if step == Receive(Other(x)) { HeadLeaves(n.wire, n.queue); }
  }

  lemma SendingInOrder(w: World, s: State, step: Step, x: Side)
    requires Enabled(s, step) && (step.Launch? || step.Tick?)
    ensures Sent(Get(Do(w, s, step), x)) == SentAfter(w, s, step, x)
  {
    hide Reply, Id;
    var n := Get(s, x);
    if step.x == x { Regroup(n.wire, n.queue, [if step.Tick? then Sync else Hello(Id(w, x))]); }
  }

  lemma AnsweringInOrder(w: World, s: State, y: Side, note: Note, x: Side)
    requires Enabled(s, Handle(y, note))
    ensures Sent(Get(Do(w, s, Handle(y, note)), x)) == SentAfter(w, s, Handle(y, note), x)
  {
    HandlePieces(w, s, y, note);
    hide Reply, Id, Do, Enabled, Handled;
    if note.Hello? { Regroup(Get(s, y).wire, Get(s, y).queue, [Reply(Id(w, y), note.from)]); }
  }

  lemma NothingSent(w: World, s: State, step: Step, x: Side)
    requires Enabled(s, step) && (step.SetTimer? || step.Expire? || step.RunHalt? || step.Close?)
    ensures Sent(Get(Do(w, s, step), x)) == SentAfter(w, s, step, x)
  {
    match step
    case Close => assert [] + Get(s, x).queue == Get(s, x).queue;
    case SetTimer(_) =>
    case Expire(_) =>
    case RunHalt(_) =>
  }

  /** Notes go out in the order they were sent and come in in the order they went out. */
  lemma NotesInOrder(w: World, s: State, step: Step, x: Side)
    requires Enabled(s, step)
    ensures Sent(Get(Do(w, s, step), x)) == SentAfter(w, s, step, x)
    ensures var n, n' := Get(s, x), Get(Do(w, s, step), x);
      |n'.wire| == if step.Close? then 0 else |n.wire| + (if step == Transmit(x) then 1 else 0) - (if step == Receive(Other(x)) then 1 else 0)
  {
    WireLength(w, s, step, x);
    hide Do, Reply, Id, Sent, SentAfter;
    match step
    case Transmit(_) => MovingInOrder(w, s, step, x);
    case Receive(_) => MovingInOrder(w, s, step, x);
    case Launch(_) => SendingInOrder(w, s, step, x);
    case Tick(_) => SendingInOrder(w, s, step, x);
    case Handle(y, note) => AnsweringInOrder(w, s, y, note, x);
    case _ => NothingSent(w, s, step, x);
  }

  lemma WireLength(w: World, s: State, step: Step, x: Side)
    requires Enabled(s, step)
    ensures var n, n' := Get(s, x), Get(Do(w, s, step), x);
      |n'.wire| == if step.Close? then 0 else |n.wire| + (if step == Transmit(x) then 1 else 0) - (if step == Receive(Other(x)) then 1 else 0)
  {
    hide Reply, Id;
  }

  lemma HeadMoves(wire: seq<Note>, queue: seq<Note>)
    requires queue != []
    ensures (wire + [queue[0]]) + queue[1..] == wire + queue
  {}

  lemma HeadLeaves(wire: seq<Note>, queue: seq<Note>)
    requires wire != []
    ensures wire[1..] + queue == (wire + queue)[1..]
  {}

  /** A dispatched note becomes a handler, which runs once. */
  lemma HandlersAfter(w: World, s: State, step: Step, x: Side)
    requires Enabled(s, step)
    ensures var n, n' := Get(s, x), Get(Do(w, s, step), x);
      && (step == Receive(x) ==> Get(s, Other(x)).wire != [] && n'.handlers == n.handlers + multiset{Get(s, Other(x)).wire[0]})
      && (step.Handle? && step.x == x ==> n.handlers == n'.handlers + multiset{step.note})
      && (step != Receive(x) && !(step.Handle? && step.x == x) ==> n'.handlers == n.handlers)
  {
    hide Reply, Id;
  }

  /** The halt timer is set by `launch`, runs out when it is running, and is cancelled by an ACK when it is
      running; its handler is queued by its running out, and calls `halt` when it runs. */
  lemma TimerSteps(w: World, s: State, step: Step, x: Side)
    requires Enabled(s, step)
    ensures var n, n' := Get(s, x), Get(Do(w, s, step), x);
      && n'.timer == (if step == SetTimer(x) then Armed else if step == Expire(x) then Expired
                      else if Accepts(step, x) && n.timer == Armed then Cancelled else n.timer)
      && (step == SetTimer(x) ==> n.timer == Unset && n.launched) && (step == Expire(x) ==> n.timer == Armed)
      && (n'.due <==> step == Expire(x) || (n.due && step != RunHalt(x)))
      && n'.halts == n.halts + (if step == RunHalt(x) then 1 else 0)
      && (x in Do(w, s, step).early <==> x in s.early || (Accepts(step, x) && n.timer == Unset))
  {
    hide Reply, Id;
    if step.Handle? {
      HandleTimerSteps(w, s, step.x, step.note, x);
      hide Do, Enabled, Handled;
    }
  }

  lemma HandleTimerSteps(w: World, s: State, y: Side, note: Note, x: Side)
    requires Enabled(s, Handle(y, note))
    ensures var s', n, n' := Do(w, s, Handle(y, note)), Get(s, x), Get(Do(w, s, Handle(y, note)), x);
      && n'.timer == (if Accepts(Handle(y, note), x) && n.timer == Armed then Cancelled else n.timer)
      && n'.due == n.due && n'.halts == n.halts
      && (x in s'.early <==> x in s.early || (Accepts(Handle(y, note), x) && n.timer == Unset))
  {
    hide Reply, Id;
  }

  /** Whatever else happens: a node in sync can send a SYNC, and the connection can close. */
  lemma AlwaysPossible(s: State, x: Side)
    ensures Enabled(s, Close) && (Enabled(s, Tick(x)) <==> Get(s, x).syncActions > 0)
  {}

  // ----- What every run of two nodes keeps -----

  predicate Compatible(w: World) {
    w.a.role != w.b.role && w.a.protocol == w.b.protocol && w.a.version == w.b.version
  }

  /** Both sides judge alike, reason included; they accept exactly when the two are compatible. */
  lemma JudgementsAgree(w: World, x: Side)
    ensures Judge(Id(w, x), Id(w, Other(x))) == ACK <==> Compatible(w)
    ensures Judge(Id(w, x), Id(w, Other(x))) == Judge(w.a, w.b)
    ensures Judge(w.a, w.b) == NACK_UNKNOWN_PROTOCOL <==> w.a.protocol != w.b.protocol
    ensures Judge(w.a, w.b) == NACK_ROLE_CONFLICT <==> w.a.protocol == w.b.protocol && w.a.role == w.b.role
  {}

  /** In every reachable state: at most one verdict a side, SYNC scheduled only between compatible nodes,
      a rejection only between incompatible ones, and every answer on its way carries the one judgement
      and the role that its receiver does not have, which is, when it accepts, the role of its sender. */
  lemma HandshakeAgreement(w: World, steps: seq<Step>, x: Side)
    requires Possible(w, START, steps)
    ensures var s := Run(w, START, steps);
      && Get(s, x).syncActions + Get(s, x).rejections <= 1
      && (Get(s, x).syncActions > 0 ==> Compatible(w))
      && (Get(s, x).rejections > 0 ==> !Compatible(w))
      && forall note: Note :: note.Answer? && InTransit(s, x, note) > 0 ==>
           && note.ack == Judge(w.a, w.b) && note.role != Id(w, Other(x)).role
           && (note.ack == ACK ==> note.role == Id(w, x).role)
  {
    StartInv(w);
    RunKeepsInv(w, START, steps);
    JudgementsAgree(w, x);
    JudgementsAgree(w, Other(x));
    hide Judge, InTransit, Id, Run, Compatible;
  }

  /** It never happens that one direction is accepted and the other rejected. */
  lemma NoSplitVerdict(w: World, steps: seq<Step>, x: Side)
    requires Possible(w, START, steps)
    ensures var s := Run(w, START, steps); !(Get(s, x).syncActions > 0 && Get(s, Other(x)).rejections > 0)
  {
    HandshakeAgreement(w, steps, x);
    HandshakeAgreement(w, steps, Other(x));
  }

  predicate Settled(w: World, s: State) {
    && s.a.launched && s.b.launched && !s.closed
    && forall x: Side :: InTransit(s, x, HelloOf(w, x)) == 0 && InTransit(s, x, AnswerOf(w, x)) == 0
  }

  /** Once both handshakes have run their course over a connection that held, both sides have exactly
      one verdict, the same one: SYNC scheduled on both when compatible, rejected on both when not. */
  lemma BothSidesSettle(w: World, steps: seq<Step>, x: Side)
    requires Possible(w, START, steps) && Settled(w, Run(w, START, steps))
    ensures var s := Run(w, START, steps);
      && Get(s, x).syncActions == (if Compatible(w) then 1 else 0)
      && Get(s, x).rejections == (if Compatible(w) then 0 else 1)
  {
    StartInv(w);
    RunKeepsInv(w, START, steps);
    HandshakeAgreement(w, steps, x);
    assert SideInv(w, Run(w, START, steps), x);
    hide Judge, InTransit, Id, Run, Compatible;
  }

  // ----- The halt timer of a node in sync -----

  /** The timer of a launched node is yet to be set, or set and still running. */
  predicate TimerAhead(n: Node) { n.timer == Unset || n.timer == Armed }

  lemma TimerOfNodeInSync(w: World, s: State, x: Side)
    requires Inv(w, s) && Get(s, x).syncActions > 0
    ensures Get(s, x).launched && (TimerAhead(Get(s, x)) <==> x in s.early && Get(s, x).timer != Expired)
  {
    assert SideInv(w, s, x);
    hide Judge, InTransit, Id, Known;
  }

  /** In every reachable state, the timer's handler calls `halt` at most once; and the halt timer of a node
      that has scheduled SYNC is still set or yet to be set exactly when its ACK was handled before the timer
      was set and the timer has not run out. */
  lemma TimerSurvivesIffEarly(w: World, steps: seq<Step>, x: Side)
    requires Possible(w, START, steps)
    ensures var s := Run(w, START, steps);
      && Get(s, x).halts + (if Get(s, x).due then 1 else 0) == (if Get(s, x).timer == Expired then 1 else 0)
      && (Get(s, x).syncActions > 0 ==> (TimerAhead(Get(s, x)) <==> x in s.early && Get(s, x).timer != Expired))
  {
    StartInv(w);
    RunKeepsInv(w, START, steps);
    var s := Run(w, START, steps);
    assert SideInv(w, s, x);
    hide Inv, Run;
    if Get(s, x).syncActions > 0 { TimerOfNodeInSync(w, s, x); }
  }

  /** Nothing is left that could make the timer's handler run. */
  predicate TimerOver(n: Node) { !TimerAhead(n) && !n.due }

  lemma TimerStaysOver(w: World, s: State, step: Step, x: Side)
    requires Enabled(s, step) && TimerOver(Get(s, x))
    ensures step != RunHalt(x) && TimerOver(Get(Do(w, s, step), x))
  {
    hide Reply, Id;
  }

  lemma {:induction false} NeverHalts(w: World, s: State, steps: seq<Step>, x: Side)
    requires Possible(w, s, steps) && TimerOver(Get(s, x))
    ensures RunHalt(x) !in steps
    decreases steps
  {
    hide Do, Enabled, Get, TimerOver;
    if steps != [] {
      TimerStaysOver(w, s, steps[0], x);
      NeverHalts(w, Do(w, s, steps[0]), steps[1..], x);
      assert forall step :: step in steps <==> step == steps[0] || step in steps[1..];
    }
  }

  /** In some continuation the timer's handler calls `halt`. */
  ghost predicate MayHalt(w: World, s: State, x: Side) {
    exists more :: Possible(w, s, more) && RunHalt(x) in more
  }

  /** The halt timer may still call `halt` on a node in sync exactly in two cases: its handler is queued,
      for the ACK was handled too late to stop it; or the ACK was handled before the timer was set, so that
      nothing will cancel it. */
  lemma TimerHaltsIff(w: World, steps: seq<Step>, x: Side)
    requires Possible(w, START, steps) && Get(Run(w, START, steps), x).syncActions > 0
    ensures var s := Run(w, START, steps);
      MayHalt(w, s, x) <==> Get(s, x).due || (x in s.early && TimerAhead(Get(s, x)))
  {
    StartInv(w);
    RunKeepsInv(w, START, steps);
    var s := Run(w, START, steps);
    TimerOfNodeInSync(w, s, x);
    hide Inv, Run;
    if TimerOver(Get(s, x)) {
      forall more | Possible(w, s, more) ensures RunHalt(x) !in more { NeverHalts(w, s, more, x); }
    } else {
      var more := ToHalt(w, s, x);
    }
  }

  /** At most setting the timer, its running out and its handler. */
  lemma ToHalt(w: World, s: State, x: Side) returns (more: seq<Step>)
    requires Get(s, x).launched && !TimerOver(Get(s, x))
    ensures Possible(w, s, more) && RunHalt(x) in more
    decreases if Get(s, x).due then 0 else if Get(s, x).timer == Armed then 1 else 2
  {
    hide Reply, Id;
    if Get(s, x).due {
      more := [RunHalt(x)];
      assert more[1..] == [] && Possible(w, Do(w, s, RunHalt(x)), []);
    } else {
      var step := if Get(s, x).timer == Armed then Expire(x) else SetTimer(x);
      var rest := ToHalt(w, Do(w, s, step), x);
      more := [step] + rest;
      assert more[1..] == rest;
    }
  }

  lemma {:induction false} Extend(w: World, s: State, steps: seq<Step>, step: Step)
    requires Possible(w, s, steps) && Enabled(Run(w, s, steps), step)
    ensures Possible(w, s, steps + [step]) && Run(w, s, steps + [step]) == Do(w, Run(w, s, steps), step)
    decreases steps
  {
    hide Do, Enabled;
    if steps == [] {
      assert [step][1..] == [];
    } else {
      assert (steps + [step])[1..] == steps[1..] + [step];
      Extend(w, Do(w, s, steps[0]), steps[1..], step);
    }
  }

  lemma Extended(w: World, steps: seq<Step>, step: Step) returns (longer: seq<Step>)
    requires Possible(w, START, steps) && Enabled(Run(w, START, steps), step)
    ensures Possible(w, START, longer) && Run(w, START, longer) == Do(w, Run(w, START, steps), step)
  {
    Extend(w, START, steps, step);
    longer := steps + [step];
  }

  /** One side's node and the other's. */
  function Both(x: Side, mine: Node, other: Node): State {
    if x == A then State(mine, other, false, {}) else State(other, mine, false, {})
  }

  const UP := IDLE.(launched := true)

  lemma LaunchesFirst(w: World, x: Side) returns (steps: seq<Step>)
    ensures Possible(w, START, steps)
    ensures Run(w, START, steps) == Both(x, UP.(queue := [HelloOf(w, x)]), UP.(queue := [HelloOf(w, Other(x))]))
  {
    assert Run(w, START, []) == START;
    steps := Extended(w, [], Launch(x));
    hide Run, Possible;
    steps := Extended(w, steps, Launch(Other(x)));
  }

  lemma HelloGoes(w: World, x: Side, h: Note, n: Node)
    requires n.launched
    ensures var s := Both(x, UP.(queue := [h]), n);
      Enabled(s, Transmit(x)) && Do(w, s, Transmit(x)) == Both(x, UP.(wire := [h]), n)
    ensures var s := Both(x, UP.(wire := [h]), n);
      Enabled(s, Receive(Other(x))) && Do(w, s, Receive(Other(x))) == Both(x, UP, n.(handlers := n.handlers + multiset{h}))
  {}

  lemma HelloJudged(w: World, x: Side, n: Node)
    requires HelloOf(w, x) in n.handlers
    ensures var y := Other(x); var s := Both(x, UP, n);
      && Enabled(s, Handle(y, HelloOf(w, x)))
      && Do(w, s, Handle(y, HelloOf(w, x)))
         == Both(x, UP, n.(handlers := n.handlers - multiset{HelloOf(w, x)}, queue := n.queue + [AnswerOf(w, y)]))
  {
    hide Judge;
  }

  /** Both launched, and the other side has judged x's handshake. */
  lemma HalfWay(w: World, x: Side) returns (steps: seq<Step>)
    ensures Possible(w, START, steps)
    ensures Run(w, START, steps) == Both(x, UP, UP.(queue := [HelloOf(w, Other(x)), AnswerOf(w, Other(x))]))
  {
    var y := Other(x);
    var h, g := HelloOf(w, x), HelloOf(w, y);
    HelloGoes(w, x, h, UP.(queue := [g]));
    HelloJudged(w, x, UP.(queue := [g], handlers := multiset{h}));
    hide Run, Possible, Do, Enabled, Both, HelloOf, AnswerOf;
    assert multiset{} + multiset{h} == multiset{h} && multiset{h} - multiset{h} == multiset{};
    steps := LaunchesFirst(w, x);
    steps := Extended(w, steps, Transmit(x));
    steps := Extended(w, steps, Receive(y));
    steps := Extended(w, steps, Handle(y, h));
  }

  /** The other side writes what is queued, and x dispatches what is on the wire. */
  lemma OtherTransmits(w: World, x: Side, mine: Node, q: seq<Note>, wire: seq<Note>)
    requires q != []
    ensures var s := Both(x, mine, UP.(queue := q, wire := wire));
      && Enabled(s, Transmit(Other(x)))
      && Do(w, s, Transmit(Other(x))) == Both(x, mine, UP.(queue := q[1..], wire := wire + [q[0]]))
  {}

  lemma OtherReceived(w: World, x: Side, mine: Node, wire: seq<Note>)
    requires wire != [] && mine.launched
    ensures var s := Both(x, mine, UP.(wire := wire));
      && Enabled(s, Receive(x))
      && Do(w, s, Receive(x)) == Both(x, mine.(handlers := mine.handlers + multiset{wire[0]}), UP.(wire := wire[1..]))
  {}

  /** Both notes of the other side have come, and x's timer is not set yet. */
  lemma AnswerAt(w: World, x: Side) returns (steps: seq<Step>)
    ensures Possible(w, START, steps)
    ensures Run(w, START, steps) == Both(x, UP.(handlers := multiset{HelloOf(w, Other(x)), AnswerOf(w, Other(x))}), UP)
  {
    var y := Other(x);
    var g, r := HelloOf(w, y), AnswerOf(w, y);
    hide Run, Possible, Do, Enabled, Both, HelloOf, AnswerOf;
    steps := HalfWay(w, x);
    OtherTransmits(w, x, UP, [g, r], []);
    assert [g, r][1..] == [r] && [] + [g] == [g] && [r][1..] == [] && [g] + [r] == [g, r];
    steps := Extended(w, steps, Transmit(y));
    OtherTransmits(w, x, UP, [r], [g]);
    steps := Extended(w, steps, Transmit(y));
    OtherReceived(w, x, UP, [g, r]);
    assert multiset{} + multiset{g} == multiset{g} && multiset{g} + multiset{r} == multiset{g, r};
    steps := Extended(w, steps, Receive(x));
    OtherReceived(w, x, UP.(handlers := multiset{g}), [r]);
    steps := Extended(w, steps, Receive(x));
  }

  lemma TimerSet(w: World, s: State, x: Side)
    requires Enabled(s, SetTimer(x))
    ensures var s' := Do(w, s, SetTimer(x)); Get(s', x) == Get(s, x).(timer := Armed) && s'.early == s.early && Enabled(s', Expire(x))
  {}

  lemma TimerRunOut(w: World, s: State, x: Side)
    requires Enabled(s, Expire(x))
    ensures var s' := Do(w, s, Expire(x));
      Get(s', x) == Get(s, x).(timer := Expired, due := true) && s'.early == s.early && Enabled(s', RunHalt(x))
  {}

  lemma AckHandled(w: World, s: State, x: Side, r: Note)
    requires r in Get(s, x).handlers && r.Answer? && r.ack == ACK
    ensures Enabled(s, Handle(x, r))
    ensures var s', n := Do(w, s, Handle(x, r)), Get(s, x); var n' := Get(s', x);
      && n'.launched == n.launched && n'.due == n.due && n'.syncActions == n.syncActions + 1
      && n'.timer == (if n.timer == Armed then Cancelled else n.timer)
      && s'.early == if n.timer == Unset then s.early + {x} else s.early
  {
    hide Reply, Id;
  }

  /** x's node before its timer is set and before the accepting answer r in its hands is handled. */
  lemma AcceptedAt(w: World, x: Side) returns (steps: seq<Step>, r: Note)
    requires Compatible(w)
    ensures Possible(w, START, steps)
    ensures var s := Run(w, START, steps); var n := Get(s, x);
      && n.launched && n.timer == Unset && !n.due && n.syncActions == 0 && r in n.handlers && s.early == {} && Enabled(s, SetTimer(x))
    ensures r.Answer? && r.ack == ACK
  {
    r := AnswerOf(w, Other(x));
    JudgementsAgree(w, Other(x));
    steps := AnswerAt(w, x);
    hide Run, Possible, HelloOf;
  }

  /** The first case happens on either side of any two compatible nodes: the timer runs out, the ACK is
      handled, SYNC is scheduled, and then the queued handler calls `halt`. */
  lemma LateAckIsPossible(w: World, x: Side) returns (steps: seq<Step>)
    requires Compatible(w)
    ensures Possible(w, START, steps)
    ensures var s := Run(w, START, steps); Get(s, x).syncActions == 1 && Get(s, x).due && x !in s.early && MayHalt(w, s, x)
  {
    var r;
    steps, r := AcceptedAt(w, x);
    hide Run, Possible, Do, Enabled, Get;
    TimerSet(w, Run(w, START, steps), x);
    steps := Extended(w, steps, SetTimer(x));
    TimerRunOut(w, Run(w, START, steps), x);
    steps := Extended(w, steps, Expire(x));
    AckHandled(w, Run(w, START, steps), x, r);
    steps := Extended(w, steps, Handle(x, r));
    hide MayHalt;
    TimerHaltsIff(w, steps, x);
  }

  /** So does the second: `launch` sets the timer last, so the whole exchange can finish first, and the timer
      then runs on a node in sync. */
  lemma EarlyAckIsPossible(w: World, x: Side) returns (steps: seq<Step>)
    requires Compatible(w)
    ensures Possible(w, START, steps)
    ensures var s := Run(w, START, steps); Get(s, x).syncActions == 1 && Get(s, x).timer == Armed && x in s.early && MayHalt(w, s, x)
  {
    var r;
    steps, r := AcceptedAt(w, x);
    AckHandled(w, Run(w, START, steps), x, r);
    var ready := Run(w, START, steps);
    assert Enabled(Do(w, ready, Handle(x, r)), SetTimer(x)) by { hide Do, Run; }
    hide Run, Possible, Do, Enabled, Get;
    steps := Extended(w, steps, Handle(x, r));
    TimerSet(w, Run(w, START, steps), x);
    steps := Extended(w, steps, SetTimer(x));
    hide MayHalt;
    TimerHaltsIff(w, steps, x);
  }

  /** And when the ACK is handled while the timer runs, the timer never halts the node. */
  lemma TimelyAckIsPossible(w: World, x: Side) returns (steps: seq<Step>)
    requires Compatible(w)
    ensures Possible(w, START, steps)
    ensures var s := Run(w, START, steps); Get(s, x).syncActions == 1 && !MayHalt(w, s, x)
  {
    var r;
    steps, r := AcceptedAt(w, x);
    hide Run, Possible, Do, Enabled, Get, MayHalt;
    TimerSet(w, Run(w, START, steps), x);
    steps := Extended(w, steps, SetTimer(x));
    AckHandled(w, Run(w, START, steps), x, r);
    steps := Extended(w, steps, Handle(x, r));
    TimerHaltsIff(w, steps, x);
  }
}
