/** The receive loop of a websocket handler, and the trace of what it calls. */
module WebsocketHandler {
  import opened Prelude

  const NORMAL_CLOSURE := 1000
  const UNSUPPORTED_DATA := 1003
  const INTERNAL_ERROR := 1011

  /** An exception: a WebSocketException, another Exception, or one that is not an Exception. */
  datatype Raised = WebSocketError(code: int) | OtherError(name: string) | Cancelled

  // ----- messages -----

  /** A value under a message key: the key may be missing, and the value may be None. */
  datatype Field<T> = Missing | NoneField | Given(value: T)

  datatype CodeValue = Integer(n: int) | NotANumber

  datatype Message = Message(kind: string, text: Field<string>, bytes: Field<seq<bv8>>, code: Option<CodeValue>)

  datatype Payload = TextData(Option<string>) | BytesData(Option<seq<bv8>>) | JsonData(int)

  datatype Encoding = AsText | AsBytes | AsJson | AsSent | Unsupported

  datatype JsonResult = Parsed(value: int) | Malformed | BreaksParser

  datatype Attempt<T> = Value(value: T) | Raises(exc: Raised)

  // ----- the handler's surroundings -----

  /** What resolving a message's parameters gives: all resolved, errors to report, or an exception. */
  datatype Resolution = Resolved | Invalid(sendFails: Option<Raised>) | ResolveRaises(exc: Raised)

  /** What `websocket.receive()` gives. */
  datatype Incoming = Arrives(message: Message) | ReceiveRaises(exc: Raised)

  /** Everything the loop calls, as functions of the turn it is called in. */
  datatype Surroundings = Surroundings(
    encoding: Encoding,
    decodeUtf8: seq<bv8> -> Option<string>,
    loadJson: string -> JsonResult,
    connectFails: Option<Raised>,
    resolve: (nat, Payload) -> Resolution,
    onReceive: (nat, Payload) -> Option<Raised>,
    hasOnDisconnect: bool,
    closeFails: Option<Raised>,
    onDisconnectFails: int -> Option<Raised>)

  datatype Action =
    | Connect
    | Receive(turn: nat, data: Payload)
    | SendErrors(turn: nat)
    | Close(code: int)
    | Disconnect(code: int)

  // ----- decoding -----

  function OrNone<T>(f: Field<T>): Option<T>
    requires !f.Missing?
  {
    if f.Given? then Some(f.value) else None
  }

  /** The text that JSON is read from. */
  function JsonText(s: Surroundings, m: Message): Attempt<string> {
    if m.text.Given? then Value(m.text.value)
    else match m.bytes
      case Missing => Raises(OtherError("KeyError"))
      case NoneField => Raises(OtherError("AttributeError"))
      case Given(b) =>
        match s.decodeUtf8(b)
        case None => Raises(OtherError("UnicodeDecodeError"))
        case Some(t) => Value(t)
  }

  function DecodeJson(s: Surroundings, m: Message): Attempt<Payload> {
    match JsonText(s, m)
    case Raises(e) => Raises(e)
    case Value(t) =>
      match s.loadJson(t)
      case Parsed(v) => Value(JsonData(v))
      case Malformed => Raises(WebSocketError(UNSUPPORTED_DATA))
      case BreaksParser => Raises(OtherError("RecursionError"))
  }

  /** `decode`, for each encoding. */
  function Decode(s: Surroundings, m: Message): Attempt<Payload> {
    match s.encoding
    case AsText => if m.text.Missing? then Raises(WebSocketError(UNSUPPORTED_DATA)) else Value(TextData(OrNone(m.text)))
    case AsBytes =>
      if m.bytes.Missing? then Raises(WebSocketError(UNSUPPORTED_DATA)) else Value(BytesData(OrNone(m.bytes)))
    case AsJson => DecodeJson(s, m)
    case AsSent =>
      if m.text.Given? && m.text.value != "" then Value(TextData(Some(m.text.value)))
      else if m.bytes.Missing? then Raises(OtherError("KeyError"))
      else Value(BytesData(OrNone(m.bytes)))
    case Unsupported => Raises(OtherError("AssertionError"))
  }

  // ----- one turn -----

  /** What one incoming message does to the connection, whatever came before it. */
  datatype Turn =
    | Ignored
    | Handled(data: Payload)
    | Left(code: int)
    | Failed(exc: Raised, actions: seq<Action>)

  function TurnOf(s: Surroundings, i: nat, incoming: Incoming): Turn {
    match incoming
    case ReceiveRaises(e) => Failed(e, [])
    case Arrives(m) =>
      if m.kind == "websocket.receive" then ReceiveTurn(s, i, m)
      else if m.kind == "websocket.disconnect" then DisconnectTurn(m)
      else Ignored
  }

  function ReceiveTurn(s: Surroundings, i: nat, m: Message): Turn {
    match Decode(s, m)
    case Raises(e) => Failed(e, [])
    case Value(data) =>
      match s.resolve(i, data)
      case ResolveRaises(e) => Failed(e, [])
      case Invalid(sendFails) =>
        Failed(sendFails.GetOr(OtherError("WebSocketRequestValidationError")), [SendErrors(i)])
      case Resolved =>
        match s.onReceive(i, data)
        case None => Handled(data)
        case Some(e) => Failed(e, [Receive(i, data)])
  }

  function DisconnectTurn(m: Message): Turn {
    match m.code
    case None => Left(NORMAL_CLOSURE)
    case Some(Integer(n)) => Left(n)
    case Some(NotANumber) => Failed(OtherError("ValueError"), [])
  }

  predicate Stops(turn: Turn) {
    turn.Left? || turn.Failed?
  }

  /** What the turn has the handler call before the connection is wound up. */
  function ActionsOf(i: nat, turn: Turn): seq<Action> {
    match turn
    case Ignored => []
    case Handled(data) => [Receive(i, data)]
    case Left(code) => []
    case Failed(e, actions) => actions
  }

  // ----- winding up -----

  /** The code that `on_disconnect` is given. */
  function CloseCode(turn: Turn): int
    requires Stops(turn)
  {
    match turn
    case Left(code) => code
    case Failed(e, actions) => if e.OtherError? then INTERNAL_ERROR else NORMAL_CLOSURE
  }

  function WindUp(s: Surroundings, turn: Turn): seq<Action>
    requires Stops(turn)
  {
    (if turn.Failed? && turn.exc.WebSocketError? then [Close(turn.exc.code)] else []) +
    (if s.hasOnDisconnect then [Disconnect(CloseCode(turn))] else [])
  }

  /** What comes out of the dispatch; an exception of `on_disconnect` hides any other. */
  function Outcome(s: Surroundings, turn: Turn): Option<Raised>
    requires Stops(turn)
  {
    var first :=
      match turn
      case Left(code) => None
      case Failed(e, actions) =>
        if e.WebSocketError? then Some(s.closeFails.GetOr(OtherError("RuntimeError"))) else Some(e);
    if s.hasOnDisconnect && s.onDisconnectFails(CloseCode(turn)).Some? then s.onDisconnectFails(CloseCode(turn))
    else first
  }

  // ----- whole dispatches -----

  /** The first turn that stops, if any does. */
  function FirstStop(s: Surroundings, incoming: seq<Incoming>, i: nat): (stop: Option<nat>)
    requires i <= |incoming|
    ensures stop.Some? ==> i <= stop.value < |incoming| && Stops(TurnOf(s, stop.value, incoming[stop.value]))
    ensures forall k :: i <= k < (if stop.Some? then stop.value else |incoming|) ==> !Stops(TurnOf(s, k, incoming[k]))
    decreases |incoming| - i
  {
    if i == |incoming| then None
    else if Stops(TurnOf(s, i, incoming[i])) then Some(i)
    else FirstStop(s, incoming, i + 1)
  }

  /** The actions of every turn, as if none stopped. */
  function ActionsPerTurn(s: Surroundings, incoming: seq<Incoming>): (parts: seq<seq<Action>>)
    ensures |parts| == |incoming|
    ensures forall i :: 0 <= i < |incoming| ==> parts[i] == ActionsOf(i, TurnOf(s, i, incoming[i]))
  {
    seq(|incoming|, i requires 0 <= i < |incoming| => ActionsOf(i, TurnOf(s, i, incoming[i])))
  }

  function Flat(parts: seq<seq<Action>>, n: nat): seq<Action>
    requires n <= |parts|
  {
    if n == 0 then [] else Flat(parts, n - 1) + parts[n - 1]
  }

  function TurnsTrace(s: Surroundings, incoming: seq<Incoming>, n: nat): seq<Action>
    requires n <= |incoming|
  {
    Flat(ActionsPerTurn(s, incoming), n)
  }

  /** The trace of a dispatch: connect, the turns up to the first stop, and the winding up. */
  function Trace(s: Surroundings, incoming: seq<Incoming>): seq<Action> {
    if s.connectFails.Some? then [Connect]
    else match FirstStop(s, incoming, 0)
      case None => [Connect] + TurnsTrace(s, incoming, |incoming|)
      case Some(k) => [Connect] + TurnsTrace(s, incoming, k + 1) + WindUp(s, TurnOf(s, k, incoming[k]))
  }

  datatype Ending = StillOpen | Ended(raised: Option<Raised>)

  function EndingOf(s: Surroundings, incoming: seq<Incoming>): Ending {
    if s.connectFails.Some? then Ended(s.connectFails)
    else match FirstStop(s, incoming, 0)
      case None => StillOpen
      case Some(k) => Ended(Outcome(s, TurnOf(s, k, incoming[k])))
  }

  // ----- the code -----

  class WebSocketExtraHandler {
    const surroundings: Surroundings
    var trace: seq<Action>

    constructor (surroundings: Surroundings)
      ensures this.surroundings == surroundings && trace == []
    {
      this.surroundings, trace := surroundings, [];
    }

    method ExecuteOnConnect() returns (exc: Option<Raised>)
      modifies this
      ensures trace == old(trace) + [Connect] && exc == surroundings.connectFails
    {
      trace := trace + [Connect];
      exc := surroundings.connectFails;
    }

    method DecodeMessage(m: Message) returns (data: Option<Payload>, exc: Option<Raised>)
      ensures match Decode(surroundings, m)
              case Value(d) => data == Some(d) && exc == None
              case Raises(e) => exc == Some(e)
    {
      data, exc := None, None;
      match surroundings.encoding {
        case AsText =>
          if m.text.Missing? {
            exc := Some(WebSocketError(UNSUPPORTED_DATA));
          } else {
            data := Some(TextData(OrNone(m.text)));
          }
        case AsBytes =>
          if m.bytes.Missing? {
            exc := Some(WebSocketError(UNSUPPORTED_DATA));
          } else {
            data := Some(BytesData(OrNone(m.bytes)));
          }
        case AsJson =>
          var text := JsonText(surroundings, m);
          if text.Raises? {
            exc := Some(text.exc);
          } else {
            var loaded := surroundings.loadJson(text.value);
            if loaded.Parsed? {
              data := Some(JsonData(loaded.value));
            } else {
              exc := Some(if loaded.Malformed? then WebSocketError(UNSUPPORTED_DATA) else OtherError("RecursionError"));
            }
          }
        case AsSent =>
          if m.text.Given? && m.text.value != "" {
            data := Some(TextData(Some(m.text.value)));
          } else if m.bytes.Missing? {
            exc := Some(OtherError("KeyError"));
          } else {
            data := Some(BytesData(OrNone(m.bytes)));
          }
        case Unsupported => exc := Some(OtherError("AssertionError"));
      }
    }

    method ExecuteOnReceive(i: nat, data: Payload) returns (exc: Option<Raised>)
      modifies this
      ensures match surroundings.resolve(i, data)
              case ResolveRaises(e) => exc == Some(e) && trace == old(trace)
              case Invalid(sendFails) =>
                exc == Some(sendFails.GetOr(OtherError("WebSocketRequestValidationError"))) &&
                trace == old(trace) + [SendErrors(i)]
              case Resolved => exc == surroundings.onReceive(i, data) && trace == old(trace) + [Receive(i, data)]
    {
      var resolution := surroundings.resolve(i, data);
      if resolution.ResolveRaises? {
        return Some(resolution.exc);
      }
      if resolution.Invalid? {
        trace := trace + [SendErrors(i)];
        return Some(resolution.sendFails.GetOr(OtherError("WebSocketRequestValidationError")));
      }
      trace := trace + [Receive(i, data)];
      exc := surroundings.onReceive(i, data);
    }

    method ExecuteOnDisconnect(code: int) returns (exc: Option<Raised>)
      modifies this
      ensures trace == old(trace) + if surroundings.hasOnDisconnect then [Disconnect(code)] else []
      ensures exc == if surroundings.hasOnDisconnect then surroundings.onDisconnectFails(code) else None
    {
      exc := None;
      if surroundings.hasOnDisconnect {
        trace := trace + [Disconnect(code)];
        exc := surroundings.onDisconnectFails(code);
      }
    }

    /** One pass of the loop: whether it is left, the code if so, and the exception raised, if any. */
    method LoopBody(i: nat, incoming: Incoming, closeCode: int) returns (left: bool, code: int, exc: Option<Raised>)
      modifies this
      ensures var turn := TurnOf(surroundings, i, incoming);
              && trace == old(trace) + ActionsOf(i, turn)
              && (left <==> turn.Left?)
              && code == (if turn.Left? then turn.code else closeCode)
              && exc == (if turn.Failed? then Some(turn.exc) else None)
    {
      left, code, exc := false, closeCode, None;
      if incoming.ReceiveRaises? {
        exc := Some(incoming.exc);
        return;
      }
      var m := incoming.message;
      if m.kind == "websocket.receive" {
        var data;
        data, exc := DecodeMessage(m);
        if exc.None? {
          exc := ExecuteOnReceive(i, data.value);
        }
      } else if m.kind == "websocket.disconnect" {
        if m.code.Some? && m.code.value.NotANumber? {
          exc := Some(OtherError("ValueError"));
        } else {
          left, code := true, if m.code.Some? then m.code.value.n else NORMAL_CLOSURE;
        }
      }
    }

    /** The loop: the turns up to the first that stops, or up to the last message. */
    method ReceiveLoop(incoming: seq<Incoming>) returns (left: bool, closeCode: int, exc: Option<Raised>)
      modifies this
      ensures match FirstStop(surroundings, incoming, 0)
              case None =>
                !left && exc == None && closeCode == NORMAL_CLOSURE &&
                trace == old(trace) + TurnsTrace(surroundings, incoming, |incoming|)
              case Some(k) =>
                LoopEnds(TurnOf(surroundings, k, incoming[k]), left, closeCode, exc) &&
                trace == old(trace) + TurnsTrace(surroundings, incoming, k + 1)
    {
      left, closeCode, exc := false, NORMAL_CLOSURE, None;
      var i := 0;
      while i < |incoming| && !left && exc.None?
        invariant 0 <= i <= |incoming|
        invariant Reached(surroundings, incoming, i, left, closeCode, exc)
        invariant trace == old(trace) + TurnsTrace(surroundings, incoming, i)
      {
        ghost var before := trace;
        left, closeCode, exc := LoopBody(i, incoming[i], closeCode);
        OneTurn(surroundings, incoming, i, left, closeCode, exc, old(trace), before, trace);
        i := i + 1;
      }
    }

    /** The exception clauses and the final step. */
    method Finish(caught: Option<Raised>, code: int, ghost turn: Turn) returns (raised: Option<Raised>)
      requires LoopEnds(turn, turn.Left?, code, caught) && Stops(turn)
      modifies this
      ensures trace == old(trace) + WindUp(surroundings, turn) && raised == Outcome(surroundings, turn)
    {
      var exc, closeCode := caught, code;
      if exc.Some? && exc.value.WebSocketError? {
        trace := trace + [Close(exc.value.code)];
        exc := Some(surroundings.closeFails.GetOr(OtherError("RuntimeError")));
      } else if exc.Some? && exc.value.OtherError? {
        closeCode := INTERNAL_ERROR;
      }
      var last := ExecuteOnDisconnect(closeCode);
      raised := if last.Some? then last else exc;
    }

    /** `dispatch`, over the messages that arrive; it is still open when they run out. */
    method Dispatch(incoming: seq<Incoming>) returns (ending: Ending)
      requires trace == []
      modifies this
      ensures trace == Trace(surroundings, incoming) && ending == EndingOf(surroundings, incoming)
    {
      var exc := ExecuteOnConnect();
      if exc.Some? {
        return Ended(exc);
      }
      var left, closeCode;
      left, closeCode, exc := ReceiveLoop(incoming);
      if !left && exc.None? {
        return StillOpen;
      }
      ghost var stop := FirstStop(surroundings, incoming, 0).value;
      var raised := Finish(exc, closeCode, TurnOf(surroundings, stop, incoming[stop]));
      ending := Ended(raised);
    }
  }

  /** How the loop's variables tell how it ended. */
  ghost predicate LoopEnds(turn: Turn, left: bool, closeCode: int, exc: Option<Raised>) {
    && (left <==> turn.Left?)
    && closeCode == (if turn.Left? then turn.code else NORMAL_CLOSURE)
    && exc == (if turn.Failed? then Some(turn.exc) else None)
  }

  /** The loop's variables after `i` turns: still going, or stopped by the last of them. */
  ghost predicate Reached(
    s: Surroundings, incoming: seq<Incoming>, i: nat, left: bool, closeCode: int, exc: Option<Raised>)
    requires i <= |incoming|
  {
    if !left && exc.None? then closeCode == NORMAL_CLOSURE && FirstStop(s, incoming, 0) == FirstStop(s, incoming, i)
    else
      && i > 0 && FirstStop(s, incoming, 0) == Some(i - 1)
      && LoopEnds(TurnOf(s, i - 1, incoming[i - 1]), left, closeCode, exc)
  }

  /** One more turn: the variables stay in step and the trace gains what the turn does. */
  lemma OneTurn(
    s: Surroundings, incoming: seq<Incoming>, i: nat, left: bool, closeCode: int, exc: Option<Raised>,
    start: seq<Action>, before: seq<Action>, after: seq<Action>)
    requires i < |incoming| && Reached(s, incoming, i, false, NORMAL_CLOSURE, None)
    requires LoopEnds(TurnOf(s, i, incoming[i]), left, closeCode, exc)
    requires before == start + TurnsTrace(s, incoming, i)
    requires after == before + ActionsOf(i, TurnOf(s, i, incoming[i]))
    ensures Reached(s, incoming, i + 1, left, closeCode, exc)
    ensures after == start + TurnsTrace(s, incoming, i + 1)
  {
    var actions := ActionsOf(i, TurnOf(s, i, incoming[i]));
    assert TurnsTrace(s, incoming, i + 1) == TurnsTrace(s, incoming, i) + actions;
    Regroup(start, TurnsTrace(s, incoming, i), actions);
  }

  lemma Regroup(a: seq<Action>, b: seq<Action>, c: seq<Action>)
    ensures a + b + c == a + (b + c)
  {
  }

  // ----- what the traces say -----

  ghost predicate Winds(a: Action) {
    a.Disconnect? || a.Close?
  }

  lemma InJoin(a: seq<Action>, b: seq<Action>, x: Action)
    ensures x in a + b <==> x in a || x in b
  {
  }

  lemma {:induction false} InFlat(parts: seq<seq<Action>>, n: nat, x: Action)
    requires n <= |parts|
    ensures x in Flat(parts, n) <==> exists i :: 0 <= i < n && x in parts[i]
    decreases n
  {
    if n > 0 {
      InFlat(parts, n - 1, x);
      InJoin(Flat(parts, n - 1), parts[n - 1], x);
    }
  }

  lemma TurnNeverWindsUp(s: Surroundings, i: nat, incoming: Incoming, a: Action)
    requires a in ActionsOf(i, TurnOf(s, i, incoming))
    ensures !Winds(a) && a != Connect
  {
  }

  lemma TurnsNeverWindUp(s: Surroundings, incoming: seq<Incoming>, n: nat)
    requires n <= |incoming|
    ensures forall a :: a in TurnsTrace(s, incoming, n) ==> !Winds(a) && a != Connect
  {
    var parts := ActionsPerTurn(s, incoming);
    forall a | a in TurnsTrace(s, incoming, n)
      ensures !Winds(a) && a != Connect
    {
      InFlat(parts, n, a);
      var i :| 0 <= i < n && a in parts[i];
      TurnNeverWindsUp(s, i, incoming[i], a);
    }
  }

  /**
   Once the connect step has returned, a dispatch that ends calls `on_disconnect`
   exactly once and last, and one that is still open has not called it.
   */
  lemma DisconnectIsOnceAndLast(s: Surroundings, incoming: seq<Incoming>)
    requires s.connectFails.None? && s.hasOnDisconnect
    ensures var trace := Trace(s, incoming);
            if EndingOf(s, incoming) == StillOpen then forall a :: a in trace ==> !a.Disconnect?
            else
              && trace[|trace| - 1].Disconnect?
              && forall k :: 0 <= k < |trace| - 1 ==> !trace[k].Disconnect?
  {
    var trace := Trace(s, incoming);
    match FirstStop(s, incoming, 0)
    case None => TurnsNeverWindUp(s, incoming, |incoming|);
    case Some(k) =>
      TurnsNeverWindUp(s, incoming, k + 1);
      var turns := [Connect] + TurnsTrace(s, incoming, k + 1);
      forall p | 0 <= p < |trace| - 1
        ensures !trace[p].Disconnect?
      {
        if p < |turns| {
          assert trace[p] == turns[p] && turns[p] in turns;
        }
      }
  }

  /**
   The code given, in terms of the first turn that stops; the socket is closed only for a WebSocketException,
   with its code.
   */
  lemma DisconnectCodes(s: Surroundings, incoming: seq<Incoming>, k: nat)
    requires s.connectFails.None? && s.hasOnDisconnect && FirstStop(s, incoming, 0) == Some(k)
    ensures var trace, turn := Trace(s, incoming), TurnOf(s, k, incoming[k]);
            && (forall code :: Disconnect(code) in trace <==>
                  code == if turn.Left? then turn.code
                          else if turn.exc.OtherError? then INTERNAL_ERROR else NORMAL_CLOSURE)
            && (forall code :: Close(code) in trace <==> turn.Failed? && turn.exc == WebSocketError(code))
  {
    TurnsNeverWindUp(s, incoming, k + 1);
    var turn := TurnOf(s, k, incoming[k]);
    var turns, wound := [Connect] + TurnsTrace(s, incoming, k + 1), WindUp(s, turn);
    assert Trace(s, incoming) == turns + wound;
    forall a: Action | Winds(a)
      ensures a in Trace(s, incoming) <==> a in wound
    {
    }
    if turn.Failed? && turn.exc.WebSocketError? {
      assert wound == [Close(turn.exc.code), Disconnect(NORMAL_CLOSURE)];
    } else {
      assert wound == [Disconnect(CloseCode(turn))];
    }
  }

  /** A receivable, decodable message whose parameters resolve. */
  ghost predicate Deliverable(s: Surroundings, i: nat, incoming: Incoming, data: Payload) {
    && incoming.Arrives? && incoming.message.kind == "websocket.receive"
    && Decode(s, incoming.message) == Value(data) && s.resolve(i, data) == Resolved
  }

  lemma TurnReceivesIffDeliverable(s: Surroundings, i: nat, incoming: Incoming, j: nat, data: Payload)
    ensures Receive(j, data) in ActionsOf(i, TurnOf(s, i, incoming)) <==> j == i && Deliverable(s, i, incoming, data)
  {
  }

  lemma TurnsReceiveIffDeliverable(s: Surroundings, incoming: seq<Incoming>, n: nat, i: nat, data: Payload)
    requires n <= |incoming|
    ensures Receive(i, data) in TurnsTrace(s, incoming, n) <==> i < n && Deliverable(s, i, incoming[i], data)
  {
    var parts := ActionsPerTurn(s, incoming);
    InFlat(parts, n, Receive(i, data));
    forall j | 0 <= j < n
      ensures Receive(i, data) in parts[j] <==> i == j && Deliverable(s, j, incoming[j], data)
    {
      TurnReceivesIffDeliverable(s, j, incoming[j], i, data);
    }
  }

  /** How many turns there are: up to the first that stops, or all. */
  function Turns(s: Surroundings, incoming: seq<Incoming>): (n: nat)
    ensures n <= |incoming|
  {
    match FirstStop(s, incoming, 0)
    case None => |incoming|
    case Some(k) => k + 1
  }

  lemma ReceivesAreInTheTurns(s: Surroundings, incoming: seq<Incoming>, i: nat, data: Payload)
    requires s.connectFails.None?
    ensures Receive(i, data) in Trace(s, incoming) <==> Receive(i, data) in TurnsTrace(s, incoming, Turns(s, incoming))
  {
    var turns := TurnsTrace(s, incoming, Turns(s, incoming));
    InJoin([Connect], turns, Receive(i, data));
    if FirstStop(s, incoming, 0).Some? {
      var k := FirstStop(s, incoming, 0).value;
      InJoin([Connect] + turns, WindUp(s, TurnOf(s, k, incoming[k])), Receive(i, data));
    }
  }

  /** `on_receive` runs for exactly the decodable, valid messages up to the first turn that stops. */
  lemma ReceivesExactlyTheDeliverable(s: Surroundings, incoming: seq<Incoming>, i: nat, data: Payload)
    requires s.connectFails.None?
    ensures Receive(i, data) in Trace(s, incoming) <==>
            i < |incoming| && Deliverable(s, i, incoming[i], data) &&
            forall k :: 0 <= k < i ==> !Stops(TurnOf(s, k, incoming[k]))
  {
    ReceivesAreInTheTurns(s, incoming, i, data);
    TurnsReceiveIffDeliverable(s, incoming, Turns(s, incoming), i, data);
  }

  /** The messages are received in the order of arrival, each once. */
  ghost predicate InOrder(actions: seq<Action>) {
    forall p, q :: 0 <= p < q < |actions| && actions[p].Receive? && actions[q].Receive? ==>
      actions[p].turn < actions[q].turn
  }

  ghost predicate TurnsBelow(actions: seq<Action>, n: nat) {
    forall p :: 0 <= p < |actions| && actions[p].Receive? ==> actions[p].turn < n
  }

  ghost predicate AtMostOneOf(actions: seq<Action>, turn: nat) {
    |actions| <= 1 && forall p :: 0 <= p < |actions| && actions[p].Receive? ==> actions[p].turn == turn
  }

  lemma OneReceivePerTurn(s: Surroundings, i: nat, incoming: Incoming)
    ensures AtMostOneOf(ActionsOf(i, TurnOf(s, i, incoming)), i)
  {
  }

  lemma JoinInOrder(a: seq<Action>, b: seq<Action>, n: nat)
    requires InOrder(a) && TurnsBelow(a, n) && AtMostOneOf(b, n)
    ensures InOrder(a + b) && TurnsBelow(a + b, n + 1)
  {
  }

  lemma {:induction false} FlatInOrder(parts: seq<seq<Action>>, n: nat)
    requires n <= |parts|
    requires forall i :: 0 <= i < n ==> AtMostOneOf(parts[i], i)
    ensures InOrder(Flat(parts, n)) && TurnsBelow(Flat(parts, n), n)
    decreases n
  {
    if n > 0 {
      FlatInOrder(parts, n - 1);
      JoinInOrder(Flat(parts, n - 1), parts[n - 1], n - 1);
    }
  }

  lemma TurnsInOrder(s: Surroundings, incoming: seq<Incoming>, n: nat)
    requires n <= |incoming|
    ensures InOrder(TurnsTrace(s, incoming, n))
  {
    var parts := ActionsPerTurn(s, incoming);
    forall i | 0 <= i < n
      ensures AtMostOneOf(parts[i], i)
    {
      OneReceivePerTurn(s, i, incoming[i]);
    }
    FlatInOrder(parts, n);
  }

  lemma InOrderBetween(turns: seq<Action>, wound: seq<Action>)
    requires InOrder(turns) && forall p :: 0 <= p < |wound| ==> !wound[p].Receive?
    ensures InOrder([Connect] + turns + wound)
  {
  }

  lemma ReceivesInOrder(s: Surroundings, incoming: seq<Incoming>)
    ensures InOrder(Trace(s, incoming))
  {
    if s.connectFails.None? {
      match FirstStop(s, incoming, 0)
      case None =>
        TurnsInOrder(s, incoming, |incoming|);
        InOrderBetween(TurnsTrace(s, incoming, |incoming|), []);
        assert Trace(s, incoming) == [Connect] + TurnsTrace(s, incoming, |incoming|) + [];
      case Some(k) =>
        TurnsInOrder(s, incoming, k + 1);
        InOrderBetween(TurnsTrace(s, incoming, k + 1), WindUp(s, TurnOf(s, k, incoming[k])));
    }
  }

  /** The socket is closed as unsupported data exactly for a missing text or bytes key, or malformed JSON. */
  lemma DecodeClosesOnlyUnsupportedData(s: Surroundings, m: Message, code: int)
    ensures Decode(s, m) == Raises(WebSocketError(code)) <==>
            code == UNSUPPORTED_DATA &&
            ((s.encoding == AsText && m.text.Missing?) || (s.encoding == AsBytes && m.bytes.Missing?) ||
             (s.encoding == AsJson && JsonText(s, m).Value? && s.loadJson(JsonText(s, m).value).Malformed?))
  {
  }

  // ----- what comes in and what goes out, case by case -----

  /** Under each encoding, the payload is what the message carries. */
  lemma PayloadsAreWhatWasSent(s: Surroundings, m: Message, t: string, b: seq<bv8>, v: int)
    ensures s.encoding == AsText && m.text == Given(t) ==> Decode(s, m) == Value(TextData(Some(t)))
    ensures s.encoding == AsText && m.text == NoneField ==> Decode(s, m) == Value(TextData(None))
    ensures s.encoding == AsBytes && m.bytes == Given(b) ==> Decode(s, m) == Value(BytesData(Some(b)))
    ensures s.encoding == AsBytes && m.bytes == NoneField ==> Decode(s, m) == Value(BytesData(None))
    ensures s.encoding == AsJson && m.text == Given(t) && s.loadJson(t) == Parsed(v) ==>
              Decode(s, m) == Value(JsonData(v))
    ensures s.encoding == AsJson && !m.text.Given? && m.bytes == Given(b) && s.decodeUtf8(b) == Some(t) &&
            s.loadJson(t) == Parsed(v) ==>
              Decode(s, m) == Value(JsonData(v))
    ensures s.encoding == AsSent && m.text == Given(t) && t != "" ==> Decode(s, m) == Value(TextData(Some(t)))
    ensures s.encoding == AsSent && (!m.text.Given? || m.text.value == "") && m.bytes == Given(b) ==>
              Decode(s, m) == Value(BytesData(Some(b)))
    ensures s.encoding == AsSent && (!m.text.Given? || m.text.value == "") && m.bytes == NoneField ==>
              Decode(s, m) == Value(BytesData(None))
  {
  }

  /** Which exception it is when a message does not decode. */
  lemma DecodingFailures(s: Surroundings, m: Message, b: seq<bv8>, t: string)
    ensures s.encoding == AsText && m.text.Missing? ==> Decode(s, m) == Raises(WebSocketError(1003))
    ensures s.encoding == AsBytes && m.bytes.Missing? ==> Decode(s, m) == Raises(WebSocketError(1003))
    ensures s.encoding == AsJson && m.text == Given(t) && s.loadJson(t) == Malformed ==>
              Decode(s, m) == Raises(WebSocketError(1003))
    ensures s.encoding == AsJson && m.text == Given(t) && s.loadJson(t) == BreaksParser ==>
              Decode(s, m) == Raises(OtherError("RecursionError"))
    ensures s.encoding == AsJson && !m.text.Given? && m.bytes.Missing? ==>
              Decode(s, m) == Raises(OtherError("KeyError"))
    ensures s.encoding == AsJson && !m.text.Given? && m.bytes.NoneField? ==>
              Decode(s, m) == Raises(OtherError("AttributeError"))
    ensures s.encoding == AsJson && !m.text.Given? && m.bytes == Given(b) && s.decodeUtf8(b).None? ==>
              Decode(s, m) == Raises(OtherError("UnicodeDecodeError"))
    ensures s.encoding == AsSent && (!m.text.Given? || m.text.value == "") && m.bytes.Missing? ==>
              Decode(s, m) == Raises(OtherError("KeyError"))
    ensures s.encoding == Unsupported ==> Decode(s, m) == Raises(OtherError("AssertionError"))
  {
  }

  /** Nothing stops before the `k`-th message, and that one has arrived. */
  ghost predicate ReachesMessage(s: Surroundings, incoming: seq<Incoming>, k: nat, m: Message) {
    && s.connectFails.None? && k < |incoming| && incoming[k] == Arrives(m)
    && forall i :: 0 <= i < k ==> !Stops(TurnOf(s, i, incoming[i]))
  }

  lemma StopsFirst(s: Surroundings, incoming: seq<Incoming>, k: nat)
    requires k < |incoming| && Stops(TurnOf(s, k, incoming[k]))
    requires forall i :: 0 <= i < k ==> !Stops(TurnOf(s, i, incoming[i]))
    ensures FirstStop(s, incoming, 0) == Some(k)
  {
  }

  /** When the client disconnects the connection ends without an exception, and its code, or 1000, is passed on. */
  lemma ClientDisconnects(s: Surroundings, incoming: seq<Incoming>, k: nat, m: Message)
    requires ReachesMessage(s, incoming, k, m) && m.kind == "websocket.disconnect"
    requires m.code.None? || m.code.value.Integer?
    ensures var code := if m.code.None? then 1000 else m.code.value.n;
            && (s.hasOnDisconnect ==> Disconnect(code) in Trace(s, incoming))
            && (s.hasOnDisconnect ==> EndingOf(s, incoming) == Ended(s.onDisconnectFails(code)))
            && (!s.hasOnDisconnect ==> EndingOf(s, incoming) == Ended(None))
  {
    StopsFirst(s, incoming, k);
    if s.hasOnDisconnect {
      DisconnectCodes(s, incoming, k);
    }
  }

  /** Other kinds of messages are passed over, and an open connection has not ended. */
  lemma OtherMessagesAreIgnored(s: Surroundings, incoming: seq<Incoming>, i: nat, m: Message)
    requires m.kind != "websocket.receive" && m.kind != "websocket.disconnect"
    ensures !Stops(TurnOf(s, i, Arrives(m))) && ActionsOf(i, TurnOf(s, i, Arrives(m))) == []
    ensures s.connectFails.None? && (forall k :: 0 <= k < |incoming| ==> !Stops(TurnOf(s, k, incoming[k]))) ==>
              EndingOf(s, incoming) == StillOpen
    ensures s.connectFails.Some? ==> EndingOf(s, incoming) == Ended(s.connectFails) && Trace(s, incoming) == [Connect]
  {
  }

  /** The exception that a received message ends in, if it does. */
  ghost predicate FailsWith(s: Surroundings, i: nat, m: Message, e: Raised) {
    match Decode(s, m)
    case Raises(r) => r == e
    case Value(data) =>
      match s.resolve(i, data)
      case ResolveRaises(r) => r == e
      case Invalid(sendFails) =>
        if sendFails.Some? then e == sendFails.value else e == OtherError("WebSocketRequestValidationError")
      case Resolved => s.onReceive(i, data) == Some(e)
  }

  /**
   A message that fails ends the connection.  A WebSocketException closes the socket with its code, is replaced
   by what closing raises, or else by a RuntimeError, and counts as a normal closure; any other Exception
   comes out as it is and counts as an internal error; a cancellation comes out and counts as normal.  What
   `on_disconnect` raises comes out instead of any of these.
   */
  lemma FailedMessagesEndTheConnection(s: Surroundings, incoming: seq<Incoming>, k: nat, m: Message, e: Raised)
    requires ReachesMessage(s, incoming, k, m) && m.kind == "websocket.receive" && FailsWith(s, k, m, e)
    ensures var code := if e.OtherError? then 1011 else 1000;
            var closing := if s.closeFails.Some? then s.closeFails.value else OtherError("RuntimeError");
            var out := if e.WebSocketError? then closing else e;
            && (s.hasOnDisconnect ==> Disconnect(code) in Trace(s, incoming))
            && (s.hasOnDisconnect && e.WebSocketError? ==> Close(e.code) in Trace(s, incoming))
            && EndingOf(s, incoming) ==
               Ended(
                 if s.hasOnDisconnect && s.onDisconnectFails(code).Some? then s.onDisconnectFails(code)
                 else Some(out))
  {
    StopsFirst(s, incoming, k);
    if s.hasOnDisconnect {
      DisconnectCodes(s, incoming, k);
    }
  }

  /** A failure to receive ends the connection in the same way, and so does a code that is no number. */
  lemma OtherFailuresEndTheConnection(s: Surroundings, incoming: seq<Incoming>, k: nat, e: Raised, m: Message)
    requires s.connectFails.None? && k < |incoming| && forall i :: 0 <= i < k ==> !Stops(TurnOf(s, i, incoming[i]))
    requires || incoming[k] == ReceiveRaises(e)
             || (incoming[k] == Arrives(m) && m.kind == "websocket.disconnect" && m.code == Some(NotANumber)
                 && e == OtherError("ValueError"))
    ensures e.OtherError? && !s.hasOnDisconnect ==> EndingOf(s, incoming) == Ended(Some(e))
    ensures e.OtherError? && s.hasOnDisconnect ==>
              Disconnect(1011) in Trace(s, incoming) &&
              EndingOf(s, incoming) ==
              Ended(if s.onDisconnectFails(1011).Some? then s.onDisconnectFails(1011) else Some(e))
  {
    StopsFirst(s, incoming, k);
    if s.hasOnDisconnect {
      DisconnectCodes(s, incoming, k);
    }
  }

  /** Without the hook nothing is called at the end. */
  lemma NoHookIsCalledWithoutOne(s: Surroundings, incoming: seq<Incoming>)
    requires !s.hasOnDisconnect
    ensures forall a :: a in Trace(s, incoming) ==> !a.Disconnect?
  {
    if s.connectFails.None? {
      match FirstStop(s, incoming, 0)
      case None => TurnsNeverWindUp(s, incoming, |incoming|);
      case Some(k) => TurnsNeverWindUp(s, incoming, k + 1);
    }
  }

  /** Validation errors are sent for a message, by its own turn, exactly when its parameters do not validate. */
  lemma TurnSendsErrorsIff(s: Surroundings, i: nat, incoming: Incoming, j: nat)
    ensures SendErrors(j) in ActionsOf(i, TurnOf(s, i, incoming)) <==>
            j == i && incoming.Arrives? && incoming.message.kind == "websocket.receive" &&
            Decode(s, incoming.message).Value? && s.resolve(i, Decode(s, incoming.message).value).Invalid?
  {
  }
}
