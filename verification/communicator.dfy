/**
 * The communicator of custom_components/homecord/communicator.py: it holds at
 * most one websocket connection to the bot and pushes update messages over it.
 *
 * The network is modelled by its outcomes, which the caller passes in: whether
 * a connection attempt is accepted, whether a send goes through or fails with
 * a reset or with some other error, and whether the transport reports the
 * current connection as closed. Every action on the wire is recorded in a
 * trace, so that contracts can say what was sent and what was opened or closed.
 */
module Communication {
  import opened Wrappers
  import EntityManager

  const UPDATE: string := "update"

  /** The message pushed to the bot: `{"type": "update", "device_id": ..., "entities": ...}`. */
  datatype Payload = Payload(kind: string, deviceId: string, entities: seq<EntityManager.EntityRecord>)

  /** Outcome of `session.ws_connect`. */
  datatype ConnectOutcome = Accepted | Refused

  /** Outcome of `send_str`: delivered, `ConnectionResetError`, or any other exception. */
  datatype SendOutcome = Delivered | ConnectionReset | OtherError

  /**
   * What happens on the wire. A connection is named by the trace position of
   * its `Opened` event, so every connection has a name of its own.
   */
  datatype Event =
    | Opened(socket: nat, url: string)
    | ConnectFailed(url: string)
    | Closed(socket: nat)
    | Sent(socket: nat, payload: Payload)

  /** The communicator's state: the `ws_connection` field and the trace so far. */
  datatype Channel = Channel(ws: Option<nat>, trace: seq<Event>)

  /** The envelope of `send_to_discord`. */
  function UpdatePayload(deviceId: string, entities: seq<EntityManager.EntityRecord>): Payload
  {
    Payload(UPDATE, deviceId, entities)
  }

  /** The connections opened and not yet closed after the events of `trace`. */
  function Held(trace: seq<Event>): set<nat>
  {
    if trace == [] then {}
    else
      var before := Held(trace[..|trace| - 1]);
      var last := trace[|trace| - 1];
      if last.Opened? then before + {last.socket}
      else if last.Closed? then before - {last.socket}
      else before
  }

  lemma HeldAppend(trace: seq<Event>, e: Event)
    ensures e.Opened? ==> Held(trace + [e]) == Held(trace) + {e.socket}
    ensures e.Closed? ==> Held(trace + [e]) == Held(trace) - {e.socket}
    ensures !e.Opened? && !e.Closed? ==> Held(trace + [e]) == Held(trace)
  {
    assert (trace + [e])[..|trace|] == trace;
  }

  /** The connections held are exactly the current one: never more than one, none leaked. */
  predicate Consistent(c: Channel)
  {
    Held(c.trace) == if c.ws.Some? then {c.ws.value} else {}
  }

  /** The connection is usable: present and not reported closed by the transport. */
  predicate Usable(c: Channel, transportClosed: bool)
  {
    c.ws.Some? && !transportClosed
  }

  /** The events a step appended to the trace. */
  function NewEvents(before: Channel, after: Channel): seq<Event>
    requires |before.trace| <= |after.trace|
  {
    after.trace[|before.trace|..]
  }

  function CountSent(events: seq<Event>): nat
  {
    if events == [] then 0 else (if events[0].Sent? then 1 else 0) + CountSent(events[1..])
  }

  /** `establish_websocket_connection`: close the current connection if any, then try to open a new one. */
  function Establish(c: Channel, url: string, outcome: ConnectOutcome): Channel
  {
    var trace := if c.ws.Some? then c.trace + [Closed(c.ws.value)] else c.trace;
    match outcome
    case Accepted => Channel(Some(|trace|), trace + [Opened(|trace|, url)])
    case Refused => Channel(None, trace + [ConnectFailed(url)])
  }

  /** `send_data_via_websocket`: send, reconnect on a reset, swallow any other error. */
  function SendData(c: Channel, url: string, p: Payload, send: SendOutcome, connect: ConnectOutcome): Channel
  {
    if c.ws.None? then c  // the attribute error on `None` is caught by the generic handler
    else
      match send
      case Delivered => Channel(c.ws, c.trace + [Sent(c.ws.value, p)])
      case ConnectionReset => Establish(c, url, connect)
      case OtherError => c
  }

  /** `send_to_discord`: send when the connection is usable, otherwise only (re)connect. */
  function Send(c: Channel, url: string, deviceId: string, entities: seq<EntityManager.EntityRecord>,
                transportClosed: bool, send: SendOutcome, connect: ConnectOutcome): Channel
  {
    if Usable(c, transportClosed) then SendData(c, url, UpdatePayload(deviceId, entities), send, connect)
    else Establish(c, url, connect)
  }

  /** `close_websocket_connection`. */
  function CloseConnection(c: Channel): Channel
  {
    if c.ws.Some? then Channel(None, c.trace + [Closed(c.ws.value)]) else c
  }

  /** The connections held after connecting: the new one, or none. */
  lemma EstablishHeld(c: Channel, url: string, outcome: ConnectOutcome)
    requires Consistent(c)
    ensures Held(Establish(c, url, outcome).trace)
      == if outcome == Accepted then {|Establish(c, url, outcome).trace| - 1} else {}
  {
    var closed := if c.ws.Some? then c.trace + [Closed(c.ws.value)] else c.trace;
    if c.ws.Some? {
      HeldAppend(c.trace, Closed(c.ws.value));
      assert Held(closed) == {c.ws.value} - {c.ws.value};
    }
    assert Held(closed) == {};
    var e := if outcome == Accepted then Opened(|closed|, url) else ConnectFailed(url);
    assert Establish(c, url, outcome).trace == closed + [e];
    HeldAppend(closed, e);
  }

  /**
   * Connecting first closes the connection held, then holds the new one if
   * the attempt is accepted and none if it is refused: at most one
   * connection is ever held.
   */
  lemma EstablishSpec(c: Channel, url: string, outcome: ConnectOutcome)
    requires Consistent(c)
    ensures Consistent(Establish(c, url, outcome))
    ensures |Held(Establish(c, url, outcome).trace)| <= 1
    ensures Establish(c, url, outcome).trace[..|c.trace|] == c.trace
    ensures c.ws.Some? ==> Establish(c, url, outcome).trace[|c.trace|] == Closed(c.ws.value)
    ensures outcome == Refused ==>
      var d := Establish(c, url, outcome);
      d.ws == None && d.trace[|d.trace| - 1] == ConnectFailed(url)
    ensures outcome == Accepted ==>
      var d := Establish(c, url, outcome);
      d.ws == Some(|d.trace| - 1) && d.trace[|d.trace| - 1] == Opened(|d.trace| - 1, url)
  {
    var closed := if c.ws.Some? then c.trace + [Closed(c.ws.value)] else c.trace;
    var e := if outcome == Accepted then Opened(|closed|, url) else ConnectFailed(url);
    EstablishHeld(c, url, outcome);
    assert Establish(c, url, outcome).trace == closed + [e];
    assert (closed + [e])[..|c.trace|] == c.trace;
  }

  /** When the connection is usable and the send goes through, exactly that envelope goes out on it, once. */
  lemma SendDeliversOnce(c: Channel, url: string, deviceId: string, entities: seq<EntityManager.EntityRecord>,
                         connect: ConnectOutcome)
    requires Usable(c, false)
    ensures var d := Send(c, url, deviceId, entities, false, Delivered, connect);
      && d.ws == c.ws
      && |c.trace| <= |d.trace|
      && NewEvents(c, d) == [Sent(c.ws.value, Payload(UPDATE, deviceId, entities))]
      && CountSent(NewEvents(c, d)) == 1
  {
    var d := Send(c, url, deviceId, entities, false, Delivered, connect);
    assert NewEvents(c, d) == [Sent(c.ws.value, Payload(UPDATE, deviceId, entities))];
  }

  /**
   * Without a usable connection the payload is dropped: the call only
   * reconnects and nothing is sent.
   */
  lemma PayloadDroppedWhenUnusable(c: Channel, url: string, deviceId: string,
                                   entities: seq<EntityManager.EntityRecord>,
                                   transportClosed: bool, send: SendOutcome, connect: ConnectOutcome)
    requires !Usable(c, transportClosed)
    ensures var d := Send(c, url, deviceId, entities, transportClosed, send, connect);
      && d == Establish(c, url, connect)
      && |c.trace| <= |d.trace|
      && CountSent(NewEvents(c, d)) == 0
  {
    var d := Send(c, url, deviceId, entities, transportClosed, send, connect);
    var e := NewEvents(c, d);
    if c.ws.Some? {
      assert e[1..] == (if connect == Accepted then [Opened(|c.trace| + 1, url)] else [ConnectFailed(url)]);
      assert CountSent(e[1..]) == 0;
    } else {
      assert e == (if connect == Accepted then [Opened(|c.trace|, url)] else [ConnectFailed(url)]);
    }
  }

  /**
   * A reset during the send closes the connection and makes exactly one new
   * connection attempt; the payload is not sent again.
   */
  lemma ResetReconnectsWithoutResend(c: Channel, url: string, deviceId: string,
                                     entities: seq<EntityManager.EntityRecord>, connect: ConnectOutcome)
    requires Usable(c, false)
    ensures var d := Send(c, url, deviceId, entities, false, ConnectionReset, connect);
      && |c.trace| <= |d.trace|
      && NewEvents(c, d) == [Closed(c.ws.value),
                             if connect == Accepted then Opened(|c.trace| + 1, url) else ConnectFailed(url)]
      && CountSent(NewEvents(c, d)) == 0
  {
    var d := Send(c, url, deviceId, entities, false, ConnectionReset, connect);
    var e := NewEvents(c, d);
    assert e == [Closed(c.ws.value), if connect == Accepted then Opened(|c.trace| + 1, url) else ConnectFailed(url)];
    assert CountSent(e[1..]) == 0;
  }

  /** Any other send error is swallowed and leaves the connection and the trace as they were. */
  lemma OtherErrorLeavesChannel(c: Channel, url: string, deviceId: string,
                                entities: seq<EntityManager.EntityRecord>, connect: ConnectOutcome)
    requires Usable(c, false)
    ensures Send(c, url, deviceId, entities, false, OtherError, connect) == c
  {
  }

  /** Every send keeps the communicator consistent, and sends at most once. */
  lemma SendPreservesConsistency(c: Channel, url: string, deviceId: string,
                                 entities: seq<EntityManager.EntityRecord>,
                                 transportClosed: bool, send: SendOutcome, connect: ConnectOutcome)
    requires Consistent(c)
    ensures var d := Send(c, url, deviceId, entities, transportClosed, send, connect);
      && Consistent(d)
      && |c.trace| <= |d.trace|
      && d.trace[..|c.trace|] == c.trace
      && CountSent(NewEvents(c, d)) <= 1
  {
    var d := Send(c, url, deviceId, entities, transportClosed, send, connect);
    if !Usable(c, transportClosed) {
      EstablishSpec(c, url, connect);
      PayloadDroppedWhenUnusable(c, url, deviceId, entities, transportClosed, send, connect);
    } else {
      match send
      case Delivered =>
        HeldAppend(c.trace, Sent(c.ws.value, UpdatePayload(deviceId, entities)));
        SendDeliversOnce(c, url, deviceId, entities, connect);
      case ConnectionReset =>
        EstablishSpec(c, url, connect);
        ResetReconnectsWithoutResend(c, url, deviceId, entities, connect);
      case OtherError =>
        assert NewEvents(c, d) == [];
    }
  }

  /** Closing leaves no connection and none held; closing again changes nothing. */
  lemma CloseIdempotent(c: Channel)
    requires Consistent(c)
    ensures CloseConnection(c).ws == None
    ensures Consistent(CloseConnection(c)) && Held(CloseConnection(c).trace) == {}
    ensures CloseConnection(CloseConnection(c)) == CloseConnection(c)
    ensures c.ws == None ==> CloseConnection(c) == c
  {
    if c.ws.Some? {
      HeldAppend(c.trace, Closed(c.ws.value));
    }
  }

  /**
   * The communicator object. `ws` is the `ws_connection` field; `trace`
   * records the wire, which the source does not keep: a connection is
   * identified by the position of its `Opened` event in it.
   */
  class Communicator {
    const botUrl: string
    const wsUrl: string
    var ws: Option<nat>
    var trace: seq<Event>

    function State(): Channel
      reads this
    {
      Channel(ws, trace)
    }

    ghost predicate Valid()
      reads this
    {
      Consistent(State())
    }

    /** A new communicator has no connection and has done nothing on the wire. */
    constructor(botUrl: string, wsUrl: string)
      ensures Valid()
      ensures this.botUrl == botUrl && this.wsUrl == wsUrl
      ensures ws == None && trace == []
    {
      this.botUrl := botUrl;
      this.wsUrl := wsUrl;
      ws := None;
      trace := [];
    }

    method EstablishWebsocketConnection(connect: ConnectOutcome)
      requires Valid()
      modifies this
      ensures Valid()
      ensures State() == Establish(old(State()), wsUrl, connect)
    {
      EstablishSpec(State(), wsUrl, connect);
      if ws.Some? {
        trace := trace + [Closed(ws.value)];
      }
      match connect
      case Accepted =>
        ws := Some(|trace|);
        trace := trace + [Opened(|trace|, wsUrl)];
      case Refused =>
        trace := trace + [ConnectFailed(wsUrl)];
        ws := None;
    }

    method SendDataViaWebsocket(data: Payload, send: SendOutcome, connect: ConnectOutcome)
      requires Valid()
      modifies this
      ensures Valid()
      ensures State() == SendData(old(State()), wsUrl, data, send, connect)
    {
      if ws.None? {
        return;
      }
      match send
      case Delivered =>
        HeldAppend(trace, Sent(ws.value, data));
        trace := trace + [Sent(ws.value, data)];
      case ConnectionReset =>
        EstablishWebsocketConnection(connect);
      case OtherError =>
    }

    method SendToDiscord(deviceId: string, entities: seq<EntityManager.EntityRecord>,
                         transportClosed: bool, send: SendOutcome, connect: ConnectOutcome)
      requires Valid()
      modifies this
      ensures Valid()
      ensures State() == Send(old(State()), wsUrl, deviceId, entities,
                                    transportClosed, send, connect)
    {
      var dataPayload := Payload(UPDATE, deviceId, entities);
      if ws.Some? && !transportClosed {
        SendDataViaWebsocket(dataPayload, send, connect);
      } else {
        EstablishWebsocketConnection(connect);
      }
    }

    method CloseWebsocketConnection()
      requires Valid()
      modifies this
      ensures Valid()
      ensures State() == CloseConnection(old(State()))
    {
      CloseIdempotent(State());
      if ws.Some? {
        trace := trace + [Closed(ws.value)];
        ws := None;
      }
    }
  }
}
