/**
 * Nexport.SteamSockets/SDRServer.cs: the relay server. It keeps the roster of
 * connected clients (identifier to connection), sends and broadcasts,
 * gates incoming connections, routes each inbound message to verification,
 * delivery or a close, and reacts to the client manager's connect and
 * remove events by updating the roster and broadcasting a roster snapshot.
 *
 * Everything the server does to the outside world is appended to a log of
 * effects. The client manager is not part of this model: its answers
 * (waiting, present, the connection linked to an identifier, the identifier
 * linked to a connection) are parameters, and its callbacks are methods the
 * manager calls (ClientConnected, ClientRemoved, OnVerificationResult).
 * Dictionary enumeration order is unspecified, so every method that walks the
 * roster returns the order it used.
 */
module SteamServer {
  import opened Wrappers
  import opened Transport
  import Msg
  import SteamIdentifiers
  import BuiltinMessages

  type SendType = SteamIdentifiers.SendType
  type ServerClientChange = BuiltinMessages.ServerClientChange

  /** A relay connection, identified by its 32-bit id. */
  datatype Connection = Connection(id: SteamIdentifiers.uint32)

  /** One thing the server did: a call into the relay or the client manager, or an event it raised. */
  datatype Effect<V> =
    | RelaySocketCreated
    | RelaySocketClosed
    | Accepted(connection: Connection)
    | Closed(connection: Connection)
    | Sent(connection: Connection, message: Bytes, sendType: SendType)
    | ClientAdded(identifier: ClientIdentifier, connection: Connection)
    | VerificationRequested(connection: Connection, meta: Msg.MsgMeta<V>)
    | DisconnectReported(connection: Connection)
    | ConnectRaised(identifier: ClientIdentifier)
    | DisconnectRaised(identifier: ClientIdentifier)
    | MessageRaised(identifier: ClientIdentifier, meta: Msg.MsgMeta<V>, channel: MessageChannel)

  /** order lists every element of keys exactly once. */
  ghost predicate Enumerates(order: seq<ClientIdentifier>, keys: set<ClientIdentifier>) {
    && (forall i, j :: 0 <= i < j < |order| ==> order[i] != order[j])
    && (forall k :: k in order <==> k in keys)
  }

  /** An enumeration of a set is as long as the set is large. */
  lemma {:induction false} EnumerationLength(order: seq<ClientIdentifier>, keys: set<ClientIdentifier>)
    requires Enumerates(order, keys)
    ensures |order| == |keys|
    decreases |order|
  {
    if order != [] {
      var last := order[|order| - 1];
      var front := order[..|order| - 1];
      assert forall k :: k in order <==> k in front || k == last;
      assert last !in front;
      EnumerationLength(front, keys - {last});
    }
  }

  /** The roster keys a broadcast reaches: all of them, or all but the excluded one. */
  function Without(keys: set<ClientIdentifier>, exclude: Option<ClientIdentifier>): set<ClientIdentifier> {
    match exclude
    case None => keys
    case Some(x) => keys - {x}
  }

  /** One send of the message to the connection of each recipient, in the recipients' order. */
  function SendsTo<V>(roster: map<ClientIdentifier, Connection>, recipients: seq<ClientIdentifier>,
                      message: Bytes, sendType: SendType): (sends: seq<Effect<V>>)
    requires forall k | k in recipients :: k in roster
  {
    seq(|recipients|, i requires 0 <= i < |recipients| => Sent(roster[recipients[i]], message, sendType))
  }

  /** A broadcast sends exactly one message per roster member it reaches: all members, less the excluded one if it is a member. */
  lemma BroadcastSendCount<V>(roster: map<ClientIdentifier, Connection>, recipients: seq<ClientIdentifier>,
                              exclude: Option<ClientIdentifier>, message: Bytes, sendType: SendType)
    requires Enumerates(recipients, Without(roster.Keys, exclude))
    ensures |SendsTo<V>(roster, recipients, message, sendType)|
         == |roster| - (if exclude.Some? && exclude.value in roster then 1 else 0)
  {
    EnumerationLength(recipients, Without(roster.Keys, exclude));
    assert |roster.Keys| == |roster|;
  }

  class SdrServer<V> {
    var connectedClients: map<ClientIdentifier, Connection>
    var hasClientManager: bool   // _clientManager != null
    var hasSocketManager: bool   // _socketManager != null
    var isOpen: bool
    var isSteamIdAllowed: Option<SteamIdentifiers.uint64 -> bool>
    var log: seq<Effect<V>>

    constructor ()
      ensures !isOpen && !hasClientManager && !hasSocketManager
      ensures connectedClients == map[] && isSteamIdAllowed.None? && log == []
    {
      connectedClients := map[];
      hasClientManager, hasSocketManager, isOpen := false, false, false;
      isSteamIdAllowed := None;
      log := [];
    }

    /** ConnectedClients: a fresh list holding each roster key once. */
    method ConnectedClients() returns (clients: seq<ClientIdentifier>)
      ensures Enumerates(clients, connectedClients.Keys)
    {
      clients := [];
      var rest := connectedClients.Keys;
      while rest != {}
        invariant rest <= connectedClients.Keys
        invariant Enumerates(clients, connectedClients.Keys - rest)
        decreases |rest|
      {
        var client :| client in rest;
        clients := clients + [client];
        rest := rest - {client};
      }
    }

    /**
     * BroadcastMessage: one send to the connection of every roster member
     * but the excluded one. The send type of an Unknown channel throws at the
     * first member reached, before anything is sent.
     */
    method BroadcastMessage(message: Bytes, messageChannel: MessageChannel,
                            excludeClientIdentifier: Option<ClientIdentifier>)
      returns (outcome: Outcome<string>, recipients: seq<ClientIdentifier>)
      modifies this`log
      ensures messageChannel != MessageChannel.Unknown ==>
        && outcome == Pass
        && Enumerates(recipients, Without(connectedClients.Keys, excludeClientIdentifier))
        && log == old(log) + SendsTo(connectedClients, recipients, message,
                                     SteamIdentifiers.GetSendType(messageChannel).value)
      ensures messageChannel == MessageChannel.Unknown ==>
        && recipients == [] && log == old(log)
        && (outcome.Fail? <==> Without(connectedClients.Keys, excludeClientIdentifier) != {})
    {
      outcome, recipients := Pass, [];
      ghost var sendType := if messageChannel == MessageChannel.Unknown then SteamIdentifiers.Reliable
                            else SteamIdentifiers.GetSendType(messageChannel).value;
      var rest := connectedClients.Keys;
      while rest != {}
        invariant rest <= connectedClients.Keys
        invariant Enumerates(recipients, Without(connectedClients.Keys - rest, excludeClientIdentifier))
        invariant messageChannel == MessageChannel.Unknown ==> recipients == []
        invariant log == old(log) + SendsTo(connectedClients, recipients, message, sendType)
        decreases |rest|
      {
        var client :| client in rest;
        assert client !in recipients;
        rest := rest - {client};
        if excludeClientIdentifier == Some(client) {
          continue;
        }
        var sendTypeResult := SteamIdentifiers.GetSendType(messageChannel);
        if sendTypeResult.Failure? {
          assert client in Without(connectedClients.Keys, excludeClientIdentifier);
          outcome := Fail(sendTypeResult.error);
          return;
        }
        assert SendsTo<V>(connectedClients, recipients + [client], message, sendType)
            == SendsTo<V>(connectedClients, recipients, message, sendType) + [Sent(connectedClients[client], message, sendType)];
        log := log + [Sent(connectedClients[client], message, sendTypeResult.value)];
        recipients := recipients + [client];
      }
      assert connectedClients.Keys - rest == connectedClients.Keys;
      if messageChannel == MessageChannel.Unknown {
        assert forall k :: k !in Without(connectedClients.Keys, excludeClientIdentifier);
      }
    }

    /** Close: broadcast the closing message if there is one, close the relay socket, and mark the server closed. */
    method Close(closingMessage: Option<Bytes>) returns (recipients: seq<ClientIdentifier>)
      modifies this`log, this`isOpen
      ensures !isOpen
      ensures closingMessage.None? ==> recipients == []
      ensures closingMessage.Some? ==> Enumerates(recipients, connectedClients.Keys)
      ensures log == old(log)
        + (if closingMessage.Some?
           then SendsTo(connectedClients, recipients, closingMessage.value, SteamIdentifiers.Reliable)
           else [])
        + (if hasSocketManager then [RelaySocketClosed] else [])
    {
      recipients := [];
      if closingMessage.Some? {
        var _, sentTo := BroadcastMessage(closingMessage.value, MessageChannel.Reliable, None);
        recipients := sentTo;
      }
      if hasSocketManager {
        log := log + [RelaySocketClosed];
      }
      isOpen := false;
    }

    /**
     * KickClient: serverLink is the client manager's connection for the
     * identifier. Without one nothing happens; with one, the kick message
     * (if any) is sent, then the connection is closed.
     */
    method KickClient(client: ClientIdentifier, kickMessage: Option<Bytes>, serverLink: Option<Connection>)
      modifies this`log
      ensures !hasClientManager || serverLink.None? ==> log == old(log)
      ensures hasClientManager && serverLink.Some? ==>
        log == old(log)
          + (if kickMessage.Some? then [Sent(serverLink.value, kickMessage.value, SteamIdentifiers.Reliable)] else [])
          + [Closed(serverLink.value)]
    {
      if hasClientManager && serverLink.Some? {
        var connection := serverLink.value;
        if kickMessage.Some? {
          log := log + [Sent(connection, kickMessage.value, SteamIdentifiers.Reliable)];
        }
        log := log + [Closed(connection)];
      }
    }

    /** SendMessage: serverLink is the client manager's connection for the identifier; without one nothing happens. */
    method SendMessage(client: ClientIdentifier, message: Bytes, messageChannel: MessageChannel,
                       serverLink: Option<Connection>)
      returns (outcome: Outcome<string>)
      modifies this`log
      ensures !hasClientManager || serverLink.None? ==> outcome == Pass && log == old(log)
      ensures hasClientManager && serverLink.Some? ==>
        match SteamIdentifiers.GetSendType(messageChannel)
        case Failure(e) => outcome == Fail(e) && log == old(log)
        case Success(sendType) => outcome == Pass && log == old(log) + [Sent(serverLink.value, message, sendType)]
    {
      outcome := Pass;
      if hasClientManager && serverLink.Some? {
        var sendTypeResult := SteamIdentifiers.GetSendType(messageChannel);
        if sendTypeResult.Failure? {
          outcome := Fail(sendTypeResult.error);
          return;
        }
        log := log + [Sent(serverLink.value, message, sendTypeResult.value)];
      }
    }

    /** RunTask: create the client manager (whose events are the two handlers below) and the relay socket, and open. */
    method RunTask()
      modifies this`hasClientManager, this`hasSocketManager, this`isOpen, this`log
      ensures hasClientManager && hasSocketManager && isOpen
      ensures log == old(log) + [RelaySocketCreated]
    {
      hasClientManager := true;
      log := log + [RelaySocketCreated];
      hasSocketManager := true;
      isOpen := true;
    }

    /**
     * The ClientConnected handler. Dictionary.Add throws on an identifier
     * already in the roster, before anything changes. Otherwise the roster
     * gains the identifier, OnConnect is raised, every other member receives
     * a snapshot of the roster without a local identifier, and the newcomer
     * (through its manager link) receives the same snapshot naming itself.
     * Each snapshot is encoded by Msg.Serialize under the UseCompression flag
     * as it stands at the call.
     */
    method ClientConnected(identifier: ClientIdentifier, conn: Connection, newcomerLink: Option<Connection>,
                           registry: Msg.MessageRegistry, changeCodec: Msg.Codec<ServerClientChange>)
      returns (outcome: Outcome<string>, snapshot: ServerClientChange, recipients: seq<ClientIdentifier>)
      requires hasClientManager
      modifies this`connectedClients, this`log
      ensures identifier in old(connectedClients) ==>
        outcome.Fail? && connectedClients == old(connectedClients) && log == old(log)
      ensures identifier !in old(connectedClients) ==>
        && outcome == Pass
        && connectedClients == old(connectedClients)[identifier := conn]
        && snapshot.localClientIdentifier.None?
        && snapshot.connectedClients.Some?
        && Enumerates(snapshot.connectedClients.value, connectedClients.Keys)
        && Enumerates(recipients, connectedClients.Keys - {identifier})
        && log == old(log) + [ConnectRaised(identifier)]
             + SendsTo(connectedClients, recipients, Msg.Serialize(changeCodec, registry.useCompression, snapshot), SteamIdentifiers.Reliable)
             + (if newcomerLink.Some?
                then [Sent(newcomerLink.value,
                           Msg.Serialize(changeCodec, registry.useCompression, BuiltinMessages.WithLocalClient(snapshot, identifier)),
                           SteamIdentifiers.Reliable)]
                else [])
    {
      snapshot, recipients := BuiltinMessages.NewServerClientChange(), [];
      if identifier in connectedClients {
        outcome := Fail("An item with the same key has already been added.");
        return;
      }
      connectedClients := connectedClients[identifier := conn];
      log := log + [ConnectRaised(identifier)];
      var clients := ConnectedClients();
      snapshot := BuiltinMessages.FromClients(clients);
      var _, sentTo := BroadcastMessage(Msg.Serialize(changeCodec, registry.useCompression, snapshot), MessageChannel.Reliable, Some(identifier));
      recipients := sentTo;
      var personal := BuiltinMessages.WithLocalClient(snapshot, identifier);
      var _ := SendMessage(identifier, Msg.Serialize(changeCodec, registry.useCompression, personal), MessageChannel.Reliable, newcomerLink);
      outcome := Pass;
    }

    /**
     * The ClientRemoved handler: close the connection unless the server
     * itself closed it, drop the identifier from the roster unless the
     * removal was already anticipated, raise OnDisconnect, and broadcast a
     * snapshot of the roster to everyone left, encoded by Msg.Serialize under
     * the UseCompression flag as it stands at the call.
     */
    method ClientRemoved(identifier: ClientIdentifier, conn: Connection, wasWaited: bool, wasManualDisconnect: bool,
                         registry: Msg.MessageRegistry, changeCodec: Msg.Codec<ServerClientChange>)
      returns (snapshot: ServerClientChange, recipients: seq<ClientIdentifier>)
      modifies this`connectedClients, this`log
      ensures connectedClients == if wasWaited then old(connectedClients) else old(connectedClients) - {identifier}
      ensures snapshot.localClientIdentifier.None? && snapshot.connectedClients.Some?
      ensures Enumerates(snapshot.connectedClients.value, connectedClients.Keys)
      ensures Enumerates(recipients, connectedClients.Keys)
      ensures log == old(log)
        + (if wasManualDisconnect then [] else [Closed(conn)])
        + [DisconnectRaised(identifier)]
        + SendsTo(connectedClients, recipients, Msg.Serialize(changeCodec, registry.useCompression, snapshot), SteamIdentifiers.Reliable)
    {
      if !wasManualDisconnect {
        log := log + [Closed(conn)];
      }
      if !wasWaited {
        connectedClients := connectedClients - {identifier};
      }
      log := log + [DisconnectRaised(identifier)];
      var clients := ConnectedClients();
      snapshot := BuiltinMessages.FromClients(clients);
      var _, sentTo := BroadcastMessage(Msg.Serialize(changeCodec, registry.useCompression, snapshot), MessageChannel.Reliable, None);
      recipients := sentTo;
    }

    /** OnConnected: hand the new connection, under the identifier built from its id, to the client manager. */
    method OnConnected(connection: Connection)
      modifies this`log
      ensures log == old(log)
        + if hasClientManager
          then [ClientAdded(SteamIdentifiers.NewSdrClientIdentifier(connection.id), connection)]
          else []
    {
      if hasClientManager {
        var identifier := SteamIdentifiers.NewSdrClientIdentifier(connection.id);
        log := log + [ClientAdded(identifier, connection)];
      }
    }

    /** The callback given to AddClient and VerifyWaitingClient: a negative verdict closes the connection. */
    method OnVerificationResult(connection: Connection, accepted: bool)
      modifies this`log
      ensures log == old(log) + if accepted then [] else [Closed(connection)]
    {
      if !accepted {
        log := log + [Closed(connection)];
      }
    }

    /** OnConnecting: accept when no filter is set or the filter allows the peer's SteamId; close otherwise. */
    method OnConnecting(connection: Connection, peer: SteamIdentifiers.uint64)
      modifies this`log
      ensures isSteamIdAllowed.None? ==> log == old(log) + [Accepted(connection)]
      ensures isSteamIdAllowed.Some? ==>
        log == old(log) + [if isSteamIdAllowed.value(peer) then Accepted(connection) else Closed(connection)]
    {
      if isSteamIdAllowed.Some? {
        if isSteamIdAllowed.value(peer) {
          log := log + [Accepted(connection)];
        } else {
          log := log + [Closed(connection)];
        }
      } else {
        log := log + [Accepted(connection)];
      }
    }

    /** OnDisconnected: report the dropped connection to the client manager. */
    method OnDisconnected(connection: Connection)
      modifies this`log
      ensures log == old(log) + if hasClientManager then [DisconnectReported(connection)] else []
    {
      if hasClientManager {
        log := log + [DisconnectReported(connection)];
      }
    }

    /**
     * OnMessage: identify the buffer with GetMeta. A decode that throws, or
     * a call before RunTask (no client manager), is caught and does nothing,
     * and so does a buffer of no registered type. Otherwise a waiting
     * connection's message goes to verification (a verifier that throws
     * closes the connection); a connected client's message is raised with
     * channel Unknown; any other connection is closed.
     */
    method OnMessage(connection: Connection, data: Bytes, registry: Msg.MessageRegistry, codec: Msg.Codec<V>,
                     isWaiting: bool, isPresent: bool, connectedIdentifier: Option<ClientIdentifier>,
                     verifierThrows: bool)
      modifies this`log
      ensures var r := Msg.GetMeta(codec, registry.useCompression, registry.registeredMessages, data);
        r.Failure? || r.value.None? || !hasClientManager ==> log == old(log)
      ensures var r := Msg.GetMeta(codec, registry.useCompression, registry.registeredMessages, data);
        r.Success? && r.value.Some? && hasClientManager ==>
          var meta := r.value.value;
          if isWaiting then
            log == old(log) + [VerificationRequested(connection, meta)] + (if verifierThrows then [Closed(connection)] else [])
          else if isPresent then
            log == old(log) + (if connectedIdentifier.Some?
                               then [MessageRaised(connectedIdentifier.value, meta, MessageChannel.Unknown)]
                               else [])
          else
            log == old(log) + [Closed(connection)]
    {
      var msgMeta := Msg.GetMeta(codec, registry.useCompression, registry.registeredMessages, data);
      if msgMeta.Failure? || !hasClientManager {
        return;
      }
      if isWaiting && msgMeta.value.Some? {
        log := log + [VerificationRequested(connection, msgMeta.value.value)];
        if verifierThrows {
          log := log + [Closed(connection)];
        }
      } else if msgMeta.value.Some? {
        if isPresent {
          if connectedIdentifier.Some? {
            log := log + [MessageRaised(connectedIdentifier.value, msgMeta.value.value, MessageChannel.Unknown)];
          }
        } else {
          log := log + [Closed(connection)];
        }
      }
    }
  }
}
