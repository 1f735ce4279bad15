/**
 * Nexport/BuiltinMessages/ServerClientChange.cs: the control record the
 * server broadcasts whenever its roster changes. ConnectedClients is an array
 * copied from a list, so it is modelled as a sequence value: a later change to
 * the list it was copied from cannot reach it.
 */
module BuiltinMessages {
  import opened Wrappers
  import opened Transport
  import Msg

  /** The record; null fields are None. */
  datatype ServerClientChange = ServerClientChange(
    connectedClients: Option<seq<ClientIdentifier>>,    // [MsgKey(2)]
    localClientIdentifier: Option<ClientIdentifier>)    // [MsgKey(3)]

  /** The parameterless constructor: both fields null. */
  function NewServerClientChange(): (c: ServerClientChange)
    ensures c.connectedClients.None? && c.localClientIdentifier.None?
  {
    ServerClientChange(None, None)
  }

  /** The list constructor: the clients, element by element and in order; no local identifier. */
  function FromClients(clients: seq<ClientIdentifier>): (c: ServerClientChange)
    ensures c.connectedClients.Some? && |c.connectedClients.value| == |clients|
    ensures forall i :: 0 <= i < |clients| ==> c.connectedClients.value[i] == clients[i]
    ensures c.localClientIdentifier.None?
  {
    ServerClientChange(Some(clients), None)
  }

  /** Setting LocalClientIdentifier on an existing record: the roster it carries is untouched. */
  function WithLocalClient(c: ServerClientChange, identifier: ClientIdentifier): (r: ServerClientChange)
    ensures r.connectedClients == c.connectedClients
    ensures r.localClientIdentifier == Some(identifier)
  {
    c.(localClientIdentifier := Some(identifier))
  }

  /** The record as reflection describes it to msgCheck: two keyed fields and no MessageId. */
  const ServerClientChangeType: Msg.MsgType := Msg.MsgType(
    Some("Nexport.BuiltinMessages.ServerClientChange"),
    true,
    [],
    [Msg.Member("ConnectedClients", [2]), Msg.Member("LocalClientIdentifier", [3])])

  /** The rule of msgCheck, as written, rejects this built-in message: it has no MessageId member. */
  lemma ServerClientChangeFailsMsgCheck()
    ensures Msg.CheckSpec(ServerClientChangeType) == Fail(Msg.MissingMessageId)
    ensures !Msg.WellKeyed(ServerClientChangeType)
  {
    var ms := Msg.Members(ServerClientChangeType);
    assert ms[0].name != "MessageId" && ms[1].name != "MessageId";
    assert !Msg.DeclaresMessageId(ms);
    Msg.CheckAcceptsExactlyWellKeyed(ServerClientChangeType);
  }
}
