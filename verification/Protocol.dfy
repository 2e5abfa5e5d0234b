/** The vocabulary both ends of the bridge share: identifiers, scopes, the action policy table, messages. */
module Protocol {
  import opened Prelude

  /** UUIDs, nonces, tokens and installation ids, compared only for equality. */
  type Uuid = nat

  /** The empty string, the only identifier JavaScript treats as false. */
  const EMPTY_ID: Uuid := 0

  /** Request payloads and results: the JSON text that travels. */
  type Json = string

  const PROTOCOL_VERSION := 2

  datatype Scope = Read | Write | Destructive | Review | Editor | Window | Events | Media

  datatype Risk = ReadRisk | WriteRisk | DestructiveRisk | ReviewRisk

  datatype ActionPolicy = ActionPolicy(scope: Scope, risk: Risk)

  const CAPABILITY_SCOPES: seq<Scope> :=
    [Read, Write, Destructive, Review, Editor, Window, Events, Media]

  /** Destructive actions and no others need the destructive scope; reading and writing need their own. */
  function GetActionPolicy(action: string): (policy: Option<ActionPolicy>)
    ensures policy.Some? ==> match policy.value.scope
      case Read => policy.value.risk == ReadRisk
      case Media => policy.value.risk == ReadRisk
      case Write => policy.value.risk == WriteRisk
      case Destructive => policy.value.risk == DestructiveRisk
      case Review => policy.value.risk == ReadRisk || policy.value.risk == ReviewRisk
      case Events => false
      case _ => policy.value.risk == ReadRisk || policy.value.risk == WriteRisk
  {
    if action in ["search", "search_by_tag", "read_note", "list_children", "read_table", "get_status",
                  "rem_read", "rich_text_read", "kb_read"] then
      Some(ActionPolicy(Read, ReadRisk))
    else if action in ["create_note", "append_journal", "update_note", "set_document_status",
                       "insert_children", "move_note", "update_tags", "set_property", "rem_write",
                       "daily_document_write", "reader_write"] then
      Some(ActionPolicy(Write, WriteRisk))
    else if action in ["replace_children", "editor_delete", "card_delete", "rem_delete"] then
      Some(ActionPolicy(Destructive, DestructiveRisk))
    else if action in ["queue_read", "card_read"] then Some(ActionPolicy(Review, ReadRisk))
    else if action in ["queue_write", "card_write"] then Some(ActionPolicy(Review, ReviewRisk))
    else if action == "get_media_locator" then Some(ActionPolicy(Media, ReadRisk))
    else if action == "editor_read" then Some(ActionPolicy(Editor, ReadRisk))
    else if action == "editor_write" then Some(ActionPolicy(Editor, WriteRisk))
    else if action == "window_read" then Some(ActionPolicy(Window, ReadRisk))
    else if action == "window_write" then Some(ActionPolicy(Window, WriteRisk))
    else None
  }

  datatype Capability = Capability(id: string, available: bool)

  /** Whether the first advertised capability for the action is available. */
  predicate Advertised(capabilities: seq<Capability>, action: string) {
    capabilities != [] &&
    if capabilities[0].id == action then capabilities[0].available
    else Advertised(capabilities[1..], action)
  }

  /** What a reconnect proof signs. */
  datatype AuthMessage = AuthMessage(
    serverInstanceId: Uuid, serverNonce: Uuid, clientNonce: Uuid,
    installationId: Uuid, bridgeVersion: nat, protocolVersion: int)

  /** HMAC-SHA256 (RFC 2104), idealised as an injective function of key and message. */
  datatype Proof = Hmac(secret: Uuid, message: AuthMessage)

  datatype ClientHello = ClientHello(
    wellTyped: bool, protocolVersion: int, bridgeVersion: nat, installationId: Uuid,
    clientNonce: Uuid, capabilities: seq<Capability>, proof: Option<Proof>)

  datatype PairingConfirm = PairingConfirm(
    pairingId: Uuid, pairingCode: nat, installationId: Uuid, bridgeVersion: nat)

  datatype BridgeRequest = BridgeRequest(
    id: Uuid, operationId: Uuid, action: string, scope: Scope, payload: Json)

  datatype ErrorCode = NotAuthenticated | PolicyMismatch | ScopeDenied | CapabilityUnavailable
                     | NoHandler | ActionTimeout | ActionFailed

  datatype Reply = Value(value: Json) | Error(code: ErrorCode)

  datatype BridgeResponse = BridgeResponse(id: Uuid, operationId: Uuid, reply: Reply)

  /** What the companion server sends to the bridge plugin. */
  datatype ToBridge =
    | CompanionInfo
    | ServerChallenge(protocolVersion: int, serverInstanceId: Uuid, nonce: Uuid, pairingRequired: bool)
    | PairingRequired(pairingId: Uuid)
    | PairingComplete(secret: Uuid, grantedScopes: seq<Scope>)
    | AuthAccepted(grantedScopes: seq<Scope>)
    | AuthRejected(resetPairing: bool)
    | PingToBridge
    | PongToBridge
    | Request(request: BridgeRequest)

  /** What the bridge plugin, or anyone else who connects, sends to the server. */
  datatype ToServer =
    | Hello(hello: ClientHello)
    | Confirm(confirm: PairingConfirm)
    | Response(response: BridgeResponse)
    | Ping
    | PongToServer
    | Unclassified   // JSON with neither a known type nor an id
    | Malformed      // not JSON, or JSON that is not an object
}
