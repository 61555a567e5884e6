/** Events that travel between the node's tasks. */
module Events {
  import opened Bytes
  import opened Wire

  type PeerId = nat

  datatype TypeConnection = IncomingConnection | OutgoingConnection

  datatype ConnectionContext = ConnectionContext(
    typeConnect: TypeConnection,
    nonce: U64,
    localAddress: SocketAddr,
    removeAddress: SocketAddr
  )

  /** PeerManager's events: ReadyLowMessage and Shutdown go to a peer, the others to HandleMessage. */
  datatype EventsPeerManager =
    | ReadyMessage(peerid: PeerId, message: MessagePayload)
    | ReadyLowMessage(lowMessage: MessagePayload)
    | Shutdown
    | IncidentNewConnection(newPeerid: PeerId, context: ConnectionContext)
    | IncidentCompletedPeer(completedPeerid: PeerId)
    | IncidentCompletedAllPeer

  /** HandleMessage's events to PeerManager: a message for a peer, or the peer's misbehaviour. */
  datatype EventsHandleMessage =
    | ReadyReply(replyPeerid: PeerId, reply: MessagePayload)
    | IncidentViolentCompletedPeer(violentPeerid: PeerId)
}
