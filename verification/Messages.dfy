/** The messages between clients and the hub (collab/src/protocol.rs). */
module Messages {
  import opened Clocks
  import opened Crdt
  import opened Presences

  type ConnId = nat

  datatype AccessLevel = Viewer | Editor | Owner
  {
    predicate CanEdit() { Editor? || Owner? }
    predicate CanAdmin() { Owner? }
  }

  datatype ClientMessage =
    | Join(room: string, token: string, replica: ReplicaId, displayName: string)
    | Ops(ops: seq<Op>)
    | ShowPresence(presence: Presence)
    | SetAccess(subject: string, level: AccessLevel)
    | Resync
    | Leave

  datatype Refusal = AuthenticationFailed | NotInARoom | UnknownMember | MayNotEdit | MayNotAdminister

  /** `Welcome` lists the presence records of the room; they are given as the map they are collected from. */
  datatype ServerMessage =
    | Welcome(level: AccessLevel, snapshot: Doc, users: Users)
    | Rejected(reason: Refusal)
    | OpsFrom(from: ReplicaId, ops: seq<Op>)
    | PresenceOf(presence: Presence)
    | Left(replica: ReplicaId)
    | Snapshot(snapshot: Doc)

  datatype Outbound = Outbound(to: ConnId, message: ServerMessage)
}
