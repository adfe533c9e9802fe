/** The messages the quorum replicates (agent/messages.go, agent/agent.pb.go). */
module Messages {
  import opened Base

  datatype Command = Begin | Cancel | Done | Failed | Restart

  datatype Archive = Archive(deploymentId: Bytes)

  datatype DeployOptions = DeployOptions(concurrency: int, ignoreFailures: bool)

  datatype DeployCommand = DeployCommand(
    command: Command,
    initiator: string,
    archive: Option<Archive>,
    options: Option<DeployOptions>)

  datatype MessageType =
    | PeerEvent
    | LogEvent
    | DeployCommandEvent
    | DeployEvent
    | PeersFoundEvent
    | PeersCompletedEvent
    | LogHistoryEvent
    | DeployHeartbeat

  datatype Event = DeployCommandOf(dc: DeployCommand) | OtherEvent(payload: Bytes)

  datatype Envelope = Envelope(
    id: string,
    kind: MessageType,
    event: Event,
    hidden: bool,
    ephemeral: bool)

  /** Every constructor of messages keeps the type tag and the payload in step,
      and builds deploy commands that are not ephemeral. */
  predicate WellFormed(m: Envelope) {
    && (m.kind == DeployCommandEvent <==> m.event.DeployCommandOf?)
    && (m.kind == DeployCommandEvent ==> !m.ephemeral)
  }

  type Message = m: Envelope | WellFormed(m)
    witness Envelope("", PeerEvent, OtherEvent([]), false, false)

  predicate IsDeploy(m: Message) {
    m.kind == DeployCommandEvent
  }

  predicate IsCommand(m: Message, c: Command) {
    m.event.DeployCommandOf? && m.event.dc.command == c
  }

  predicate Durable(m: Message) {
    !m.ephemeral
  }
}
