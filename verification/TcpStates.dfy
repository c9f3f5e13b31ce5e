/** The connection states and the moves that tcp_process makes among them. */
module TcpStates {

  datatype TcpState =
    CLOSED | LISTEN | SYN_SENT | SYN_RCVD | ESTABLISHED | FIN_WAIT_1 | FIN_WAIT_2
  | CLOSE_WAIT | CLOSING | LAST_ACK | TIME_WAIT
  {
    /** The synchronized states that accept segment text, those before CLOSE_WAIT. */
    predicate Receiving() { ESTABLISHED? || FIN_WAIT_1? || FIN_WAIT_2? }

    /** The peer's FIN has been received. */
    predicate PeerClosed() { CLOSE_WAIT? || CLOSING? || LAST_ACK? || TIME_WAIT? }

    /** tcp_write takes data; its two states of connection set-up are not modelled. */
    predicate Writable() { ESTABLISHED? || CLOSE_WAIT? }
  }

  /** The close half of the state diagram in figure 6 of RFC 793. */
  function StateAfter(s: TcpState, gotFin: bool, finAcked: bool): TcpState {
    match s
    case ESTABLISHED => if gotFin then CLOSE_WAIT else s
    case FIN_WAIT_1 =>
      if gotFin then (if finAcked then TIME_WAIT else CLOSING) else if finAcked then FIN_WAIT_2 else s
    case FIN_WAIT_2 => if gotFin then TIME_WAIT else s
    case CLOSING => if finAcked then TIME_WAIT else s
    case _ => s
  }
}
