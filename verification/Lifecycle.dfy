// The socket states of socket.go and the ways between them.
module Lifecycle {

  datatype Status =
    | Fresh         // SocketStatusNone
    | Connected
    | Closing
    | Disconnect
    | Disconnected
    | Reconnecting
    | Released

  predicate IsValid(s: Status) {
    s == Fresh || s == Connected || s == Closing
  }

  /** The documented life cycle. */
  predicate Edge(a: Status, b: Status) {
    match a
    case Fresh => b == Connected
    case Connected => b == Closing || b == Disconnect
    case Closing => b == Disconnect
    case Disconnect => b == Disconnected || b == Reconnecting
    case Disconnected => b == Released
    case Reconnecting => b == Connected || b == Released
    case Released => false
  }
}
