/** The states of a WebSocketClient. */
module ConnectionState {
  datatype State = DISCONNECTED | CONNECTING | OPEN | CLOSING | CLOSED
}
