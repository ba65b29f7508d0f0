/**
 * The WebSocket as the session engine uses it: its `readyState`, the frames
 * handed to `send`, and `close`. The network itself moves the state on.
 */
module Transport {
  import opened Json
  import opened Protocol

  class Socket {
    const url: string
    var readyState: ReadyState
    /** Every envelope handed to `send`, in order (before `JSON.stringify`). */
    var sent: seq<Json>
    var closeCalls: nat

    /** `new WebSocket(url)`: a socket starts out CONNECTING. */
    constructor (url: string)
      ensures this.url == url && readyState == Connecting && sent == [] && closeCalls == 0
    {
      this.url := url;
      readyState := Connecting;
      sent := [];
      closeCalls := 0;
    }

    /** `send(data)`; the engine only calls it on an OPEN socket. */
    method Transmit(frame: Json)
      requires readyState == Open
      modifies this
      ensures sent == old(sent) + [frame]
      ensures readyState == old(readyState) && closeCalls == old(closeCalls)
    {
      sent := sent + [frame];
    }

    /** `close()`: starts the closing handshake; a CLOSED socket stays CLOSED. */
    method Close()
      modifies this
      ensures readyState == if old(readyState) == Closed then Closed else Closing
      ensures sent == old(sent) && closeCalls == old(closeCalls) + 1
    {
      if readyState != Closed {
        readyState := Closing;
      }
      closeCalls := closeCalls + 1;
    }

    /** The network: the handshake completed, or the connection went away. */
    method Settle(state: ReadyState)
      modifies this
      ensures readyState == state && sent == old(sent) && closeCalls == old(closeCalls)
    {
      readyState := state;
    }
  }
}
