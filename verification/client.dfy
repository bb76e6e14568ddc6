/** Client.swift: the client role's own state. A client sends only to its one
    host, buffers exchanges begun while it has none, and browses for a host. */
module Clients {
  import opened Wrappers
  import opened Peers
  import opened Exchanges

  datatype ClientState = ClientState(host: Option<Peer>, buffer: seq<Exchange>, browsing: bool)

  const Initial := ClientState(None, [], false)

  /** `defaultRequestRecipients`: `[hostID].compact()` */
  function Recipients(c: ClientState): (r: seq<Peer>)
    ensures |r| <= 1
    ensures r == [] <==> c.host.None?
    ensures c.host.Some? ==> r == [c.host.value]
  {
    match c.host
    case None => []
    case Some(h) => [h]
  }

  /** `handleNoRecipients(for:)`: append to the buffer and start browsing. */
  function Enqueue(c: ClientState, x: Exchange): (r: ClientState)
    ensures r.buffer == c.buffer + [x] && r.host == c.host && r.browsing
  {
    c.(buffer := c.buffer + [x], browsing := true)
  }

  /** `sessionDidDisconnect(from:)`: whichever peer left, forget the host and browse
      again; the buffer is kept. */
  function Disconnected(c: ClientState): (r: ClientState)
    ensures r.host.None? && r.browsing && r.buffer == c.buffer
  {
    c.(host := None, browsing := true)
  }
}
