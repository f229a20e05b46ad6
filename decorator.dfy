// CustomWebSocketHandlerDecorator: text frames passed on to the STOMP
// handler must end in a NUL character; clients that leave it out get one
// appended. A lone newline (a heart-beat) and other messages pass unchanged.
module HandlerDecorator {
  import opened Common

  datatype Message =
    | TextMessage(payload: string)
    | BinaryMessage(bytes: seq<Byte>)
    | PingMessage(pingBytes: seq<Byte>)
    | PongMessage(pongBytes: seq<Byte>)

  const Nul: char := '\U{0}'

  predicate EndsInNul(s: string)
  {
    |s| > 0 && s[|s| - 1] == Nul
  }

  /** The message handleMessage hands to the delegate. */
  function Forwarded(m: Message): (r: Message)
    ensures r.TextMessage? <==> m.TextMessage?
    ensures !m.TextMessage? ==> r == m
    ensures r.TextMessage? ==> EndsInNul(r.payload) || r.payload == "\n"
    ensures m.TextMessage? && (EndsInNul(m.payload) || m.payload == "\n") ==> r == m
    ensures m.TextMessage? && !EndsInNul(m.payload) && m.payload != "\n" ==> r.payload == m.payload + [Nul]
  {
    if m.TextMessage? && !EndsInNul(m.payload) && m.payload != "\n" then TextMessage(m.payload + [Nul]) else m
  }

  /** Forwarding is idempotent: a forwarded message passes a second decorator unchanged. */
  lemma ForwardedIdempotent(m: Message)
    ensures Forwarded(Forwarded(m)) == Forwarded(m)
  {
  }
}
