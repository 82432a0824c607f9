/** The notice of disconnection as a response: it can be sent, and a loop that wants to can start to send it. */
module NoticeTheorems {
  import opened Go
  import opened Ber
  import opened Connection
  import Messages
  import MessageTheorems
  import Responses

  const NOTICE: Responses.Response :=
    Responses.Result(0, Responses.EXTENDED_RESPONSE, Responses.UNWILLING_TO_PERFORM, "Unused", "server stopping", [])

  /** What the connection writes is the packet of that response. */
  lemma NoticeIsResponse()
    ensures NoticePacket() == Responses.ResponsePacket(NOTICE)
  {
    var parts := [IntegerLeaf(0), Responses.Body(NOTICE)];
    assert parts + [] == parts;
  }

  lemma NoticeSendable()
    ensures Sendable(NoticePacket())
  {
    NoticeIsResponse();
  }

  /** So once a loop has seen the shutdown, it can write the notice as soon as the writer is free. */
  lemma NoticePossible(c: Conn)
    requires c.loop.Notice?
    ensures HandlerStep(c, LockWriter(c.requestID, NoticePacket())).Some? <==> c.lock.None?
  {
    NoticeSendable();
  }
}
