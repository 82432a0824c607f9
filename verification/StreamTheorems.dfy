/**
 The bytes that leave a connection: on every channel they are the packets of the responses
 written to it, whole and in the order their writers took the lock, with at most one packet
 cut short at the end.
 */
module StreamTheorems {
  import opened Go
  import opened Ber
  import opened Connection
  import opened ConnectionTheorems

  /** The responses written to one channel, in the order their writers took the lock. */
  function WrittenOn(ws: seq<WriteEvent>, channel: nat): seq<Packet> {
    if ws == [] then []
    else
      var w := ws[|ws| - 1];
      WrittenOn(ws[..|ws| - 1], channel) + if w.channel == channel then [w.packet] else []
  }

  function LockOn(c: Conn, channel: nat): Option<Writing> {
    if c.lock.Some? && c.lock.value.channel == channel then c.lock else None
  }

  ghost predicate AllSendable(ps: seq<Packet>) {
    forall i :: 0 <= i < |ps| ==> Sendable(ps[i])
  }

  /** A stream, given the write in progress on it and the responses written to it so far. */
  ghost predicate StreamOk(s: Stream, l: Option<Writing>, ps: seq<Packet>) {
    && AllSendable(ps)
    && SerialiseAll(s.packets) <= s.sent
    && (s.broken <==> s.torn.Some?)
    && (!s.broken && l.None? ==> s.packets == ps && s.sent == SerialiseAll(s.packets) && s.buffered == "")
    && (!s.broken && l.Some? ==>
          && s.packets + [l.value.packet] == ps && l.value.pos <= |Serialise(l.value.packet)|
          && s.sent + s.buffered == SerialiseAll(s.packets) + Serialise(l.value.packet)[..l.value.pos])
    && (s.broken ==>
          && s.packets + [s.torn.value] <= ps
          && s.sent <= SerialiseAll(s.packets) + Serialise(s.torn.value))
  }

  ghost predicate StreamsOk(c: Conn) {
    forall g :: 0 <= g < |c.streams| ==> StreamOk(c.streams[g], LockOn(c, g), WrittenOn(c.written, g))
  }

  // ---------- one step on one stream ----------

  lemma FreshOk()
    ensures StreamOk(FRESH_STREAM, None, [])
  {
  }

  lemma BufferOk(s: Stream, l: Writing, ps: seq<Packet>, n: nat)
    requires StreamOk(s, Some(l), ps) && !s.broken && l.pos + n <= |Serialise(l.packet)|
    ensures StreamOk(s.(buffered := s.buffered + Serialise(l.packet)[l.pos..l.pos + n]), Some(l.(pos := l.pos + n)), ps)
  {
    MoreBuffered(SerialiseAll(s.packets), Serialise(l.packet), l.pos, n, s.sent, s.buffered);
  }

  lemma MoreBuffered(before: string, bytes: string, pos: nat, n: nat, sent: string, buffered: string)
    requires pos + n <= |bytes| && sent + buffered == before + bytes[..pos]
    ensures sent + (buffered + bytes[pos..pos + n]) == before + bytes[..pos + n]
  {
    assert bytes[..pos] + bytes[pos..pos + n] == bytes[..pos + n];
    assert before + bytes[..pos + n] == (before + bytes[..pos]) + bytes[pos..pos + n];
    assert sent + (buffered + bytes[pos..pos + n]) == (sent + buffered) + bytes[pos..pos + n];
  }

  lemma SendOk(s: Stream, l: Writing, ps: seq<Packet>, n: nat)
    requires StreamOk(s, Some(l), ps) && !s.broken && n <= |s.buffered|
    ensures StreamOk(s.(sent := s.sent + s.buffered[..n], buffered := s.buffered[n..]), Some(l), ps)
  {
    assert (s.sent + s.buffered[..n]) + s.buffered[n..] == s.sent + s.buffered;
  }

  lemma FailOk(s: Stream, l: Writing, ps: seq<Packet>)
    requires StreamOk(s, Some(l), ps) && !s.broken
    ensures StreamOk(s.(broken := true, torn := Some(l.packet)), Some(l), ps)
  {
    PartSent(SerialiseAll(s.packets), Serialise(l.packet), l.pos, s.sent, s.buffered);
  }

  lemma PartSent(before: string, bytes: string, pos: nat, sent: string, buffered: string)
    requires pos <= |bytes| && sent + buffered == before + bytes[..pos]
    ensures sent <= before + bytes
  {
    assert before + bytes == (before + bytes[..pos]) + bytes[pos..];
    assert before + bytes == sent + (buffered + bytes[pos..]);
  }

  lemma UnlockOk(s: Stream, l: Writing, ps: seq<Packet>)
    requires StreamOk(s, Some(l), ps) && !s.broken && l.pos == |Serialise(l.packet)| && s.buffered == ""
    ensures StreamOk(s.(packets := s.packets + [l.packet]), None, ps)
  {
    SerialiseAllAppend(s.packets, l.packet);
    assert Serialise(l.packet)[..l.pos] == Serialise(l.packet);
    assert s.sent + "" == s.sent;
  }

  lemma LockOk(s: Stream, l: Writing, ps: seq<Packet>)
    requires StreamOk(s, None, ps) && Sendable(l.packet) && l.pos == 0
    ensures StreamOk(s, Some(l), ps + [l.packet])
  {
    assert s.sent + "" == s.sent && SerialiseAll(s.packets) + Serialise(l.packet)[..0] == SerialiseAll(s.packets);
  }

  // ---------- one step of the connection ----------

  lemma StreamsLoop(c: Conn, d: Conn)
    requires StreamsOk(c) && LoopFrame(c, d)
    requires |c.streams| == c.handshakes + 1 && (c.lock.Some? ==> c.lock.value.channel < |c.streams|)
    requires forall i :: 0 <= i < |c.written| ==> c.written[i].channel <= c.handshakes
    ensures StreamsOk(d)
  {
    NothingOn(c.written, |c.streams|);
    FreshOk();
    forall g | 0 <= g < |d.streams| ensures StreamOk(d.streams[g], LockOn(d, g), WrittenOn(d.written, g)) {
      assert LockOn(d, g) == LockOn(c, g);
      if g == |c.streams| {
        assert d.streams[g] == FRESH_STREAM && LockOn(d, g) == None && WrittenOn(d.written, g) == [];
      }
    }
  }

  lemma {:induction false} NothingOn(ws: seq<WriteEvent>, channel: nat)
    requires forall i :: 0 <= i < |ws| ==> ws[i].channel < channel
    ensures WrittenOn(ws, channel) == []
  {
    if ws != [] {
      NothingOn(ws[..|ws| - 1], channel);
    }
  }

  lemma WrittenChannels(c: Conn)
    requires ChannelInv(c)
    ensures forall i :: 0 <= i < |c.written| ==> c.written[i].channel <= c.handshakes
  {
    forall i | 0 <= i < |c.written| ensures c.written[i].channel <= c.handshakes {
      assert WriteMatches(c, c.written[i]);
    }
  }

  lemma LockedStreams(c: Conn, request: nat, channel: nat, packet: Packet, d: Conn)
    requires StreamsOk(c) && c.lock.None? && Sendable(packet)
    requires d.streams == c.streams && d.lock == Some(Writing(request, channel, packet, 0))
    requires d.written == c.written + [WriteEvent(request, channel, packet)]
    ensures StreamsOk(d)
  {
    assert d.written[..|d.written| - 1] == c.written;
    forall g | 0 <= g < |d.streams| ensures StreamOk(d.streams[g], LockOn(d, g), WrittenOn(d.written, g)) {
      if g == channel {
        LockOk(c.streams[g], d.lock.value, WrittenOn(c.written, g));
      }
    }
  }

  lemma StreamsHandler(c: Conn, a: Action, d: Conn)
    requires StreamsOk(c) && HandlerStep(c, a) == Some(d)
    ensures StreamsOk(d)
  {
    if a.LockWriter? {
      LockedStreams(c, a.request, d.lock.value.channel, a.packet, d);
    }
  }

  /** The stream that is being written to is right. */
  ghost predicate LockedOk(c: Conn, d: Conn) {
    c.lock.Some? && c.lock.value.channel < |d.streams| &&
    StreamOk(d.streams[c.lock.value.channel], LockOn(d, c.lock.value.channel), WrittenOn(c.written, c.lock.value.channel))
  }

  /** A writer's step is right for all streams if it is right for the one written to. */
  lemma StreamsBut(c: Conn, d: Conn)
    requires StreamsOk(c) && WriteFrame(c, d) && LockedOk(c, d)
    ensures StreamsOk(d)
  {
    forall g | 0 <= g < |d.streams| ensures StreamOk(d.streams[g], LockOn(d, g), WrittenOn(d.written, g)) {
      assert g != c.lock.value.channel ==> LockOn(d, g) == LockOn(c, g) && d.streams[g] == c.streams[g];
    }
  }

  lemma StreamBuffer(c: Conn, n: nat, d: Conn)
    requires LockedOk(c, c) && WriteStep(c, Buffer(n)) == Some(d)
    ensures LockedOk(c, d)
  {
    var l, s := c.lock.value, Locked(c);
    BufferOk(s, l, WrittenOn(c.written, l.channel), n);
    assert d.streams[l.channel] == s.(buffered := s.buffered + Serialise(l.packet)[l.pos..l.pos + n]);
    assert LockOn(d, l.channel) == Some(l.(pos := l.pos + n));
  }

  lemma StreamSend(c: Conn, n: nat, d: Conn)
    requires LockedOk(c, c) && WriteStep(c, Send(n)) == Some(d)
    ensures LockedOk(c, d)
  {
    SendOk(Locked(c), c.lock.value, WrittenOn(c.written, c.lock.value.channel), n);
  }

  lemma StreamFails(c: Conn, d: Conn)
    requires LockedOk(c, c) && WriteStep(c, WriteFails) == Some(d)
    ensures LockedOk(c, d)
  {
    FailOk(Locked(c), c.lock.value, WrittenOn(c.written, c.lock.value.channel));
  }

  lemma StreamUnlock(c: Conn, d: Conn)
    requires LockedOk(c, c) && WriteStep(c, UnlockWriter) == Some(d)
    ensures LockedOk(c, d)
  {
    if !Locked(c).broken {
      UnlockOk(Locked(c), c.lock.value, WrittenOn(c.written, c.lock.value.channel));
    }
  }

  lemma StreamsWrite(c: Conn, a: Action, d: Conn)
    requires StreamsOk(c) && WriteStep(c, a) == Some(d)
    ensures StreamsOk(d)
  {
    WriteStepFrame(c, a, d);
    assert LockedOk(c, c);
    match a
    case Buffer(n) => StreamBuffer(c, n, d); StreamsBut(c, d);
    case Send(n) => StreamSend(c, n, d); StreamsBut(c, d);
    case WriteFails => StreamFails(c, d); StreamsBut(c, d);
    case UnlockWriter => StreamUnlock(c, d); StreamsBut(c, d);
  }

  lemma StreamsStep(c: Conn, a: Action, cancelled: bool, d: Conn)
    requires ChannelInv(c) && StreamsOk(c) && Step(c, a, cancelled) == Some(d)
    ensures StreamsOk(d)
  {
    if LoopStep(c, a, cancelled).Some? {
      LoopStepFrame(c, a, cancelled, d);
      WrittenChannels(c);
      StreamsLoop(c, d);
    } else if HandlerStep(c, a).Some? {
      StreamsHandler(c, a, d);
    } else {
      StreamsWrite(c, a, d);
    }
  }
}
