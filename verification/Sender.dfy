/** One round of the sender: offer the buffer to the transport, keep what it did not take,
    and choose the next status. */
module Sender {
  import opened HttpTypes
  import opened StatusWord
  import opened Buffers

  // What send_bio or send_ssl returns, and what the library then says about it.
  datatype Outcome = Outcome(ret: int, wantRead: bool, wantWrite: bool, shouldRetry: bool)

  // The transport takes a prefix of the buffer, or nothing and says so by 0 or -1.
  predicate Plausible(o: Outcome, buffer: string) {
    -1 <= o.ret <= |buffer|
  }

  // `send_return < session.buffer->count` compares an `int` with an `unsigned long`.
  function AsUnsignedLong(x: int): int {
    if x < 0 then x + WORD else x
  }

  function Taken(o: Outcome, buffer: string): string
    requires Plausible(o, buffer)
  {
    if o.ret > 0 then buffer[..o.ret] else ""
  }

  predicate IsPartial(isSsl: bool, o: Outcome, buffer: string) {
    && !(isSsl && o.ret <= 0)
    && !(!isSsl && o.ret <= 0 && o.shouldRetry)
    && AsUnsignedLong(o.ret) < |buffer|
  }

  // What is left in the buffer.
  function Left(isSsl: bool, o: Outcome, buffer: string): string
    requires Plausible(o, buffer) && |buffer| < WORD - 1
  {
    if IsPartial(isSsl, o, buffer) then buffer[o.ret..] else buffer
  }

  function NextStatus(isSsl: bool, o: Outcome, buffer: string, connection: Connection): WorkStatus {
    if isSsl && o.ret <= 0 then
      if o.wantRead then SendFailed else if o.wantWrite then ReadyToSend else Rejected
    else if !isSsl && o.ret <= 0 && o.shouldRetry then SendFailed
    else if AsUnsignedLong(o.ret) < |buffer| then ReadyToSend
    else if o.ret == -1 then Rejected
    else if connection.Close? then Rejected
    else Sent
  }

  // Did this round put the last byte on the wire?
  predicate Finishes(o: Outcome, buffer: string) { o.ret == |buffer| }

  // No byte is lost or sent twice in a round, whatever the transport answers.
  lemma RoundConservesBytes(isSsl: bool, o: Outcome, buffer: string)
    requires Plausible(o, buffer) && 0 < |buffer| < WORD - 1
    ensures if Finishes(o, buffer) then Taken(o, buffer) == buffer
            else Taken(o, buffer) + Left(isSsl, o, buffer) == buffer && Left(isSsl, o, buffer) != ""
  {
    if o.ret > 0 && !Finishes(o, buffer) {
      assert buffer[..o.ret] + buffer[o.ret..] == buffer;
    }
  }

  lemma LeftIsShorter(isSsl: bool, o: Outcome, buffer: string)
    requires Plausible(o, buffer) && |buffer| < WORD - 1
    ensures |Left(isSsl, o, buffer)| <= |buffer|
  {
  }

  // The transport did not take a byte, and will not either.
  predicate HasFailed(isSsl: bool, o: Outcome) {
    if isSsl then o.ret <= 0 && !o.wantRead && !o.wantWrite else o.ret == -1 && !o.shouldRetry
  }

  // It did not take a byte now. On such an answer the session is parked, or queued once more.
  predicate MustWait(isSsl: bool, o: Outcome) {
    o.ret <= 0 && if isSsl then o.wantRead else o.shouldRetry
  }

  predicate MayGoOn(isSsl: bool, o: Outcome) {
    if isSsl then o.ret <= 0 && !o.wantRead && o.wantWrite else o.ret == 0 && !o.shouldRetry
  }

  // Which status stands for which answer. SENT is chosen exactly when the round finishes and the
  // connection stays; REJECTED exactly when it finishes and the connection closes, or the transport
  // failed; SEND_FAILED exactly when the transport asks to wait; READY_TO_SEND exactly when it took
  // some of the bytes, or none and asks to be offered them again.
  lemma StatusMeansFinished(isSsl: bool, o: Outcome, buffer: string, connection: Connection)
    requires Plausible(o, buffer) && 0 < |buffer| < WORD - 1
    ensures var w := NextStatus(isSsl, o, buffer, connection);
            && (w == Sent <==> Finishes(o, buffer) && connection.KeepAlive?)
            && (w == Rejected <==> (Finishes(o, buffer) && connection.Close?) || HasFailed(isSsl, o))
            && (w == SendFailed <==> MustWait(isSsl, o))
            && (w == ReadyToSend <==> 0 < o.ret < |buffer| || MayGoOn(isSsl, o))
            && Legal(Queued(Send), w)
  {
  }

  // The sends still to come are bounded by the bytes left as long as the transport takes some.
  lemma PartialSendShrinks(isSsl: bool, o: Outcome, buffer: string, connection: Connection)
    requires Plausible(o, buffer) && 0 < |buffer| < WORD - 1 && o.ret > 0
    ensures NextStatus(isSsl, o, buffer, connection) == ReadyToSend ==> |Left(isSsl, o, buffer)| < |buffer|
  {
  }

  // handle_d after the send: the unsent tail moves to the front of the buffer in place.
  method FinishSend(buffer: Buffer, o: Outcome, isSsl: bool, connection: Connection) returns (next: WorkStatus)
    requires buffer.Valid() && buffer.data != null && buffer.count < WORD - 1
    requires Plausible(o, buffer.Text())
    modifies buffer, buffer.data
    ensures buffer.Valid() && buffer.data == old(buffer.data) && buffer.capacity == old(buffer.capacity)
    ensures buffer.Text() == Left(isSsl, o, old(buffer.Text()))
    ensures next == NextStatus(isSsl, o, old(buffer.Text()), connection)
  {
    next := Sent;
    if isSsl && o.ret <= 0 {
      if o.wantRead {
        next := SendFailed;
      } else if o.wantWrite {
        next := ReadyToSend;
      } else {
        next := Rejected;
      }
    } else if !isSsl && o.ret <= 0 && o.shouldRetry {
      next := SendFailed;
    } else if AsUnsignedLong(o.ret) < buffer.count {
      Memmove(buffer.data, 0, o.ret, buffer.count - o.ret);
      buffer.count := buffer.count - o.ret;
      next := ReadyToSend;
    } else if o.ret == -1 {
      next := Rejected;
    } else if connection.Close? {
      next := Rejected;
    }
  }
}
