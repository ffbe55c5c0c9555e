/** The output side of a connection in both event loops (net/server_epoll.lua and
    net/server_select.lua): written data is queued, handed to the socket in pieces as large as
    the socket takes, and a connection that is closed gracefully is first drained.

    What the socket answers to a send, and what the connection's listener writes once the
    queue has drained, are inputs.
 */
module ByteStream {
  import opened Logs
  import opened DrainCallbacks

  /** The one stream both loops implement. `lost` tells that the socket failed, timed out or was
      closed by force. */
  ghost predicate Faithful(accepted: string, sent: string, queued: string, open: bool, lost: bool) {
    && sent <= accepted
    && (open ==> sent + queued == accepted)
    && (!open && !lost ==> sent == accepted)
  }

  /** How many bytes of the queue a send takes. */
  function Taken(result: SendResult, queued: string): nat {
    Portion(result, |queued|)
  }

  lemma SendKeepsStream(accepted: string, sent: string, queued: string, n: nat)
    requires sent + queued == accepted && n <= |queued|
    ensures (sent + queued[..n]) + queued[n..] == accepted
    ensures sent + queued[..n] <= accepted
  {
  }

  lemma WriteKeepsStream(accepted: string, sent: string, buffer: Log<string>, data: string)
    requires sent + Concat(buffer) == accepted
    ensures sent + Concat(Then(buffer, data)) == accepted + data
  {
  }

  lemma QueueOfOne(data: string)
    ensures Concat(Then(Empty, data)) == data
  {
  }

  /** A connection of the epoll loop. */
  class EpollConnection {
    var writeBuffer: Log<string>
    var open: bool
    var closing: bool
    var writeLock: bool
    var wantWrite: bool

    ghost var sent: string
    ghost var accepted: string
    ghost var lost: bool

    ghost predicate Valid()
      reads this
    {
      && Faithful(accepted, sent, Concat(writeBuffer), open, lost)
      && (open ==> !lost) && (!open ==> lost || closing)
      && (open && writeBuffer != Empty && !writeLock ==> wantWrite)
    }

    constructor ()
      ensures Valid() && open && !closing && accepted == ""
    {
      writeBuffer, open, closing, writeLock, wantWrite := Empty, true, false, false, true;
      sent, accepted, lost := "", "", false;
    }

    /** write. Closing takes the method away from the connection, but sessions keep the function itself (`kept`), which
        goes on queueing data. What is written after the connection was released is never sent. */
    method Write(data: string, kept: bool := false) returns (ok: bool)
      requires Valid()
      modifies this`writeBuffer, this`wantWrite, this`accepted
      ensures Valid() && ok == (kept || !closing)
      ensures accepted == old(accepted) + if ok && open then data else ""
      ensures writeBuffer == if ok then Then(old(writeBuffer), data) else old(writeBuffer)
    {
      assert accepted + "" == accepted;
      if closing && !kept {
        return false;
      }
      if open {
        WriteKeepsStream(accepted, sent, writeBuffer, data);
        accepted := accepted + data;
      }
      writeBuffer := Then(writeBuffer, data);
      if !writeLock {
        wantWrite := open;
      }
      ok := true;
    }

    /** Several writes in a row. */
    method WriteAll(texts: seq<string>)
      requires Valid() && !closing
      modifies this`writeBuffer, this`wantWrite, this`accepted
      ensures Valid()
      ensures writeBuffer == Extend(old(writeBuffer), texts) && (texts == [] ==> wantWrite == old(wantWrite))
    {
      for i := 0 to |texts|
        invariant Valid() && (i == 0 ==> wantWrite == old(wantWrite))
        invariant writeBuffer == Extend(old(writeBuffer), texts[..i])
      {
        var _ := Write(texts[i]);
        assert texts[..i + 1][..i] == texts[..i];
      }
      assert texts[..|texts|] == texts;
    }

    /** close: at once if nothing is queued, else once the queue has drained. */
    method Close()
      requires Valid()
      modifies this`open, this`closing, this`wantWrite
      ensures Valid()
      ensures old(open) ==> closing && (open <==> writeBuffer != Empty) && wantWrite == open
      ensures !old(open) ==> !open && closing == old(closing)
    {
      if !open {
        return;
      }
      closing := true;
      if writeBuffer != Empty {
        wantWrite := true;
      } else {
        assert sent + Concat(writeBuffer) == sent;
        Destroy();
      }
    }

    method Destroy()
      modifies this`open, this`wantWrite
      ensures !open && !wantWrite
    {
      open, wantWrite := false, false;
    }

    /** A write timeout, a read timeout or a socket error. */
    method Fail()
      requires Valid()
      modifies this`open, this`wantWrite, this`lost
      ensures Valid() && !open && lost
    {
      lost := true;
      Destroy();
    }

    method PauseWrites()
      requires Valid()
      modifies this`writeLock, this`wantWrite
      ensures Valid() && writeLock && !wantWrite
    {
      writeLock, wantWrite := true, false;
    }

    method ResumeWrites()
      requires Valid()
      modifies this`writeLock, this`wantWrite
      ensures Valid() && !writeLock
    {
      writeLock := false;
      if writeBuffer != Empty && open {
        wantWrite := true;
      }
    }

    /** The queue goes to the socket; the socket takes all of it or its first bytes. */
    method Transmit(result: SendResult)
      requires Valid() && open && wantWrite
      modifies this`writeBuffer, this`sent
      ensures Valid()
      ensures var queued := old(Concat(writeBuffer));
        var n := Taken(result, queued);
        sent == old(sent) + queued[..n] && Concat(writeBuffer) == queued[n..]
      ensures result == AllSent ==> writeBuffer == Empty
    {
      var data := Concat(writeBuffer);
      var n := Taken(result, data);
      SendKeepsStream(accepted, sent, data, n);
      QueueOfOne(data[n..]);
      sent := sent + data[..n];
      writeBuffer := if result == AllSent then Empty else Then(Empty, data[n..]);
    }

    /** After the callback: a close waits for what it has written, and without either nothing more is to be written. */
    ghost predicate AfterDrain(drain: seq<string>, thenClose: bool)
      reads this
    {
      if thenClose then closing && (open <==> drain != [])
      else open && !closing && (drain == [] ==> !wantWrite)
    }

    /** onwritable, called when the poller was asked to watch for that. `drain` is what the listener
        writes when told that the queue is empty, and `thenClose` tells whether it closes the
        connection too. */
    method OnWritable(result: SendResult, drain: seq<string>, thenClose: bool)
      requires Valid() && open && wantWrite
      modifies this
      ensures Valid()
      ensures sent == old(sent) + old(Concat(writeBuffer))[..Taken(result, old(Concat(writeBuffer)))]
      ensures result == AllSent ==> !lost && if old(closing) then !open else writeBuffer == Extend(Empty, drain)
      ensures result == AllSent && !old(closing) ==> AfterDrain(drain, thenClose)
      ensures result.Partial? ==>
        && Concat(writeBuffer) == old(Concat(writeBuffer))[Taken(result, old(Concat(writeBuffer)))..]
        && accepted == old(accepted) && (open <==> result.error != Fatal) && lost == !open
    {
      Transmit(result);
      ghost var rest := Concat(writeBuffer);
      Settle(result, drain, thenClose);
      assert result.Partial? ==> Concat(writeBuffer) == rest;
    }

    /** What follows from the socket's answer. */
    method Settle(result: SendResult, drain: seq<string>, thenClose: bool)
      requires Valid() && open && wantWrite && (result == AllSent ==> writeBuffer == Empty)
      modifies this`writeBuffer, this`open, this`closing, this`wantWrite, this`accepted, this`lost
      ensures Valid()
      ensures result == AllSent && !old(closing) ==> writeBuffer == Extend(Empty, drain)
      ensures result == AllSent && old(closing) ==> !open
      ensures result == AllSent && !old(closing) ==> AfterDrain(drain, thenClose)
      ensures result.Partial? ==>
        writeBuffer == old(writeBuffer) && accepted == old(accepted) && (open <==> result.error != Fatal)
      ensures lost <==> result.Partial? && result.error == Fatal
    {
      match result {
        case AllSent =>
          wantWrite := false;
          Drained(drain, thenClose);
        case Partial(_, error) =>
          match error {
            case WantWrite => wantWrite := true;
            case Timeout => wantWrite := true;
            case WantRead =>
            case Fatal => Fail();
          }
      }
    }

    /** ondrain: the listener's own, or close when a close is waiting for the queue. */
    method Drained(drain: seq<string>, thenClose: bool)
      requires Valid() && open && writeBuffer == Empty
      modifies this`writeBuffer, this`open, this`closing, this`wantWrite, this`accepted
      ensures Valid()
      ensures old(closing) ==> !open && writeBuffer == Empty && accepted == old(accepted)
      ensures !old(closing) ==> writeBuffer == Extend(Empty, drain)
      ensures !old(closing) && thenClose ==> closing && (open <==> writeBuffer != Empty)
      ensures !old(closing) && !thenClose ==> open && !closing && (drain == [] ==> wantWrite == old(wantWrite))
    {
      if closing {
        Close();
      } else {
        WriteAll(drain);
        if thenClose {
          Close();
        }
      }
    }
  }

  /** A connection of the select loop. */
  class SelectConnection {
    const maxSendLen: nat
    var queue: Log<string>
    var bufferLen: nat
    var open: bool
    var toClose: bool
    var inSendList: bool
    var doomed: bool

    ghost var sent: string
    ghost var accepted: string
    ghost var lost: bool
    ghost var dropped: nat

    ghost function ControlOf(): Control
      reads this
    {
      Control(open, toClose, queue != Empty, |Concat(queue)|, bufferLen, lost, dropped)
    }

    /** `bufferLen` counts the queued bytes, plus those of the write that exceeded the limit; such
        a connection is doomed to be closed by force at the end of the cycle. */
    ghost predicate Core()
      reads this
    {
      && Faithful(accepted, sent, Concat(queue), open, lost)
      && (open ==> !lost) && Sound(ControlOf())
      && (if open then dropped == 0 else |accepted| == |sent| + dropped)
      && (open && !doomed ==> |Concat(queue)| == bufferLen <= maxSendLen)
      && (open ==> (queue != Empty <==> inSendList))
    }

    ghost predicate Valid()
      reads this
    {
      Core() && Settled(ControlOf())
    }

    constructor (maxSendLen: nat)
      ensures Valid() && open && !toClose && !doomed && accepted == "" && this.maxSendLen == maxSendLen
      ensures ControlOf() == Control(true, false, false, 0, 0, false, 0)
    {
      this.maxSendLen := maxSendLen;
      queue, bufferLen, open, toClose, inSendList, doomed := Empty, 0, true, false, false, false;
      sent, accepted, lost, dropped := "", "", false, 0;
    }

    /** write. A connection that waits to be closed has no such method any more, but sessions keep the function
        itself, which goes on queueing data. */
    method Write(data: string) returns (ok: bool)
      requires Core()
      modifies this`queue, this`bufferLen, this`inSendList, this`doomed, this`accepted
      ensures Core() && (old(Valid()) ==> Valid())
      ensures ok <==> open && old(bufferLen) + |data| <= maxSendLen
      ensures accepted == old(accepted) + if ok then data else ""
      ensures queue == if ok then Then(old(queue), data) else old(queue)
      ensures doomed == (old(doomed) || (open && !ok))
      ensures ControlOf() == Wrote(old(ControlOf()), maxSendLen, |data|)
    {
      assert accepted + "" == accepted;
      if !open {
        return false;
      }
      bufferLen := bufferLen + |data|;
      if bufferLen > maxSendLen {
        doomed := true;
        return false;
      }
      inSendList := true;
      WriteKeepsStream(accepted, sent, queue, data);
      accepted := accepted + data;
      queue := Then(queue, data);
      ok := true;
    }

    /** The socket is given up, whatever is still queued. */
    method ForceClose()
      requires Core()
      modifies this`queue, this`open, this`inSendList, this`lost, this`dropped
      ensures Valid() && !open && lost == (old(lost) || (old(open) && old(queue) != Empty))
      ensures ControlOf() == Forced(old(ControlOf()))
    {
      if open {
        lost, dropped := queue != Empty, |Concat(queue)|;
        assert Concat(Empty) == "" && sent + "" == sent;
        queue, inSendList, open := Empty, false, false;
      }
    }

    /** The queue goes to the socket; the socket takes all of it or its first bytes. */
    method Transmit(result: SendResult)
      requires Core() && open && queue != Empty
      modifies this`queue, this`bufferLen, this`inSendList, this`sent
      ensures var queued := old(Concat(queue));
        var n := Taken(result, queued);
        && sent == old(sent) + queued[..n]
        && queue == (if result == AllSent then Empty else Then(Empty, queued[n..]))
        && Concat(queue) == queued[n..]
      ensures Core() && ControlOf() == Transmitted(old(ControlOf()), result)
    {
      var data := Concat(queue);
      var n := Taken(result, data);
      SendKeepsStream(accepted, sent, data, n);
      QueueOfOne(data[n..]);
      sent := sent + data[..n];
      if result == AllSent {
        queue, bufferLen, inSendList := Empty, 0, false;
      } else {
        queue, bufferLen := Then(Empty, data[n..]), bufferLen - n;
      }
    }

    /** The socket is released after everything was sent. */
    method Release()
      requires Core() && open && queue == Empty
      modifies this`open, this`inSendList
      ensures Valid() && ControlOf() == old(ControlOf()).(open := false)
    {
      assert Concat(queue) == "" && sent + "" == sent;
      open, inSendList := false, false;
    }

    /** A socket error or a timeout: what is queued is discarded. */
    method Fail()
      requires Core() && open
      modifies this`queue, this`open, this`inSendList, this`lost, this`dropped
      ensures Valid() && !open && lost && ControlOf() == Failed(old(ControlOf()))
    {
      lost, dropped := true, |Concat(queue)|;
      queue, inSendList, open := Empty, false, false;
      assert Concat(queue) == "";
    }

    /** Bytes once sent stay sent. */
    twostate predicate SentMore()
      reads this
    {
      old(sent) <= sent && old(accepted) <= accepted
    }

    /** _sendbuffer. `drain` is the listener's callback, run when the queue has drained. */
    method SendBuffer(result: SendResult, drain: Callback) returns (ending: Ending)
      requires Core() && open && queue != Empty
      modifies this
      ensures Core() && (ending != Raised ==> Valid()) && SentMore()
      ensures (ControlOf(), ending) == SentBuffer(old(ControlOf()), maxSendLen, result, drain)
      ensures var queued := old(Concat(queue));
        && old(sent) + queued[..Taken(result, queued)] <= sent
        && (result.Partial? ==> sent == old(sent) + queued[..Taken(result, queued)] && accepted == old(accepted))
        && (result.Partial? && open ==> Concat(queue) == queued[Taken(result, queued)..])
      // a socket that could take no more now keeps the connection, any other error ends it
      ensures result.Partial? ==>
        && (open <==> result.error == WantWrite || result.error == Timeout)
        && ending == (if open then Normal else Broken)
      ensures open ==> dropped == 0 && !lost
      decreases drain, 2
    {
      Transmit(result);
      if result == AllSent {
        ending := Drain(drain);
      } else if result.error == Timeout || result.error == WantWrite {
        ending := Normal;
      } else {
        Fail();
        ending := Broken;
      }
    }

    /** After a full send: the callback, then the close that waited for it. */
    method Drain(drain: Callback) returns (ending: Ending)
      requires Core() && open && queue == Empty
      modifies this
      ensures Core() && (ending != Raised ==> Valid()) && SentMore()
      ensures var (d, raised) := Performed(old(ControlOf()), maxSendLen, drain);
        (ControlOf(), ending) == if raised then (d, Raised) else Finished(d)
      decreases drain, 1
    {
      var raised := Perform(drain);
      if raised {
        return Raised;
      }
      if !toClose {
        return Normal;
      }
      if !open {
        return Raised;
      }
      ForceClose();
      ending := Normal;
    }

    /** The steps of a callback, up to an error. */
    method Perform(calls: Callback) returns (raised: bool)
      requires Core()
      modifies this
      ensures Core() && SentMore()
      ensures (ControlOf(), raised) == Performed(old(ControlOf()), maxSendLen, calls)
      decreases calls, 0
    {
      match calls {
        case End =>
          raised := false;
        case Write(data, rest) =>
          var _ := this.Write(data);
          raised := Perform(rest);
        case Close(result, drain, rest) =>
          var ending := this.Close(result, drain);
          if ending == Raised {
            return true;
          }
          raised := Perform(rest);
      }
    }

    /** close: tries to send what is queued, and waits for the rest to go. */
    method Close(result: SendResult, drain: Callback) returns (ending: Ending)
      requires Core()
      modifies this
      ensures Core() && (ending != Raised ==> Valid()) && SentMore()
      ensures (ControlOf(), ending) == ClosedBy(old(ControlOf()), maxSendLen, result, drain)
      decreases drain, 3
    {
      if !open {
        return Normal;
      }
      if queue != Empty {
        ending := SendBuffer(result, drain);
        if ending == Raised {
          return;
        }
        if queue != Empty {
          toClose := true;
          return Normal;
        }
      }
      if open {
        Release();
      }
      ending := Normal;
    }
  }

  /** The end of a file sent in chunks (net/http/server.lua): when the last chunk is out, the callback writes the closing
      mark and closes the connection. If the socket does not take the mark at once, the rest of it is never sent. */
  method LoseTheEnd(chunk: string, maxSendLen: nat) returns (c: SelectConnection)
    requires |chunk| <= maxSendLen && 5 <= maxSendLen
    ensures !c.open && c.lost && c.sent < c.accepted
  {
    c := new SelectConnection(maxSendLen);
    var _ := c.Write(chunk);
    var mark := "0\r\n\r\n";
    var nested := Partial(2, WantWrite);
    WriteThenClose(c.ControlOf(), maxSendLen, mark, nested);
    var _ := c.SendBuffer(AllSent, Callback.Write(mark, Callback.Close(nested, End, End)));
  }
}
