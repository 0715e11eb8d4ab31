/** The two ends of a connection: CNode's receive and send queues (src/net.h and src/net.cpp). */
module NetNode {
  import opened Basics
  import opened NetFraming

  /** memcpy into the header buffer; -1 when the complete header announces too much. */
  method ReadHeader(msg: NetMessage, pch: Bytes) returns (r: NetMessage, handled: int)
    requires msg.Valid() && !msg.in_data && pch != []
    ensures handled <= |pch|
    ensures handled < 0 ==>
      exists n :: 0 < n <= |pch| && msg.nHdrPos + n <= HEADER_SIZE && WithHeader(msg, pch[..n]) == None
    ensures handled >= 0 ==>
      handled > 0 && msg.nHdrPos + handled <= HEADER_SIZE && WithHeader(msg, pch[..handled]) == Some(r)
  {
    hide Copied;
    var nRemaining := HEADER_SIZE - msg.nHdrPos;
    var nCopy := if nRemaining < |pch| then nRemaining else |pch|;
    r := msg.(hdrbuf := Copied(msg.hdrbuf, msg.nHdrPos, pch[..nCopy]));
    r := r.(nHdrPos := msg.nHdrPos + nCopy);
    if r.nHdrPos < HEADER_SIZE {
      return r, nCopy;
    }
    var nMessageSize := FromLe32(r.hdrbuf[SIZE_OFFSET..CHECKSUM_OFFSET]);
    if nMessageSize > MAX_SIZE {
      assert WithHeader(msg, pch[..nCopy]) == None;
      return r, -1;
    }
    r := r.(in_data := true, nMessageSize := nMessageSize, vRecv := Blank(nMessageSize));
    handled := nCopy;
  }

  method ReadData(msg: NetMessage, pch: Bytes) returns (r: NetMessage, handled: nat)
    requires msg.Valid() && msg.in_data && !msg.complete() && pch != []
    ensures 0 < handled <= |pch| && msg.nDataPos + handled <= msg.nMessageSize && r == WithData(msg, pch[..handled])
  {
    hide Copied;
    var nRemaining := msg.nMessageSize - msg.nDataPos;
    var nCopy := if nRemaining < |pch| then nRemaining else |pch|;
    r := msg.(vRecv := Copied(msg.vRecv, msg.nDataPos, pch[..nCopy]));
    r := r.(nDataPos := msg.nDataPos + nCopy);
    handled := nCopy;
  }

  lemma SplitFeed(msgs: seq<NetMessage>, s: Bytes, n: nat)
    requires AllValid(msgs) && n <= |s|
    ensures Feed(msgs, s) == (match Feed(msgs, s[..n]) case None => None case Some(more) => Feed(more, s[n..]))
  {
    assert s == s[..n] + s[n..];
    FeedPieces(msgs, s[..n], s[n..]);
  }

  /** The bytes of all messages waiting. */
  function Flat(vSendMsg: seq<Bytes>): Bytes {
    if vSendMsg == [] then [] else vSendMsg[0] + Flat(vSendMsg[1..])
  }

  lemma {:induction false} FlatAppend(vSendMsg: seq<Bytes>, data: Bytes)
    ensures Flat(vSendMsg + [data]) == Flat(vSendMsg) + data
  {
    if vSendMsg == [] {
      assert vSendMsg + [data] == [data] && [data][1..] == [];
      assert data + Flat([]) == Flat([]) + data;
    } else {
      FlatAppend(vSendMsg[1..], data);
      assert (vSendMsg + [data])[1..] == vSendMsg[1..] + [data];
      assert vSendMsg[0] + (Flat(vSendMsg[1..]) + data) == vSendMsg[0] + Flat(vSendMsg[1..]) + data;
    }
  }

  /** What waits from message `it` and byte `offset` of it on. */
  function Waiting(v: seq<Bytes>, it: nat, offset: nat): Bytes
    requires it <= |v|
  {
    var flat := Flat(v[it..]);
    if offset <= |flat| then flat[offset..] else []
  }

  /** The state once the sent messages are dropped. */
  lemma NothingWaits(v: seq<Bytes>, it: nat, offset: nat)
    requires it <= |v| && (if it == |v| then offset == 0 else offset < |v[it]|)
    ensures offset <= |Flat(v[it..])| && Waiting(v, it, offset) == Flat(v[it..])[offset..]
    ensures it < |v| ==> v[it..][0] == v[it]
    ensures it == |v| ==> v[it..] == [] && Flat(v[it..]) == []
  {
    if it < |v| {
      assert v[it..][0] == v[it];
      assert Flat(v[it..]) == v[it] + Flat(v[it..][1..]);
    }
  }

  /** The socket takes `n` more bytes of the current message. */
  lemma Taken(v: seq<Bytes>, it: nat, offset: nat, n: nat)
    requires it < |v| && offset + n <= |v[it]|
    ensures Waiting(v, it, offset) == v[it][offset..offset + n] + Waiting(v, it, offset + n)
    ensures offset + n == |v[it]| ==> Waiting(v, it, offset + n) == Waiting(v, it + 1, 0)
    ensures |Flat(v[it..])| == |v[it]| + |Flat(v[it + 1..])|
  {
    assert v[it..][0] == v[it] && v[it..][1..] == v[it + 1..];
    var flat := Flat(v[it..]);
    assert flat == v[it] + Flat(v[it + 1..]);
    assert flat[offset..] == flat[offset..offset + n] + flat[offset + n..];
    assert flat[offset..offset + n] == v[it][offset..offset + n];
    if offset + n == |v[it]| {
      assert flat[offset + n..] == Flat(v[it + 1..]);
      assert Flat(v[it + 1..])[0..] == Flat(v[it + 1..]);
    }
  }

  lemma SentMore(v: seq<Bytes>, it: nat, offset: nat, n: nat, queued: Bytes, sent: Bytes)
    requires it < |v| && offset + n <= |v[it]| && queued == sent + Waiting(v, it, offset)
    ensures var sent1 := sent + v[it][offset..offset + n];
      && sent <= sent1 && queued == sent1 + Waiting(v, it, offset + n)
      && (offset + n == |v[it]| ==> queued == sent1 + Waiting(v, it + 1, 0))
      && |Flat(v[it..])| == |v[it]| + |Flat(v[it + 1..])|
  {
    Taken(v, it, offset, n);
    var gone, left := v[it][offset..offset + n], Waiting(v, it, offset + n);
    assert sent + (gone + left) == sent + gone + left;
  }

  class CNode {
    const wiring: Wiring
    var vRecvMsg: seq<NetMessage>
    var ssSend: Bytes
    var vSendMsg: seq<Bytes>
    var nSendSize: nat
    var nSendOffset: nat
    var fDisconnect: bool
    ghost var queued: Bytes
    ghost var sent: Bytes

    /** The queue and its counters agree, and what went out is what was queued, up to what still waits. */
    ghost predicate SendOk()
      reads this
    {
      && nSendSize == |Flat(vSendMsg)|
      && (forall i :: 0 <= i < |vSendMsg| ==> vSendMsg[i] != [])
      && (if vSendMsg == [] then nSendOffset == 0 else nSendOffset < |vSendMsg[0]|)
      && nSendOffset <= |Flat(vSendMsg)| && queued == sent + Flat(vSendMsg)[nSendOffset..]
    }

    constructor (wiring: Wiring)
      ensures this.wiring == wiring && SendOk() && vRecvMsg == [] && ssSend == [] && queued == []
    {
      this.wiring := wiring;
      vRecvMsg, ssSend, vSendMsg, nSendSize, nSendOffset, fDisconnect := [], [], [], 0, 0, false;
      queued, sent := [], [];
    }

    /** Takes a piece of the stream. */
    method ReceiveMsgBytes(pch: Bytes) returns (ok: bool)
      requires AllValid(vRecvMsg)
      modifies `vRecvMsg
      ensures AllValid(vRecvMsg)
      ensures ok <==> Feed(old(vRecvMsg), pch).Some?
      ensures ok ==> vRecvMsg == Feed(old(vRecvMsg), pch).value && WireOf(vRecvMsg) == WireOf(old(vRecvMsg)) + pch
    {
      hide *;
      ghost var whole := Feed(vRecvMsg, pch);
      var at := 0;
      assert pch[0..] == pch;
      while at < |pch|
        invariant 0 <= at <= |pch| && AllValid(vRecvMsg) && Feed(vRecvMsg, pch[at..]) == whole
        decreases |pch| - at
      {
        var rest := pch[at..];
        FeedOpened(vRecvMsg, rest);
        OpenedParts(vRecvMsg);
        OpenedIs(vRecvMsg);
        if vRecvMsg == [] || vRecvMsg[|vRecvMsg| - 1].complete() {
          vRecvMsg := vRecvMsg + [FRESH];
        }
        var msgs := vRecvMsg;
        var front, msg := msgs[..|msgs| - 1], msgs[|msgs| - 1];
        var r, handled;
        if !msg.in_data {
          r, handled := ReadHeader(msg, rest);
          if handled < 0 {
            HeaderRefused(front, msg, rest);
            return false;
          }
          HeaderTaken(front, msg, rest, handled, r);
        } else {
          r, handled := ReadData(msg, rest);
          DataTaken(front, msg, rest, handled);
        }
        vRecvMsg := front + [r];
        assert rest[handled..] == pch[at + handled..];
        at := at + handled;
      }
      NothingToFeed(vRecvMsg, pch[at..]);
      ok := true;
      FeedKeepsBytes(old(vRecvMsg), pch);
    }

    /** Starts a message with a header that lacks its size and checksum. */
    method BeginMessage(name: Bytes)
      requires ssSend == [] && |name| <= COMMAND_SIZE
      modifies `ssSend
      ensures ssSend == wiring.magic + Command(name) + Le32(0) + Le32(0)
    {
      ssSend := wiring.magic + Command(name) + Le32(0) + Le32(0);
    }

    /** Fills in size and checksum, queues the message, and sends at once if nothing was waiting. */
    method EndMessage(ghost f: Frame)
      requires SendOk() && WiringOk(wiring) && Sendable(f)
      requires ssSend == wiring.magic + Command(f.name) + Le32(0) + Le32(0) + f.payload
      modifies this
      ensures SendOk() && ssSend == [] && queued == old(queued) + Encoded(f, wiring) && old(sent) <= sent
      ensures vRecvMsg == old(vRecvMsg) || (fDisconnect && vRecvMsg == [])
    {
      hide Le32, Command, Flat;
      var nSize := |ssSend| - HEADER_SIZE;
      assert ssSend[HEADER_SIZE..] == f.payload;
      var s := Copied(ssSend, SIZE_OFFSET, Le32(nSize));
      var nChecksum := wiring.checksum(s[HEADER_SIZE..]);
      assert s[HEADER_SIZE..] == f.payload;
      assert |s| >= CHECKSUM_OFFSET + 4;
      s := Copied(s, CHECKSUM_OFFSET, Le32(nChecksum));
      assert s == Encoded(f, wiring);
      ssSend := [];
      Queue(s);
      if |vSendMsg| == 1 {
        SocketSendData();
      }
    }

    /** vSendMsg.push_back and its size. */
    method Queue(data: Bytes)
      requires SendOk() && data != []
      modifies `vSendMsg, `nSendSize, `queued
      ensures SendOk() && vSendMsg == old(vSendMsg) + [data] && queued == old(queued) + data
    {
      FlatAppend(vSendMsg, data);
      assert (Flat(vSendMsg) + data)[nSendOffset..] == Flat(vSendMsg)[nSendOffset..] + data;
      assert sent + (Flat(vSendMsg)[nSendOffset..] + data) == sent + Flat(vSendMsg)[nSendOffset..] + data;
      hide Flat;
      vSendMsg := vSendMsg + [data];
      nSendSize := nSendSize + |data|;
      queued := queued + data;
    }

    /** Sends from the front of the queue for as long as the socket takes whole messages. What has gone out
        stays a prefix of what was queued; an empty queue means that all of it has gone out. */
    method SocketSendData()
      requires SendOk()
      modifies `vSendMsg, `nSendSize, `nSendOffset, `fDisconnect, `vRecvMsg, `sent
      ensures SendOk() && old(sent) <= sent
      ensures vSendMsg == [] ==> sent == queued
      ensures vRecvMsg == old(vRecvMsg) || (fDisconnect && vRecvMsg == [])
    {
      hide *;
      var v := vSendMsg;
      var it := 0;
      Unfold();
      while it < |v|
        invariant 0 <= it <= |v| && vSendMsg == v
        invariant nSendSize == |Flat(v[it..])|
        invariant if it == |v| then nSendOffset == 0 else nSendOffset < |v[it]|
        invariant queued == sent + Waiting(v, it, nSendOffset) && old(sent) <= sent
        invariant vRecvMsg == old(vRecvMsg)
        decreases |v| - it
      {
        var data := v[it];
        assert |data| > nSendOffset;
        var nBytes := Send(|data| - nSendOffset);
        if nBytes > 0 {
          SentMore(v, it, nSendOffset, nBytes, queued, sent);
          sent := sent + data[nSendOffset..nSendOffset + nBytes];
          nSendOffset := nSendOffset + nBytes;
          if nSendOffset == |data| {
            nSendOffset := 0;
            nSendSize := nSendSize - |data|;
            it := it + 1;
          } else {
            break;
          }
        } else {
          if nBytes < 0 {
            if * {
              fDisconnect, vRecvMsg := true, [];
            }
          }
          break;
        }
      }
      NothingWaits(v, it, nSendOffset);
      if it == |v| {
        assert nSendOffset == 0;
        assert nSendSize == 0;
      }
      vSendMsg := v[it..];
      Fold();
    }

    lemma Unfold()
      requires SendOk()
      ensures vSendMsg[0..] == vSendMsg && nSendSize == |Flat(vSendMsg)|
      ensures forall i :: 0 <= i < |vSendMsg| ==> vSendMsg[i] != []
      ensures if vSendMsg == [] then nSendOffset == 0 else nSendOffset < |vSendMsg[0]|
      ensures queued == sent + Waiting(vSendMsg, 0, nSendOffset)
    {
      NothingWaits(vSendMsg, 0, nSendOffset);
    }

    lemma Fold()
      requires nSendSize == |Flat(vSendMsg)| && nSendOffset <= |Flat(vSendMsg)|
      requires forall i :: 0 <= i < |vSendMsg| ==> vSendMsg[i] != []
      requires if vSendMsg == [] then nSendOffset == 0 else nSendOffset < |vSendMsg[0]|
      requires queued == sent + Flat(vSendMsg)[nSendOffset..]
      ensures SendOk() && (vSendMsg == [] ==> sent == queued)
    {
    }

    /** send(): some of the bytes, none, or an error. */
    method Send(n: nat) returns (nBytes: int)
      ensures -1 <= nBytes <= n
    {
      nBytes :| -1 <= nBytes <= n;
    }

    /** A whole message with its command. */
    method PushMessage(name: Bytes, payload: Bytes)
      requires SendOk() && WiringOk(wiring) && Sendable(Frame(name, payload)) && ssSend == []
      modifies this
      ensures SendOk() && ssSend == [] && queued == old(queued) + Encoded(Frame(name, payload), wiring)
    {
      hide Le32, Command, Encoded, Flat;
      BeginMessage(name);
      ssSend := ssSend + payload;
      EndMessage(Frame(name, payload));
    }
  }

  lemma OpenedIs(msgs: seq<NetMessage>)
    ensures Opened(msgs) == if msgs == [] || msgs[|msgs| - 1].complete() then msgs + [FRESH] else msgs
  {
  }

  lemma NothingToFeed(msgs: seq<NetMessage>, s: Bytes)
    requires AllValid(msgs) && s == []
    ensures Feed(msgs, s) == Some(msgs)
  {
  }

  lemma HeaderRefused(front: seq<NetMessage>, msg: NetMessage, s: Bytes)
    requires AllValid(front + [msg]) && msg.Valid() && !msg.in_data
    requires exists n :: 0 < n <= |s| && msg.nHdrPos + n <= HEADER_SIZE && WithHeader(msg, s[..n]) == None
    ensures Feed(front + [msg], s) == None
  {
    var n :| 0 < n <= |s| && msg.nHdrPos + n <= HEADER_SIZE && WithHeader(msg, s[..n]) == None;
    FeedHeader(front, msg, s[..n]);
    SplitFeed(front + [msg], s, n);
    hide Feed;
  }

  lemma HeaderTaken(front: seq<NetMessage>, msg: NetMessage, s: Bytes, n: nat, r: NetMessage)
    requires AllValid(front + [msg]) && msg.Valid() && !msg.in_data
    requires 0 < n <= |s| && msg.nHdrPos + n <= HEADER_SIZE && WithHeader(msg, s[..n]) == Some(r)
    ensures AllValid(front + [r]) && Feed(front + [msg], s) == Feed(front + [r], s[n..])
  {
    FeedHeader(front, msg, s[..n]);
    SplitFeed(front + [msg], s, n);
    hide Feed;
  }

  lemma DataTaken(front: seq<NetMessage>, msg: NetMessage, s: Bytes, n: nat)
    requires AllValid(front + [msg]) && msg.Valid() && msg.in_data
    requires n <= |s| && msg.nDataPos + n <= msg.nMessageSize
    ensures AllValid(front + [WithData(msg, s[..n])])
    ensures Feed(front + [msg], s) == Feed(front + [WithData(msg, s[..n])], s[n..])
  {
    FeedData(front, msg, s[..n]);
    SplitFeed(front + [msg], s, n);
    hide Feed;
  }

  // ---- from one end to the other ---------------------------------------------------------------------

  /** Receives a stream in pieces of any size. */
  method ReceivePieces(node: CNode, pieces: seq<Bytes>) returns (ok: bool)
    requires AllValid(node.vRecvMsg)
    modifies node`vRecvMsg
    ensures AllValid(node.vRecvMsg)
    ensures ok <==> Feed(old(node.vRecvMsg), Flat(pieces)).Some?
    ensures ok ==> node.vRecvMsg == Feed(old(node.vRecvMsg), Flat(pieces)).value
  {
    hide Feed, AllValid;
    ghost var start := node.vRecvMsg;
    assert pieces[0..] == pieces;
    for i := 0 to |pieces|
      invariant AllValid(node.vRecvMsg) && AllValid(start)
      invariant Feed(node.vRecvMsg, Flat(pieces[i..])) == Feed(start, Flat(pieces))
    {
      assert pieces[i..][0] == pieces[i] && pieces[i..][1..] == pieces[i + 1..];
      FeedPieces(node.vRecvMsg, pieces[i], Flat(pieces[i + 1..]));
      ok := node.ReceiveMsgBytes(pieces[i]);
      if !ok {
        return;
      }
    }
    NothingToFeed(node.vRecvMsg, Flat(pieces[|pieces|..]));
    ok := true;
  }

  /** Main result: what a peer has got through of a stream of frames, cut up in any way, leaves the first of
      those frames ready, and all of them once it is all through. */
  method Deliver(node: CNode, pieces: seq<Bytes>, ghost fs: seq<Frame>, ghost w: Wiring) returns (ok: bool)
    requires node.vRecvMsg == [] && WiringOk(w) && forall i :: 0 <= i < |fs| ==> FrameOk(fs[i])
    requires Flat(pieces) <= Stream(fs, w)
    modifies node`vRecvMsg
    ensures ok && Ready(node.vRecvMsg) <= AllArrived(fs, w)
    ensures Flat(pieces) == Stream(fs, w) ==> node.vRecvMsg == AllArrived(fs, w)
  {
    hide Feed, WiringOk, FrameOk, Stream, AllArrived, Ready, Flat, AllValid;
    NothingValid();
    PrefixArrives(fs, w, Flat(pieces));
    StreamArrives(fs, w);
    ok := ReceivePieces(node, pieces);
  }

  /** Queues frames one after the other, from an idle node. */
  method PushAll(node: CNode, fs: seq<Frame>)
    requires node.SendOk() && node.ssSend == [] && node.queued == [] && node.sent == [] && WiringOk(node.wiring)
    requires forall i :: 0 <= i < |fs| ==> FrameOk(fs[i])
    modifies node
    ensures node.SendOk() && node.queued == Stream(fs, node.wiring) && node.sent <= Stream(fs, node.wiring)
  {
    hide Encoded, CNode.SendOk;
    for i := 0 to |fs|
      invariant node.SendOk() && node.ssSend == [] && node.queued == Stream(fs[..i], node.wiring)
    {
      assert fs[..i + 1][..i] == fs[..i];
      node.PushMessage(fs[i].name, fs[i].payload);
    }
    assert fs[..|fs|] == fs;
    SentIsPrefix(node);
  }

  lemma SentIsPrefix(node: CNode)
    requires node.SendOk()
    ensures node.sent <= node.queued
  {
  }
}
