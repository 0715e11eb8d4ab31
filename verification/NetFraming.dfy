/** Messages on the wire: CNetMessage, CNode::ReceiveMsgBytes and SocketSendData in src/net.h and
    src/net.cpp, with CMessageHeader of src/protocol.h. */
module NetFraming {
  import opened Basics

  type Bytes = seq<byte>

  const HEADER_SIZE := 24
  const COMMAND_SIZE := 12
  const SIZE_OFFSET := 16
  const CHECKSUM_OFFSET := 20
  const MAX_SIZE := 0x0200_0000

  // ---- 32-bit fields -------------------------------------------------------------------------------

  /** A 32-bit number, lowest byte first. */
  function Le32(n: nat): (s: Bytes)
    requires n < 0x1_0000_0000
    ensures |s| == 4
  {
    [(n % 256) as byte, (n / 256 % 256) as byte, (n / 65536 % 256) as byte, (n / 16777216) as byte]
  }

  function FromLe32(s: Bytes): nat
    requires |s| == 4
  {
    s[0] as nat + 256 * s[1] as nat + 65536 * s[2] as nat + 16777216 * s[3] as nat
  }

  lemma Le32Back(n: nat)
    requires n < 0x1_0000_0000
    ensures FromLe32(Le32(n)) == n
  {
    var a, b := n / 256, n / 65536;
    assert a / 256 == b && b / 256 == n / 16777216;
    assert n == 256 * a + n % 256 && a == 256 * b + a % 256 && b == 256 * (b / 256) + b % 256;
  }

  // ---- receiving -------------------------------------------------------------------------------------

  /** CNetMessage: a header buffer of 24 bytes filled up to nHdrPos, then a body filled up to nDataPos. */
  datatype NetMessage = NetMessage(in_data: bool, hdrbuf: Bytes, nHdrPos: nat, nMessageSize: nat, vRecv: Bytes,
    nDataPos: nat) {
    predicate complete() {
      in_data && nMessageSize == nDataPos
    }

    ghost predicate Valid() {
      && |hdrbuf| == HEADER_SIZE && nDataPos <= nMessageSize
      && (if in_data then nHdrPos == HEADER_SIZE && |vRecv| == nMessageSize && nMessageSize == FromLe32(hdrbuf[16..20])
          else nHdrPos < HEADER_SIZE && nMessageSize == 0 && vRecv == [])
    }

    /** The bytes it took from the wire. */
    function Wire(): Bytes
      requires nHdrPos <= |hdrbuf| && nDataPos <= |vRecv|
    {
      hdrbuf[..nHdrPos] + vRecv[..nDataPos]
    }
  }

  function Blank(n: nat): (s: Bytes)
    ensures |s| == n && forall i :: 0 <= i < n ==> s[i] == 0
  {
    seq(n, i => 0)
  }

  const FRESH := NetMessage(false, Blank(HEADER_SIZE), 0, 0, [], 0)

  /** One byte more for an incomplete message; a header that announces too much is refused. */
  function Absorb(msg: NetMessage, b: byte): Option<NetMessage>
    requires msg.Valid() && !msg.complete()
  {
    if msg.in_data then Some(msg.(vRecv := msg.vRecv[msg.nDataPos := b], nDataPos := msg.nDataPos + 1))
    else
      var hdrbuf := msg.hdrbuf[msg.nHdrPos := b];
      if msg.nHdrPos + 1 < HEADER_SIZE then Some(msg.(hdrbuf := hdrbuf, nHdrPos := msg.nHdrPos + 1))
      else if FromLe32(hdrbuf[16..20]) > MAX_SIZE then None
      else
        var size := FromLe32(hdrbuf[16..20]);
        Some(NetMessage(true, hdrbuf, HEADER_SIZE, size, Blank(size), 0))
  }

  ghost predicate AllValid(msgs: seq<NetMessage>) {
    forall i :: 0 <= i < |msgs| ==> msgs[i].Valid()
  }

  /** The messages with an incomplete one at the end. */
  function Opened(msgs: seq<NetMessage>): seq<NetMessage> {
    if msgs == [] || msgs[|msgs| - 1].complete() then msgs + [FRESH] else msgs
  }

  lemma OpenedValid(msgs: seq<NetMessage>)
    requires AllValid(msgs)
    ensures AllValid(Opened(msgs)) && Opened(msgs) != [] && !Opened(msgs)[|Opened(msgs)| - 1].complete()
  {
  }

  /** The messages after one byte more. */
  function Step(msgs: seq<NetMessage>, b: byte): (r: Option<seq<NetMessage>>)
    requires AllValid(msgs)
    ensures r.Some? ==> AllValid(r.value)
  {
    OpenedValid(msgs);
    var o := Opened(msgs);
    match Absorb(o[|o| - 1], b)
    case None => None
    case Some(msg) => Some(o[..|o| - 1] + [msg])
  }

  /** The messages after the bytes `s`, one at a time; nothing once the stream is refused. */
  ghost function Feed(msgs: seq<NetMessage>, s: Bytes): (r: Option<seq<NetMessage>>)
    requires AllValid(msgs)
    ensures r.Some? ==> AllValid(r.value)
    decreases |s|
  {
    if s == [] then Some(msgs)
    else
      match Step(msgs, s[0])
      case None => None
      case Some(next) => Feed(next, s[1..])
  }

  /** Main result: how the stream is cut into pieces makes no difference, neither to the messages nor to the
      verdict. */
  lemma {:induction false} FeedPieces(msgs: seq<NetMessage>, a: Bytes, b: Bytes)
    requires AllValid(msgs)
    ensures Feed(msgs, a + b) == (match Feed(msgs, a) case None => None case Some(more) => Feed(more, b))
    decreases |a|
  {
    if a == [] {
      assert [] + b == b;
    } else {
      assert (a + b)[0] == a[0] && (a + b)[1..] == a[1..] + b;
      match Step(msgs, a[0]) {
        case None =>
        case Some(next) => FeedPieces(next, a[1..], b);
      }
    }
  }

  /** All bytes taken so far, in order. */
  ghost function WireOf(msgs: seq<NetMessage>): Bytes
    requires AllValid(msgs)
  {
    if msgs == [] then [] else WireOf(msgs[..|msgs| - 1]) + msgs[|msgs| - 1].Wire()
  }

  lemma AbsorbWire(msg: NetMessage, b: byte)
    requires msg.Valid() && !msg.complete() && Absorb(msg, b).Some?
    ensures Absorb(msg, b).value.Valid() && Absorb(msg, b).value.Wire() == msg.Wire() + [b]
  {
  }

  lemma OpenedWire(msgs: seq<NetMessage>)
    requires AllValid(msgs)
    ensures AllValid(Opened(msgs)) && WireOf(Opened(msgs)) == WireOf(msgs)
  {
    if Opened(msgs) != msgs {
      assert Opened(msgs)[..|msgs|] == msgs;
      assert WireOf(msgs) + [] == WireOf(msgs);
    }
  }

  lemma StepWire(msgs: seq<NetMessage>, b: byte)
    requires AllValid(msgs) && Step(msgs, b).Some?
    ensures WireOf(Step(msgs, b).value) == WireOf(msgs) + [b]
  {
    hide *;
    OpenedParts(msgs);
    StepIs(msgs, b);
    var o := Opened(msgs);
    var front, last := o[..|o| - 1], o[|o| - 1];
    AbsorbWire(last, b);
    WireNext(front, last);
    WireNext(front, Absorb(last, b).value);
    Associate(WireOf(front), last, b);
  }

  lemma Associate(a: Bytes, last: NetMessage, b: byte)
    requires last.Valid()
    ensures a + (last.Wire() + [b]) == a + last.Wire() + [b]
  {
  }

  lemma StepIs(msgs: seq<NetMessage>, b: byte)
    requires AllValid(msgs) && Step(msgs, b).Some?
    ensures var o := Opened(msgs);
      && o != [] && o[|o| - 1].Valid() && !o[|o| - 1].complete() && Absorb(o[|o| - 1], b).Some?
      && Step(msgs, b).value == o[..|o| - 1] + [Absorb(o[|o| - 1], b).value]
  {
    OpenedValid(msgs);
  }

  lemma OpenedParts(msgs: seq<NetMessage>)
    requires AllValid(msgs)
    ensures var o := Opened(msgs);
      && o != [] && o == o[..|o| - 1] + [o[|o| - 1]] && AllValid(o) && AllValid(o[..|o| - 1])
      && o[|o| - 1].Valid() && !o[|o| - 1].complete() && WireOf(o) == WireOf(msgs)
  {
    OpenedValid(msgs);
    OpenedWire(msgs);
    hide WireOf;
  }

  lemma WireNext(front: seq<NetMessage>, last: NetMessage)
    requires AllValid(front) && last.Valid()
    ensures AllValid(front + [last]) && WireOf(front + [last]) == WireOf(front) + last.Wire()
  {
    assert (front + [last])[..|front|] == front;
  }

  /** No accepted byte is lost, doubled or moved. */
  lemma {:induction false} FeedKeepsBytes(msgs: seq<NetMessage>, s: Bytes)
    requires AllValid(msgs) && Feed(msgs, s).Some?
    ensures WireOf(Feed(msgs, s).value) == WireOf(msgs) + s
    decreases |s|
  {
    hide WireOf, Step;
    if s == [] {
      assert WireOf(msgs) + s == WireOf(msgs);
    } else {
      StepWire(msgs, s[0]);
      FeedKeepsBytes(Step(msgs, s[0]).value, s[1..]);
      assert s == [s[0]] + s[1..];
      assert WireOf(msgs) + [s[0]] + s[1..] == WireOf(msgs) + s;
    }
  }

  // ---- absorbing a piece at once ---------------------------------------------------------------------

  /** memcpy of `s` into `buf` at `pos`. */
  function Copied(buf: Bytes, pos: nat, s: Bytes): (r: Bytes)
    requires pos + |s| <= |buf|
    ensures |r| == |buf|
  {
    buf[..pos] + s + buf[pos + |s|..]
  }

  lemma CopyNext(buf: Bytes, pos: nat, s: Bytes)
    requires s != [] && pos + |s| <= |buf|
    ensures Copied(buf[pos := s[0]], pos + 1, s[1..]) == Copied(buf, pos, s)
  {
  }

  lemma CopyNone(buf: Bytes, pos: nat)
    requires pos <= |buf|
    ensures Copied(buf, pos, []) == buf
  {
  }

  /** The message after a piece of header, nothing when the header is refused. */
  function WithHeader(msg: NetMessage, s: Bytes): Option<NetMessage>
    requires msg.Valid() && !msg.in_data && msg.nHdrPos + |s| <= HEADER_SIZE
  {
    var hdrbuf := Copied(msg.hdrbuf, msg.nHdrPos, s);
    if msg.nHdrPos + |s| < HEADER_SIZE then Some(msg.(hdrbuf := hdrbuf, nHdrPos := msg.nHdrPos + |s|))
    else if FromLe32(hdrbuf[16..20]) > MAX_SIZE then None
    else
      var size := FromLe32(hdrbuf[16..20]);
      Some(NetMessage(true, hdrbuf, HEADER_SIZE, size, Blank(size), 0))
  }

  function WithData(msg: NetMessage, s: Bytes): NetMessage
    requires msg.Valid() && msg.in_data && msg.nDataPos + |s| <= msg.nMessageSize
  {
    msg.(vRecv := Copied(msg.vRecv, msg.nDataPos, s), nDataPos := msg.nDataPos + |s|)
  }

  lemma HeaderOne(msg: NetMessage, b: byte)
    requires msg.Valid() && !msg.in_data
    ensures WithHeader(msg, [b]) == Absorb(msg, b)
    ensures Absorb(msg, b).Some? ==> Absorb(msg, b).value.Valid()
  {
    CopyNext(msg.hdrbuf, msg.nHdrPos, [b]);
    CopyNone(msg.hdrbuf[msg.nHdrPos := b], msg.nHdrPos + 1);
    hide Copied;
  }

  lemma HeaderMore(msg: NetMessage, s: Bytes)
    requires msg.Valid() && !msg.in_data && |s| > 1 && msg.nHdrPos + |s| <= HEADER_SIZE
    ensures Absorb(msg, s[0]).Some?
    ensures var one := Absorb(msg, s[0]).value;
      one.Valid() && !one.in_data && one.nHdrPos + |s[1..]| <= HEADER_SIZE && WithHeader(one,
        s[1..]) == WithHeader(msg, s)
  {
    CopyNext(msg.hdrbuf, msg.nHdrPos, s);
    hide Copied;
  }

  lemma StepLast(front: seq<NetMessage>, msg: NetMessage, b: byte)
    requires AllValid(front + [msg]) && msg.Valid() && !msg.complete()
    ensures Step(front + [msg], b) == (match Absorb(msg, b) case None => None case Some(m) => Some(front + [m]))
  {
    var msgs := front + [msg];
    assert Opened(msgs) == msgs && msgs[..|msgs| - 1] == front;
  }

  lemma {:induction false} FeedHeader(front: seq<NetMessage>, msg: NetMessage, s: Bytes)
    requires AllValid(front + [msg]) && msg.Valid() && !msg.in_data && s != [] && msg.nHdrPos + |s| <= HEADER_SIZE
    ensures WithHeader(msg, s).Some? ==> WithHeader(msg, s).value.Valid()
    ensures Feed(front + [msg], s)
         == (match WithHeader(msg, s) case None => None case Some(m) => Some(front + [m]))
    decreases |s|
  {
    StepLast(front, msg, s[0]);
    if |s| == 1 {
      assert s == [s[0]] && s[1..] == [];
      HeaderOne(msg, s[0]);
    } else {
      HeaderMore(msg, s);
      FeedHeader(front, Absorb(msg, s[0]).value, s[1..]);
    }
    hide WithHeader, Absorb, Step, NetMessage.Valid;
  }

  lemma DataMore(msg: NetMessage, s: Bytes)
    requires msg.Valid() && msg.in_data && s != [] && msg.nDataPos + |s| <= msg.nMessageSize
    ensures !msg.complete() && Absorb(msg, s[0]).Some?
    ensures var one := Absorb(msg, s[0]).value;
      && one.Valid() && one.in_data && one.nDataPos + |s[1..]| <= one.nMessageSize
      && WithData(one, s[1..]) == WithData(msg, s)
  {
    CopyNext(msg.vRecv, msg.nDataPos, s);
    hide Copied;
  }

  lemma DataNone(msg: NetMessage)
    requires msg.Valid() && msg.in_data
    ensures WithData(msg, []) == msg
  {
    CopyNone(msg.vRecv, msg.nDataPos);
  }

  lemma AllValidLast(front: seq<NetMessage>, a: NetMessage, b: NetMessage)
    requires AllValid(front + [a]) && b.Valid()
    ensures AllValid(front + [b])
  {
    forall i | 0 <= i < |front|
      ensures front[i].Valid()
    {
      assert (front + [a])[i] == front[i];
    }
  }

  lemma {:induction false} FeedData(front: seq<NetMessage>, msg: NetMessage, s: Bytes)
    requires AllValid(front + [msg]) && msg.Valid() && msg.in_data && msg.nDataPos + |s| <= msg.nMessageSize
    ensures WithData(msg, s).Valid()
    ensures Feed(front + [msg], s) == Some(front + [WithData(msg, s)])
    decreases |s|
  {
    hide WithData, Absorb, Step, NetMessage.Valid, AllValid, NetMessage.complete;
    if s == [] {
      DataNone(msg);
    } else {
      DataMore(msg, s);
      StepLast(front, msg, s[0]);
      AllValidLast(front, msg, Absorb(msg, s[0]).value);
      FeedData(front, Absorb(msg, s[0]).value, s[1..]);
    }
  }

  /** Starting a new message before the first byte of a piece changes nothing else. */
  lemma FeedOpened(msgs: seq<NetMessage>, s: Bytes)
    requires AllValid(msgs) && s != []
    ensures AllValid(Opened(msgs)) && Feed(msgs, s) == Feed(Opened(msgs), s)
  {
    OpenedValid(msgs);
    assert Opened(Opened(msgs)) == Opened(msgs);
  }

  // ---- sending -----------------------------------------------------------------------------------------

  /** What the hash of the payload contributes to the header. */
  datatype Wiring = Wiring(magic: Bytes, checksum: Bytes -> nat)

  ghost predicate WiringOk(w: Wiring) {
    |w.magic| == 4 && forall s: Bytes :: w.checksum(s) < 0x1_0000_0000
  }

  /** The twelve command bytes of a name, padded with zeros. */
  function Command(name: Bytes): (s: Bytes)
    requires |name| <= COMMAND_SIZE
    ensures |s| == COMMAND_SIZE
  {
    name + Blank(COMMAND_SIZE - |name|)
  }

  ghost function Header(name: Bytes, payload: Bytes, w: Wiring): (s: Bytes)
    requires WiringOk(w) && |name| <= COMMAND_SIZE && |payload| < 0x1_0000_0000
    ensures |s| == HEADER_SIZE
  {
    w.magic + Command(name) + Le32(|payload|) + Le32(w.checksum(payload))
  }

  /** A command and its payload. */
  datatype Frame = Frame(name: Bytes, payload: Bytes)

  /** Small enough for the 32-bit size field, as the sender needs. */
  ghost predicate Sendable(f: Frame) {
    |f.name| <= COMMAND_SIZE && |f.payload| < 0x1_0000_0000
  }

  /** Small enough for the receiver too. */
  ghost predicate FrameOk(f: Frame) {
    Sendable(f) && |f.payload| <= MAX_SIZE
  }

  ghost function Encoded(f: Frame, w: Wiring): (s: Bytes)
    requires WiringOk(w) && Sendable(f)
    ensures |s| == HEADER_SIZE + |f.payload|
  {
    Header(f.name, f.payload, w) + f.payload
  }

  ghost function Stream(fs: seq<Frame>, w: Wiring): Bytes
    requires WiringOk(w) && forall i :: 0 <= i < |fs| ==> FrameOk(fs[i])
  {
    if fs == [] then []
    else
      var last := fs[|fs| - 1];
      assert FrameOk(last);
      Stream(fs[..|fs| - 1], w) + Encoded(last, w)
  }

  /** The message a frame arrives as. */
  ghost function Arrived(f: Frame, w: Wiring): NetMessage
    requires WiringOk(w) && FrameOk(f)
  {
    NetMessage(true, Header(f.name, f.payload, w), HEADER_SIZE, |f.payload|, f.payload, |f.payload|)
  }

  ghost function AllArrived(fs: seq<Frame>, w: Wiring): (r: seq<NetMessage>)
    requires WiringOk(w) && forall i :: 0 <= i < |fs| ==> FrameOk(fs[i])
    ensures |r| == |fs| && forall i :: 0 <= i < |r| ==> r[i] == Arrived(fs[i], w)
  {
    seq(|fs|, i requires 0 <= i < |fs| => Arrived(fs[i], w))
  }

  lemma HeaderFields(f: Frame, w: Wiring)
    requires WiringOk(w) && Sendable(f)
    ensures var h := Header(f.name, f.payload, w);
      && h[..4] == w.magic && h[4..16] == Command(f.name)
      && h[16..20] == Le32(|f.payload|) && h[20..24] == Le32(w.checksum(f.payload))
      && FromLe32(h[16..20]) == |f.payload| && FromLe32(h[20..24]) == w.checksum(f.payload)
  {
    Le32Back(|f.payload|);
    Le32Back(w.checksum(f.payload));
    hide Le32, Command;
  }

  lemma ArrivedValid(f: Frame, w: Wiring)
    requires WiringOk(w) && FrameOk(f)
    ensures Arrived(f, w).Valid() && Arrived(f, w).complete()
  {
    HeaderFields(f, w);
  }

  lemma HeaderRefuses(f: Frame, w: Wiring)
    requires WiringOk(w) && Sendable(f) && |f.payload| > MAX_SIZE
    ensures WithHeader(FRESH, Header(f.name, f.payload, w)) == None
  {
    HeaderFields(f, w);
    var h := Header(f.name, f.payload, w);
    assert Copied(FRESH.hdrbuf, 0, h) == h;
    hide Header;
  }

  /** The receiver refuses what is too large for it, at the end of its header. */
  lemma TooLargeRefused(msgs: seq<NetMessage>, f: Frame, w: Wiring)
    requires WiringOk(w) && Sendable(f) && AllValid(msgs) && (msgs == [] || msgs[|msgs| - 1].complete())
    requires |f.payload| > MAX_SIZE
    ensures Feed(msgs, Encoded(f, w)) == None
  {
    hide Feed, Header, WithHeader, AllValid, NetMessage.Valid, Step, Opened;
    var h := Header(f.name, f.payload, w);
    OpenedAppends(msgs);
    HeaderRefuses(f, w);
    FeedOpened(msgs, h);
    FeedHeader(msgs, FRESH, h);
    FeedPieces(msgs, h, f.payload);
  }

  /** A header read into a fresh message. */
  lemma FreshHeader(f: Frame, w: Wiring)
    requires WiringOk(w) && FrameOk(f)
    ensures FRESH.Valid()
    ensures WithHeader(FRESH, Header(f.name, f.payload, w))
         == Some(NetMessage(true, Header(f.name, f.payload, w), HEADER_SIZE, |f.payload|, Blank(|f.payload|), 0))
  {
    HeaderFields(f, w);
    var h := Header(f.name, f.payload, w);
    assert Copied(FRESH.hdrbuf, 0, h) == h;
    hide Header;
  }

  ghost function Announced(f: Frame, w: Wiring): NetMessage
    requires WiringOk(w) && FrameOk(f)
  {
    NetMessage(true, Header(f.name, f.payload, w), HEADER_SIZE, |f.payload|, Blank(|f.payload|), 0)
  }

  lemma AnnouncedFills(f: Frame, w: Wiring)
    requires WiringOk(w) && FrameOk(f)
    ensures var a := Announced(f, w);
      && a.Valid() && a.in_data && a.nDataPos + |f.payload| <= a.nMessageSize
      && WithData(a, f.payload) == Arrived(f, w)
  {
    HeaderFields(f, w);
    assert Copied(Blank(|f.payload|), 0, f.payload) == f.payload;
    hide Header, Copied;
  }

  lemma OpenedAppends(msgs: seq<NetMessage>)
    requires AllValid(msgs) && (msgs == [] || msgs[|msgs| - 1].complete())
    ensures Opened(msgs) == msgs + [FRESH] && AllValid(msgs + [FRESH]) && FRESH.Valid() && !FRESH.in_data
    ensures FRESH.nHdrPos + HEADER_SIZE <= HEADER_SIZE
  {
    OpenedValid(msgs);
  }

  /** One frame arrives whole, whatever complete messages came before it. */
  lemma FrameArrives(msgs: seq<NetMessage>, f: Frame, w: Wiring)
    requires WiringOk(w) && FrameOk(f) && AllValid(msgs) && (msgs == [] || msgs[|msgs| - 1].complete())
    ensures Feed(msgs, Encoded(f, w)) == Some(msgs + [Arrived(f, w)])
  {
    var h := Header(f.name, f.payload, w);
    hide Feed, Header, WithHeader, WithData, Copied, Announced, AllValid, NetMessage.Valid, Arrived, Step, Opened,
      FrameOk, WiringOk;
    OpenedAppends(msgs);
    FreshHeader(f, w);
    AnnouncedFills(f, w);
    FeedOpened(msgs, h);
    FeedHeader(msgs, FRESH, h);
    AnnouncedIs(f, w);
    FeedPieces(msgs, h, f.payload);
    FeedData(msgs, Announced(f, w), f.payload);
  }

  lemma AnnouncedIs(f: Frame, w: Wiring)
    requires WiringOk(w) && FrameOk(f)
    ensures WithHeader(FRESH, Header(f.name, f.payload, w)) == Some(Announced(f, w))
  {
    FreshHeader(f, w);
  }

  lemma AllArrivedValid(fs: seq<Frame>, w: Wiring)
    requires WiringOk(w) && forall i :: 0 <= i < |fs| ==> FrameOk(fs[i])
    ensures AllValid(AllArrived(fs, w))
    ensures AllArrived(fs, w) == [] || AllArrived(fs, w)[|AllArrived(fs, w)| - 1].complete()
  {
    forall i | 0 <= i < |fs|
      ensures Arrived(fs[i], w).Valid() && Arrived(fs[i], w).complete()
    {
      ArrivedValid(fs[i], w);
    }
  }

  lemma AllArrivedNext(fs: seq<Frame>, w: Wiring)
    requires WiringOk(w) && fs != [] && forall i :: 0 <= i < |fs| ==> FrameOk(fs[i])
    ensures AllArrived(fs, w) == AllArrived(fs[..|fs| - 1], w) + [Arrived(fs[|fs| - 1], w)]
  {
  }

  /** Main result: the frames sent arrive, in order, each whole and with its own header. */
  lemma {:induction false} StreamArrives(fs: seq<Frame>, w: Wiring)
    requires WiringOk(w) && forall i :: 0 <= i < |fs| ==> FrameOk(fs[i])
    ensures Feed([], Stream(fs, w)) == Some(AllArrived(fs, w))
  {
    if fs == [] {
      assert AllArrived(fs, w) == [];
    } else {
      hide WiringOk, FrameOk, Encoded, AllArrived, AllValid, Feed, Arrived, NetMessage.complete;
      var front, f := fs[..|fs| - 1], fs[|fs| - 1];
      StreamArrives(front, w);
      NothingValid();
      FeedPieces([], Stream(front, w), Encoded(f, w));
      AllArrivedValid(front, w);
      FrameArrives(AllArrived(front, w), f, w);
      AllArrivedNext(fs, w);
    }
  }

  lemma NothingValid()
    ensures AllValid([])
  {
  }

  // ---- part of a stream --------------------------------------------------------------------------------

  /** Only the last message may be incomplete. */
  ghost predicate Tidy(msgs: seq<NetMessage>) {
    AllValid(msgs) && forall i :: 0 <= i < |msgs| - 1 ==> msgs[i].complete()
  }

  /** The messages that can be processed. */
  function Ready(msgs: seq<NetMessage>): seq<NetMessage> {
    if msgs != [] && !msgs[|msgs| - 1].complete() then msgs[..|msgs| - 1] else msgs
  }

  /** Later bytes do not touch a complete message. */
  ghost predicate Extends(msgs: seq<NetMessage>, more: seq<NetMessage>) {
    |msgs| <= |more| && forall i :: 0 <= i < |msgs| && msgs[i].complete() ==> more[i] == msgs[i]
  }

  lemma StepExtends(msgs: seq<NetMessage>, b: byte)
    requires Tidy(msgs) && Step(msgs, b).Some?
    ensures Tidy(Step(msgs, b).value) && Extends(msgs, Step(msgs, b).value)
  {
    OpenedValid(msgs);
  }

  lemma {:induction false} FeedExtends(msgs: seq<NetMessage>, s: Bytes)
    requires Tidy(msgs) && Feed(msgs, s).Some?
    ensures Tidy(Feed(msgs, s).value) && Extends(msgs, Feed(msgs, s).value)
    decreases |s|
  {
    hide Step, NetMessage.Valid, NetMessage.complete, Extends;
    if s == [] {
      ExtendsItself(msgs);
    } else {
      var next := Step(msgs, s[0]).value;
      StepExtends(msgs, s[0]);
      FeedExtends(next, s[1..]);
      ExtendsThrough(msgs, next, Feed(next, s[1..]).value);
    }
  }

  lemma ExtendsItself(msgs: seq<NetMessage>)
    ensures Extends(msgs, msgs)
  {
  }

  lemma ExtendsThrough(a: seq<NetMessage>, b: seq<NetMessage>, c: seq<NetMessage>)
    requires Extends(a, b) && Extends(b, c)
    ensures Extends(a, c)
  {
  }

  /** Whatever part of the stream has come through, the messages ready are the first of those sent. */
  lemma PrefixArrives(fs: seq<Frame>, w: Wiring, s: Bytes)
    requires WiringOk(w) && (forall i :: 0 <= i < |fs| ==> FrameOk(fs[i])) && s <= Stream(fs, w)
    ensures Feed([], s).Some? && Tidy(Feed([], s).value) && Ready(Feed([], s).value) <= AllArrived(fs, w)
  {
    hide *;
    var rest := Stream(fs, w)[|s|..];
    StreamArrives(fs, w);
    NothingValid();
    NothingTidy();
    assert s + rest == Stream(fs, w);
    FeedPieces([], s, rest);
    FeedExtends([], s);
    FeedExtends(Feed([], s).value, rest);
    ReadyIsFirst(Feed([], s).value, AllArrived(fs, w));
  }

  lemma NothingTidy()
    ensures Tidy([])
  {
  }

  lemma ReadyIsFirst(msgs: seq<NetMessage>, more: seq<NetMessage>)
    requires Tidy(msgs) && Extends(msgs, more)
    ensures Ready(msgs) <= more
  {
    forall i | 0 <= i < |Ready(msgs)|
      ensures Ready(msgs)[i] == more[i]
    {
      assert msgs[i].complete();
    }
  }

  // ---- the receiver's checks ------------------------------------------------------------------------------

  predicate Printable(b: byte) {
    ' ' as int <= b as int <= 0x7E
  }

  /** Printable up to the first zero, zeros from there on. */
  predicate CommandOk(c: Bytes)
    decreases |c|
  {
    c == [] || if c[0] == 0 then forall i :: 0 <= i < |c| ==> c[i] == 0 else Printable(c[0]) && CommandOk(c[1..])
  }

  /** CMessageHeader::IsValid, with the start string. */
  predicate IsValid(h: Bytes, magic: Bytes)
    requires |h| == HEADER_SIZE
  {
    h[..4] == magic && CommandOk(h[4..16]) && FromLe32(h[16..20]) <= MAX_SIZE
  }

  /** GetCommand: up to the first zero. */
  function GetCommand(c: Bytes): Bytes {
    if c == [] || c[0] == 0 then [] else [c[0]] + GetCommand(c[1..])
  }

  lemma {:induction false} CommandBack(name: Bytes, k: nat)
    requires forall i :: 0 <= i < |name| ==> Printable(name[i])
    ensures CommandOk(name + Blank(k)) && GetCommand(name + Blank(k)) == name
    decreases |name|
  {
    if name == [] {
      assert name + Blank(k) == Blank(k);
    } else {
      CommandBack(name[1..], k);
      assert (name + Blank(k))[0] == name[0] && (name + Blank(k))[1..] == name[1..] + Blank(k);
    }
  }

  /** Every message that arrives passes the checks ProcessMessages makes, and carries the command sent. */
  lemma ArrivedAccepted(f: Frame, w: Wiring)
    requires WiringOk(w) && FrameOk(f) && forall i :: 0 <= i < |f.name| ==> Printable(f.name[i])
    ensures var m := Arrived(f, w);
      && IsValid(m.hdrbuf, w.magic)
      && FromLe32(m.hdrbuf[20..24]) == w.checksum(m.vRecv)
      && GetCommand(m.hdrbuf[4..16]) == f.name && m.vRecv == f.payload
  {
    HeaderFields(f, w);
    CommandBack(f.name, COMMAND_SIZE - |f.name|);
    hide Header, CommandOk, GetCommand, FromLe32;
  }

  /** A name of printable characters, filled up with zeros. */
  ghost predicate Padded(c: Bytes, name: Bytes) {
    |name| <= |c| && c == name + Blank(|c| - |name|) && forall i :: 0 <= i < |name| ==> 0x20 <= name[i] <= 0x7E
  }

  lemma {:induction false} CommandOkPads(c: Bytes)
    requires CommandOk(c)
    ensures Padded(c, GetCommand(c))
  {
    if c != [] && c[0] != 0 {
      CommandOkPads(c[1..]);
      assert c == [c[0]] + c[1..];
    } else {
      assert c == [] + Blank(|c|);
    }
  }

  lemma CommandOkIff(c: Bytes)
    ensures CommandOk(c) <==> exists name :: Padded(c, name)
  {
    if CommandOk(c) {
      CommandOkPads(c);
    }
    if name :| Padded(c, name) {
      CommandBack(name, |c| - |name|);
    }
  }

  /** A header is valid exactly when it is the start string, some name as a command, and a size of at most 32 MiB. */
  lemma IsValidIff(h: Bytes, magic: Bytes)
    requires |h| == 24 && |magic| == 4
    ensures IsValid(h, magic) <==>
      h[..4] == magic && (exists name :: Padded(h[4..16], name)) && FromLe32(h[16..20]) <= 33_554_432
  {
    CommandOkIff(h[4..16]);
    hide CommandOk, FromLe32;
  }

  /** A frame byte by byte: the start string, the command and its zeros, the size and the checksum from the lowest byte
      up, and the payload. */
  lemma FrameLayout(f: Frame, w: Wiring, i: nat)
    requires WiringOk(w) && Sendable(f) && i < 24 + |f.payload|
    ensures |Encoded(f, w)| == 24 + |f.payload|
    ensures Encoded(f, w)[i] ==
      if i < 4 then w.magic[i]
      else if i < 16 then (if i - 4 < |f.name| then f.name[i - 4] else 0)
      else if i == 16 then |f.payload| % 0x100
      else if i == 17 then |f.payload| / 0x100 % 0x100
      else if i == 18 then |f.payload| / 0x1_0000 % 0x100
      else if i == 19 then |f.payload| / 0x100_0000
      else if i == 20 then w.checksum(f.payload) % 0x100
      else if i == 21 then w.checksum(f.payload) / 0x100 % 0x100
      else if i == 22 then w.checksum(f.payload) / 0x1_0000 % 0x100
      else if i == 23 then w.checksum(f.payload) / 0x100_0000
      else f.payload[i - 24]
  {
    HeaderFields(f, w);
    var h := Header(f.name, f.payload, w);
    if i < 4 {
      assert h[i] == h[..4][i];
    } else if i < 16 {
      assert h[i] == h[4..16][i - 4];
    } else if i < 20 {
      assert h[i] == h[16..20][i - 16];
    } else if i < 24 {
      assert h[i] == h[20..24][i - 20];
    }
  }
}
