/**
 Message framing on a byte stream, from xframe/comserv/socket.C: the sender's `pack` and the
 receiver's resynchronising automaton `_readFromBuff`, driven by `recvCodeByFindHead`.

 The receive buffer is a byte sequence: bytes are appended at its end and dropped from its front.
 */
module Framing {
  import opened Bytes

  const COM_MSG_LENGTH := 4
  const HEAD_LENGTH := 8 + COM_MSG_LENGTH
  const SOCKET_CODE_MAXLENGTH := 20476
  const BUFFER_SIZE := 81920

  const ZERO: Byte := 0
  const ONE: Byte := 255

  const DELIMITER: seq<Byte> := [ZERO, ONE, ONE, ONE, ONE, ONE, ONE, ZERO]

  /** htonl of a length, as the four bytes it is stored in. */
  function BigEndian(n: nat): (bytes: seq<Byte>)
    requires n < 0x1_0000_0000
    ensures |bytes| == 4
  {
    [n / 0x100_0000, n / 0x1_0000 % 256, n / 256 % 256, n % 256]
  }

  function FromBigEndian(bytes: seq<Byte>): nat
    requires |bytes| == 4
  {
    var (a: int, b: int, c: int, d: int) := (bytes[0], bytes[1], bytes[2], bytes[3]);
    a * 0x100_0000 + b * 0x1_0000 + c * 256 + d
  }

  lemma BigEndianRoundTrip(n: nat)
    requires n < 0x1_0000_0000
    ensures FromBigEndian(BigEndian(n)) == n
  {
    assert n / 0x1_0000 == n / 0x100_0000 * 256 + n / 0x1_0000 % 256;
    assert n / 256 == n / 0x1_0000 * 256 + n / 256 % 256;
  }

  /** What sendCode accepts and pack frames: SOCKET_CODE_MAXLENGTH bounds the content. */
  predicate Sendable(m: seq<Byte>) { 1 <= |m| <= SOCKET_CODE_MAXLENGTH }

  function Pack(m: seq<Byte>): seq<Byte>
    requires |m| <= SOCKET_CODE_MAXLENGTH
  {
    DELIMITER + BigEndian(|m|) + m
  }

  /** The delimiter automaton: how much of the delimiter is matched after one more byte; 8 is Found. */
  function Next(matched: nat, b: Byte): (r: nat)
    requires matched < 8
    ensures r <= matched + 1
  {
    if b == DELIMITER[matched] then matched + 1 else if b == ZERO then 1 else 0
  }

  datatype ReadResult =
    | Kept(consumed: nat)                     // no message yet; this many bytes can be dropped
    | Got(consumed: nat, message: seq<Byte>)
    | Illegal                                 // a length field outside 1..SOCKET_CODE_MAXLENGTH

  /** A complete delimiter ends just before `p`: look at the length field and the content. */
  function ReadFrame(buf: seq<Byte>, p: nat): (r: ReadResult)
    requires 8 <= p && p + COM_MSG_LENGTH <= |buf|
  {
    var length, body := FromBigEndian(buf[p..p + COM_MSG_LENGTH]), p + COM_MSG_LENGTH;
    if !(1 <= length <= SOCKET_CODE_MAXLENGTH) then Illegal
    else if length > |buf| - body then Kept(body - HEAD_LENGTH)
    else Got(body + length, buf[body..body + length])
  }

  /** The automaton from position `p` with `matched` delimiter bytes behind it. */
  function Scan(buf: seq<Byte>, p: nat, matched: nat): (r: ReadResult)
    requires p <= |buf| && matched < 8 && matched <= p
    ensures r.Kept? || r.Got? ==> r.consumed <= |buf|
    ensures r.Got? ==> r.consumed >= HEAD_LENGTH
    ensures r.Kept? ==> |buf| - r.consumed < HEAD_LENGTH + SOCKET_CODE_MAXLENGTH
    decreases |buf| - p
  {
    if |buf| - p <= HEAD_LENGTH - matched then Kept(p - matched)
    else if Next(matched, buf[p]) == 8 then ReadFrame(buf, p + 1)
    else Scan(buf, p + 1, Next(matched, buf[p]))
  }

  /** The receiver's fields. */
  datatype Receiver = Receiver(buf: seq<Byte>, hasMessage: bool)

  datatype Received = Received(after: Receiver, ret: int, code: seq<Byte>)

  const ILLEGAL_LENGTH := -100

  /**
   recvCodeByFindHead with a cleared `code`; `chunk` is what the socket yields if it is read. Behind an
   illegal length field the source stays in Found and takes later bytes for lengths; ILLEGAL_LENGTH stands
   for whatever that call answers. Frames that were packed have no such field.
   */
  function Receive(r: Receiver, chunk: seq<Byte>): Received {
    if !r.hasMessage && chunk == [] then Received(r, 0, [])
    else
      var buf := if r.hasMessage then r.buf else r.buf + chunk;
      match Scan(buf, 0, 0)
      case Got(consumed, message) =>
        Received(Receiver(buf[consumed..], consumed < |buf|), 1, message)
      case Kept(consumed) =>
        Received(Receiver(buf[consumed..], false), -2, [])
      case Illegal => Received(Receiver(buf, true), ILLEGAL_LENGTH, [])
  }

  datatype StateMachine = Wait | Begin | Appear | Prepare | Found

  predicate Tracks(state: StateMachine, lengthToRead: int, matched: nat) {
    && lengthToRead == HEAD_LENGTH - matched
    && state == (if matched == 0 then Wait else if matched == 1 then Begin else if matched < 7 then Appear else Prepare)
    && matched < 8
  }

  class Socket {
    var recvBuf: seq<Byte>
    var recvBufHasMessage: bool

    constructor ()
      ensures recvBuf == [] && !recvBufHasMessage
    {
      recvBuf, recvBufHasMessage := [], false;
    }

    /** _readFromBuff, up to the point where a length field is illegal. */
    method ReadFromBuff() returns (result: ReadResult)
      ensures result == Scan(recvBuf, 0, 0)
    {
      var state, bufferLength, ret, lengthToRead, message := Wait, |recvBuf|, 0, HEAD_LENGTH, 0;
      ghost var matched := 0;
      while bufferLength > lengthToRead
        invariant 0 <= matched <= message == ret <= |recvBuf| && bufferLength == |recvBuf| - ret
        invariant Tracks(state, lengthToRead, matched)
        invariant Scan(recvBuf, message, matched) == Scan(recvBuf, 0, 0)
        decreases bufferLength
      {
        var b := recvBuf[message];
        matched := Next(matched, b);
        match state {
          case Wait =>
            if b == ZERO {
              state := Begin;
              lengthToRead := lengthToRead - 1;
            }
          case Begin =>
            if b == ONE {
              state := Appear;
              lengthToRead := lengthToRead - 1;
            } else if b != ZERO {
              state := Wait;
              lengthToRead := HEAD_LENGTH;
            }
          case Appear =>
            if b == ZERO {
              state := Begin;
              lengthToRead := HEAD_LENGTH - 1;
            } else if b == ONE {
              lengthToRead := lengthToRead - 1;
              if lengthToRead == 1 + COM_MSG_LENGTH {
                state := Prepare;
              }
            } else {
              state := Wait;
              lengthToRead := HEAD_LENGTH;
            }
          case Prepare =>
            if b == ZERO {
              state := Found;
            } else {
              state := Wait;
              lengthToRead := HEAD_LENGTH;
            }
          case Found =>
        }
        ret := ret + 1;
        message := message + 1;
        bufferLength := bufferLength - 1;
        if state == Found {
          ret := ret + COM_MSG_LENGTH;
          bufferLength := bufferLength - COM_MSG_LENGTH;
          lengthToRead := FromBigEndian(recvBuf[message..message + COM_MSG_LENGTH]);
          if !(0 < lengthToRead <= SOCKET_CODE_MAXLENGTH) {
            return Illegal;
          } else if lengthToRead > bufferLength {
            return Kept(ret - HEAD_LENGTH);
          }
          message := message + COM_MSG_LENGTH;
          return Got(ret + lengthToRead, recvBuf[message..message + lengthToRead]);
        }
      }
      return Kept(ret - (HEAD_LENGTH - lengthToRead));
    }

    /** recvCodeByFindHead: `chunk` is what _recvSocketIntoBuff reads, at most the free space. */
    method RecvCodeByFindHead(chunk: seq<Byte>) returns (ret: int, code: seq<Byte>)
      modifies this
      ensures Received(Receiver(recvBuf, recvBufHasMessage), ret, code)
              == Receive(old(Receiver(recvBuf, recvBufHasMessage)), chunk)
    {
      code := [];
      if !recvBufHasMessage {
        if chunk == [] {
          return 0, [];
        }
        recvBuf := recvBuf + chunk;
        recvBufHasMessage := true;
      }
      var result := ReadFromBuff();
      if result.Illegal? {
        return ILLEGAL_LENGTH, [];
      }
      if result.consumed > 0 {
        recvBuf := recvBuf[result.consumed..];
        if |recvBuf| == 0 {
          recvBufHasMessage := false;
        }
        if result.Got? {
          return 1, result.message;
        }
        recvBufHasMessage := false;
        ret := -2;
      } else {
        recvBufHasMessage := false;
        ret := -2;
      }
    }
  }

  // ----- the automaton knows the longest delimiter prefix behind it -----

  predicate Border(w: seq<Byte>, k: nat) { k <= 8 && k <= |w| && w[|w| - k..] == DELIMITER[..k] }

  predicate DelimiterAt(w: seq<Byte>, j: int) { 0 <= j && j + 8 <= |w| && w[j..j + 8] == DELIMITER }

  /** `k` is the longest prefix of the delimiter that `w` ends with, and `w` contains no delimiter. */
  ghost predicate AutomatonAt(w: seq<Byte>, k: nat) {
    && k < 8 && Border(w, k)
    && (forall j | k < j <= 8 :: !Border(w, j))
    && (forall j :: !DelimiterAt(w, j))
  }

  lemma BorderStep(w: seq<Byte>, b: Byte, k: nat)
    requires 0 < k <= 8
    ensures Border(w + [b], k) <==> Border(w, k - 1) && DELIMITER[k - 1] == b
  {
    if k <= |w| + 1 {
      assert (w + [b])[|w| + 1 - k..] == w[|w| - (k - 1)..] + [b];
      assert DELIMITER[..k] == DELIMITER[..k - 1] + [DELIMITER[k - 1]];
    }
  }

  /** Between the empty border and the longest one there is none: the delimiter's prefixes do not overlap themselves. */
  lemma NoInnerBorder(w: seq<Byte>, k: nat, j: nat)
    requires k < 8 && Border(w, k) && 0 < j < k
    ensures !Border(w, j)
  {
    assert w[|w| - j..][0] == w[|w| - k..][k - j] == DELIMITER[..k][k - j] == ONE;
    assert DELIMITER[..j][0] == ZERO;
  }

  lemma DelimiterIsBorder(w: seq<Byte>)
    ensures DelimiterAt(w, |w| - 8) <==> Border(w, 8)
  {
    if 8 <= |w| {
      assert w[|w| - 8..|w|] == w[|w| - 8..];
      assert DELIMITER[..8] == DELIMITER;
    }
  }

  /** A delimiter of the stream, cut at `p`, is complete or shows as a border. */
  lemma CutDelimiter(all: seq<Byte>, p: nat, j: nat)
    requires j < p <= |all| && DelimiterAt(all, j)
    ensures j + 8 <= p ==> DelimiterAt(all[..p], j)
    ensures j + 8 > p ==> Border(all[..p], p - j)
  {
    if j + 8 <= p {
      assert all[..p][j..j + 8] == all[j..j + 8];
    } else {
      assert all[..p][j..] == all[j..j + 8][..p - j];
    }
  }

  /** The borders after one more byte: the longest one grows, or a zero starts anew. */
  lemma BordersAfter(w: seq<Byte>, b: Byte, k: nat, j: nat)
    requires AutomatonAt(w, k) && 0 < j <= 8
    ensures Border(w + [b], j) <==> (j == k + 1 || j == 1) && DELIMITER[j - 1] == b
  {
    BorderStep(w, b, j);
    if 1 < j <= k {
      NoInnerBorder(w, k, j - 1);
    }
  }

  lemma AutomatonStep(w: seq<Byte>, b: Byte, k: nat)
    requires AutomatonAt(w, k)
    ensures Next(k, b) == 8 <==> DelimiterAt(w + [b], |w| - 7)
    ensures Next(k, b) < 8 ==> AutomatonAt(w + [b], Next(k, b))
  {
    var w' := w + [b];
    DelimiterIsBorder(w');
    BordersAfter(w, b, k, 8);
    if Next(k, b) < 8 {
      forall j | 0 < j <= 8 ensures Border(w', j) <==> (j == k + 1 || j == 1) && DELIMITER[j - 1] == b {
        BordersAfter(w, b, k, j);
      }
      assert w'[..|w|] == w;
      forall j ensures !DelimiterAt(w', j) {
        if j != |w| - 7 && DelimiterAt(w', j) {
          CutDelimiter(w', |w|, j);
        }
      }
    }
  }

  // ----- nothing that may start a frame is dropped -----

  lemma {:induction false} KeptFrom(buf: seq<Byte>, ext: seq<Byte>, p: nat, k: nat, j: nat)
    requires p <= |buf| && k < 8 && k <= p && AutomatonAt(buf[..p], k)
    requires Scan(buf, p, k).Kept? && j < Scan(buf, p, k).consumed
    ensures !DelimiterAt(buf + ext, j)
    decreases |buf| - p
  {
    if |buf| - p <= HEAD_LENGTH - k {
      NoDelimiterBefore(buf, ext, p, k, j);
    } else {
      assert buf[..p] + [buf[p]] == buf[..p + 1];
      AutomatonStep(buf[..p], buf[p], k);
      if Next(k, buf[p]) == 8 {
        NoDelimiterBefore(buf, ext, p, k, j);
      } else {
        KeptFrom(buf, ext, p + 1, Next(k, buf[p]), j);
      }
    }
  }

  /** A delimiter that starts before the current match would be complete, or a longer match. */
  lemma NoDelimiterBefore(buf: seq<Byte>, ext: seq<Byte>, p: nat, k: nat, j: nat)
    requires p <= |buf| && k <= p && AutomatonAt(buf[..p], k) && j < p - k
    ensures !DelimiterAt(buf + ext, j)
  {
    assert (buf + ext)[..p] == buf[..p];
    if DelimiterAt(buf + ext, j) {
      CutDelimiter(buf + ext, p, j);
    }
  }

  /** The receiver never drops a byte at which a delimiter starts, however the stream continues. */
  lemma NeverDropsAFrameStart(buf: seq<Byte>, ext: seq<Byte>, j: nat)
    requires Scan(buf, 0, 0).Kept? && j < Scan(buf, 0, 0).consumed
    ensures !DelimiterAt(buf + ext, j)
  {
    assert AutomatonAt(buf[..0], 0);
    KeptFrom(buf, ext, 0, 0, j);
  }

  // ----- a stream of frames -----

  predicate AllSendable(msgs: seq<seq<Byte>>) { forall i :: 0 <= i < |msgs| ==> Sendable(msgs[i]) }

  function Frames(msgs: seq<seq<Byte>>): seq<Byte>
    requires AllSendable(msgs)
  {
    if msgs == [] then [] else Pack(msgs[0]) + Frames(msgs[1..])
  }

  /** No delimiter starts in the first `g` bytes. */
  ghost predicate QuietBefore(stream: seq<Byte>, g: nat) { forall j | 0 <= j < g :: !DelimiterAt(stream, j) }

  /** What reading a buffer yields whose stream is `g` bytes of garbage and then a frame of `m`. */
  predicate ReadsFrame(r: ReadResult, available: nat, g: nat, m: seq<Byte>) {
    var size := g + HEAD_LENGTH + |m|;
    if available >= size then r == Got(size, m) else r.Kept? && r.consumed <= g
  }

  lemma PackAt(all: seq<Byte>, g: seq<Byte>, m: seq<Byte>, tail: seq<Byte>)
    requires Sendable(m) && all == g + Pack(m) + tail
    ensures DelimiterAt(all, |g|)
    ensures var body := |g| + HEAD_LENGTH;
            FromBigEndian(all[body - COM_MSG_LENGTH..body]) == |m| && all[body..body + |m|] == m
  {
    var body := |g| + HEAD_LENGTH;
    assert all[|g|..|g| + 8] == DELIMITER;
    assert all[body - COM_MSG_LENGTH..body] == BigEndian(|m|);
    BigEndianRoundTrip(|m|);
    assert all[body..body + |m|] == m;
  }

  lemma FoundFrame(buf: seq<Byte>, ext: seq<Byte>, g: seq<Byte>, m: seq<Byte>, tail: seq<Byte>)
    requires Sendable(m) && buf + ext == g + Pack(m) + tail && |g| + HEAD_LENGTH <= |buf|
    ensures ReadsFrame(ReadFrame(buf, |g| + 8), |buf|, |g|, m)
  {
    var all, body := buf + ext, |g| + HEAD_LENGTH;
    PackAt(all, g, m, tail);
    assert buf[body - COM_MSG_LENGTH..body] == all[body - COM_MSG_LENGTH..body];
    if body + |m| <= |buf| {
      assert buf[body..body + |m|] == all[body..body + |m|];
    }
  }

  /** The scan stands at `p` inside the garbage or inside the frame's own delimiter. */
  ghost predicate Approaching(buf: seq<Byte>, g: nat, p: nat, k: nat) {
    p <= |buf| && k < 8 && k <= p && AutomatonAt(buf[..p], k) && p - k <= g && p <= g + 7
  }

  /** A byte of a quiet stretch either completes the frame's own delimiter or brings the scan closer to it. */
  lemma ScanOneByte(buf: seq<Byte>, ext: seq<Byte>, g: nat, p: nat, k: nat)
    requires DelimiterAt(buf + ext, g) && QuietBefore(buf + ext, g) && Approaching(buf, g, p, k) && p < |buf|
    ensures Next(k, buf[p]) == 8 ==> p == g + 7
    ensures Next(k, buf[p]) < 8 ==> Approaching(buf, g, p + 1, Next(k, buf[p]))
  {
    var all := buf + ext;
    assert buf[..p] + [buf[p]] == buf[..p + 1] == all[..p + 1];
    AutomatonStep(buf[..p], buf[p], k);
    if Next(k, buf[p]) == 8 {
      assert all[p - 7..p + 1] == buf[..p + 1][p - 7..p + 1];
      assert DelimiterAt(all, p - 7);
    } else if g < p + 1 {
      CutDelimiter(all, p + 1, g);
    }
  }

  lemma {:induction false} ScanFrame(buf: seq<Byte>, ext: seq<Byte>, g: seq<Byte>, m: seq<Byte>, tail: seq<Byte>,
                                     p: nat, k: nat)
    requires Sendable(m) && buf + ext == g + Pack(m) + tail && QuietBefore(buf + ext, |g|)
    requires Approaching(buf, |g|, p, k)
    ensures ReadsFrame(Scan(buf, p, k), |buf|, |g|, m)
    decreases |buf| - p
  {
    if |buf| - p > HEAD_LENGTH - k {
      PackAt(buf + ext, g, m, tail);
      ScanOneByte(buf, ext, |g|, p, k);
      if Next(k, buf[p]) == 8 {
        FoundFrame(buf, ext, g, m, tail);
      } else {
        ScanFrame(buf, ext, g, m, tail, p + 1, Next(k, buf[p]));
      }
    }
  }

  lemma {:induction false} ScanGarbage(buf: seq<Byte>, p: nat, k: nat)
    requires QuietBefore(buf, |buf|)
    requires p <= |buf| && k < 8 && k <= p && AutomatonAt(buf[..p], k)
    ensures Scan(buf, p, k).Kept?
    decreases |buf| - p
  {
    if |buf| - p > HEAD_LENGTH - k {
      assert buf[..p] + [buf[p]] == buf[..p + 1];
      AutomatonStep(buf[..p], buf[p], k);
      if p >= 7 {
        assert buf[p - 7..p + 1] == buf[..p + 1][p - 7..p + 1];
        assert !DelimiterAt(buf, p - 7);
      }
      ScanGarbage(buf, p + 1, Next(k, buf[p]));
    }
  }

  // ----- frames byte by byte -----

  /** The big-endian number in four bytes. */
  function NumberAt(s: seq<Byte>, p: nat): nat
    requires p + 4 <= |s|
  {
    (((s[p] as int) * 256 + s[p + 1] as int) * 256 + s[p + 2] as int) * 256 + s[p + 3] as int
  }

  /** A packed message: a 0, six bytes of 255, a 0, the length and the content. */
  lemma PackLayout(m: seq<Byte>)
    requires |m| <= SOCKET_CODE_MAXLENGTH
    ensures var s := Pack(m);
            && |s| == 12 + |m| && s[..8] == [0, 255, 255, 255, 255, 255, 255, 0]
            && NumberAt(s, 8) == |m| && s[12..] == m
  {
    var n: nat := |m|;
    var s := Pack(m);
    BigEndianRoundTrip(n);
    assert s[..8] == DELIMITER && s[8..12] == BigEndian(n);
    assert forall k | 0 <= k < 4 :: s[8 + k] == s[8..12][k];
  }

  lemma NumberIs(s: seq<Byte>, p: nat)
    requires p + 4 <= |s|
    ensures FromBigEndian(s[p..p + 4]) == NumberAt(s, p)
  {
  }

  /** What a receiver has to make of the first delimiter, which starts at `g`. */
  predicate ReadsAt(r: ReadResult, buf: seq<Byte>, g: nat)
    requires g + 12 < |buf|
  {
    var n := NumberAt(buf, g + 8);
    r == if n == 0 || n > 20476 then Illegal
         else if g + 12 + n > |buf| then Kept(g)
         else Got(g + 12 + n, buf[g + 12..g + 12 + n])
  }

  lemma {:induction false} ScanToDelimiter(buf: seq<Byte>, g: nat, p: nat, k: nat)
    requires g + 12 < |buf| && DelimiterAt(buf, g) && QuietBefore(buf, g) && Approaching(buf, g, p, k)
    ensures ReadsAt(Scan(buf, p, k), buf, g)
    decreases |buf| - p
  {
    assert buf + [] == buf;
    ScanOneByte(buf, [], g, p, k);
    if Next(k, buf[p]) == 8 {
      NumberIs(buf, g + 8);
    } else {
      ScanToDelimiter(buf, g, p + 1, Next(k, buf[p]));
    }
  }

  /** Whatever is in the buffer, its first delimiter decides, and the four bytes behind it. */
  lemma FirstDelimiterDecides(buf: seq<Byte>, g: nat)
    requires g + 12 < |buf| && DelimiterAt(buf, g) && QuietBefore(buf, g)
    ensures ReadsAt(Scan(buf, 0, 0), buf, g)
  {
    assert AutomatonAt(buf[..0], 0);
    ScanToDelimiter(buf, g, 0, 0);
  }

  // ----- any way of cutting the stream -----

  datatype Session = Session(r: Receiver, wire: seq<Byte>, delivered: seq<seq<Byte>>)

  function Start(stream: seq<Byte>): Session { Session(Receiver([], false), stream, []) }

  /** How many of `n` offered bytes one read of the socket takes. */
  function Taken(s: Session, n: nat): (t: nat)
    ensures t <= |s.wire|
  {
    var free := if |s.r.buf| < BUFFER_SIZE then BUFFER_SIZE - |s.r.buf| else 0;
    var t := if n < |s.wire| then n else |s.wire|;
    if s.r.hasMessage then 0 else if t < free then t else free
  }

  /** One call of recvCodeByFindHead while the network offers `n` more bytes. */
  function Call(s: Session, n: nat): Session {
    var t := Taken(s, n);
    var o := Receive(s.r, s.wire[..t]);
    Session(o.after, s.wire[t..], if o.ret == 1 then s.delivered + [o.code] else s.delivered)
  }

  function Calls(s: Session, ns: seq<nat>): Session
    decreases |ns|
  {
    if ns == [] then s else Calls(Call(s, ns[0]), ns[1..])
  }

  /** j messages are delivered; the rest of the stream is garbage `g` and the frames still to come. */
  ghost predicate Good(s: Session, msgs: seq<seq<Byte>>, j: nat, g: seq<Byte>) {
    && AllSendable(msgs) && j <= |msgs|
    && s.delivered == msgs[..j]
    && s.r.buf + s.wire == g + Frames(msgs[j..])
    && QuietBefore(s.r.buf + s.wire, |g|)
    && (!s.r.hasMessage ==> |s.r.buf| < HEAD_LENGTH + SOCKET_CODE_MAXLENGTH)
    && (!s.r.hasMessage && j < |msgs| ==> |s.r.buf| < |g| + HEAD_LENGTH + |msgs[j]|)
    && (s.r.hasMessage ==> s.r.buf != [])
  }

  function Work(s: Session): nat {
    2 * |s.wire| + |s.r.buf| + if s.r.hasMessage then 1 else 0
  }

  predicate Idle(s: Session) { s.wire == [] && !s.r.hasMessage }

  lemma QuietSuffix(stream: seq<Byte>, g: nat, c: nat)
    requires QuietBefore(stream, g) && c <= g && c <= |stream|
    ensures QuietBefore(stream[c..], g - c)
  {
    forall j | 0 <= j < g - c ensures !DelimiterAt(stream[c..], j) {
      if j + 8 <= |stream[c..]| {
        assert stream[c..][j..j + 8] == stream[c + j..c + j + 8];
      }
      assert !DelimiterAt(stream, c + j);
    }
  }

  /** The receiver has `buf` in hand, and the wire still holds `wire`. */
  lemma ReadBuffer(buf: seq<Byte>, wire: seq<Byte>, msgs: seq<seq<Byte>>, j: nat, g: seq<Byte>)
    requires AllSendable(msgs) && j <= |msgs| && buf + wire == g + Frames(msgs[j..]) && QuietBefore(buf + wire, |g|)
    ensures j < |msgs| ==> ReadsFrame(Scan(buf, 0, 0), |buf|, |g|, msgs[j])
    ensures j == |msgs| ==> Scan(buf, 0, 0).Kept?
  {
    assert AutomatonAt(buf[..0], 0);
    if j < |msgs| {
      assert msgs[j..][1..] == msgs[j + 1..];
      ScanFrame(buf, wire, g, msgs[j], Frames(msgs[j + 1..]), 0, 0);
    } else {
      QuietPrefix(buf, wire);
      ScanGarbage(buf, 0, 0);
    }
  }

  lemma QuietPrefix(buf: seq<Byte>, wire: seq<Byte>)
    requires QuietBefore(buf + wire, |buf + wire|)
    ensures forall i :: 0 <= i < |buf| ==> !DelimiterAt(buf, i)
  {
    forall i | 0 <= i < |buf| ensures !DelimiterAt(buf, i) {
      if i + 8 <= |buf| {
        assert buf[i..i + 8] == (buf + wire)[i..i + 8];
      }
      assert !DelimiterAt(buf + wire, i);
    }
  }

  /** What stays of the stream once a read has consumed its part. */
  lemma AfterGot(stream: seq<Byte>, msgs: seq<seq<Byte>>, j: nat, g: seq<Byte>)
    requires AllSendable(msgs) && j < |msgs| && stream == g + Frames(msgs[j..])
    ensures var c := |g| + HEAD_LENGTH + |msgs[j]|; c <= |stream| && stream[c..] == [] + Frames(msgs[j + 1..])
  {
    assert msgs[j..][1..] == msgs[j + 1..];
    assert stream == (g + Pack(msgs[j])) + Frames(msgs[j + 1..]);
  }

  lemma AfterKept(stream: seq<Byte>, msgs: seq<seq<Byte>>, j: nat, g: seq<Byte>, c: nat)
    requires AllSendable(msgs) && j <= |msgs| && stream == g + Frames(msgs[j..]) && QuietBefore(stream, |g|) && c <= |g|
    ensures stream[c..] == g[c..] + Frames(msgs[j..]) && QuietBefore(stream[c..], |g[c..]|)
  {
    QuietSuffix(stream, |g|, c);
  }

  lemma ReadKeeps(s: Session, buf: seq<Byte>, wire: seq<Byte>, msgs: seq<seq<Byte>>, j: nat, g: seq<Byte>)
    returns (j': nat, g': seq<Byte>)
    requires AllSendable(msgs) && j <= |msgs| && buf + wire == g + Frames(msgs[j..]) && QuietBefore(buf + wire, |g|)
    requires s.delivered == msgs[..j] && buf != []
    ensures var o := Receive(Receiver(buf, true), []);
            Good(Session(o.after, wire, if o.ret == 1 then s.delivered + [o.code] else s.delivered), msgs, j', g')
            && |o.after.buf| + (if o.after.hasMessage then 1 else 0) < |buf| + 1
  {
    ReadBuffer(buf, wire, msgs, j, g);
    var r := Scan(buf, 0, 0);
    assert buf[r.consumed..] + wire == (buf + wire)[r.consumed..];
    if r.Got? {
      j', g' := j + 1, [];
      AfterGot(buf + wire, msgs, j, g);
    } else {
      j', g' := j, g[r.consumed..];
      AfterKept(buf + wire, msgs, j, g, r.consumed);
    }
  }

  lemma CallKeeps(s: Session, n: nat, msgs: seq<seq<Byte>>, j: nat, g: seq<Byte>) returns (j': nat, g': seq<Byte>)
    requires Good(s, msgs, j, g)
    ensures Good(Call(s, n), msgs, j', g')
    ensures n > 0 && !Idle(s) ==> Work(Call(s, n)) < Work(s)
    ensures Idle(s) ==> Call(s, n) == s
  {
    var t := Taken(s, n);
    if !s.r.hasMessage && t == 0 {
      j', g' := j, g;
      assert s.wire[0..] == s.wire;
    } else {
      var buf := if s.r.hasMessage then s.r.buf else s.r.buf + s.wire[..t];
      assert buf + s.wire[t..] == s.r.buf + s.wire;
      j', g' := ReadKeeps(s, buf, s.wire[t..], msgs, j, g);
    }
  }

  predicate AllPositive(ns: seq<nat>) { forall i :: 0 <= i < |ns| ==> ns[i] > 0 }

  lemma {:induction false} CallsKeep(s: Session, ns: seq<nat>, msgs: seq<seq<Byte>>, j: nat, g: seq<Byte>)
    returns (j': nat, g': seq<Byte>)
    requires Good(s, msgs, j, g)
    ensures Good(Calls(s, ns), msgs, j', g')
    ensures Idle(s) ==> Calls(s, ns) == s
    ensures AllPositive(ns) ==> Idle(Calls(s, ns)) || Work(Calls(s, ns)) + |ns| <= Work(s)
    decreases |ns|
  {
    if ns == [] {
      j', g' := j, g;
    } else {
      var j1, g1 := CallKeeps(s, ns[0], msgs, j, g);
      j', g' := CallsKeep(Call(s, ns[0]), ns[1..], msgs, j1, g1);
    }
  }

  lemma StartGood(garbage: seq<Byte>, msgs: seq<seq<Byte>>)
    requires AllSendable(msgs) && QuietBefore(garbage + Frames(msgs), |garbage|)
    ensures Good(Start(garbage + Frames(msgs)), msgs, 0, garbage)
  {
    var stream := garbage + Frames(msgs);
    assert msgs[0..] == msgs && [] + stream == stream;
  }

  lemma FramesSize(msgs: seq<seq<Byte>>, j: nat)
    requires AllSendable(msgs) && j <= |msgs|
    ensures j < |msgs| ==> |Frames(msgs[j..])| >= HEAD_LENGTH + |msgs[j]|
  {
  }

  lemma IdleIsDone(s: Session, msgs: seq<seq<Byte>>, j: nat, g: seq<Byte>)
    requires Good(s, msgs, j, g) && Idle(s)
    ensures s.delivered == msgs
  {
    FramesSize(msgs, j);
    assert |s.r.buf| == |s.r.buf + s.wire| == |g| + |Frames(msgs[j..])|;
    assert msgs[..|msgs|] == msgs;
  }

  /**
   However the stream is cut, the receiver delivers the packed messages and nothing else, in order;
   and once it has been called often enough it has delivered all of them. Garbage before the first
   frame does no harm if no delimiter starts in it.
   */
  lemma DeliversExactly(garbage: seq<Byte>, msgs: seq<seq<Byte>>, ns: seq<nat>)
    requires AllSendable(msgs) && AllPositive(ns)
    requires QuietBefore(garbage + Frames(msgs), |garbage|)
    ensures var stream := garbage + Frames(msgs);
            var s := Calls(Start(stream), ns);
            && s.delivered <= msgs
            && (|ns| > 2 * |stream| ==> s.delivered == msgs && s.wire == [])
  {
    var stream := garbage + Frames(msgs);
    StartGood(garbage, msgs);
    var j, g := CallsKeep(Start(stream), ns, msgs, 0, garbage);
    if Idle(Calls(Start(stream), ns)) {
      IdleIsDone(Calls(Start(stream), ns), msgs, j, g);
    }
  }
}
