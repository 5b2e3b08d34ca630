/**
 * The wire format of network.c: big-endian integer packing, the 3-byte frame
 * header, the body layout that send_packet writes for each packet type, and
 * the checks recv_packet applies before it accepts a frame.
 *
 * Everything here is a pure function of byte sequences.  The socket is not
 * modelled: a receive sees the bytes the peer has delivered as `input`, and a
 * recv of n bytes gets min(n, |input|) of them.
 */
module Codec {
  import opened Wrappers
  import Board

  type u8 = x: int | 0 <= x < 0x100
  type u16 = x: int | 0 <= x < 0x1_0000
  type u32 = x: int | 0 <= x < 0x1_0000_0000

  /** NET_MAGIC, the value both hello packets carry.  Its numeric value is not
      part of this model: every property below holds whatever it is. */
  const NetMagic: u32

  /** PACKET_MAX_LENGTH: the largest body a header may announce. */
  const PacketMaxLength := 512
  /** The largest disconnect body accepted, and the longest reason sent
      (a 512-byte buffer holding a NUL-terminated string). */
  const ReasonMaxLength := 511

  // Values of enum packet_type, in the order the protocol lists them.
  const PktClientHello := 0
  const PktServerHello := 1
  const PktServerReady := 2
  const PktShipsReady := 3
  const PktBeginGame := 4
  const PktMove := 5
  const PktMoveResult := 6
  const PktEndGame := 7
  const PktDisconnect := 8

  /** enum peer_type */
  datatype PeerType = PeerServer | PeerClient

  function PeerCode(p: PeerType): u8
  {
    match p
    case PeerServer => 0
    case PeerClient => 1
  }

  /** The `first == PEER_CLIENT || first == PEER_SERVER` test of recv_packet. */
  function PeerOfCode(v: int): (p: Option<PeerType>)
    ensures p.Some? <==> (v == PeerCode(PeerClient) || v == PeerCode(PeerServer))
    ensures p.Some? ==> PeerCode(p.value) == v
  {
    if v == PeerCode(PeerServer) then Some(PeerServer)
    else if v == PeerCode(PeerClient) then Some(PeerClient)
    else None
  }

  /** enum net_move_result */
  datatype NetMoveResult = NetHit | NetMiss | NetSink

  function ResultCode(m: NetMoveResult): u8
  {
    match m
    case NetHit => 0
    case NetMiss => 1
    case NetSink => 2
  }

  /** The `case NET_HIT: case NET_MISS: case NET_SINK:` test of recv_packet. */
  function ResultOfCode(v: int): (m: Option<NetMoveResult>)
    ensures m.Some? <==> (v == ResultCode(NetHit) || v == ResultCode(NetMiss) || v == ResultCode(NetSink))
    ensures m.Some? ==> ResultCode(m.value) == v
  {
    if v == ResultCode(NetHit) then Some(NetHit)
    else if v == ResultCode(NetMiss) then Some(NetMiss)
    else if v == ResultCode(NetSink) then Some(NetSink)
    else None
  }

  /** struct packet, one variant per type send_packet and recv_packet handle.
      `Disconnect.reason` is the content of the reason buffer (the string is the
      part before the first zero byte).  `Unhandled` is a packet whose type is
      none of the handled ones. */
  datatype Packet =
    | ClientHello
    | ServerHello
    | ServerReady
    | ShipsReady
    | BeginGame(first: PeerType)
    | Move(row: int, col: int)
    | MoveResult(result: NetMoveResult)
    | EndGame(winner: PeerType)
    | Disconnect(reason: seq<u8>)
    | Unhandled(kind: int)

  /** The packet's `type` field. */
  function Tag(p: Packet): int
  {
    match p
    case ClientHello => PktClientHello
    case ServerHello => PktServerHello
    case ServerReady => PktServerReady
    case ShipsReady => PktShipsReady
    case BeginGame(_) => PktBeginGame
    case Move(_, _) => PktMove
    case MoveResult(_) => PktMoveResult
    case EndGame(_) => PktEndGame
    case Disconnect(_) => PktDisconnect
    case Unhandled(kind) => kind
  }

  /** What a C value of struct packet guarantees: the reason buffer holds a
      NUL-terminated string of at most 511 characters; an unhandled type is
      none of the handled ones. */
  predicate WellFormed(p: Packet)
  {
    && (p.Disconnect? ==> |UntilNul(p.reason)| <= ReasonMaxLength)
    && (p.Unhandled? ==> p.kind !in {PktClientHello, PktServerHello, PktServerReady, PktShipsReady,
                                      PktBeginGame, PktMove, PktMoveResult, PktEndGame, PktDisconnect})
  }

  // ---------------------------------------------------------------------------
  // Integer packing (pack_u16, pack_u32, unpack_u16, unpack_u32)
  // ---------------------------------------------------------------------------

  function PackU16(n: u16): (b: seq<u8>)
    ensures |b| == 2
  {
    [n / 0x100, n % 0x100]
  }

  function UnpackU16(b: seq<u8>): (n: u16)
    requires |b| >= 2
    ensures n / 0x100 == b[0] && n % 0x100 == b[1]
  {
    b[0] as int * 0x100 + b[1] as int
  }

  function PackU32(n: u32): (b: seq<u8>)
    ensures |b| == 4
  {
    [n / 0x100_0000, (n / 0x1_0000) % 0x100, (n / 0x100) % 0x100, n % 0x100]
  }

  function UnpackU32(b: seq<u8>): (n: u32)
    requires |b| >= 4
    ensures n / 0x1_0000 == UnpackU16(b[..2]) && n % 0x1_0000 == UnpackU16(b[2..4])
  {
    b[0] as int * 0x100_0000 + b[1] as int * 0x1_0000 + b[2] as int * 0x100 + b[3] as int
  }

  /** Unpacking a packed 16-bit value gives it back, most significant byte first. */
  lemma U16RoundTrip(n: u16)
    ensures UnpackU16(PackU16(n)) == n
    ensures PackU16(n)[0] as int * 0x100 <= n < (PackU16(n)[0] as int + 1) * 0x100
  {
  }

  /** Every 2-byte sequence is the packing of the value it unpacks to. */
  lemma U16BytesRoundTrip(b: seq<u8>)
    requires |b| == 2
    ensures PackU16(UnpackU16(b)) == b
  {
  }

  /** Unpacking a packed 32-bit value gives it back, most significant byte first. */
  lemma {:induction false} U32RoundTrip(n: u32)
    ensures UnpackU32(PackU32(n)) == n
    ensures PackU32(n)[0] as int * 0x100_0000 <= n < (PackU32(n)[0] as int + 1) * 0x100_0000
  {
    var b := PackU32(n);
    var hi, lo := n / 0x1_0000, n % 0x1_0000;
    assert n == hi * 0x1_0000 + lo;
    assert b[0] == hi / 0x100 && b[1] == hi % 0x100 by {
      DivDiv(n);
    }
    assert b[2] == lo / 0x100 && b[3] == lo % 0x100 by {
      ModDiv(n);
    }
    assert hi == b[0] as int * 0x100 + b[1] as int;
    assert lo == b[2] as int * 0x100 + b[3] as int;
  }

  /** Every 4-byte sequence is the packing of the value it unpacks to. */
  lemma {:induction false} U32BytesRoundTrip(b: seq<u8>)
    requires |b| == 4
    ensures PackU32(UnpackU32(b)) == b
  {
    var n := UnpackU32(b);
    var hi: int, lo: int := b[0] as int * 0x100 + b[1] as int, b[2] as int * 0x100 + b[3] as int;
    assert n == hi * 0x1_0000 + lo;
    assert n / 0x1_0000 == hi && n % 0x1_0000 == lo;
    DivDiv(n);
    ModDiv(n);
  }

  lemma DivDiv(n: nat)
    ensures n / 0x100_0000 == (n / 0x1_0000) / 0x100
  {
  }

  lemma ModDiv(n: nat)
    ensures (n / 0x100) % 0x100 == (n % 0x1_0000) / 0x100
    ensures n % 0x100 == (n % 0x1_0000) % 0x100
  {
  }

  // ---------------------------------------------------------------------------
  // Header (pack_header, unpack_header)
  // ---------------------------------------------------------------------------

  /** struct packet_header: the type as the receiver sees it, and the length. */
  datatype Header = Header(kind: int, length: u16)

  /** The value of a byte read through a (signed) `char`. */
  function SignedChar(b: u8): (v: int)
    ensures -0x80 <= v < 0x80
    ensures v % 0x100 == b
  {
    if b < 0x80 then b else b - 0x100
  }

  /** pack_header: the type byte `(char)type`, then the big-endian length. */
  function PackHeader(h: Header): (b: seq<u8>)
    ensures |b| == 3
  {
    [h.kind % 0x100] + PackU16(h.length)
  }

  /** unpack_header: the first byte as a signed char, then the length. */
  function UnpackHeader(b: seq<u8>): (h: Header)
    requires |b| >= 3
    ensures -0x80 <= h.kind < 0x80
    ensures PackHeader(h) == b[..3]
  {
    Header(SignedChar(b[0]), UnpackU16(b[1..3]))
  }

  /** A header whose type fits a char survives packing and unpacking. */
  lemma HeaderRoundTrip(h: Header)
    requires -0x80 <= h.kind < 0x80
    ensures UnpackHeader(PackHeader(h)) == h
  {
    U16RoundTrip(h.length);
    assert PackHeader(h)[1..3] == PackU16(h.length);
  }

  // ---------------------------------------------------------------------------
  // Strings
  // ---------------------------------------------------------------------------

  /** The C string stored in a buffer: the bytes before the first zero byte
      (what strlen measures and strncpy stops at). */
  function UntilNul(s: seq<u8>): (r: seq<u8>)
    ensures |r| <= |s| && r == s[..|r|]
    ensures 0 !in r
    ensures |r| < |s| ==> s[|r|] == 0
  {
    if s == [] || s[0] == 0 then [] else [s[0]] + UntilNul(s[1..])
  }

  /** A string without zero bytes is its own C string. */
  lemma UntilNulOfString(s: seq<u8>)
    requires 0 !in s
    ensures UntilNul(s) == s
  {
  }

  /** At most `n` leading bytes: what a bounded formatter keeps. */
  function Truncate(s: seq<u8>, n: nat): (r: seq<u8>)
    ensures r <= s
    ensures |r| == if |s| <= n then |s| else n
  {
    if |s| <= n then s else s[..n]
  }

  // ---------------------------------------------------------------------------
  // Encoding (send_packet)
  // ---------------------------------------------------------------------------

  /** The body send_packet lays out for a packet, or None for a type it does
      not handle (for which it sends nothing). */
  function EncodeBody(p: Packet): (body: Option<seq<u8>>)
    requires WellFormed(p)
    ensures body.Some? <==> !p.Unhandled?
    ensures body.Some? ==> |body.value| <= ReasonMaxLength
  {
    match p
    case ClientHello => Some(PackU32(NetMagic))
    case ServerHello => Some(PackU32(NetMagic))
    case ServerReady => Some([])
    case ShipsReady => Some([])
    case Disconnect(reason) => Some(UntilNul(reason))
    case BeginGame(first) => Some([PeerCode(first)])
    case Move(row, col) => Some([row % 0x100, col % 0x100])
    case MoveResult(result) => Some([ResultCode(result)])
    case EndGame(winner) => Some([PeerCode(winner)])
    case Unhandled(_) => None
  }

  /** The frame send_packet writes: header, then body. */
  function Encode(p: Packet): (frame: Option<seq<u8>>)
    requires WellFormed(p)
    ensures frame.Some? <==> !p.Unhandled?
    ensures frame.Some? ==> 3 <= |frame.value| <= 3 + ReasonMaxLength
  {
    match EncodeBody(p)
    case None => None
    case Some(body) => Some(PackHeader(Header(Tag(p), |body|)) + body)
  }

  /** The body size of each packet type, as the protocol defines it. */
  function BodySize(p: Packet): nat
  {
    match p
    case ClientHello => 4
    case ServerHello => 4
    case ServerReady => 0
    case ShipsReady => 0
    case BeginGame(_) => 1
    case Move(_, _) => 2
    case MoveResult(_) => 1
    case EndGame(_) => 1
    case Disconnect(reason) => |UntilNul(reason)|
    case Unhandled(_) => 0
  }

  /** Frame layout: one type byte, a big-endian length equal to the number of
      body bytes that follow, and a body of the type's size; nothing at all for
      an unhandled type. */
  lemma FrameLayout(p: Packet)
    requires WellFormed(p)
    ensures p.Unhandled? ==> Encode(p) == None
    ensures !p.Unhandled? ==>
      && Encode(p).Some?
      && |Encode(p).value| == 3 + BodySize(p)
      && Encode(p).value[0] == Tag(p)
      && UnpackU16(Encode(p).value[1..3]) == BodySize(p)
      && Encode(p).value[3..] == EncodeBody(p).value
    ensures p.Move? ==> Encode(p).value[3..] == [p.row % 0x100, p.col % 0x100]
  {
    if !p.Unhandled? {
      var body := EncodeBody(p).value;
      var f := Encode(p).value;
      U16RoundTrip(|body|);
      assert f[1..3] == PackU16(|body|);
    }
  }

  // ---------------------------------------------------------------------------
  // Decoding (recv_packet)
  // ---------------------------------------------------------------------------

  /** Why recv_packet returned -1; every case but ConnectionClosed also sends
      a disconnect frame. */
  datatype RecvError =
    | ConnectionClosed
    | BadHeader
    | PacketTooLong
    | ShortBody(received: int, expected: int)
    | BadLength(name: string, length: int)
    | BadMagic
    | DisconnectTooLong
    | BadFirst
    | BadCoordinates
    | BadResult
    | BadType(kind: int)

  /** The exact body size of the fixed-size types; None for disconnect and for
      types recv_packet does not know. */
  function FixedLength(kind: int): Option<nat>
  {
    if kind == PktClientHello || kind == PktServerHello then Some(4)
    else if kind == PktServerReady || kind == PktShipsReady then Some(0)
    else if kind == PktBeginGame || kind == PktMoveResult || kind == PktEndGame then Some(1)
    else if kind == PktMove then Some(2)
    else None
  }

  /** The switch of recv_packet, applied to a header and the body that followed
      it.  `stale` is the winner the caller's packet already held: the end-game
      case never reads its body byte, so the winner is left as it was. */
  function DecodeBody(h: Header, body: seq<u8>, stale: PeerType): (r: Result<Packet, RecvError>)
    requires |body| == h.length
    ensures r.Ok? ==> Tag(r.value) == h.kind && WellFormed(r.value)
    ensures r.Ok? && FixedLength(h.kind).Some? ==> h.length == FixedLength(h.kind).value
    ensures r.Err? ==> !(r.error.ConnectionClosed? || r.error.BadHeader? || r.error.PacketTooLong? || r.error.ShortBody?)
  {
    var t := h.kind;
    if t == PktClientHello || t == PktServerHello then
      if h.length != 4 then Err(BadLength(if t == PktClientHello then "client hello" else "server hello", h.length))
      else if UnpackU32(body) != NetMagic then Err(BadMagic)
      else Ok(if t == PktClientHello then ClientHello else ServerHello)
    else if t == PktServerReady then
      if h.length != 0 then Err(BadLength("server ready", h.length)) else Ok(ServerReady)
    else if t == PktShipsReady then
      if h.length != 0 then Err(BadLength("ships ready", h.length)) else Ok(ShipsReady)
    else if t == PktDisconnect then
      if h.length > ReasonMaxLength then Err(DisconnectTooLong)
      else Ok(Disconnect(UntilNul(body)))
    else if t == PktBeginGame then
      if h.length != 1 then Err(BadLength("begin game", h.length))
      else match PeerOfCode(SignedChar(body[0]))
        case None => Err(BadFirst)
        case Some(first) => Ok(BeginGame(first))
    else if t == PktMove then
      if h.length != 2 then Err(BadLength("move", h.length))
      else
        var row, col := SignedChar(body[0]), SignedChar(body[1]);
        if row < 0 || row >= Board.BoardSize || col < 0 || col >= Board.BoardSize then Err(BadCoordinates)
        else Ok(Move(row, col))
    else if t == PktMoveResult then
      if h.length != 1 then Err(BadLength("move result", h.length))
      else match ResultOfCode(SignedChar(body[0]))
        case None => Err(BadResult)
        case Some(result) => Ok(MoveResult(result))
    else if t == PktEndGame then
      if h.length != 1 then Err(BadLength("end game", h.length))
      else Ok(EndGame(stale))
    else Err(BadType(t))
  }

  /** recv_packet on the bytes the peer delivered: read the header, bound its
      length, read the body, then decode it.  Bytes after the frame are not
      read. */
  function Receive(input: seq<u8>, stale: PeerType): (r: Result<Packet, RecvError>)
    ensures r == Err(ConnectionClosed) <==> |input| == 0
    ensures r.Ok? ==> 3 <= |input| && 3 + UnpackU16(input[1..3]) <= |input|
    ensures r.Ok? ==> UnpackU16(input[1..3]) <= PacketMaxLength && Tag(r.value) == SignedChar(input[0])
  {
    if |input| == 0 then Err(ConnectionClosed)
    else if |input| < 3 then Err(BadHeader)
    else
      var h := UnpackHeader(input[..3]);
      if h.length > PacketMaxLength then Err(PacketTooLong)
      else if |input| - 3 < h.length then Err(ShortBody(|input| - 3, h.length))
      else DecodeBody(h, input[3..3 + h.length], stale)
  }

  /** The rule recv_packet enforces, stated per type: which bodies it accepts
      after a header of this kind. */
  predicate Acceptable(kind: int, body: seq<u8>)
  {
    if kind == PktClientHello || kind == PktServerHello then body == PackU32(NetMagic)
    else if kind == PktServerReady || kind == PktShipsReady then body == []
    else if kind == PktDisconnect then |body| <= ReasonMaxLength
    else if kind == PktBeginGame then body == [PeerCode(PeerClient)] || body == [PeerCode(PeerServer)]
    else if kind == PktMove then |body| == 2 && body[0] < Board.BoardSize && body[1] < Board.BoardSize
    else if kind == PktMoveResult then
      body == [ResultCode(NetHit)] || body == [ResultCode(NetMiss)] || body == [ResultCode(NetSink)]
    else if kind == PktEndGame then |body| == 1
    else false
  }

  /** The decoder accepts a body exactly when the rule above allows it; unknown
      types are always rejected. */
  lemma {:induction false} DecodeAcceptsExactly(h: Header, body: seq<u8>, stale: PeerType)
    requires |body| == h.length
    ensures DecodeBody(h, body, stale).Ok? <==> Acceptable(h.kind, body)
  {
    var t := h.kind;
    if t == PktClientHello || t == PktServerHello {
      if |body| == 4 {
        U32BytesRoundTrip(body);
        U32RoundTrip(NetMagic);
      }
    } else if t == PktBeginGame || t == PktMoveResult {
      if |body| == 1 {
        assert SignedChar(body[0]) == body[0] <==> body[0] < 0x80;
      }
    }
  }

  /** Which error a body of the announced length gets when one of its fields
      is wrong: the magic number, the first player, a coordinate (bytes of
      0x80 and up read as negative), the move result, the reason's length or
      the type itself. */
  lemma FieldRejections(h: Header, body: seq<u8>, stale: PeerType)
    requires |body| == h.length
    ensures (h.kind == PktClientHello || h.kind == PktServerHello) && |body| == 4 && UnpackU32(body) != NetMagic ==>
      DecodeBody(h, body, stale) == Err(BadMagic)
    ensures h.kind == PktBeginGame && |body| == 1 && PeerOfCode(SignedChar(body[0])).None? ==>
      DecodeBody(h, body, stale) == Err(BadFirst)
    ensures h.kind == PktMove && |body| == 2 && (body[0] >= Board.BoardSize || body[1] >= Board.BoardSize) ==>
      DecodeBody(h, body, stale) == Err(BadCoordinates)
    ensures h.kind == PktMoveResult && |body| == 1 && ResultOfCode(SignedChar(body[0])).None? ==>
      DecodeBody(h, body, stale) == Err(BadResult)
    ensures h.kind == PktDisconnect && |body| > ReasonMaxLength ==>
      DecodeBody(h, body, stale) == Err(DisconnectTooLong)
    ensures h.kind !in {PktClientHello, PktServerHello, PktServerReady, PktShipsReady, PktBeginGame,
                        PktMove, PktMoveResult, PktEndGame, PktDisconnect} ==>
      DecodeBody(h, body, stale) == Err(BadType(h.kind))
  {
  }

  /** Each fixed-size type is rejected, with the length it carried, unless its
      length is exactly the type's size. */
  lemma WrongLengthRejected(h: Header, body: seq<u8>, stale: PeerType)
    requires |body| == h.length
    requires FixedLength(h.kind).Some? && FixedLength(h.kind).value != h.length
    ensures DecodeBody(h, body, stale).Err?
    ensures DecodeBody(h, body, stale).error.BadLength?
    ensures DecodeBody(h, body, stale).error.length == h.length
    ensures h.kind == PktClientHello ==> DecodeBody(h, body, stale).error.name == "client hello"
    ensures h.kind == PktServerHello ==> DecodeBody(h, body, stale).error.name == "server hello"
    ensures h.kind == PktServerReady ==> DecodeBody(h, body, stale).error.name == "server ready"
    ensures h.kind == PktShipsReady ==> DecodeBody(h, body, stale).error.name == "ships ready"
    ensures h.kind == PktBeginGame ==> DecodeBody(h, body, stale).error.name == "begin game"
    ensures h.kind == PktMove ==> DecodeBody(h, body, stale).error.name == "move"
    ensures h.kind == PktMoveResult ==> DecodeBody(h, body, stale).error.name == "move result"
    ensures h.kind == PktEndGame ==> DecodeBody(h, body, stale).error.name == "end game"
  {
  }

  /** Rejections before the body is decoded: an empty read reports closure, a
      short header, a length above 512 and a short body are each reported. */
  lemma FramingRejections(input: seq<u8>, stale: PeerType)
    ensures |input| == 0 ==> Receive(input, stale) == Err(ConnectionClosed)
    ensures 1 <= |input| < 3 ==> Receive(input, stale) == Err(BadHeader)
    ensures |input| >= 3 && UnpackU16(input[1..3]) > PacketMaxLength ==>
      Receive(input, stale) == Err(PacketTooLong)
    ensures |input| >= 3 && UnpackU16(input[1..3]) <= PacketMaxLength && |input| - 3 < UnpackU16(input[1..3]) ==>
      Receive(input, stale) == Err(ShortBody(|input| - 3, UnpackU16(input[1..3])))
    ensures |input| >= 3 && UnpackU16(input[1..3]) <= PacketMaxLength && 3 + UnpackU16(input[1..3]) <= |input| ==>
      Receive(input, stale) == DecodeBody(UnpackHeader(input[..3]), input[3..3 + UnpackU16(input[1..3])], stale)
  {
    if |input| >= 3 {
      assert input[..3][1..3] == input[1..3];
    }
  }

  /** The receiver accepts a byte stream exactly when it holds a whole frame
      of at most PACKET_MAX_LENGTH body bytes whose type and body the decoder
      accepts. */
  lemma ReceiveAcceptsExactly(input: seq<u8>, stale: PeerType)
    ensures Receive(input, stale).Ok? <==>
      && |input| >= 3
      && UnpackU16(input[1..3]) <= PacketMaxLength
      && 3 + UnpackU16(input[1..3]) <= |input|
      && Acceptable(SignedChar(input[0]), input[3..3 + UnpackU16(input[1..3])])
  {
    FramingRejections(input, stale);
    if |input| >= 3 {
      var h := UnpackHeader(input[..3]);
      assert input[..3][1..3] == input[1..3];
      HeaderRoundTrip(h);
      if h.length <= PacketMaxLength && 3 + h.length <= |input| {
        DecodeAcceptsExactly(h, input[3..3 + h.length], stale);
      }
    }
  }

  /** A disconnect of exactly 512 bytes passes the frame-length check and is
      then rejected: the receiver's two limits differ by one. */
  lemma DisconnectOf512Rejected(input: seq<u8>, stale: PeerType)
    requires |input| >= 3 + PacketMaxLength
    requires input[0] == PktDisconnect && UnpackU16(input[1..3]) == PacketMaxLength
    ensures Receive(input, stale) == Err(DisconnectTooLong)
  {
    assert input[..3][1..3] == input[1..3];
  }

  /** The packets whose fields survive a trip through the wire: every handled
      type except end game, with a move inside the board and a reason that is a
      C string of at most 511 bytes. */
  predicate Transmissible(p: Packet)
  {
    && !p.Unhandled?
    && !p.EndGame?
    && (p.Move? ==> 0 <= p.row < Board.BoardSize && 0 <= p.col < Board.BoardSize)
    && (p.Disconnect? ==> 0 !in p.reason && |p.reason| <= ReasonMaxLength)
  }

  /** Round trip: receiving the frame send_packet writes for such a packet
      gives the same packet back, whatever bytes follow it. */
  lemma {:induction false} RoundTrip(p: Packet, rest: seq<u8>, stale: PeerType)
    requires Transmissible(p)
    ensures WellFormed(p) && Encode(p).Some?
    ensures Receive(Encode(p).value + rest, stale) == Ok(p)
  {
    if p.Disconnect? {
      UntilNulOfString(p.reason);
    }
    var body := EncodeBody(p).value;
    var f := Encode(p).value;
    var input := f + rest;
    HeaderRoundTrip(Header(Tag(p), |body|));
    assert input[..3] == PackHeader(Header(Tag(p), |body|));
    assert input[3..3 + |body|] == body;
    if p.ClientHello? || p.ServerHello? {
      U32RoundTrip(NetMagic);
    } else if p.Disconnect? {
      UntilNulOfString(body);
    }
  }

  /** End game does not round-trip: the winner byte is never read, so the
      received winner is whatever the receiving packet held before. */
  lemma {:induction false} EndGameWinnerNotDecoded(w: PeerType, rest: seq<u8>, stale: PeerType)
    ensures Encode(EndGame(w)).Some?
    ensures Receive(Encode(EndGame(w)).value + rest, stale) == Ok(EndGame(stale))
    ensures w != stale ==> Receive(Encode(EndGame(w)).value + rest, stale) != Ok(EndGame(w))
    ensures Encode(EndGame(w)).value[3..] == [PeerCode(w)]
  {
    var f := Encode(EndGame(w)).value;
    var input := f + rest;
    HeaderRoundTrip(Header(PktEndGame, 1));
    assert input[..3] == PackHeader(Header(PktEndGame, 1));
    assert input[3..4] == [PeerCode(w)];
  }

  /** Only the end-game winner depends on what the receiving packet held:
      acceptance, the error and every other decoded packet do not. */
  lemma StaleOnlyAffectsEndGame(input: seq<u8>, s1: PeerType, s2: PeerType)
    ensures Receive(input, s1).Ok? == Receive(input, s2).Ok?
    ensures Receive(input, s1).Err? ==> Receive(input, s1) == Receive(input, s2)
    ensures Receive(input, s1).Ok? && !Receive(input, s1).value.EndGame? ==> Receive(input, s1) == Receive(input, s2)
    ensures Receive(input, s1).Ok? && Receive(input, s1).value.EndGame? ==> Receive(input, s2).value.EndGame?
  {
  }

  /** Every accepted frame, other than an end game or a disconnect whose body
      holds a zero byte, is exactly the frame send_packet writes for the
      packet it decodes to. */
  lemma {:induction false} ReencodeAccepted(h: Header, body: seq<u8>, stale: PeerType)
    requires |body| == h.length
    requires DecodeBody(h, body, stale).Ok?
    requires h.kind != PktEndGame
    requires h.kind == PktDisconnect ==> 0 !in body
    ensures WellFormed(DecodeBody(h, body, stale).value)
    ensures Encode(DecodeBody(h, body, stale).value) == Some(PackHeader(h) + body)
  {
    var p := DecodeBody(h, body, stale).value;
    DecodeAcceptsExactly(h, body, stale);
    if h.kind == PktDisconnect {
      UntilNulOfString(body);
    } else if h.kind == PktClientHello || h.kind == PktServerHello {
      U32BytesRoundTrip(body);
    } else if h.kind == PktMove {
      assert body == [p.row % 0x100, p.col % 0x100];
    }
  }

  // ---------------------------------------------------------------------------
  // Disconnect frames (disconnectf)
  // ---------------------------------------------------------------------------

  /** The packet disconnectf builds from its formatted reason: vsnprintf into a
      512-byte buffer keeps at most 511 bytes. */
  function DisconnectPacket(text: seq<u8>): (p: Packet)
    ensures p.Disconnect? && WellFormed(p)
    ensures |UntilNul(p.reason)| <= ReasonMaxLength
  {
    Disconnect(Truncate(text, ReasonMaxLength))
  }

  /** The one frame disconnectf sends carries the reason's C string, capped at
      511 bytes, and the receiver accepts it and reads that reason back. */
  lemma {:induction false} DisconnectFrameReadBack(text: seq<u8>, rest: seq<u8>, stale: PeerType)
    ensures Encode(DisconnectPacket(text)).Some?
    ensures |Encode(DisconnectPacket(text)).value| <= 3 + ReasonMaxLength
    ensures Receive(Encode(DisconnectPacket(text)).value + rest, stale)
         == Ok(Disconnect(UntilNul(Truncate(text, ReasonMaxLength))))
  {
    var reason := UntilNul(Truncate(text, ReasonMaxLength));
    RoundTrip(Disconnect(reason), rest, stale);
    UntilNulOfString(reason);
    assert Encode(DisconnectPacket(text)) == Encode(Disconnect(reason));
  }

  // ---------------------------------------------------------------------------
  // Reasons recv_packet gives when it disconnects
  // ---------------------------------------------------------------------------

  function Digit(d: int): char
    requires 0 <= d < 10
  {
    ['0', '1', '2', '3', '4', '5', '6', '7', '8', '9'][d]
  }

  function DecimalDigits(n: nat): string
    decreases n
  {
    if n < 10 then [Digit(n)] else DecimalDigits(n / 10) + [Digit(n % 10)]
  }

  /** `%i` */
  function Decimal(n: int): string
  {
    if n < 0 then "-" + DecimalDigits(-n) else DecimalDigits(n)
  }

  /** The words every protocol-error reason starts with. */
  const ProtocolError := "protocol error: "

  /** The reason text recv_packet formats for each rejection. */
  function ReasonText(e: RecvError): (text: string)
    ensures e != ConnectionClosed ==> ProtocolError <= text
  {
    if e == ConnectionClosed then "error: The connection was closed."
    else ProtocolError + ReasonDetail(e)
  }

  /** What follows "protocol error: " in each reason. */
  function ReasonDetail(e: RecvError): string
  {
    match e
    case ConnectionClosed => ""
    case BadHeader => "bad packet header"
    case PacketTooLong => "packet too long"
    case ShortBody(received, expected) =>
      "didn't get all the bytes (" + Decimal(received) + " of " + Decimal(expected) + ")"
    case BadLength(name, length) => "bad " + name + " length: " + Decimal(length)
    case BadMagic => "bad magic"
    case DisconnectTooLong => "disconnect message too long"
    case BadFirst => "invalid 'first' field in begin game"
    case BadCoordinates => "invalid coordinates in move packet"
    case BadResult => "invalid result in move result packet"
    case BadType(kind) => "bad packet type: " + Decimal(kind)
  }

  /** Characters as the bytes of a C string. */
  function Ascii(s: string): (b: seq<u8>)
    ensures |b| == |s|
  {
    seq(|s|, i requires 0 <= i < |s| => (s[i] as int) % 0x100)
  }
}
