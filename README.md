# simple-battleship: wire codec, board and ship placement in Dafny

A model of two parts of simple-battleship, a two-player terminal battleship
game written in C.

The first part is the network layer (network.c):
- the big-endian packing of 16- and 32-bit integers;
- the 3-byte frame header (a type byte, then a 2-byte length);
- the body layout `send_packet` writes for each packet type;
- the checks `recv_packet` applies before it accepts a frame;
- the `disconnectf` latch, which sends one disconnect frame and then stays
  set.

The second part is the board (board.h, board.c, player.c):
- the 10x10 grids of hit states and ship kinds, and the `ship_counts`
  array;
- the characters the boards are drawn with;
- board initialisation;
- the obstruction test, the writing of a ship into the grid, and the random
  placement that picks the idx-th unobstructed (row, column, direction)
  triple;
- the random fleet of five ships;
- the coordinate check applied to a typed location.

Modules, one per file:
- `Wrappers` (wrappers.dfy): `Option` and `Result`.
- `Codec` (codec.dfy): pure functions over byte sequences for packing, the
  header, encoding and decoding. `Receive(input, stale)` is `recv_packet`
  applied to the bytes the peer has delivered.
- `Network` (network.dfy): class `Connection`, with the
  `is_disconnected` latch and a log `sent` of every frame written. Its
  methods are `SendPacket`, `Disconnectf` and `RecvPacket`.
- `Board` (board.dfy): the enums, the display functions, and the classes
  `OurBoard` and `TheirBoard` over `array2` grids. `OurBoard.Valid()` is
  the invariant that `ship_counts[k]` equals the number of cells holding
  kind k.
- `Player` (player.dfy): the placement algorithms as methods with loop
  invariants. Each one is proved against specification functions:
  - `Obstructed` is what `ship_obstructed` answers.
  - `CountFree` is the number of unobstructed triples.
  - `CountBefore` is the number of unobstructed triples visited before a
    given triple.

  `FreeInRowsSize` ties `CountFree` to the cardinality of the set of
  unobstructed triples.

Assumptions where the shown sources are silent:
- The definitions of `struct packet`, `NET_MAGIC`, `enum peer_type`,
  `enum net_move_result` and the `PKT_*` tags are not part of the shown
  sources. (packet.h is an older header that network.c does not follow.)
  - Packets are a datatype with one variant per type network.c handles,
    plus `Unhandled`.
  - The magic is an unspecified 32-bit constant.
  - Tags are 0..8, in protocol order. The peers are server 0 and client 1.
    The move results are hit 0, miss 1 and sink 2.
  - Every proved property holds for any distinct codes in 0..127.
- `char` is taken to be signed. The type byte and the begin-game, move and
  move-result fields are read through `SignedChar`.

## Model

| member | source | states |
|---|---|---|
| Codec.PeerOfCode | network.c:196-203 | a begin-game `first` byte is accepted exactly when it is the server's or the client's code, and the peer returned has that code |
| Codec.ResultOfCode | network.c:220-234 | a move-result byte is accepted exactly when it is the code of hit, miss or sink, and the result returned has that code |
| Codec.PackU16 | network.c:12-16 | a 16-bit value is written as exactly two bytes |
| Codec.UnpackU16 | network.c:31-34 | the first byte is the high byte of the value and the second the low byte |
| Codec.U16RoundTrip | network.c:12-34 | unpacking the two packed bytes gives the value back, and the first byte is the high-order byte |
| Codec.U16BytesRoundTrip | network.c:12-34 | every two-byte sequence is the packing of the value it unpacks to |
| Codec.PackU32 | network.c:18-24 | a 32-bit value is written as exactly four bytes |
| Codec.UnpackU32 | network.c:36-42 | the first two bytes are the high 16 bits of the value and the last two the low 16 bits, each big-endian |
| Codec.U32RoundTrip | network.c:18-42 | unpacking the four packed bytes gives the value back, and the first byte is the most significant |
| Codec.U32BytesRoundTrip | network.c:18-42 | every four-byte sequence is the packing of the value it unpacks to |
| Codec.SignedChar | network.c:44-47 | a byte read through `char` lies in -128..127 and is congruent to the byte modulo 256 |
| Codec.PackHeader | network.c:26-29 | a header is written as three bytes |
| Codec.UnpackHeader | network.c:44-47 | the type read lies in -128..127, and packing the header read gives back the three bytes it came from |
| Codec.HeaderRoundTrip | network.c:26-47 | unpack_header recovers the type and the length that pack_header wrote, for every type that fits a char |
| Codec.UntilNul | network.c:88-89 | the string sent for a reason is the prefix of the buffer before its first zero byte, and it holds no zero byte |
| Codec.UntilNulOfString | network.c:88-89 | a reason without zero bytes is sent whole |
| Codec.Truncate | network.c:62 | the formatted reason keeps exactly its first min(length, n) bytes |
| Codec.EncodeBody | network.c:79-108 | a body is produced exactly for the handled types, and is at most 511 bytes. Its contents are fixed by the round trips below for every transmissible packet; a move off the board by FrameLayout, as its row and column truncated to a byte each; and end game, whose winner the receiver never reads, by EndGameWinnerNotDecoded |
| Codec.Encode | network.c:73-112 | a frame is produced exactly for the handled types, and is 3 to 514 bytes long |
| Codec.FrameLayout | network.c:79-112 | a frame is one type byte, then a big-endian length equal to the body size (4 for hellos, 0 for the ready packets, 1 for begin game, move result and end game, 2 for move, strlen for disconnect), then the body; a move's body is its row and column each truncated to a byte, whatever their values; an unhandled type sends nothing |
| Codec.DecodeBody | network.c:159-245 | an accepted packet has the header's type and is well formed; a fixed-size type is accepted only with its exact length; the errors raised here are never framing errors. Acceptance, each field's error and the round trips are stated by DecodeAcceptsExactly, FieldRejections and the lemmas below |
| Codec.Receive | network.c:115-150 | closure is reported exactly for an empty read; an accepted frame has a complete header, a length of at most 512 that the input covers, and the packet has the header's type. ReceiveAcceptsExactly and FramingRejections say which inputs are accepted and which error each other input gets |
| Codec.ReasonText | network.c:128-240 | every reason sent on a rejection begins with "protocol error: " |
| Codec.FieldRejections | network.c:159-242 | a body of the announced length gets: bad magic for a 4-byte hello with the wrong number; bad first player for a 1-byte begin game that is no peer code; bad coordinates for a 2-byte move with a byte of 10 or more (bytes from 0x80 up read as negative); bad result for a 1-byte move result that is no result code; too long for a disconnect over 511 bytes; bad type for a type that is none of the nine packet types |
| Codec.DecodeAcceptsExactly | network.c:159-242 | a body is accepted exactly when: for a hello, it is the packed magic; for the ready packets, it is empty; for a disconnect, it is at most 511 bytes; for begin game, it is one valid peer code; for a move, it is two bytes below 10; for a move result, it is one valid result code; for end game, it is any one byte. Every other type is rejected |
| Codec.WrongLengthRejected | network.c:152-237 | a fixed-size type whose length is not its size (4, 4, 0, 0, 1, 2, 1, 1) is rejected with a bad-length error that carries the length received and the type's name as recv_packet writes it in the reason ("client hello", "server hello", "server ready", "ships ready", "begin game", "move", "move result", "end game") |
| Codec.FramingRejections | network.c:119-159 | an empty read reports closure; one or two header bytes are a bad header; a length above 512 is too long; a short body reports the counts received and expected; a complete frame is decided by DecodeBody on its header and its body bytes |
| Codec.ReceiveAcceptsExactly | network.c:115-245 | the input is accepted exactly when it has a 3-byte header, an announced length of at most 512, that many body bytes, and a type and body the decoder accepts |
| Codec.DisconnectOf512Rejected | network.c:135-191 | a 512-byte disconnect passes the frame-length check and is then rejected as too long |
| Codec.RoundTrip | network.c:73-245 | receiving the frame sent for any hello, ready, begin-game, in-board move, move-result or short NUL-free disconnect packet gives the same packet back, whatever bytes follow |
| Codec.EndGameWinnerNotDecoded | network.c:236-238 | the end-game body sent is the winner's code, one byte (network.c:102-103); the frame is accepted, but its winner is never read: the result holds the receiving packet's old winner, so a different winner does not round-trip |
| Codec.StaleOnlyAffectsEndGame | network.c:236-244 | what the receiving packet held before changes only an end game's winner, never acceptance, the error or any other packet |
| Codec.ReencodeAccepted | network.c:79-245 | every accepted frame except end game (and a disconnect with a zero byte in its body) is exactly the frame send_packet writes for the decoded packet |
| Codec.DisconnectPacket | network.c:53-62 | the disconnect packet disconnectf builds has a reason of at most 511 bytes |
| Codec.DisconnectFrameReadBack | network.c:49-69 | the disconnect frame is at most 514 bytes, and the receiver accepts it and reads back the reason's string capped at 511 bytes |
| Network.Connection.constructor | network.h:6-12 | a new connection is not disconnected and has sent nothing |
| Network.Connection.SendPacket | network.c:73-113 | a handled packet appends exactly its encoded frame to what was sent; an unhandled type sends nothing; the latch is neither read nor changed |
| Network.Connection.Disconnectf | network.c:49-69 | afterwards the latch is set; if it was already set nothing is sent, otherwise exactly one disconnect frame carrying the reason capped at 511 bytes is sent |
| Network.Connection.RecvPacket | network.c:115-246 | returns 0 exactly when Receive accepts the input, and then the decoded packet; for an end game, the winner stays what the caller's packet held. Returns -1 with the packet untouched otherwise. Every rejection except closure sends one disconnect with the matching reason (unless already disconnected); acceptance and closure send nothing |
| Board.ShipIndex | board.h:14-22 | each kind's index lies below SHIP_COUNT, and index 0 is SHIP_NONE |
| Board.ShipIndexInjective | board.h:14-30 | different kinds have different slots in ship_counts |
| Board.HitChar | board.c:6-18 | a cell is drawn as a blank exactly when it is unshot |
| Board.HitCharDistinct | board.c:6-18 | the three hit states are drawn with three different characters |
| Board.ShipName | board.c:20-35 | the name is "<invalid>" exactly for SHIP_NONE |
| Board.ShipNamesDistinct | board.c:20-35 | the five ship kinds have five different names |
| Board.ShipLetter | board.c:55-69 | each ship kind is drawn with an upper-case letter |
| Board.OurBoardChar | board.c:49-79 | an empty cell shows its hit character; a ship cell shows its kind's letter, lower case exactly when the cell was hit |
| Board.OurBoardCharDetermines | board.c:49-79 | the drawn character determines the cell's ship kind, and its hit state except that a miss on a ship cell looks unshot |
| Board.OurBoard.constructor | board.h:26-31 | the grids are BOARD_SIZE x BOARD_SIZE and ship_counts has SHIP_COUNT slots |
| Board.OurBoard.Init | board.c:37-39 | every hit cell becomes HS_NONE, every ship cell SHIP_NONE and every count 0; the counting invariant holds and no cell is occupied |
| Board.TheirBoard.constructor | board.h:33-35 | the opponent view is a BOARD_SIZE x BOARD_SIZE grid of hit states |
| Board.TheirBoard.Init | board.c:41-47 | all 100 cells become HS_NONE |
| Player.CoordOf | player.c:22-29 | a coordinate is accepted exactly when the column is 'A'..'J' and the row is 1..10, and the cell it names is on the board |
| Player.CoordRoundTrip | player.c:22-29 | every cell is named by its column letter and its 1-based row number |
| Player.CoordInjective | player.c:22-29 | two accepted inputs naming the same cell are the same input |
| Player.ShipObstructed | player.c:76-93 | returns true exactly when one of the size cells stepping right (dir 0) or down (dir 1) from (r, c) is past row or column 9 or holds a ship |
| Player.UnobstructedFits | player.c:76-93 | an unobstructed location of a positive size lies within the board and covers only empty cells |
| Player.ZeroSizeNeverObstructed | player.c:79-92 | with size 0 the test is never obstructed |
| Player.PlaceShip | player.c:95-108 | exactly the size cells of the location now hold the ship, and every other cell is unchanged; the ship's count rises by size and every other count is unchanged; the counting invariant is kept, and the occupied cells rise by size |
| Player.FillCell | player.c:97-106 | one empty cell receives the ship, and its kind's count rises by one |
| Player.FreeInRowSize | player.c:164-172 | the unobstructed triples counted over one row are the number of unobstructed (row, column, direction) triples in it |
| Player.FreeInRowsSize | player.c:163-174 | unobstructed_count is the number of unobstructed (row, column, direction) triples |
| Player.TabulateObstructions | player.c:160-174 | the table holds ship_obstructed's answer for every triple, and the count is the number of unobstructed triples |
| Player.TabulateRow | player.c:164-173 | one row of the first pass: the table holds ship_obstructed's answer for every triple of that row, every other entry is unchanged, and the count is the number of unobstructed triples in the row |
| Player.CountBeforeIncreases | player.c:182-194 | an unobstructed triple raises the counter of every triple visited after it |
| Player.CountBeforeBound | player.c:176-194 | the counter at any triple, plus that triple, stays within unobstructed_count |
| Player.PickUnobstructed | player.c:177-196 | the triple chosen is on the board, unobstructed, and has exactly idx unobstructed triples before it in row, column, direction order, so `placed` is set |
| Player.PickedUnique | player.c:182-194 | no two triples are chosen for the same idx |
| Player.EveryFreeTripleReachable | player.c:176-194 | every unobstructed triple is chosen for some random number |
| Player.PlaceShipRandom | player.c:159-198 | the ship is written at the unobstructed triple with rand() % unobstructed_count unobstructed triples before it, with the effects of place_ship |
| Player.RoomForShip | player.c:176-207 | while fewer than 20 cells are occupied a ship of at most 5 cells has an unobstructed triple, so the % in place_ship_random never divides by zero during board_init_random |
| Player.PlaceFleetShip | player.c:202-206 | each placement of board_init_random finds room; the next ship of the fleet goes to the triple its roll picks on the current grid; the placement history grows by that triple and grid, and the stage's counts and occupied total move on to the next ship |
| Player.PlaceLargeShips | player.c:202-204 | from a cleared board the carrier, battleship and cruiser calls reach the stage with three ships placed |
| Player.PlaceSmallShips | player.c:205-206 | from there the submarine and destroyer calls reach the last stage, with all five ships placed |
| Player.FleetOrder | player.c:202-206 | the fleet is placed in ShipIndex order, and at most 15 cells are taken before the last ship |
| Player.InShipEmpty | player.c:76-93 | every cell of an unobstructed location is empty |
| Player.HoldsAfterPlacing | player.c:95-108 | writing the next ship on an unobstructed location leaves each earlier ship on exactly its own run, puts the new ship on exactly its run, and leaves every other cell empty |
| Player.PlacementAfterPlacing | player.c:159-206 | a placement at the triple the roll picks extends the history by that triple and the grid it was placed on |
| Player.PlacementStart | player.c:200-201 | an empty grid has the empty history |
| Player.StageStart | player.c:200-201 | a cleared board is the first stage |
| Player.StageComplete | player.c:200-207 | at the last stage the counts are 5, 4, 3, 3, 2, each kind holds that many cells, and 17 cells are taken |
| Player.FleetSize | player.c:202-206 | only the five ship kinds get cells, at most 5 each |
| Player.BoardInitRandom | player.c:200-207 | afterwards: no cell is shot; the counts are 5, 4, 3, 3, 2 for carrier through destroyer; each kind holds exactly that many cells; and 17 cells are occupied, so no two ships overlap. The ghost history says where each ship went: ship i occupies exactly the straight run of its size from its triple, every other cell is empty, and that triple is the one rolls[i] % CountFree picks on the grid holding the ships placed before it |
| Player.ManualLocation | player.c:139-146 | a typed location is accepted exactly when its coordinate passes the check and the direction is 'H' or 'V', and it maps to (row - 1, column - 'A', 0 for 'H' and 1 for 'V') |
| Player.ManualCheckAsWritten | player.c:148 | the size-0 obstruction test, as written, accepts every location |
| Player.ManualCheckAsWrittenAdmitsBadLocations | player.c:148 | the size-0 obstruction test lets a carrier at "J1 H" run off the board, and lets a ship be typed over another |
| Player.PlaceShipChecked | player.c:148-156 | with the ship's size passed to the test, a location is accepted exactly when it is unobstructed (so, by UnobstructedFits, on the board and over empty cells), and the ship is then placed with the effects of place_ship; otherwise the board is unchanged |

## Left out

- Sockets: `send` and `recv` become data. The peer's bytes are a sequence `input`, a read of n bytes gets min(n, |input|) of them, and sent frames are appended to `Connection.sent`. A `recv` that fails with a negative status (network.c:124-127, 143-146), together with `perror`, is not modelled.
- Diagnostics written to stderr or stdout (network.c:65, 106, 121) are not modelled.
- `vsnprintf` formatting in `disconnectf` is not modelled. The reason is given as bytes and capped at 511. The reasons `recv_packet` formats are built by `ReasonText`, with `%i` as decimal text.
- Network.Connection.RecvPacket, Codec.DecodeBody, Codec.RoundTrip, Codec.DisconnectFrameReadBack: `strncpy` copies up to 511 bytes of the receive buffer, including bytes beyond the body (network.c:194). The sender sends the reason without its terminating zero (network.c:88-89), and the buffer is not cleared (network.c:118), so a C receiver reads a shorter reason followed by whatever the buffer held. The model reads the body up to its first zero byte, and its round trips for disconnects hold for that reading only.
- Network.Connection.RecvPacket: an end game's winner is the caller's old winner when the caller's packet was an end game. Otherwise it is a fixed value standing for whatever the C union held.
- The fields `type` and `fd` of `struct connection` are not modelled. The peer type is never read by these operations, and the descriptor is I/O.
- `rand()` becomes the parameter `roll` of `PlaceShipRandom` and the five `rolls` of `BoardInitRandom`.
- Reading stdin is not modelled: `getline`/`sscanf` in `player_get_coord`, `get_direction`, the input loop of `player_place_ship`, `player_create_board`, util.c and main.c. Only the checks on the parsed values are modelled (`CoordOf`, `ManualLocation`).
- Terminal printing (`ourboard_print`, `their_board_print`) is not modelled. What each cell is drawn with is modelled by `OurBoardChar` and `HitChar`.
- Player.PlaceShip: requires every target cell on the board and empty. place_ship asserts emptiness, and a cell outside the grid would be written out of bounds.
- Player.PlaceShipRandom: the chosen triple is a ghost result. place_ship_random does not return it.
- The commented-out code at the end of network.c is not modelled.
- Shot registration, sinking, win detection, the handshake and the turn loop appear in none of the files modelled here, so they are not modelled.

## Findings

| source | as written | input that shows it | evidently intended | confidence | as-written member | corrected member |
|---|---|---|---|---|---|---|
| player.c:148 | `player_place_ship` asks `ship_obstructed` about a ship of size 0, so the test never rejects a location | on an empty board, "J1 H" for the aircraft carrier (size 5) is accepted and place_ship then writes past column J; "A1 H" for the destroyer over a ship already in A1 is accepted and then fails place_ship's assertion | pass the ship's size, so that a location is accepted exactly when the ship fits there | not executed | Player.ManualCheckAsWrittenAdmitsBadLocations | Player.PlaceShipChecked |
