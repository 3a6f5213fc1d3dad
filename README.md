# bit-client: the peer wire protocol and the per-peer download session, in Dafny

This project models the core of bit-client, a small BitTorrent client written in Go. The model covers:

- **Wire codec** (`message/message.go`). Peer-wire frames as in the "peer messages" section of BEP 3: a 4-byte big-endian length, then an id byte and a payload. A zero length is the keep-alive. The model covers `Serialize`, `New`, `ReadMessage` and `FormatRequest`.
- **Fixed-width parsers**:
  - `Info.splitPieceHashes` and `ToTorrenFile` (`torrent/torrent.go`). These cut the `pieces` string of the "metainfo files" section of BEP 3 into 20-byte SHA-1 hashes.
  - `peer.Unmarshal` (`peer/peer.go`). This reads the compact peer list of BEP 23: six bytes per peer, a 4-byte IPv4 address and then a 2-byte big-endian port.
- **Piece arithmetic** (`downloader/downloader.go`): `CalculateBoundsForPiece` and `findPieceSize`.
- **Per-peer session** (`downloader/connection_manager.go`, `downloader/downloader.go`):
  - the `Connection` methods `readBitfield`, `sendUnchokeAndInterested`, `waitForUnchoke`, `sendRequest`, `waitForPiece` and `downloadBlocks`;
  - `downloadPiece`, which runs them in sequence to fetch one piece.

Modules and files:

| file | module | models |
|---|---|---|
| `wrappers.dfy` | `Wrappers` | `Option` and `Result` |
| `binary.dfy` | `Binary` | bytes, big-endian `PutUint32`/`Uint32`/`Uint16` of `encoding/binary`, concatenation of fixed-width chunks |
| `net.dfy` | `Net` | the peer connection (`net.Conn`): unread input bytes, write attempts, written frames; `io.ReadFull` |
| `wire.dfy` | `Wire` | `message/message.go` |
| `metainfo.dfy` | `Metainfo` | `torrent/torrent.go` |
| `peerlist.dfy` | `PeerList` | `peer/peer.go` |
| `session.dfy` | `Session` | the `Connection` type and its methods |
| `download.dfy` | `Download` | the piece-level part of `downloader/downloader.go` |

How the model is built:

- **The connection** is a class `Net.Conn`. It has three parts:
  - the bytes the peer has still to deliver;
  - a count of write attempts;
  - the log of frames that were written.

  Which writes fail is fixed by a set `failing` of attempt numbers. Write number `k` fails exactly when `k` is in `failing`. A read asking for more bytes than remain consumes what is left. It fails with `EOF` if nothing was read and with `UnexpectedEOF` otherwise, as `io.ReadFull` does.
- **Session methods and specification functions.** Every session method of `Session.Connection` changes that state in place. Each is proved equal to a specification function on a connection snapshot (`Net.Link`). That function gives the result and the connection afterwards. The properties are proved as lemmas about those functions.
- **Loops.** `waitForPiece` calls itself on every frame it skips. In the model it is a loop. `downloadBlocks` keeps its loop and then the separate remainder block, as in the source. Its request plan is the function `Session.PlanFrom`.
- **Go panics become outcomes.** A Go runtime panic becomes an explicit outcome (`Session.Failure.Panic`, or `None` from `Wire.Serialize`). This covers:
  - reading the payload of a keep-alive (a nil message) in `readBitfield`;
  - slicing a piece payload shorter than 8 bytes at 8;
  - indexing `PieceHash` out of range;
  - building a frame whose uint32 length wraps around.
- **Go integer conversions.** `uint32(x)` is `x % 2^32`, and the uint32 frame-length arithmetic of `Serialize` wraps around in the same way.
- **Duplicate methods.** `downloader/downloader.go:27-31,100-189` declares `Connection` and its methods a second time, identical to `downloader/connection_manager.go`. They are modelled once, in `Session`. The table cites `connection_manager.go`.

Where the code departs from what BEP 3 and a careful client would do, the model follows the code:

- **`readBitfield`** takes the payload of whatever frame comes first as the bitfield; its id is not checked. A keep-alive there is a nil dereference (a panic). BEP 3 allows the bitfield only as the first message and lets a peer leave it out, so a careful client would skip keep-alives and treat any other first message as not a bitfield.
- **`waitForUnchoke`** requires the very next frame to be an unchoke. A keep-alive or any other message there is an error. A client following BEP 3 would fail there only on a choke and would pass over keep-alives and messages of other kinds while waiting.
- **Peer lacks the piece.** When the peer's bitfield lacks the piece, `downloadPiece` has already written unchoke and interested. What the code guarantees, and what is proved, is that no request frame is written. Checking the bitfield first would avoid any write to a peer that lacks the piece.
- **Piece headers.** The 8-byte index/offset header of a piece message is dropped unchecked, so piece messages are appended in arrival order.
- **Closing the connection.** `downloadPiece` defers the close only on its success path. A connection that fails is left open.

## Model

| member | source | states |
|---|---|---|
| `Net.Conn.ReadFull` | message/message.go:45-61 | `io.ReadFull` as `ReadMessage` uses it: exactly `n` bytes when available and no error; otherwise everything left is consumed and the error is `EOF` if nothing was read, `UnexpectedEOF` if some was; no write is touched |
| `Net.Conn.Write` | downloader/connection_manager.go:85-89 | a write attempt counts one more attempt, succeeds exactly when its attempt number is not failing, and only then appends the frame to the written log |
| `Wire.Serialize` | message/message.go:32-42 | a nil message is the four zero bytes of the keep-alive; a message is `5 + len(Payload)` bytes whose first four hold big-endian `len(Payload)+1`, then the id, then the payload; only a payload too long for a uint32 length can fail |
| `Wire.New` | message/message.go:27-30 | `New(t)` is the frame `[0,0,0,1,t]` |
| `Wire.Decode` | message/message.go:44-69 | fails exactly when fewer than 4 bytes, or fewer than `length` body bytes, are there (EOF when the input was empty or nothing followed the length); a zero length is the keep-alive after 4 bytes; otherwise the id is the first body byte and the payload the other `length-1`, and exactly `4+length` bytes are consumed |
| `Wire.Receive` | message/message.go:44-69 | a successful read leaves the input just after the frame it consumed (at least 4 bytes); a failed read leaves nothing |
| `Wire.ReadMessage` | message/message.go:44-69 | the method reads exactly what `Decode` says, consuming the frame's bytes from the connection (or all of them on a short read), and writes nothing |
| `Wire.FormatRequest` | message/message.go:71-77 | the request has id 6 and a 12-byte payload of the index, begin and length, each taken modulo 2^32 and big-endian, in that order |
| `Wire.RequestRoundTrip` | message/message.go:71-77 | decoding the request payload gives back the index, begin and length when each is in uint32 range |
| `Wire.DecodeSerialize` | message/message.go:32-68 | decoding the frame of any message (or keep-alive), whatever follows it, returns that message and consumes exactly its frame |
| `Wire.SerializeDecode` | message/message.go:32-68 | every frame the decoder accepts is exactly the serialized form of the message it yields |
| `Wire.ReceiveFrame` | message/message.go:32-68 | `ReadMessage` on input starting with the frame of `m` returns `m` and leaves the input just after the frame |
| `Wire.ReceiveKeepAlive` | message/message.go:50-55 | a zero length prefix yields the keep-alive (no message, no error) and consumes only those 4 bytes |
| `Metainfo.SplitPieceHashes` | torrent/torrent.go:60-74 | fails (with the length) exactly when `len(Pieces) % 20 != 0`; otherwise returns `len(Pieces)/20` hashes, hash `i` being bytes `[20i, 20i+20)`, whose concatenation is `Pieces` (empty gives empty) |
| `Metainfo.ToTorrentFile` | torrent/torrent.go:39-58 | propagates the split error, then the bencode error; otherwise copies announce, length, name and piece length, takes the info hash as SHA-1 of the bencoded info, and the piece hashes reassemble `Pieces` |
| `PeerList.Compact` | peer/peer.go:26-28 | the compact record of a peer is six bytes: its 4-byte IP, then its port big-endian |
| `PeerList.Unmarshal` | peer/peer.go:17-31 | fails exactly when `len(bin) % 6 != 0`; otherwise returns `len(bin)/6` peers, peer `i` with IP bytes `[6i, 6i+4)` and port the big-endian uint16 of bytes `[6i+4, 6i+6)`, and re-encoding them gives `bin` back (empty gives empty) |
| `PeerList.MarshalUnmarshalled` | peer/peer.go:24-29 | peers read record by record off a compact list have 4-byte IPs and 16-bit ports, and encode back to that list |
| `Session.ReadBitfieldStep` | downloader/connection_manager.go:17-24 | the payload of the next frame, whatever its id, becomes the bitfield; a read error is returned and a keep-alive is a nil-message panic; one frame is consumed and nothing is written |
| `Session.SendUnchokeAndInterestedStep` | downloader/connection_manager.go:59-69 | writes unchoke and then interested; succeeds exactly when both writes do, stops after a failed unchoke write, and reads nothing |
| `Session.WaitForUnchokeStep` | downloader/connection_manager.go:71-83 | succeeds exactly when the very next frame is an unchoke; a keep-alive there is the "keep alive instead of unchoke" error, any other frame "expected unchoke", and a read error passes through; one frame is consumed |
| `Session.RequestFrame` | downloader/connection_manager.go:85-89 | the written request frame is `[0,0,0,13,6]` followed by the 12-byte `FormatRequest` payload |
| `Session.SendRequestStep` | downloader/connection_manager.go:85-89 | `sendRequest` makes one write attempt of exactly the request frame, reads nothing, and fails exactly when that write fails |
| `Session.WaitForPieceStep` | downloader/connection_manager.go:91-106 | a returned message is a piece message; failures are only "peer sent choke" or a read error; nothing is written |
| `Session.WaitForPieceSkips` | downloader/connection_manager.go:91-106 | keep-alives and frames that are neither choke nor piece, however many, change nothing about what `waitForPiece` returns |
| `Session.WaitForPieceAtPiece` | downloader/connection_manager.go:102-105 | a piece frame first is returned, consuming only that frame |
| `Session.WaitForPieceAtChoke` | downloader/connection_manager.go:99-101 | a choke frame first ends the wait with "peer sent choke", consuming only that frame |
| `Session.WaitForPieceFirstPiece` | downloader/connection_manager.go:91-106 | after any skippable frames, the first piece message is returned and the input is left just after it |
| `Session.WaitForPieceChoke` | downloader/connection_manager.go:99-101 | a choke before any piece message ends the wait with "peer sent choke" |
| `Session.ReadBitfieldFrame` | downloader/connection_manager.go:17-24 | a frame first, whatever its id, gives its payload as the bitfield and only that frame is consumed |
| `Session.WaitForUnchokeKeepAlive` | downloader/connection_manager.go:76-78 | a keep-alive before the unchoke is an error, not skipped |
| `Session.WaitForUnchokeAccepts` | downloader/connection_manager.go:71-83 | an unchoke frame first is accepted, consuming only that frame |
| `Session.WaitForPieceReadsInputOnly` | downloader/connection_manager.go:91-106 | what `waitForPiece` returns and consumes depends on the unread input alone |
| `Session.FetchBlockStep` | downloader/connection_manager.go:31-39 | one block costs exactly one write attempt (the request, whose result is ignored) and never grows the input; it fails only with a block failure or a short-payload panic |
| `Session.FetchBlocks` | downloader/connection_manager.go:30-51 | fetching a plan makes at most one write attempt per block and never grows the input |
| `Session.FetchBlocksExtends` | downloader/connection_manager.go:30-51 | a successful block download only appends to the payload collected before it |
| `Session.FetchBlocksFailures` | downloader/connection_manager.go:30-51 | a block download fails only with "unable to read piece block" or the short-payload panic |
| `Session.DownloadBlocksStep` | downloader/connection_manager.go:26-57 | a piece `downloadBlocks` returns always has SHA-1 `PieceHash[index]`; it fails only with a block failure, the short-payload panic, "integrity check failed" or the hash-index panic; it makes at most one write per planned block and never grows the input |
| `Session.CheckPiece` | downloader/connection_manager.go:52-56 | after fetching, the result is the assembled payload exactly when its SHA-1 equals `PieceHash[index]`, and "integrity check failed" exactly when it differs; fetch errors pass through; no I/O |
| `Session.PlanFrom` | downloader/connection_manager.go:30-51 | the requests from offset `begin`: a 16384-byte block while `begin + 16383 < size`, then one block of `size - begin` bytes unless that is zero; its shape is proved by `PlanFromShape` |
| `Session.Plan` | downloader/connection_manager.go:27-51 | the plan of a piece starts at offset 0 and is empty exactly when the piece size is 0 |
| `Session.PlanFromShape` | downloader/connection_manager.go:30-51 | from any offset, the requests are contiguous, every one non-empty and at most 16384 bytes, all but the last full, and the last ends at the piece size; there are ceil((size-begin)/16384) of them |
| `Session.PlanShape` | downloader/connection_manager.go:30-51 | the requests of a piece start at 0, 16384, ...: size/16384 full blocks, plus one block of `size % 16384` exactly when that remainder is nonzero |
| `Session.PlanFromTotal` | downloader/connection_manager.go:30-51 | the requested lengths add up to the piece size |
| `Session.FetchBlockStepIgnoresWrites` | downloader/connection_manager.go:31-32 | the ignored `sendRequest` result does not change what one block fetch reads or returns |
| `Session.FetchBlocksIgnoresWriteFailures` | downloader/connection_manager.go:30-51 | a failed request write does not abort the block download by itself: result and input consumed are the same whichever writes fail |
| `Session.FetchBlockStepDelivers` | downloader/connection_manager.go:31-39 | a piece reply appends its payload without the 8-byte header and logs the request frame when its write succeeds |
| `Session.FetchBlocksDelivers` | downloader/connection_manager.go:30-51 | with one piece reply per request, the payload is the concatenation, in request order, of the replies' payloads without their (unchecked) 8-byte headers; exactly the replies are consumed; one write per block |
| `Session.FetchBlocksRequests` | downloader/connection_manager.go:30-51 | with one piece reply per request and no failing write, exactly the request frames of the plan are written, in order |
| `Session.DownloadBlocksDelivers` | downloader/connection_manager.go:26-57 | with one piece reply per request and no failing write, the result is the assembled blocks if and only if their SHA-1 equals `PieceHash[index]`, "integrity check failed" otherwise; exactly the replies are consumed and exactly the plan's request frames written, in order |
| `Session.SendRequestKeepsInput` | downloader/connection_manager.go:85-89 | `sendRequest` reads nothing: started on other unread input, it leaves the same connection apart from that input |
| `Session.FetchBlockStepByWait` | downloader/connection_manager.go:31-39 | one block fetch is decided by what `waitForPiece` returns after the request |
| `Session.FetchBlockStepSkips` | downloader/connection_manager.go:31-39 | skippable frames before the reply change nothing about one block fetch: same result, same connection afterwards |
| `Session.FetchBlockAmidSkips` | downloader/connection_manager.go:31-39 | a piece reply after skippable frames has its block appended, and the input is left just after that reply |
| `Session.FetchBlocksAfterFirst` | downloader/connection_manager.go:30-40 | a plan whose first block is fetched goes on with the rest of the plan and the grown payload |
| `Session.FetchBlocksSkips` | downloader/connection_manager.go:30-51 | keep-alives and frames that are neither choke nor piece, any number of them before each piece reply, change nothing about the block download: same result, same input left, same frames written as with the replies alone |
| `Session.DownloadBlocksDeliversAmidSkips` | downloader/connection_manager.go:26-57 | with skippable frames before each piece reply, `downloadBlocks` still returns the blocks if and only if their SHA-1 matches, consumes every frame up to the last reply and writes exactly the plan's requests |
| `Session.Connection.constructor` | downloader/downloader.go:76 | a connection starts with the transport and piece hashes it is given and an empty bitfield |
| `Session.Connection.ReadBitfield` | downloader/connection_manager.go:17-24 | behaves as `ReadBitfieldStep`; on success the bitfield field is the payload, on failure it is unchanged |
| `Session.Connection.SendUnchokeAndInterested` | downloader/connection_manager.go:59-69 | behaves as `SendUnchokeAndInterestedStep` |
| `Session.Connection.WaitForUnchoke` | downloader/connection_manager.go:71-83 | behaves as `WaitForUnchokeStep` |
| `Session.Connection.SendRequest` | downloader/connection_manager.go:85-89 | behaves as `SendRequestStep` |
| `Session.Connection.WaitForPiece` | downloader/connection_manager.go:91-106 | the skipping loop behaves as `WaitForPieceStep` |
| `Session.Connection.FetchBlock` | downloader/connection_manager.go:31-39 | one request-and-wait round behaves as `FetchBlockStep` |
| `Session.Connection.FetchFullBlock` | downloader/connection_manager.go:30-40 | one round of the loop is the first block of the remaining plan: a failure is the plan's failure, a success leaves the rest of the plan to fetch |
| `Session.Connection.FetchRemainder` | downloader/connection_manager.go:41-51 | the remainder block is requested exactly when the remainder is nonzero and completes the plan |
| `Session.Connection.FetchPlan` | downloader/connection_manager.go:30-51 | the loop and the remainder block fetch the blocks of `PlanFrom(0, size)`, which is `Plan(size)`, in order, stopping at the first failure |
| `Session.Connection.CheckIntegrity` | downloader/connection_manager.go:52-56 | returns the payload exactly when its SHA-1 matches `PieceHash[index]`; an index outside the hashes is a panic |
| `Session.Connection.DownloadBlocks` | downloader/connection_manager.go:26-57 | the loop and the remainder block behave as fetching the blocks of `Plan(size)` followed by `CheckPiece` |
| `Download.CalculateBoundsForPiece` | downloader/downloader.go:220-227 | `begin = index*PieceLength` and `end = min(begin+PieceLength, Length)` |
| `Download.FindPieceSize` | downloader/downloader.go:229-232 | the size is the full piece length or reaches exactly the end of the content; it lies in `[0, PieceLength]` whenever the piece starts within the content |
| `Download.PiecesContiguous` | downloader/downloader.go:220-227 | a piece not clamped by the end of the content ends where the next one begins |
| `Download.SizeOfPiecesCovers` | downloader/downloader.go:220-232 | the first `n` pieces cover `min(n*PieceLength, Length)` bytes |
| `Download.DescriptorPieces` | downloader/downloader.go:220-232 | for a descriptor whose hash count fits its lengths, every piece is non-empty and at most a piece length, the last holds `Length - (n-1)*PieceLength`, and the pieces cover the content exactly |
| `Download.DownloadPieceAttempt` | downloader/downloader.go:191-218 | the staged specification of `downloadPiece`: a returned piece comes from a peer whose bitfield has it and has SHA-1 `PieceHash[index]`; "peer doesn't have piece" means the bitfield lacks it; the input never grows |
| `Download.AfterBitfield` | downloader/downloader.go:194-215 | after `readBitfield`: its failure keeps the old bitfield; success needs the bitfield just read, which the connection keeps, to have the piece and the hash to match |
| `Download.AfterInterest` | downloader/downloader.go:199-215 | after `sendUnchokeAndInterested`: success needs both writes, the piece in the bitfield and a matching hash; a lacking piece is "peer doesn't have piece" |
| `Download.AfterUnchoke` | downloader/downloader.go:205-212 | after `waitForUnchoke`: success needs the unchoke, and the returned piece then matches its hash; the bitfield is kept |
| `Download.DownloadPiece` | downloader/downloader.go:191-218 | `downloadPiece` returns, and leaves the connection and bitfield, as the staged specification `DownloadPieceAttempt` does for a piece of `FindPieceSize(index)` bytes: bitfield, unchoke and interested, availability check, unchoke wait, block download |
| `Download.AfterUnchokeNeverLacks` | downloader/downloader.go:205-212 | once the unchoke wait has begun, the outcome is never "peer doesn't have piece" |
| `Download.AfterBitfieldLacking` | downloader/downloader.go:199-215 | "peer doesn't have piece" after the bitfield means unchoke and interested were both written, nothing more was read, and the bitfield lacks the piece |
| `Download.LackingPieceWritesNoRequest` | downloader/downloader.go:199-215 | whenever it fails with "peer doesn't have piece", exactly two writes were made (unchoke, interested), no request frame, and the bitfield lacks the piece |
| `Download.FastReject` | downloader/downloader.go:199-215 | a first frame whose payload lacks the piece ends the session with "peer doesn't have piece" after unchoke and interested, consuming only that frame |
| `Download.StopsAtFirstFailure` | downloader/downloader.go:194-212 | a bitfield failure means no write; an unchoke/interested failure means no further read and no request; an unchoke-wait failure means only unchoke and interested were written |
| `Download.AfterBitfieldReachesBlocks` | downloader/downloader.go:199-212 | with the piece in the bitfield, unchoke and interested written and the unchoke received, the outcome is that of the block download for the piece |
| `Download.PrefixReachesBlocks` | downloader/downloader.go:194-209 | a bitfield frame marking the piece and an unchoke lead to the block download with exactly unchoke and interested written and those two frames consumed |
| `Download.DownloadPieceDelivers` | downloader/downloader.go:191-218 | a peer that sends a bitfield with the piece, an unchoke and one piece reply per request yields the assembled blocks if and only if their SHA-1 matches (integrity failure otherwise); exactly unchoke, interested and the plan's requests are written, in order |

## Left out

- `Downloader.Download` (downloader/downloader.go:52-98) is not modelled. It is the concurrent scheduler: goroutines, channels used as work queue and completion counter, a sleeping busy-wait, a float progress display and `os.WriteFile`. Concurrency is outside this model. The "have" frame it sends after a completed piece goes with it.
- `downloader.New` is not modelled. It calls the HTTP tracker and exits the process on failure.
- `tracker/tracker.go` is not modelled. It is an HTTP GET plus bencode decoding.
- `peer.ConnectToPeer` is not modelled. It is a TCP dial with a timeout.
- `torrent.Read` and `TorrentFile.TrackerUrl` are not modelled. They are bencode decoding and URL building from foreign libraries.
- The bencode encoding and SHA-1 inside `ToTorrenFile` and `downloadBlocks` are function parameters. Nothing is assumed about them.
- `message.Bitfield.HasPiece` is not part of this model. It is the function parameter `hasPiece` of `Download.DownloadPiece`.
- The handshake package and `message.FormatHave` are not part of this model.
- Connection deadlines and `Conn.Close` are left out. The deadline is set in `Download`. `Close` is deferred in `downloadPiece` on its success path only. In the model a read past the available input is the failure a passed deadline or a closed peer gives.
- Partial writes are left out. A write either delivers the whole frame or fails.
- The `msg == nil` branches of `downloadBlocks` (downloader/connection_manager.go:36-38 and 47-49) are not modelled. They are dead code: `waitForPiece` skips keep-alives, so it never returns a nil message without an error.
- `Download.CalculateBoundsForPiece`: does not model int64 overflow of `index * PieceLength`. The integers are unbounded, since real torrents stay far below 2^63 bytes.
- `PeerList.Unmarshal`: the IP of each peer is a copy of its 4 bytes. In Go it is a slice sharing the input buffer, so the aliasing is not modelled.
- `Session.WaitForPieceStep`: its contract gives the shape of the outcome. Which frame is returned is stated by the lemmas `WaitForPieceSkips`, `WaitForPieceFirstPiece` and `WaitForPieceChoke` for streams made of frames.
