/** The per-peer session of downloader/connection_manager.go: the methods of Connection
    that read the peer's bitfield, declare interest, wait for the unchoke, and download one
    piece block by block. (downloader/downloader.go declares the same type and methods a
    second time, word for word; they are modelled once, here.)

    Each method is specified by a function on a connection snapshot (Net.Link) that says
    what the method returns and what the connection looks like afterwards. SHA-1 is a
    function parameter. */
module Session {
  import opened Wrappers
  import opened Binary
  import opened Net
  import opened Wire
  import opened Metainfo

  /** The size of a block request. */
  const BlockSize: int := 16384

  /** Where the Go code would stop with a runtime panic instead of returning an error. */
  datatype PanicReason =
    | NilMessage           // readBitfield reads the payload of a keep-alive (a nil *Message)
    | PayloadOutOfRange    // a piece payload shorter than its 8-byte header is sliced at 8
    | HashIndexOutOfRange  // PieceHash[index] with index outside the hash list

  datatype Failure =
    | ReadFailed(readError: ReadError)
    | WriteFailed
    | KeepAliveInsteadOfUnchoke          // "keep alive message received instead of unchoke"
    | ExpectedUnchoke(got: byte)         // "expected unchoke but received %d"
    | PeerSentChoke                      // "peer sent choke"
    | BlockFailed(begin: int, cause: Failure)  // "unable to read piece block %d : %v"
    | IntegrityCheckFailed               // "integrity check failed"
    | PeerLacksPiece                     // "peer doesn't have piece"
    | Panic(reason: PanicReason)

  /** The result of one session operation and the connection after it. */
  datatype Step<T> = Step(result: Result<T, Failure>, link: Link)

  /** The connection after a ReadMessage call on `l`. */
  function AfterRead(l: Link): Link
  {
    l.(input := Receive(l.input).rest)
  }

  // ---------------------------------------------------------------------------------------
  // Specifications of the Connection methods

  /** readBitfield: the payload of the next frame becomes the bitfield, whatever its id. */
  function ReadBitfieldStep(l: Link): (s: Step<seq<byte>>)
    ensures s.link == AfterRead(l) && s.link.writes == l.writes && s.link.sent == l.sent
    ensures s.result.Ok? <==> Decode(l.input).Ok? && Decode(l.input).value.msg.Some?
    ensures s.result.Ok? ==> s.result.value == Decode(l.input).value.msg.value.payload
    ensures Decode(l.input).Err? ==> s.result == Err(ReadFailed(Decode(l.input).error))
    ensures Decode(l.input).Ok? && Decode(l.input).value.msg.None? ==> s.result == Err(Panic(NilMessage))
  {
    var rcv := Receive(l.input);
    match rcv.result
    case Err(e) => Step(Err(ReadFailed(e)), AfterRead(l))
    case Ok(None) => Step(Err(Panic(NilMessage)), AfterRead(l))
    case Ok(Some(m)) => Step(Ok(m.payload), AfterRead(l))
  }

  /** sendUnchokeAndInterested: unchoke, then interested, stopping at the first failed write. */
  function SendUnchokeAndInterestedStep(l: Link, failing: set<nat>): (s: Step<()>)
    ensures s.link.input == l.input
    ensures s.result.Ok? <==> l.writes !in failing && l.writes + 1 !in failing
    ensures s.result.Err? ==> s.result.error == WriteFailed
    ensures s.result.Ok? ==>
              s.link.writes == l.writes + 2 && s.link.sent == l.sent + [New(MsgUnchoke), New(MsgInterested)]
    ensures l.writes in failing ==> s.link.writes == l.writes + 1 && s.link.sent == l.sent
    ensures l.writes !in failing && l.writes + 1 in failing ==>
              s.link.writes == l.writes + 2 && s.link.sent == l.sent + [New(MsgUnchoke)]
  {
    var l1 := AfterWrite(l, failing, New(MsgUnchoke));
    if !WriteSucceeds(l, failing) then Step(Err(WriteFailed), l1)
    else
      var l2 := AfterWrite(l1, failing, New(MsgInterested));
      if !WriteSucceeds(l1, failing) then Step(Err(WriteFailed), l2)
      else Step(Ok(()), l2)
  }

  /** waitForUnchoke: the very next frame must be an unchoke; nothing is skipped. */
  function WaitForUnchokeStep(l: Link): (s: Step<()>)
    ensures s.link == AfterRead(l) && s.link.writes == l.writes && s.link.sent == l.sent
    ensures s.result.Ok? <==>
              Decode(l.input).Ok? && Decode(l.input).value.msg.Some? &&
              Decode(l.input).value.msg.value.id == MsgUnchoke
    ensures Decode(l.input).Ok? && Decode(l.input).value.msg.None? ==>
              s.result == Err(KeepAliveInsteadOfUnchoke)
    ensures s.result.Err? ==>
              s.result.error.ReadFailed? || s.result.error == KeepAliveInsteadOfUnchoke ||
              s.result.error.ExpectedUnchoke?
    ensures Decode(l.input).Err? ==> s.result == Err(ReadFailed(Decode(l.input).error))
    ensures Decode(l.input).Ok? && Decode(l.input).value.msg.Some? &&
            Decode(l.input).value.msg.value.id != MsgUnchoke ==>
              s.result == Err(ExpectedUnchoke(Decode(l.input).value.msg.value.id))
  {
    var rcv := Receive(l.input);
    match rcv.result
    case Err(e) => Step(Err(ReadFailed(e)), AfterRead(l))
    case Ok(None) => Step(Err(KeepAliveInsteadOfUnchoke), AfterRead(l))
    case Ok(Some(m)) =>
      if m.id != MsgUnchoke then Step(Err(ExpectedUnchoke(m.id)), AfterRead(l))
      else Step(Ok(()), AfterRead(l))
  }

  /** The frame of a request for `length` bytes at `begin` in piece `index`. */
  function RequestFrame(index: int, begin: int, length: int): (f: seq<byte>)
    ensures f == [0, 0, 0, 13, MsgRequest] + FormatRequest(index, begin, length).payload
  {
    var m := FormatRequest(index, begin, length);
    var f := Serialize(Some(m)).value;
    assert f[..4] == [0, 0, 0, 13] by {
      PutUint32OfUint32(f[..4]);
    }
    assert f == f[..4] + [f[4]] + f[5..];
    f
  }

  /** sendRequest: one write of the request frame. */
  function SendRequestStep(l: Link, failing: set<nat>, index: int, begin: int, length: int): (s: Step<()>)
    ensures s.link.input == l.input && s.link.writes == l.writes + 1
    ensures s.result.Ok? <==> WriteSucceeds(l, failing)
    ensures s.result.Err? ==> s.result.error == WriteFailed && s.link.sent == l.sent
    ensures s.result.Ok? ==> s.link.sent == l.sent + [RequestFrame(index, begin, length)]
  {
    var l' := AfterWrite(l, failing, RequestFrame(index, begin, length));
    if WriteSucceeds(l, failing) then Step(Ok(()), l') else Step(Err(WriteFailed), l')
  }

  /** waitForPiece: skips keep-alives and every frame that is neither a choke nor a piece,
      fails on a choke, and returns the first piece message. */
  function WaitForPieceStep(l: Link): (s: Step<Message>)
    decreases |l.input|
    ensures s.link.writes == l.writes && s.link.sent == l.sent && |s.link.input| <= |l.input|
    ensures s.result.Ok? ==> s.result.value.id == MsgPiece
    ensures s.result.Err? ==> s.result.error == PeerSentChoke || s.result.error.ReadFailed?
  {
    var rcv := Receive(l.input);
    match rcv.result
    case Err(e) => Step(Err(ReadFailed(e)), AfterRead(l))
    case Ok(None) => WaitForPieceStep(AfterRead(l))
    case Ok(Some(m)) =>
      if m.id == MsgChoke then Step(Err(PeerSentChoke), AfterRead(l))
      else if m.id != MsgPiece then WaitForPieceStep(AfterRead(l))
      else Step(Ok(m), AfterRead(l))
  }

  // ---------------------------------------------------------------------------------------
  // Block plan and block download

  datatype Block = Block(begin: int, length: int)

  /** The requests downloadBlocks sends for the part of a piece of `size` bytes that starts
      at `begin`, in order: a full block while one still fits, then the remainder unless it
      is zero. */
  function PlanFrom(begin: int, size: int): (p: seq<Block>)
    decreases size - begin
  {
    if begin + BlockSize - 1 < size then [Block(begin, BlockSize)] + PlanFrom(begin + BlockSize, size)
    else if size - begin != 0 then [Block(begin, size - begin)]
    else []
  }

  /** The requests downloadBlocks sends for a piece of `size` bytes. */
  function Plan(size: int): (p: seq<Block>)
    ensures p == [] <==> size == 0
    ensures p != [] ==> p[0].begin == 0
  {
    PlanFrom(0, size)
  }

  /** The sum of the block lengths of `p`. */
  function Total(p: seq<Block>): int
  {
    if p == [] then 0 else p[0].length + Total(p[1..])
  }

  /** One block of downloadBlocks: send the request (ignoring the result of the write, as
      the source does), wait for a piece message, and append its payload without the 8-byte
      index and offset header, which is not checked. */
  function FetchBlockStep(l: Link, failing: set<nat>, index: int, b: Block, acc: seq<byte>)
    : (s: Step<seq<byte>>)
    ensures s.link.writes == l.writes + 1 && |s.link.input| <= |l.input|
    ensures s.result.Err? ==> s.result.error.BlockFailed? || s.result.error == Panic(PayloadOutOfRange)
  {
    var w := WaitForPieceStep(SendRequestStep(l, failing, index, b.begin, b.length).link);
    match w.result
    case Err(e) => Step(Err(BlockFailed(b.begin, e)), w.link)
    case Ok(m) =>
      if |m.payload| < 8 then Step(Err(Panic(PayloadOutOfRange)), w.link)
      else Step(Ok(acc + m.payload[8..]), w.link)
  }

  /** The blocks of `plan`, fetched one after the other, stopping at the first failure. */
  function FetchBlocks(l: Link, failing: set<nat>, index: int, plan: seq<Block>, acc: seq<byte>)
    : (s: Step<seq<byte>>)
    decreases |plan|
    ensures l.writes <= s.link.writes <= l.writes + |plan| && |s.link.input| <= |l.input|
  {
    if plan == [] then Step(Ok(acc), l)
    else
      var o := FetchBlockStep(l, failing, index, plan[0], acc);
      if o.result.Err? then o
      else FetchBlocks(o.link, failing, index, plan[1..], o.result.value)
  }

  lemma FetchBlocksCons(l: Link, failing: set<nat>, index: int, b: Block, rest: seq<Block>, acc: seq<byte>)
    ensures var o := FetchBlockStep(l, failing, index, b, acc);
            FetchBlocks(l, failing, index, [b] + rest, acc) ==
              if o.result.Err? then o else FetchBlocks(o.link, failing, index, rest, o.result.value)
  {
    assert ([b] + rest)[0] == b && ([b] + rest)[1..] == rest;
  }

  /** A plan of one block is that block's fetch. */
  lemma FetchBlocksSingle(l: Link, failing: set<nat>, index: int, b: Block, acc: seq<byte>)
    ensures FetchBlocks(l, failing, index, [b], acc) == FetchBlockStep(l, failing, index, b, acc)
  {
    FetchBlocksCons(l, failing, index, b, [], acc);
    assert [b] + [] == [b];
  }

  /** A successful block download only appends to the payload collected before it. */
  lemma {:induction false} FetchBlocksExtends(l: Link, failing: set<nat>, index: int, plan: seq<Block>,
                                              acc: seq<byte>)
    ensures var s := FetchBlocks(l, failing, index, plan, acc);
            s.result.Ok? ==> acc <= s.result.value
    decreases |plan|
  {
    if plan != [] {
      var o := FetchBlockStep(l, failing, index, plan[0], acc);
      if o.result.Ok? {
        FetchBlocksExtends(o.link, failing, index, plan[1..], o.result.value);
        assert acc <= o.result.value;
      }
    }
  }

  /** Fetching blocks fails only with a block failure or a short piece payload. */
  lemma {:induction false} FetchBlocksFailures(l: Link, failing: set<nat>, index: int, plan: seq<Block>,
                                               acc: seq<byte>)
    ensures var s := FetchBlocks(l, failing, index, plan, acc);
            s.result.Err? ==> s.result.error.BlockFailed? || s.result.error == Panic(PayloadOutOfRange)
    decreases |plan|
  {
    if plan != [] {
      var o := FetchBlockStep(l, failing, index, plan[0], acc);
      if o.result.Ok? {
        FetchBlocksFailures(o.link, failing, index, plan[1..], o.result.value);
      }
    }
  }

  /** downloadBlocks: fetch every block of the plan, then check the SHA-1 of the whole piece. */
  function DownloadBlocksStep(l: Link, failing: set<nat>, pieceHash: seq<Hash>,
                              sha1: seq<byte> -> Hash, index: int, size: int): (s: Step<seq<byte>>)
    ensures s.result.Ok? ==> 0 <= index < |pieceHash| && sha1(s.result.value) == pieceHash[index]
    ensures s.result.Err? ==> s.result.error.BlockFailed? || s.result.error == IntegrityCheckFailed ||
                              s.result.error == Panic(PayloadOutOfRange) || s.result.error == Panic(HashIndexOutOfRange)
    ensures l.writes <= s.link.writes <= l.writes + |Plan(size)| && |s.link.input| <= |l.input|
  {
    FetchBlocksFailures(l, failing, index, Plan(size), []);
    CheckPiece(FetchBlocks(l, failing, index, Plan(size), []), pieceHash, sha1, index)
  }

  /** The integrity check at the end of downloadBlocks, applied to the outcome `f` of
      fetching the blocks: it does no I/O, passes failures through, and otherwise fails
      exactly when the hash of the assembled piece differs from the recorded one. */
  function CheckPiece(f: Step<seq<byte>>, pieceHash: seq<Hash>, sha1: seq<byte> -> Hash, index: int)
    : (s: Step<seq<byte>>)
    ensures s.link == f.link
    ensures f.result.Err? ==> s == f
    ensures s.result.Ok? <==> f.result.Ok? && 0 <= index < |pieceHash| && sha1(f.result.value) == pieceHash[index]
    ensures s.result.Ok? ==> s.result.value == f.result.value
    ensures f.result.Ok? && 0 <= index < |pieceHash| ==>
              (s.result == Err(IntegrityCheckFailed) <==> sha1(f.result.value) != pieceHash[index])
  {
    if f.result.Err? then f
    else if !(0 <= index < |pieceHash|) then Step(Err(Panic(HashIndexOutOfRange)), f.link)
    else if sha1(f.result.value) != pieceHash[index] then Step(Err(IntegrityCheckFailed), f.link)
    else f
  }

  // ---------------------------------------------------------------------------------------
  // Properties of the block plan

  /** The block requests for a piece tile it: each starts where the previous one ended,
      all but the last are full blocks, none is empty or longer than a block. */
  lemma {:induction false} PlanFromShape(begin: int, size: int)
    requires begin <= size
    ensures var p := PlanFrom(begin, size);
            |p| == (size - begin + BlockSize - 1) / BlockSize &&
            (forall k :: 0 <= k < |p| ==> p[k].begin == begin + BlockSize * k) &&
            (forall k :: 0 <= k < |p| ==> 0 < p[k].length <= BlockSize) &&
            (forall k :: 0 <= k < |p| - 1 ==> p[k].length == BlockSize) &&
            (p != [] ==> p[|p| - 1].begin + p[|p| - 1].length == size)
    decreases size - begin
  {
    var p := PlanFrom(begin, size);
    if begin + BlockSize - 1 < size {
      PlanFromShape(begin + BlockSize, size);
      var q := PlanFrom(begin + BlockSize, size);
      assert p == [Block(begin, BlockSize)] + q;
      forall k | 0 < k < |p|
        ensures p[k].begin == begin + BlockSize * k
      {
        assert p[k] == q[k - 1];
      }
    }
  }

  /** The plan of a piece of `size` bytes: size/16384 full blocks, and one more block of the
      remainder exactly when the size is not a multiple of the block size. */
  lemma PlanShape(size: int)
    requires 0 <= size
    ensures var p := Plan(size);
            (forall k :: 0 <= k < |p| ==> p[k].begin == BlockSize * k && 0 < p[k].length <= BlockSize) &&
            (size % BlockSize == 0 ==> |p| == size / BlockSize && forall k :: 0 <= k < |p| ==> p[k].length == BlockSize) &&
            (size % BlockSize != 0 ==> |p| == size / BlockSize + 1 &&
                                       (forall k :: 0 <= k < |p| - 1 ==> p[k].length == BlockSize) &&
                                       p[|p| - 1].length == size % BlockSize)
  {
    PlanFromShape(0, size);
  }

  /** Whatever the size, the lengths the plan requests add up to it. */
  lemma {:induction false} PlanFromTotal(begin: int, size: int)
    ensures Total(PlanFrom(begin, size)) == size - begin
    decreases size - begin
  {
    if begin + BlockSize - 1 < size {
      PlanFromTotal(begin + BlockSize, size);
      var q := PlanFrom(begin + BlockSize, size);
      assert ([Block(begin, BlockSize)] + q)[1..] == q;
    }
  }

  // ---------------------------------------------------------------------------------------
  // Properties of the waits

  /** A frame waitForPiece passes over: a keep-alive, or a message that is neither a choke
      nor a piece. */
  predicate Skippable(m: Option<Message>)
  {
    m.None? || (m.value.id != MsgChoke && m.value.id != MsgPiece)
  }

  /** Frames that are skipped change nothing about what waitForPiece returns. */
  lemma {:induction false} WaitForPieceSkips(l: Link, skipped: seq<Option<Message>>, s: seq<byte>)
    requires forall i :: 0 <= i < |skipped| ==> Framable(skipped[i]) && Skippable(skipped[i])
    ensures WaitForPieceStep(l.(input := Frames(skipped) + s)) == WaitForPieceStep(l.(input := s))
  {
    if skipped != [] {
      var f := Serialize(skipped[0]).value;
      var more := Frames(skipped[1..]) + s;
      assert Framable(skipped[0]) && Skippable(skipped[0]);
      assert Frames(skipped) + s == f + more;
      ReceiveFrame(skipped[0], more);
      var l0 := l.(input := f + more);
      assert AfterRead(l0) == l.(input := more);
      assert WaitForPieceStep(l0) == WaitForPieceStep(AfterRead(l0));
      WaitForPieceSkips(l, skipped[1..], s);
      assert l.(input := Frames(skipped) + s) == l0;
    } else {
      assert Frames(skipped) + s == s;
    }
  }

  /** A piece frame first is what waitForPiece returns, consuming only that frame. */
  lemma WaitForPieceAtPiece(l: Link, piece: Message, rest: seq<byte>)
    requires piece.id == MsgPiece && Framable(Some(piece))
    ensures WaitForPieceStep(l.(input := Serialize(Some(piece)).value + rest)) == Step(Ok(piece), l.(input := rest))
  {
    ReceiveFrame(Some(piece), rest);
  }

  /** A choke frame first ends waitForPiece with "peer sent choke", consuming only that frame. */
  lemma WaitForPieceAtChoke(l: Link, choke: Message, rest: seq<byte>)
    requires choke.id == MsgChoke && Framable(Some(choke))
    ensures WaitForPieceStep(l.(input := Serialize(Some(choke)).value + rest)) == Step(Err(PeerSentChoke), l.(input := rest))
  {
    ReceiveFrame(Some(choke), rest);
  }

  /** After skipped frames, waitForPiece returns the first piece message and leaves the
      input just after it. */
  lemma WaitForPieceFirstPiece(l: Link, skipped: seq<Option<Message>>, piece: Message, rest: seq<byte>)
    requires forall i :: 0 <= i < |skipped| ==> Framable(skipped[i]) && Skippable(skipped[i])
    requires piece.id == MsgPiece && Framable(Some(piece))
    ensures WaitForPieceStep(l.(input := Frames(skipped) + Serialize(Some(piece)).value + rest)) ==
            Step(Ok(piece), l.(input := rest))
  {
    var f := Serialize(Some(piece)).value;
    AppendAssoc(Frames(skipped), f, rest);
    WaitForPieceSkips(l, skipped, f + rest);
    WaitForPieceAtPiece(l, piece, rest);
  }

  /** A choke that comes before any piece message ends waitForPiece with "peer sent choke". */
  lemma WaitForPieceChoke(l: Link, skipped: seq<Option<Message>>, choke: Message, rest: seq<byte>)
    requires forall i :: 0 <= i < |skipped| ==> Framable(skipped[i]) && Skippable(skipped[i])
    requires choke.id == MsgChoke && Framable(Some(choke))
    ensures WaitForPieceStep(l.(input := Frames(skipped) + Serialize(Some(choke)).value + rest)) ==
            Step(Err(PeerSentChoke), l.(input := rest))
  {
    var f := Serialize(Some(choke)).value;
    AppendAssoc(Frames(skipped), f, rest);
    WaitForPieceSkips(l, skipped, f + rest);
    WaitForPieceAtChoke(l, choke, rest);
  }

  /** readBitfield takes the payload of the first frame, whatever its id, and consumes only
      that frame. */
  lemma ReadBitfieldFrame(l: Link, first: Message, rest: seq<byte>)
    requires Framable(Some(first))
    ensures ReadBitfieldStep(l.(input := Serialize(Some(first)).value + rest)) ==
            Step(Ok(first.payload), l.(input := rest))
  {
    ReceiveFrame(Some(first), rest);
  }

  /** Unlike waitForPiece, waitForUnchoke does not skip a keep-alive: it fails even when an
      unchoke follows. */
  lemma WaitForUnchokeKeepAlive(l: Link, rest: seq<byte>)
    ensures WaitForUnchokeStep(l.(input := [0, 0, 0, 0] + New(MsgUnchoke) + rest)).result ==
            Err(KeepAliveInsteadOfUnchoke)
  {
    ReceiveKeepAlive(New(MsgUnchoke) + rest);
    assert [0, 0, 0, 0] + New(MsgUnchoke) + rest == [0, 0, 0, 0] + (New(MsgUnchoke) + rest);
  }

  /** An unchoke frame first is what waitForUnchoke accepts; it consumes only that frame. */
  lemma WaitForUnchokeAccepts(l: Link, rest: seq<byte>)
    ensures WaitForUnchokeStep(l.(input := New(MsgUnchoke) + rest)) == Step(Ok(()), l.(input := rest))
  {
    ReceiveFrame(Some(Message(MsgUnchoke, [])), rest);
  }

  // ---------------------------------------------------------------------------------------
  // Properties of the block download

  /** What waitForPiece does depends on the unread input alone. */
  lemma {:induction false} WaitForPieceReadsInputOnly(l1: Link, l2: Link)
    requires l1.input == l2.input
    ensures WaitForPieceStep(l1).result == WaitForPieceStep(l2).result
    ensures WaitForPieceStep(l1).link.input == WaitForPieceStep(l2).link.input
    decreases |l1.input|
  {
    var rcv := Receive(l1.input);
    if rcv.result.Ok? && (rcv.result.value.None? || rcv.result.value.value.id !in {MsgChoke, MsgPiece}) {
      WaitForPieceReadsInputOnly(AfterRead(l1), AfterRead(l2));
    }
  }

  /** One block fetch reads and returns the same whichever writes fail and whatever was
      written before. */
  lemma FetchBlockStepIgnoresWrites(l1: Link, l2: Link, failing1: set<nat>, failing2: set<nat>,
                                    index: int, b: Block, acc: seq<byte>)
    requires l1.input == l2.input && l1.writes == l2.writes
    ensures var o1 := FetchBlockStep(l1, failing1, index, b, acc);
            var o2 := FetchBlockStep(l2, failing2, index, b, acc);
            o1.result == o2.result && o1.link.input == o2.link.input && o1.link.writes == o2.link.writes
  {
    var k1 := SendRequestStep(l1, failing1, index, b.begin, b.length).link;
    var k2 := SendRequestStep(l2, failing2, index, b.begin, b.length).link;
    WaitForPieceReadsInputOnly(k1, k2);
  }

  /** A failed request write does not abort the block download by itself: what
      downloadBlocks reads and returns is the same whichever writes fail (and whatever was
      written before). */
  lemma {:induction false} FetchBlocksIgnoresWriteFailures(l1: Link, l2: Link, failing1: set<nat>, failing2: set<nat>,
                                                           index: int, plan: seq<Block>, acc: seq<byte>)
    requires l1.input == l2.input && l1.writes == l2.writes
    ensures var s1 := FetchBlocks(l1, failing1, index, plan, acc);
            var s2 := FetchBlocks(l2, failing2, index, plan, acc);
            s1.result == s2.result && s1.link.input == s2.link.input && s1.link.writes == s2.link.writes
    decreases |plan|
  {
    if plan != [] {
      var o1 := FetchBlockStep(l1, failing1, index, plan[0], acc);
      var o2 := FetchBlockStep(l2, failing2, index, plan[0], acc);
      FetchBlockStepIgnoresWrites(l1, l2, failing1, failing2, index, plan[0], acc);
      if o1.result.Ok? {
        FetchBlocksIgnoresWriteFailures(o1.link, o2.link, failing1, failing2, index, plan[1..], o1.result.value);
      }
    }
  }

  /** A reply to a block request: a piece message with the 8-byte index and offset header. */
  predicate PieceReply(m: Option<Message>)
  {
    m.Some? && m.value.id == MsgPiece && 8 <= |m.value.payload| <= MaxPayload
  }

  /** The block bytes of `replies`, headers dropped, in order. */
  function BlockData(replies: seq<Option<Message>>): seq<byte>
    requires forall i :: 0 <= i < |replies| ==> Framable(replies[i]) && PieceReply(replies[i])
  {
    if replies == [] then []
    else
      assert PieceReply(replies[0]);
      replies[0].value.payload[8..] + BlockData(replies[1..])
  }

  /** The request frames for `plan`, in order. */
  function RequestFrames(index: int, plan: seq<Block>): seq<seq<byte>>
  {
    if plan == [] then [] else [RequestFrame(index, plan[0].begin, plan[0].length)] + RequestFrames(index, plan[1..])
  }

  /** Whether the `n` writes from attempt number `from` on all go through. */
  predicate WritesSucceed(failing: set<nat>, from: nat, n: nat)
  {
    forall j :: from <= j < from + n ==> j !in failing
  }

  /** One block fetch answered by a piece frame: the block is appended and the request
      frame logged when its write goes through. */
  lemma FetchBlockStepDelivers(l: Link, failing: set<nat>, index: int, b: Block,
                               reply: Message, more: seq<byte>, acc: seq<byte>)
    requires PieceReply(Some(reply))
    ensures FetchBlockStep(l.(input := Serialize(Some(reply)).value + more), failing, index, b, acc) ==
            Step(Ok(acc + reply.payload[8..]),
                 Link(more, l.writes + 1,
                      if l.writes !in failing then l.sent + [RequestFrame(index, b.begin, b.length)] else l.sent))
  {
    var l0 := l.(input := Serialize(Some(reply)).value + more);
    var l1 := SendRequestStep(l0, failing, index, b.begin, b.length).link;
    WaitForPieceAtPiece(l1, reply, more);
  }

  lemma AppendAssoc<T>(a: seq<T>, b: seq<T>, c: seq<T>)
    ensures a + b + c == a + (b + c)
  {
  }

  /** With a piece reply first, fetching a plan fetches its first block and goes on with
      the rest of the plan, the rest of the replies and the block appended. */
  lemma FetchBlocksFirstReply(l: Link, failing: set<nat>, index: int, plan: seq<Block>,
                              replies: seq<Option<Message>>, rest: seq<byte>, acc: seq<byte>)
    requires plan != [] && |replies| == |plan|
    requires forall i :: 0 <= i < |replies| ==> Framable(replies[i]) && PieceReply(replies[i])
    ensures PieceReply(replies[0])
    ensures var frame := RequestFrame(index, plan[0].begin, plan[0].length);
            FetchBlocks(l.(input := Frames(replies) + rest), failing, index, plan, acc) ==
            FetchBlocks(Link(Frames(replies[1..]) + rest, l.writes + 1,
                             if l.writes !in failing then l.sent + [frame] else l.sent),
                        failing, index, plan[1..], acc + replies[0].value.payload[8..])
  {
    assert Framable(replies[0]) && PieceReply(replies[0]);
    var reply := replies[0].value;
    var more := Frames(replies[1..]) + rest;
    assert Frames(replies) + rest == Serialize(Some(reply)).value + more;
    FetchBlockStepDelivers(l, failing, index, plan[0], reply, more, acc);
  }

  /** The replies after the first still satisfy what the first did. */
  lemma RepliesTail(replies: seq<Option<Message>>)
    requires replies != []
    requires forall i :: 0 <= i < |replies| ==> Framable(replies[i]) && PieceReply(replies[i])
    ensures forall i :: 0 <= i < |replies[1..]| ==> Framable(replies[1..][i]) && PieceReply(replies[1..][i])
    ensures BlockData(replies) == replies[0].value.payload[8..] + BlockData(replies[1..])
  {
    forall i | 0 <= i < |replies[1..]|
      ensures Framable(replies[1..][i]) && PieceReply(replies[1..][i])
    {
      assert replies[1..][i] == replies[i + 1];
    }
  }

  /** When the peer answers each request with a piece message, the blocks are assembled in
      request order (headers dropped, their index and offset unchecked), exactly the reply
      frames are consumed, and one write is attempted per block. */
  lemma {:induction false} FetchBlocksDelivers(l: Link, failing: set<nat>, index: int, plan: seq<Block>,
                                               replies: seq<Option<Message>>, rest: seq<byte>, acc: seq<byte>)
    requires |replies| == |plan|
    requires forall i :: 0 <= i < |replies| ==> Framable(replies[i]) && PieceReply(replies[i])
    ensures var s := FetchBlocks(l.(input := Frames(replies) + rest), failing, index, plan, acc);
            s.result == Ok(acc + BlockData(replies)) && s.link.input == rest &&
            s.link.writes == l.writes + |plan|
    decreases |plan|
  {
    if plan == [] {
      assert replies == [] && Frames(replies) + rest == rest;
      assert acc + BlockData(replies) == acc;
    } else {
      FetchBlocksFirstReply(l, failing, index, plan, replies, rest, acc);
      RepliesTail(replies);
      var frame := RequestFrame(index, plan[0].begin, plan[0].length);
      var o := Link(Frames(replies[1..]) + rest, l.writes + 1, if l.writes !in failing then l.sent + [frame] else l.sent);
      var block := replies[0].value.payload[8..];
      FetchBlocksDelivers(o.(input := []), failing, index, plan[1..], replies[1..], rest, acc + block);
      assert o.(input := []).(input := Frames(replies[1..]) + rest) == o;
      AppendAssoc(acc, block, BlockData(replies[1..]));
    }
  }

  /** When the peer answers each request with a piece message and no write fails, exactly
      the requests of the plan are written, in order. */
  lemma {:induction false} FetchBlocksRequests(l: Link, failing: set<nat>, index: int, plan: seq<Block>,
                                               replies: seq<Option<Message>>, rest: seq<byte>, acc: seq<byte>)
    requires |replies| == |plan|
    requires forall i :: 0 <= i < |replies| ==> Framable(replies[i]) && PieceReply(replies[i])
    requires WritesSucceed(failing, l.writes, |plan|)
    ensures FetchBlocks(l.(input := Frames(replies) + rest), failing, index, plan, acc).link.sent ==
            l.sent + RequestFrames(index, plan)
    decreases |plan|
  {
    if plan == [] {
      assert l.sent + RequestFrames(index, plan) == l.sent;
    } else {
      FetchBlocksFirstReply(l, failing, index, plan, replies, rest, acc);
      RepliesTail(replies);
      var frame := RequestFrame(index, plan[0].begin, plan[0].length);
      assert l.writes !in failing;
      var o := Link(Frames(replies[1..]) + rest, l.writes + 1, l.sent + [frame]);
      assert WritesSucceed(failing, o.writes, |plan[1..]|);
      FetchBlocksRequests(o.(input := []), failing, index, plan[1..], replies[1..], rest,
                          acc + replies[0].value.payload[8..]);
      assert o.(input := []).(input := Frames(replies[1..]) + rest) == o;
      assert RequestFrames(index, plan) == [frame] + RequestFrames(index, plan[1..]);
      AppendAssoc(l.sent, [frame], RequestFrames(index, plan[1..]));
    }
  }

  /** downloadBlocks when the peer answers each request of the plan with a piece message and
      no write fails: exactly the reply frames are consumed, exactly the request frames of
      the plan are written, in order, and the result is the assembled blocks if and only if
      their SHA-1 matches the recorded hash, "integrity check failed" otherwise. */
  lemma DownloadBlocksDelivers(l: Link, failing: set<nat>, pieceHash: seq<Hash>, sha1: seq<byte> -> Hash,
                               index: int, size: int, replies: seq<Option<Message>>, rest: seq<byte>)
    requires 0 <= index < |pieceHash| && |replies| == |Plan(size)|
    requires forall i :: 0 <= i < |replies| ==> Framable(replies[i]) && PieceReply(replies[i])
    requires WritesSucceed(failing, l.writes, |replies|)
    ensures var data := BlockData(replies);
            DownloadBlocksStep(l.(input := Frames(replies) + rest), failing, pieceHash, sha1, index, size) ==
            Step(if sha1(data) == pieceHash[index] then Ok(data) else Err(IntegrityCheckFailed),
                 Link(rest, l.writes + |replies|, l.sent + RequestFrames(index, Plan(size))))
  {
    FetchBlocksDelivers(l, failing, index, Plan(size), replies, rest, []);
    FetchBlocksRequests(l, failing, index, Plan(size), replies, rest, []);
    assert [] + BlockData(replies) == BlockData(replies);
  }

  // ---------------------------------------------------------------------------------------
  // Frames between the piece replies

  /** Groups of frames a peer may send between piece replies (keep-alives, have messages and
      anything else waitForPiece passes over). */
  predicate SkippableGaps(gaps: seq<seq<Option<Message>>>)
  {
    forall i, j :: 0 <= i < |gaps| && 0 <= j < |gaps[i]| ==> Framable(gaps[i][j]) && Skippable(gaps[i][j])
  }

  /** The byte stream of `replies`, each preceded by its own group of `gaps`. */
  function Interleave(gaps: seq<seq<Option<Message>>>, replies: seq<Option<Message>>): seq<byte>
    requires |gaps| == |replies| && SkippableGaps(gaps)
    requires forall i :: 0 <= i < |replies| ==> Framable(replies[i])
  {
    if replies == [] then []
    else
      assert forall j :: 0 <= j < |gaps[0]| ==> Framable(gaps[0][j]);
      assert SkippableGaps(gaps[1..]) by {
        forall i, j | 0 <= i < |gaps[1..]| && 0 <= j < |gaps[1..][i]|
          ensures Framable(gaps[1..][i][j]) && Skippable(gaps[1..][i][j])
        {
          assert gaps[1..][i] == gaps[i + 1];
        }
      }
      Frames(gaps[0]) + Serialize(replies[0]).value + Interleave(gaps[1..], replies[1..])
  }

  /** The groups after the first are still skippable, and so is the first group. */
  lemma GapsTail(gaps: seq<seq<Option<Message>>>)
    requires gaps != [] && SkippableGaps(gaps)
    ensures forall j :: 0 <= j < |gaps[0]| ==> Framable(gaps[0][j]) && Skippable(gaps[0][j])
    ensures SkippableGaps(gaps[1..])
  {
    forall i, j | 0 <= i < |gaps[1..]| && 0 <= j < |gaps[1..][i]|
      ensures Framable(gaps[1..][i][j]) && Skippable(gaps[1..][i][j])
    {
      assert gaps[1..][i] == gaps[i + 1];
    }
  }

  /** sendRequest does not touch the input. */
  lemma SendRequestKeepsInput(l: Link, s: seq<byte>, failing: set<nat>, index: int, b: Block)
    ensures SendRequestStep(l.(input := s), failing, index, b.begin, b.length).link ==
            SendRequestStep(l, failing, index, b.begin, b.length).link.(input := s)
  {
  }

  /** One block fetch is decided by what waitForPiece returns after the request. */
  lemma FetchBlockStepByWait(l1: Link, l2: Link, failing: set<nat>, index: int, b: Block, acc: seq<byte>)
    requires WaitForPieceStep(SendRequestStep(l1, failing, index, b.begin, b.length).link) ==
             WaitForPieceStep(SendRequestStep(l2, failing, index, b.begin, b.length).link)
    ensures FetchBlockStep(l1, failing, index, b, acc) == FetchBlockStep(l2, failing, index, b, acc)
  {
  }

  /** Skippable frames ahead of the reply change nothing about one block fetch: it returns
      the same and leaves the connection in the same state. */
  lemma FetchBlockStepSkips(l: Link, failing: set<nat>, index: int, b: Block,
                            gap: seq<Option<Message>>, s: seq<byte>, acc: seq<byte>)
    requires forall i :: 0 <= i < |gap| ==> Framable(gap[i]) && Skippable(gap[i])
    ensures FetchBlockStep(l.(input := Frames(gap) + s), failing, index, b, acc) ==
            FetchBlockStep(l.(input := s), failing, index, b, acc)
  {
    var l1 := l.(input := Frames(gap) + s);
    var r1 := SendRequestStep(l1, failing, index, b.begin, b.length).link;
    assert WaitForPieceStep(r1) == WaitForPieceStep(SendRequestStep(l.(input := s), failing, index, b.begin, b.length).link) by {
      SendRequestKeepsInput(l1, s, failing, index, b);
      assert l1.(input := s) == l.(input := s);
      assert r1.(input := Frames(gap) + s) == r1 by {
        SendRequestKeepsInput(l1, Frames(gap) + s, failing, index, b);
      }
      WaitForPieceSkips(r1, gap, s);
    }
    FetchBlockStepByWait(l1, l.(input := s), failing, index, b, acc);
  }

  /** Frames that waitForPiece passes over, arriving in any number before each piece reply,
      change nothing about the block download: the result, the input left over and the
      frames written are those of the stream made of the replies alone. */
  lemma {:induction false} FetchBlocksSkips(l: Link, failing: set<nat>, index: int, plan: seq<Block>,
                                            gaps: seq<seq<Option<Message>>>, replies: seq<Option<Message>>,
                                            rest: seq<byte>, acc: seq<byte>)
    requires |gaps| == |replies| == |plan| && SkippableGaps(gaps)
    requires forall i :: 0 <= i < |replies| ==> Framable(replies[i]) && PieceReply(replies[i])
    ensures FetchBlocks(l.(input := Interleave(gaps, replies) + rest), failing, index, plan, acc) ==
            FetchBlocks(l.(input := Frames(replies) + rest), failing, index, plan, acc)
    decreases |plan|
  {
    if plan == [] {
      assert Interleave(gaps, replies) + rest == rest == Frames(replies) + rest;
    } else {
      InterleaveCons(gaps, replies, rest);
      var reply := replies[0].value;
      var tail := Frames(replies[1..]) + rest;
      var x := Interleave(gaps[1..], replies[1..]) + rest;
      var o := Link(x, l.writes + 1,
                    if l.writes !in failing then l.sent + [RequestFrame(index, plan[0].begin, plan[0].length)] else l.sent);
      var v := acc + reply.payload[8..];
      var l1 := l.(input := Interleave(gaps, replies) + rest);
      assert FetchBlocks(l1, failing, index, plan, acc) == FetchBlocks(o, failing, index, plan[1..], v) by {
        FetchBlockAmidSkips(l, failing, index, plan[0], gaps[0], reply, x, acc);
        FetchBlocksAfterFirst(l1, failing, index, plan, acc, o, v);
      }
      assert FetchBlocks(o, failing, index, plan[1..], v) ==
                 FetchBlocks(o.(input := tail), failing, index, plan[1..], v) by {
        FetchBlocksSkips(o.(input := []), failing, index, plan[1..], gaps[1..], replies[1..], rest, v);
        assert o.(input := []).(input := x) == o;
      }
      assert FetchBlocks(l.(input := Frames(replies) + rest), failing, index, plan, acc) ==
                 FetchBlocks(o.(input := tail), failing, index, plan[1..], v) by {
        FetchBlocksFirstReply(l, failing, index, plan, replies, rest, acc);
      }
    }
  }

  /** The stream of a nonempty interleaving: the first group, the first reply, then the
      interleaving of the rest. */
  lemma InterleaveCons(gaps: seq<seq<Option<Message>>>, replies: seq<Option<Message>>, rest: seq<byte>)
    requires gaps != [] && |gaps| == |replies| && SkippableGaps(gaps)
    requires forall i :: 0 <= i < |replies| ==> Framable(replies[i]) && PieceReply(replies[i])
    ensures forall j :: 0 <= j < |gaps[0]| ==> Framable(gaps[0][j]) && Skippable(gaps[0][j])
    ensures SkippableGaps(gaps[1..]) && PieceReply(replies[0])
    ensures forall i :: 0 <= i < |replies[1..]| ==> Framable(replies[1..][i]) && PieceReply(replies[1..][i])
    ensures Interleave(gaps, replies) + rest ==
            Frames(gaps[0]) + (Serialize(replies[0]).value + (Interleave(gaps[1..], replies[1..]) + rest))
  {
    GapsTail(gaps);
    RepliesTail(replies);
    var f := Serialize(replies[0]).value;
    AppendAssoc(Frames(gaps[0]) + f, Interleave(gaps[1..], replies[1..]), rest);
    AppendAssoc(Frames(gaps[0]), f, Interleave(gaps[1..], replies[1..]) + rest);
  }

  /** One block fetch whose reply comes after skippable frames. */
  lemma FetchBlockAmidSkips(l: Link, failing: set<nat>, index: int, b: Block,
                            gap: seq<Option<Message>>, reply: Message, x: seq<byte>, acc: seq<byte>)
    requires forall j :: 0 <= j < |gap| ==> Framable(gap[j]) && Skippable(gap[j])
    requires PieceReply(Some(reply))
    ensures FetchBlockStep(l.(input := Frames(gap) + (Serialize(Some(reply)).value + x)), failing, index, b, acc) ==
            Step(Ok(acc + reply.payload[8..]),
                 Link(x, l.writes + 1,
                      if l.writes !in failing then l.sent + [RequestFrame(index, b.begin, b.length)] else l.sent))
  {
    FetchBlockStepSkips(l, failing, index, b, gap, Serialize(Some(reply)).value + x, acc);
    FetchBlockStepDelivers(l, failing, index, b, reply, x, acc);
  }

  /** A plan whose first block is fetched goes on with the rest of the plan. */
  lemma FetchBlocksAfterFirst(l: Link, failing: set<nat>, index: int, plan: seq<Block>, acc: seq<byte>,
                              o: Link, v: seq<byte>)
    requires plan != [] && FetchBlockStep(l, failing, index, plan[0], acc) == Step(Ok(v), o)
    ensures FetchBlocks(l, failing, index, plan, acc) == FetchBlocks(o, failing, index, plan[1..], v)
  {
  }

  /** downloadBlocks when the peer answers each request with a piece message, possibly after
      frames that waitForPiece passes over, and no write fails: the outcome is the one of
      DownloadBlocksDelivers, with every frame up to the last reply consumed. */
  lemma DownloadBlocksDeliversAmidSkips(l: Link, failing: set<nat>, pieceHash: seq<Hash>,
                                        sha1: seq<byte> -> Hash, index: int, size: int,
                                        gaps: seq<seq<Option<Message>>>, replies: seq<Option<Message>>,
                                        rest: seq<byte>)
    requires 0 <= index < |pieceHash| && |replies| == |Plan(size)| && |gaps| == |replies| && SkippableGaps(gaps)
    requires forall i :: 0 <= i < |replies| ==> Framable(replies[i]) && PieceReply(replies[i])
    requires WritesSucceed(failing, l.writes, |replies|)
    ensures var data := BlockData(replies);
            DownloadBlocksStep(l.(input := Interleave(gaps, replies) + rest), failing, pieceHash, sha1, index, size) ==
            Step(if sha1(data) == pieceHash[index] then Ok(data) else Err(IntegrityCheckFailed),
                 Link(rest, l.writes + |replies|, l.sent + RequestFrames(index, Plan(size))))
  {
    FetchBlocksSkips(l, failing, index, Plan(size), gaps, replies, rest, []);
    DownloadBlocksDelivers(l, failing, pieceHash, sha1, index, size, replies, rest);
  }

  // ---------------------------------------------------------------------------------------
  // The connection

  class Connection {
    const conn: Conn
    var bitField: seq<byte>
    const pieceHash: seq<Hash>

    constructor (conn: Conn, pieceHash: seq<Hash>)
      ensures this.conn == conn && this.pieceHash == pieceHash && bitField == []
    {
      this.conn := conn;
      this.pieceHash := pieceHash;
      this.bitField := [];
    }

    method ReadBitfield() returns (r: Result<(), Failure>)
      modifies this`bitField, conn
      ensures var s := ReadBitfieldStep(old(conn.State()));
              conn.State() == s.link &&
              (s.result.Ok? ==> r == Ok(()) && bitField == s.result.value) &&
              (s.result.Err? ==> r == Err(s.result.error) && bitField == old(bitField))
    {
      var msg := ReadMessage(conn);
      match msg
      case Err(e) => return Err(ReadFailed(e));
      case Ok(None) => return Err(Panic(NilMessage));
      case Ok(Some(m)) =>
        bitField := m.payload;
        return Ok(());
    }

    method SendUnchokeAndInterested() returns (r: Result<(), Failure>)
      modifies conn
      ensures var s := SendUnchokeAndInterestedStep(old(conn.State()), conn.failing);
              r == s.result && conn.State() == s.link
    {
      var ok := conn.Write(New(MsgUnchoke));
      if !ok {
        return Err(WriteFailed);
      }
      ok := conn.Write(New(MsgInterested));
      if !ok {
        return Err(WriteFailed);
      }
      return Ok(());
    }

    method WaitForUnchoke() returns (r: Result<(), Failure>)
      modifies conn
      ensures var s := WaitForUnchokeStep(old(conn.State())); r == s.result && conn.State() == s.link
    {
      var unchoke := ReadMessage(conn);
      match unchoke
      case Err(e) => return Err(ReadFailed(e));
      case Ok(None) => return Err(KeepAliveInsteadOfUnchoke);
      case Ok(Some(m)) =>
        if m.id != MsgUnchoke {
          return Err(ExpectedUnchoke(m.id));
        }
        return Ok(());
    }

    method SendRequest(index: int, begin: int, length: int) returns (r: Result<(), Failure>)
      modifies conn
      ensures var s := SendRequestStep(old(conn.State()), conn.failing, index, begin, length);
              r == s.result && conn.State() == s.link
    {
      var request := FormatRequest(index, begin, length);
      var ok := conn.Write(Serialize(Some(request)).value);
      return if ok then Ok(()) else Err(WriteFailed);
    }

    /** The recursion of the source on skipped frames is a loop here. */
    method WaitForPiece() returns (r: Result<Message, Failure>)
      modifies conn
      ensures var s := WaitForPieceStep(old(conn.State())); r == s.result && conn.State() == s.link
    {
      while true
        invariant WaitForPieceStep(conn.State()) == WaitForPieceStep(old(conn.State()))
        decreases |conn.input|
      {
        var msg := ReadMessage(conn);
        match msg
        case Err(e) => return Err(ReadFailed(e));
        case Ok(None) =>
        case Ok(Some(m)) =>
          if m.id == MsgChoke {
            return Err(PeerSentChoke);
          }
          if m.id == MsgPiece {
            return Ok(m);
          }
      }
    }

    /** The body shared by the loop and the remainder block of downloadBlocks. */
    method FetchBlock(index: int, begin: int, length: int, payload: seq<byte>)
      returns (r: Result<seq<byte>, Failure>)
      modifies conn
      ensures var s := FetchBlockStep(old(conn.State()), conn.failing, index, Block(begin, length), payload);
              r == s.result && conn.State() == s.link
    {
      var _ := SendRequest(index, begin, length);
      var msg := WaitForPiece();
      if msg.Err? {
        return Err(BlockFailed(begin, msg.error));
      }
      if |msg.value.payload| < 8 {
        return Err(Panic(PayloadOutOfRange));
      }
      return Ok(payload + msg.value.payload[8..]);
    }

    /** One round of the loop of downloadBlocks: a full block at `begin`, which the loop
        condition says still fits in the piece. */
    method FetchFullBlock(index: int, begin: int, size: int, payload: seq<byte>)
      returns (r: Result<seq<byte>, Failure>)
      requires begin + BlockSize - 1 < size
      modifies conn
      ensures FetchBlocks(old(conn.State()), conn.failing, index, PlanFrom(begin, size), payload) ==
              if r.Err? then Step(r, conn.State())
              else FetchBlocks(conn.State(), conn.failing, index, PlanFrom(begin + BlockSize, size), r.value)
    {
      FetchBlocksCons(conn.State(), conn.failing, index, Block(begin, BlockSize),
                      PlanFrom(begin + BlockSize, size), payload);
      r := FetchBlock(index, begin, 16384, payload);
    }

    /** The remainder block of downloadBlocks, sent only when the remainder is not zero. */
    method FetchRemainder(index: int, begin: int, size: int, payload: seq<byte>)
      returns (r: Result<seq<byte>, Failure>)
      requires !(begin + BlockSize - 1 < size)
      modifies conn
      ensures var s := FetchBlocks(old(conn.State()), conn.failing, index, PlanFrom(begin, size), payload);
              r == s.result && conn.State() == s.link
    {
      if size - begin != 0 {
        assert PlanFrom(begin, size) == [Block(begin, size - begin)];
        FetchBlocksSingle(conn.State(), conn.failing, index, Block(begin, size - begin), payload);
        r := FetchBlock(index, begin, size - begin, payload);
      } else {
        assert PlanFrom(begin, size) == [];
        r := Ok(payload);
      }
    }

    /** The integrity check that ends downloadBlocks; it does no I/O. */
    method CheckIntegrity(index: int, payload: seq<byte>, sha1: seq<byte> -> Hash)
      returns (r: Result<seq<byte>, Failure>)
      ensures r == CheckPiece(Step(Ok(payload), conn.State()), pieceHash, sha1, index).result
    {
      if !(0 <= index < |pieceHash|) {
        return Err(Panic(HashIndexOutOfRange));
      }
      var hash := sha1(payload);
      if hash != pieceHash[index] {
        return Err(IntegrityCheckFailed);
      }
      return Ok(payload);
    }

    /** The loop and the remainder block of downloadBlocks: every block of the plan, in order,
        stopping at the first failure. */
    method FetchPlan(index: int, size: int) returns (r: Result<seq<byte>, Failure>)
      modifies conn
      ensures var s := FetchBlocks(old(conn.State()), conn.failing, index, PlanFrom(0, size), []);
              r == s.result && conn.State() == s.link
    {
      var blockSize, pieceSize := BlockSize, size;
      var payload: seq<byte> := [];
      ghost var fetched := FetchBlocks(conn.State(), conn.failing, index, PlanFrom(0, size), []);
      var i := 0;
      while i + blockSize - 1 < pieceSize
        invariant fetched == FetchBlocks(conn.State(), conn.failing, index, PlanFrom(i, size), payload)
        decreases pieceSize - i
      {
        var block := FetchFullBlock(index, i, pieceSize, payload);
        if block.Err? {
          r := block;
          return;
        }
        payload := block.value;
        i := i + blockSize;
      }
      r := FetchRemainder(index, i, pieceSize, payload);
    }

    method DownloadBlocks(index: int, size: int, sha1: seq<byte> -> Hash) returns (r: Result<seq<byte>, Failure>)
      modifies conn
      ensures var s := DownloadBlocksStep(old(conn.State()), conn.failing, pieceHash, sha1, index, size);
              r == s.result && conn.State() == s.link
    {
      var payload := FetchPlan(index, size);
      if payload.Err? {
        return payload;
      }
      r := CheckIntegrity(index, payload.value, sha1);
    }
  }
}
