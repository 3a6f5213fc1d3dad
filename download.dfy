/** The piece-level part of downloader/downloader.go: the byte range of each piece and
    downloadPiece, which runs one session over a connection to fetch one piece.
    Bitfield.HasPiece and SHA-1 are function parameters. */
module Download {
  import opened Wrappers
  import opened Binary
  import opened Net
  import opened Wire
  import opened Metainfo
  import opened PeerList
  import opened Session

  /** The download descriptor: peers from the tracker, per-piece hashes, info hash, the
      nominal piece length and the total length. */
  datatype Downloader = Downloader(peers: seq<Peer>, pieceHash: seq<Hash>, infoHash: Hash,
                                   pieceLength: int, length: int)

  datatype Bounds = Bounds(begin: int, end: int)

  /** CalculateBoundsForPiece: the piece starts at index * PieceLength and ends a piece
      length later, or at the end of the content if that comes first. */
  function CalculateBoundsForPiece(d: Downloader, index: int): (b: Bounds)
    ensures b.begin == index * d.pieceLength
    ensures b.end <= d.length && b.end <= b.begin + d.pieceLength
    ensures b.end == b.begin + d.pieceLength || b.end == d.length
  {
    var begin := index * d.pieceLength;
    var end := begin + d.pieceLength;
    if end > d.length then Bounds(begin, d.length) else Bounds(begin, end)
  }

  /** findPieceSize: the length of the byte range of piece `index`. */
  function FindPieceSize(d: Downloader, index: int): (n: int)
    ensures 0 <= d.pieceLength && index * d.pieceLength <= d.length ==> 0 <= n <= d.pieceLength
    ensures n == d.pieceLength || index * d.pieceLength + n == d.length
  {
    var b := CalculateBoundsForPiece(d, index);
    b.end - b.begin
  }

  /** A piece that is not cut short by the end of the content ends where the next begins. */
  lemma PiecesContiguous(d: Downloader, index: int)
    requires index * d.pieceLength + d.pieceLength <= d.length
    ensures CalculateBoundsForPiece(d, index).end == CalculateBoundsForPiece(d, index + 1).begin
  {
    MulSucc(d.pieceLength, index);
  }

  /** The total size of pieces 0 .. n-1. */
  function SizeOfPieces(d: Downloader, n: nat): int
  {
    if n == 0 then 0 else SizeOfPieces(d, n - 1) + FindPieceSize(d, n - 1)
  }

  /** The first n pieces cover the first n piece lengths of the content, or all of it. */
  lemma {:induction false} SizeOfPiecesCovers(d: Downloader, n: nat)
    requires 0 <= d.pieceLength && 0 <= d.length
    requires n * d.pieceLength <= d.length + d.pieceLength
    ensures SizeOfPieces(d, n) == if n * d.pieceLength <= d.length then n * d.pieceLength else d.length
  {
    if n > 0 {
      MulSucc(d.pieceLength, n - 1);
      SizeOfPiecesCovers(d, n - 1);
    }
  }

  /** For a descriptor whose hash count matches its lengths, every piece is non-empty and
      at most a piece length, the last one holds what remains, and together they cover
      exactly the content. */
  lemma DescriptorPieces(d: Downloader)
    requires 0 < d.pieceLength
    requires 0 <= d.length
    requires (|d.pieceHash| - 1) * d.pieceLength < d.length <= |d.pieceHash| * d.pieceLength
    ensures forall i :: 0 <= i < |d.pieceHash| ==> 0 < FindPieceSize(d, i) <= d.pieceLength
    ensures FindPieceSize(d, |d.pieceHash| - 1) == d.length - (|d.pieceHash| - 1) * d.pieceLength
    ensures SizeOfPieces(d, |d.pieceHash|) == d.length
  {
    var n := |d.pieceHash|;
    MulSucc(d.pieceLength, n - 1);
    forall i | 0 <= i < n
      ensures 0 < FindPieceSize(d, i) <= d.pieceLength
    {
      MulMono(d.pieceLength, i, n - 1);
    }
    SizeOfPiecesCovers(d, n);
  }

  /** What one downloadPiece call returns, the connection after it, and the bitfield. */
  datatype Attempt = Attempt(result: Result<seq<byte>, Failure>, link: Link, bitField: seq<byte>)

  /** downloadPiece for a piece of `size` bytes: bitfield, then unchoke and interested, then
      the availability check, then the unchoke wait and the block download, stopping at the
      first failure. */
  function DownloadPieceAttempt(size: int, l: Link, failing: set<nat>, bitField: seq<byte>,
                                pieceHash: seq<Hash>, hasPiece: (seq<byte>, int) -> bool,
                                sha1: seq<byte> -> Hash, index: int): (a: Attempt)
    ensures a.result.Ok? ==> hasPiece(a.bitField, index) && 0 <= index < |pieceHash| &&
                             sha1(a.result.value) == pieceHash[index]
    ensures a.result == Err(PeerLacksPiece) ==> !hasPiece(a.bitField, index)
    ensures |a.link.input| <= |l.input|
  {
    AfterBitfield(ReadBitfieldStep(l), size, failing, bitField, pieceHash, hasPiece, sha1, index)
  }

  /** The stages that follow readBitfield, whose outcome is `b`. */
  function AfterBitfield(b: Step<seq<byte>>, size: int, failing: set<nat>, bitField: seq<byte>,
                         pieceHash: seq<Hash>, hasPiece: (seq<byte>, int) -> bool,
                         sha1: seq<byte> -> Hash, index: int): (a: Attempt)
    ensures a.result.Ok? ==> b.result.Ok? && a.bitField == b.result.value && hasPiece(a.bitField, index) &&
                             0 <= index < |pieceHash| && sha1(a.result.value) == pieceHash[index]
    ensures b.result.Err? ==> a.bitField == bitField
    ensures a.result == Err(PeerLacksPiece) && b.result.Ok? ==> !hasPiece(a.bitField, index)
    ensures |a.link.input| <= |b.link.input|
  {
    if b.result.Err? then Attempt(Err(b.result.error), b.link, bitField)
    else AfterInterest(SendUnchokeAndInterestedStep(b.link, failing), b.result.value, size, failing,
                       pieceHash, hasPiece, sha1, index)
  }

  /** The stages that follow sendUnchokeAndInterested, whose outcome is `u`, for the
      bitfield `bf`. */
  function AfterInterest(u: Step<()>, bf: seq<byte>, size: int, failing: set<nat>,
                         pieceHash: seq<Hash>, hasPiece: (seq<byte>, int) -> bool,
                         sha1: seq<byte> -> Hash, index: int): (a: Attempt)
    ensures a.bitField == bf
    ensures a.result.Ok? ==> u.result.Ok? && hasPiece(bf, index) &&
                             0 <= index < |pieceHash| && sha1(a.result.value) == pieceHash[index]
    ensures a.result == Err(PeerLacksPiece) && u.result.Ok? ==> !hasPiece(bf, index)
    ensures u.result.Ok? && !hasPiece(bf, index) ==> a.result == Err(PeerLacksPiece) && a.link == u.link
    ensures u.result.Err? ==> a.result == Err(u.result.error) && a.link == u.link
    ensures |a.link.input| <= |u.link.input|
  {
    if u.result.Err? then Attempt(Err(u.result.error), u.link, bf)
    else if !hasPiece(bf, index) then Attempt(Err(PeerLacksPiece), u.link, bf)
    else AfterUnchoke(WaitForUnchokeStep(u.link), bf, size, failing, pieceHash, sha1, index)
  }

  /** The block download that follows waitForUnchoke, whose outcome is `w`. */
  function AfterUnchoke(w: Step<()>, bf: seq<byte>, size: int, failing: set<nat>,
                        pieceHash: seq<Hash>, sha1: seq<byte> -> Hash, index: int): (a: Attempt)
    ensures a.bitField == bf
    ensures a.result.Ok? ==> w.result.Ok? && 0 <= index < |pieceHash| && sha1(a.result.value) == pieceHash[index]
    ensures |a.link.input| <= |w.link.input|
  {
    if w.result.Err? then Attempt(Err(w.result.error), w.link, bf)
    else
      var s := DownloadBlocksStep(w.link, failing, pieceHash, sha1, index, size);
      Attempt(s.result, s.link, bf)
  }

  method DownloadPiece(d: Downloader, index: int, conn: Connection,
                       hasPiece: (seq<byte>, int) -> bool, sha1: seq<byte> -> Hash)
    returns (r: Result<seq<byte>, Failure>)
    modifies conn, conn.conn
    ensures var a := DownloadPieceAttempt(FindPieceSize(d, index), old(conn.conn.State()), conn.conn.failing, old(conn.bitField),
                                          conn.pieceHash, hasPiece, sha1, index);
            r == a.result && conn.conn.State() == a.link && conn.bitField == a.bitField
  {
    var err := conn.ReadBitfield();
    if err.Err? {
      return Err(err.error);
    }
    err := conn.SendUnchokeAndInterested();
    if err.Err? {
      return Err(err.error);
    }
    if hasPiece(conn.bitField, index) {
      err := conn.WaitForUnchoke();
      if err.Err? {
        return Err(err.error);
      }
      var payload := conn.DownloadBlocks(index, FindPieceSize(d, index), sha1);
      if payload.Err? {
        return Err(payload.error);
      }
      return payload;
    } else {
      return Err(PeerLacksPiece);
    }
  }

  /** Once the peer has unchoked, no failure is "peer doesn't have piece". */
  lemma AfterUnchokeNeverLacks(w: Step<()>, bf: seq<byte>, size: int, failing: set<nat>,
                               pieceHash: seq<Hash>, sha1: seq<byte> -> Hash, index: int)
    requires w.result.Err? ==> w.result.error != PeerLacksPiece
    ensures AfterUnchoke(w, bf, size, failing, pieceHash, sha1, index).result != Err(PeerLacksPiece)
  {
    if w.result.Ok? {
      var f := FetchBlocks(w.link, failing, index, Plan(size), []);
      FetchBlocksFailures(w.link, failing, index, Plan(size), []);
      var s := CheckPiece(f, pieceHash, sha1, index);
      assert s.result.Err? ==> s.result.error != PeerLacksPiece;
    }
  }

  /** After a bitfield read with outcome `b`, failing for lack of the piece means exactly
      two writes, unchoke and interested, and nothing else. */
  lemma AfterBitfieldLacking(b: Step<seq<byte>>, size: int, failing: set<nat>, bitField: seq<byte>,
                             pieceHash: seq<Hash>, hasPiece: (seq<byte>, int) -> bool,
                             sha1: seq<byte> -> Hash, index: int)
    requires b.result.Err? ==> b.result.error != PeerLacksPiece
    ensures var a := AfterBitfield(b, size, failing, bitField, pieceHash, hasPiece, sha1, index);
            a.result == Err(PeerLacksPiece) ==>
              a.link.input == b.link.input && a.link.writes == b.link.writes + 2 &&
              a.link.sent == b.link.sent + [New(MsgUnchoke), New(MsgInterested)] &&
              !hasPiece(a.bitField, index)
  {
    if b.result.Ok? {
      var u := SendUnchokeAndInterestedStep(b.link, failing);
      if u.result.Ok? && hasPiece(b.result.value, index) {
        AfterUnchokeNeverLacks(WaitForUnchokeStep(u.link), b.result.value, size, failing, pieceHash, sha1, index);
      }
    }
  }

  /** Whenever downloadPiece fails because the peer lacks the piece, the only frames written
      are unchoke and interested: no request. */
  lemma LackingPieceWritesNoRequest(size: int, l: Link, failing: set<nat>, bitField: seq<byte>,
                                    pieceHash: seq<Hash>, hasPiece: (seq<byte>, int) -> bool,
                                    sha1: seq<byte> -> Hash, index: int)
    ensures var a := DownloadPieceAttempt(size, l, failing, bitField, pieceHash, hasPiece, sha1, index);
            a.result == Err(PeerLacksPiece) ==>
              a.link.writes == l.writes + 2 && a.link.sent == l.sent + [New(MsgUnchoke), New(MsgInterested)] &&
              !hasPiece(a.bitField, index)
  {
    AfterBitfieldLacking(ReadBitfieldStep(l), size, failing, bitField, pieceHash, hasPiece, sha1, index);
  }

  /** The fast reject: a first frame whose payload does not mark the piece (its id is not
      checked) makes downloadPiece fail after writing unchoke and interested only, reading
      nothing more. */
  lemma FastReject(size: int, l: Link, failing: set<nat>, bitField: seq<byte>,
                   pieceHash: seq<Hash>, hasPiece: (seq<byte>, int) -> bool,
                   sha1: seq<byte> -> Hash, index: int, first: Message, rest: seq<byte>)
    requires Framable(Some(first)) && l.input == Serialize(Some(first)).value + rest
    requires WritesSucceed(failing, l.writes, 2) && !hasPiece(first.payload, index)
    ensures DownloadPieceAttempt(size, l, failing, bitField, pieceHash, hasPiece, sha1, index) ==
            Attempt(Err(PeerLacksPiece),
                    Link(rest, l.writes + 2, l.sent + [New(MsgUnchoke), New(MsgInterested)]),
                    first.payload)
  {
    assert ReadBitfieldStep(l) == Step(Ok(first.payload), l.(input := rest)) by {
      ReceiveFrame(Some(first), rest);
    }
    assert l.writes !in failing && l.writes + 1 !in failing;
  }

  /** downloadPiece stops at the first stage that fails and performs no later one. */
  lemma StopsAtFirstFailure(size: int, l: Link, failing: set<nat>, bitField: seq<byte>,
                            pieceHash: seq<Hash>, hasPiece: (seq<byte>, int) -> bool,
                            sha1: seq<byte> -> Hash, index: int)
    ensures var a := DownloadPieceAttempt(size, l, failing, bitField, pieceHash, hasPiece, sha1, index);
            var b := ReadBitfieldStep(l);
            var u := SendUnchokeAndInterestedStep(b.link, failing);
            (b.result.Err? ==>
               a.result == b.result && a.link.writes == l.writes && a.link.sent == l.sent &&
               a.bitField == bitField) &&
            (b.result.Ok? && u.result.Err? ==>
               a.result == Err(WriteFailed) && a.link.input == b.link.input &&
               (a.link.sent == l.sent || a.link.sent == l.sent + [New(MsgUnchoke)])) &&
            (b.result.Ok? && u.result.Ok? && hasPiece(b.result.value, index) &&
             WaitForUnchokeStep(u.link).result.Err? ==>
               a.result == Err(WaitForUnchokeStep(u.link).result.error) &&
               a.link.writes == l.writes + 2 &&
               a.link.sent == l.sent + [New(MsgUnchoke), New(MsgInterested)])
  {
  }

  /** Once the bitfield is read and marks the piece, unchoke and interested are written and
      the unchoke has come (leaving the connection `l3`), what remains is the block download. */
  lemma AfterBitfieldReachesBlocks(b: Step<seq<byte>>, size: int, failing: set<nat>, bitField: seq<byte>,
                                   pieceHash: seq<Hash>, hasPiece: (seq<byte>, int) -> bool,
                                   sha1: seq<byte> -> Hash, index: int, l3: Link)
    requires b.result.Ok? && hasPiece(b.result.value, index)
    requires SendUnchokeAndInterestedStep(b.link, failing).result.Ok?
    requires WaitForUnchokeStep(SendUnchokeAndInterestedStep(b.link, failing).link) == Step(Ok(()), l3)
    ensures var s := DownloadBlocksStep(l3, failing, pieceHash, sha1, index, size);
            AfterBitfield(b, size, failing, bitField, pieceHash, hasPiece, sha1, index) ==
              Attempt(s.result, s.link, b.result.value)
  {
  }

  /** The session prefix of a successful exchange: a bitfield frame marking the piece and
      an unchoke lead downloadPiece into the block download with unchoke and interested
      written and exactly those two frames consumed. */
  lemma PrefixReachesBlocks(size: int, l: Link, failing: set<nat>, bitField: seq<byte>,
                            pieceHash: seq<Hash>, hasPiece: (seq<byte>, int) -> bool,
                            sha1: seq<byte> -> Hash, index: int, bits: Message, after: seq<byte>)
    requires Framable(Some(bits)) && hasPiece(bits.payload, index)
    requires l.input == Serialize(Some(bits)).value + (New(MsgUnchoke) + after)
    requires WritesSucceed(failing, l.writes, 2)
    ensures var l3 := Link(after, l.writes + 2, l.sent + [New(MsgUnchoke), New(MsgInterested)]);
            var s := DownloadBlocksStep(l3, failing, pieceHash, sha1, index, size);
            DownloadPieceAttempt(size, l, failing, bitField, pieceHash, hasPiece, sha1, index) ==
              Attempt(s.result, s.link, bits.payload)
  {
    var l1 := l.(input := New(MsgUnchoke) + after);
    assert l.writes !in failing && l.writes + 1 !in failing;
    ReadBitfieldFrame(l, bits, New(MsgUnchoke) + after);
    var sent := l.sent + [New(MsgUnchoke), New(MsgInterested)];
    var l2 := Link(New(MsgUnchoke) + after, l.writes + 2, sent);
    assert SendUnchokeAndInterestedStep(l1, failing) == Step(Ok(()), l2);
    WaitForUnchokeAccepts(l2, after);
    AfterBitfieldReachesBlocks(Step(Ok(bits.payload), l1), size, failing, bitField, pieceHash, hasPiece,
                               sha1, index, Link(after, l.writes + 2, sent));
  }

  /** A whole successful exchange: the peer sends a bitfield frame whose payload marks the
      piece, an unchoke, and one piece message per block. downloadPiece writes unchoke,
      interested and then the requests of the block plan in order, consumes exactly those
      frames, and returns the assembled blocks if and only if their SHA-1 matches the
      recorded hash (an integrity failure otherwise). */
  lemma DownloadPieceDelivers(size: int, l: Link, failing: set<nat>, bitField: seq<byte>,
                              pieceHash: seq<Hash>, hasPiece: (seq<byte>, int) -> bool,
                              sha1: seq<byte> -> Hash, index: int,
                              bits: Message, replies: seq<Option<Message>>, rest: seq<byte>)
    requires Framable(Some(bits)) && hasPiece(bits.payload, index) && 0 <= index < |pieceHash|
    requires |replies| == |Plan(size)|
    requires forall i :: 0 <= i < |replies| ==> Framable(replies[i]) && PieceReply(replies[i])
    requires l.input == Serialize(Some(bits)).value + New(MsgUnchoke) + Frames(replies) + rest
    requires WritesSucceed(failing, l.writes, 2) && WritesSucceed(failing, l.writes + 2, |replies|)
    ensures var a := DownloadPieceAttempt(size, l, failing, bitField, pieceHash, hasPiece, sha1, index);
            var data := BlockData(replies);
            a.result == (if sha1(data) == pieceHash[index] then Ok(data) else Err(IntegrityCheckFailed)) &&
            a.link == Link(rest, l.writes + 2 + |replies|,
                           l.sent + [New(MsgUnchoke), New(MsgInterested)] +
                           RequestFrames(index, Plan(size))) &&
            a.bitField == bits.payload
  {
    var after := Frames(replies) + rest;
    AppendAssoc(Serialize(Some(bits)).value + New(MsgUnchoke), Frames(replies), rest);
    AppendAssoc(Serialize(Some(bits)).value, New(MsgUnchoke), after);
    PrefixReachesBlocks(size, l, failing, bitField, pieceHash, hasPiece, sha1, index, bits, after);
    var l3 := Link(after, l.writes + 2, l.sent + [New(MsgUnchoke), New(MsgInterested)]);
    DownloadBlocksDelivers(l3, failing, pieceHash, sha1, index, size, replies, rest);
    assert l3.(input := Frames(replies) + rest) == l3;
  }
}
