/** The metainfo part of torrent/torrent.go: the decoded .torrent file and its conversion to
    the form the downloader uses, where the `pieces` string of the "metainfo files" section
    of BEP 3 is cut into one 20-byte SHA-1 hash per piece. The bencode encoding and SHA-1
    are passed in as functions. */
module Metainfo {
  import opened Wrappers
  import opened Binary

  const HashLen: nat := 20

  /** A SHA-1 digest. */
  type Hash = s: seq<byte> | |s| == HashLen witness ZeroHash

  const ZeroHash: seq<byte> := seq(HashLen, _ => 0)

  datatype Info = Info(length: int, name: string, pieceLength: int, pieces: seq<byte>)

  datatype Torrent = Torrent(announce: string, comment: string, createdBy: string,
                             info: Info, urlList: seq<string>)

  datatype TorrentFile = TorrentFile(announce: string, infoHash: Hash, piecesHash: seq<Hash>,
                                     piecesLength: int, length: int, name: string)

  datatype Error =
    | MalformedPieces(length: nat)  // "Received malformed pieces of length %d"
    | EncodeFailed                  // the error returned by bencode.Marshal

  /** Info.splitPieceHashes. */
  method SplitPieceHashes(info: Info) returns (r: Result<seq<Hash>, Error>)
    ensures r.Err? <==> |info.pieces| % HashLen != 0
    ensures r.Err? ==> r.error == MalformedPieces(|info.pieces|)
    ensures r.Ok? ==> |r.value| == |info.pieces| / HashLen
    ensures r.Ok? ==> forall i :: 0 <= i < |r.value| ==>
                        HashLen * i + HashLen <= |info.pieces| &&
                        r.value[i] == info.pieces[HashLen * i .. HashLen * i + HashLen]
    ensures r.Ok? ==> Flatten(r.value) == info.pieces
  {
    var buf := info.pieces;
    if |buf| % HashLen != 0 {
      return Err(MalformedPieces(|buf|));
    }
    var numHashes := |buf| / HashLen;
    var hashes := new Hash[numHashes](_ => ZeroHash);
    var i := 0;
    while i < numHashes
      invariant 0 <= i <= numHashes
      invariant forall k :: 0 <= k < i ==> hashes[k] == buf[HashLen * k .. HashLen * k + HashLen]
    {
      hashes[i] := buf[i * HashLen .. (i + 1) * HashLen];
      i := i + 1;
    }
    FlattenChunks(hashes[..], buf, HashLen);
    return Ok(hashes[..]);
  }

  /** Torrent.ToTorrenFile: the hashes of the pieces, the info hash (SHA-1 of the bencoded
      info dictionary), and the remaining fields copied unchanged. */
  method ToTorrentFile(t: Torrent, bencode: Info -> Option<seq<byte>>, sha1: seq<byte> -> Hash)
    returns (r: Result<TorrentFile, Error>)
    ensures |t.info.pieces| % HashLen != 0 ==> r == Err(MalformedPieces(|t.info.pieces|))
    ensures |t.info.pieces| % HashLen == 0 && bencode(t.info).None? ==> r == Err(EncodeFailed)
    ensures r.Ok? <==> |t.info.pieces| % HashLen == 0 && bencode(t.info).Some?
    ensures r.Ok? ==>
              r.value.announce == t.announce && r.value.length == t.info.length &&
              r.value.name == t.info.name && r.value.piecesLength == t.info.pieceLength &&
              r.value.infoHash == sha1(bencode(t.info).value)
    ensures r.Ok? ==> |r.value.piecesHash| == |t.info.pieces| / HashLen &&
                      Flatten(r.value.piecesHash) == t.info.pieces
  {
    var b := SplitPieceHashes(t.info);
    if b.Err? {
      return Err(b.error);
    }
    var buf := bencode(t.info);
    if buf.None? {
      return Err(EncodeFailed);
    }
    return Ok(TorrentFile(t.announce, sha1(buf.value), b.value, t.info.pieceLength,
                          t.info.length, t.info.name));
  }
}
