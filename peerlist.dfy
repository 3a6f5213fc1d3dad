/** peer/peer.go: the compact peer list of BEP 23, six bytes per peer, a 4-byte IPv4
    address followed by a 2-byte big-endian port. */
module PeerList {
  import opened Wrappers
  import opened Binary

  const PeerSize: nat := 6

  datatype Peer = Peer(ip: seq<byte>, port: int)

  datatype Error = MalformedPeers  // "received malformed peers"

  /** The compact encoding of one peer. */
  function Compact(p: Peer): (b: seq<byte>)
    requires |p.ip| == 4 && 0 <= p.port < TwoTo16
    ensures |b| == PeerSize && b[..4] == p.ip && Uint16(b[4..]) == p.port
  {
    var b := p.ip + PutUint16(p.port);
    assert b[4..] == PutUint16(p.port);
    b
  }

  /** The compact peer list that announces `peers`, in order. */
  function Marshal(peers: seq<Peer>): (b: seq<byte>)
    requires forall i :: 0 <= i < |peers| ==> |peers[i].ip| == 4 && 0 <= peers[i].port < TwoTo16
  {
    if peers == [] then [] else Compact(peers[0]) + Marshal(peers[1..])
  }

  /** Unmarshal. */
  method Unmarshal(bin: seq<byte>) returns (r: Result<seq<Peer>, Error>)
    ensures r.Err? <==> |bin| % PeerSize != 0
    ensures r.Ok? ==> |r.value| == |bin| / PeerSize
    ensures r.Ok? ==> forall i :: 0 <= i < |r.value| ==>
                        PeerSize * i + PeerSize <= |bin| &&
                        r.value[i].ip == bin[PeerSize * i .. PeerSize * i + 4] &&
                        r.value[i].port == Uint16(bin[PeerSize * i + 4 .. PeerSize * i + 6])
    ensures r.Ok? ==> (forall i :: 0 <= i < |r.value| ==> |r.value[i].ip| == 4 && 0 <= r.value[i].port < TwoTo16)
                      && Marshal(r.value) == bin
  {
    var numPeers := |bin| / PeerSize;
    if |bin| % PeerSize != 0 {
      return Err(MalformedPeers);
    }
    var peers := new Peer[numPeers](_ => Peer([], 0));
    var i := 0;
    while i < numPeers
      invariant 0 <= i <= numPeers
      invariant forall k :: 0 <= k < i ==>
                  peers[k].ip == bin[PeerSize * k .. PeerSize * k + 4] &&
                  peers[k].port == Uint16(bin[PeerSize * k + 4 .. PeerSize * k + 6])
    {
      var offset := i * PeerSize;
      peers[i] := Peer(bin[offset .. offset + 4], Uint16(bin[offset + 4 .. offset + 6]));
      i := i + 1;
    }
    MarshalUnmarshalled(peers[..], bin);
    return Ok(peers[..]);
  }

  /** The peers read off a compact list announce that same list. */
  lemma {:induction false} MarshalUnmarshalled(peers: seq<Peer>, bin: seq<byte>)
    requires |bin| == PeerSize * |peers|
    requires forall i :: 0 <= i < |peers| ==>
               peers[i].ip == bin[PeerSize * i .. PeerSize * i + 4] &&
               peers[i].port == Uint16(bin[PeerSize * i + 4 .. PeerSize * i + 6])
    ensures forall i :: 0 <= i < |peers| ==> |peers[i].ip| == 4 && 0 <= peers[i].port < TwoTo16
    ensures Marshal(peers) == bin
  {
    if peers != [] {
      var tail := bin[PeerSize..];
      forall i | 0 <= i < |peers| - 1
        ensures peers[1..][i].ip == tail[PeerSize * i .. PeerSize * i + 4]
        ensures peers[1..][i].port == Uint16(tail[PeerSize * i + 4 .. PeerSize * i + 6])
      {
        assert peers[1..][i] == peers[i + 1];
      }
      MarshalUnmarshalled(peers[1..], tail);
      PutUint16OfUint16(bin[4..6]);
      assert Compact(peers[0]) == bin[..PeerSize];
      assert bin == bin[..PeerSize] + tail;
    }
  }
}
