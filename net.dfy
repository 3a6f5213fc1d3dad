/** The peer connection (Go's net.Conn) as the rest of the client sees it: the bytes the
    peer has still to deliver, and a log of the frames written to it.

    A read that asks for more bytes than the peer will ever deliver (the peer closed the
    connection, or the connection deadline passed) fails; a write fails when the connection
    is broken at that moment. Which writes fail is fixed up front by the set `failing`
    of attempt numbers: write number k (counting from 0) fails exactly when k is in `failing`. */
module Net {
  import opened Wrappers
  import opened Binary

  /** The two ways io.ReadFull fails: nothing at all was read (EOF), or only part
      of what was asked for (UnexpectedEOF). */
  datatype ReadError = EOF | UnexpectedEOF

  /** A snapshot of a connection: unread input, number of write attempts, frames written. */
  datatype Link = Link(input: seq<byte>, writes: nat, sent: seq<seq<byte>>)

  /** Whether the next write on `l` goes through. */
  predicate WriteSucceeds(l: Link, failing: set<nat>)
  {
    l.writes !in failing
  }

  /** The connection after one attempt to write `b`: the write is counted and logged only
      when it goes through. */
  function AfterWrite(l: Link, failing: set<nat>, b: seq<byte>): Link
  {
    Link(l.input, l.writes + 1, if WriteSucceeds(l, failing) then l.sent + [b] else l.sent)
  }

  class Conn {
    var input: seq<byte>
    var writes: nat
    var sent: seq<seq<byte>>
    const failing: set<nat>

    function State(): Link
      reads this
    {
      Link(input, writes, sent)
    }

    constructor (input: seq<byte>, failing: set<nat>)
      ensures this.input == input && writes == 0 && sent == [] && this.failing == failing
    {
      this.input := input;
      this.writes := 0;
      this.sent := [];
      this.failing := failing;
    }

    /** io.ReadFull: reads exactly `n` bytes, or consumes whatever is left and fails. */
    method ReadFull(n: nat) returns (buf: seq<byte>, err: Option<ReadError>)
      modifies this
      ensures writes == old(writes) && sent == old(sent)
      ensures n <= |old(input)| ==> err == None && buf == old(input)[..n] && input == old(input)[n..]
      ensures |old(input)| < n ==> input == [] && buf == old(input)
      ensures |old(input)| < n ==> err == Some(if old(input) == [] then EOF else UnexpectedEOF)
    {
      if n <= |input| {
        buf, err := input[..n], None;
        input := input[n..];
      } else {
        buf, err := input, Some(if input == [] then EOF else UnexpectedEOF);
        input := [];
      }
    }

    /** Conn.Write of one whole buffer; `ok` is false when the write returned an error. */
    method Write(b: seq<byte>) returns (ok: bool)
      modifies this
      ensures ok == WriteSucceeds(old(State()), failing)
      ensures State() == AfterWrite(old(State()), failing, b)
    {
      ok := writes !in failing;
      if ok {
        sent := sent + [b];
      }
      writes := writes + 1;
    }
  }
}
