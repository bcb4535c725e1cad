/**
 * A connection as its two byte streams, and the loops that move whole buffers over it. Each
 * system call behaves as an arbitrary schedule says: interrupted, failed (error or timeout),
 * or a transfer of any size. Once the schedule is used up every call moves all it can.
 */
module Channels {
  import opened Bytes
  import opened Decoders
  import opened Optional

  datatype Syscall = Interrupted | Failed | Moves(atMost: nat)

  ghost predicate Clean(schedule: seq<Syscall>) { Failed !in schedule }

  // What `read` returned: -1 with EINTR, -1 with another error, or some bytes (none at end of file).
  datatype ReadResult = Eintr | Error | Got(bytes: seq<Byte>)

  datatype SendResult = SendEintr | SendError | Sent(count: nat)

  class Channel {
    var inbound: seq<Byte>      // what the peer writes before it closes, not yet read here
    var outbound: seq<Byte>     // everything written here so far
    var schedule: seq<Syscall>  // the outcomes of the coming system calls

    constructor (inbound: seq<Byte>, schedule: seq<Syscall>)
      ensures this.inbound == inbound && outbound == [] && this.schedule == schedule
    {
      this.inbound, this.outbound, this.schedule := inbound, [], schedule;
    }

    method Next(full: nat) returns (c: Syscall)
      modifies this`schedule
      ensures old(schedule) == [] ==> schedule == [] && c == Moves(full)
      ensures old(schedule) != [] ==> c == old(schedule)[0] && schedule == old(schedule)[1..]
    {
      if schedule == [] {
        c := Moves(full);
      } else {
        c, schedule := schedule[0], schedule[1..];
      }
    }

    /** One `read` call for at most `size` bytes. */
    method Read(size: nat) returns (r: ReadResult)
      requires size > 0
      modifies this`inbound, this`schedule
      ensures schedule == if old(schedule) == [] then [] else old(schedule)[1..]
      ensures r.Got? ==> r.bytes + inbound == old(inbound) && |r.bytes| <= size
      ensures r.Got? ==> (r.bytes == [] <==> old(inbound) == [])
      ensures !r.Got? ==> inbound == old(inbound) && old(schedule) != []
      ensures r.Error? ==> old(schedule)[0] == Failed
    {
      var c := Next(size);
      match c
      case Interrupted => r := Eintr;
      case Failed => r := Error;
      case Moves(atMost) =>
        var n := if atMost < 1 then 1 else atMost;
        n := if size < n then size else n;
        n := if |inbound| < n then |inbound| else n;
        r := Got(inbound[..n]);
        inbound := inbound[n..];
    }

    /** One `send` call. */
    method Send(data: seq<Byte>) returns (r: SendResult)
      requires data != []
      modifies this`outbound, this`schedule
      ensures schedule == if old(schedule) == [] then [] else old(schedule)[1..]
      ensures r.Sent? ==> 1 <= r.count <= |data| && outbound == old(outbound) + data[..r.count]
      ensures !r.Sent? ==> outbound == old(outbound) && old(schedule) != []
      ensures r.SendError? ==> old(schedule)[0] == Failed
    {
      var c := Next(|data|);
      match c
      case Interrupted => r := SendEintr;
      case Failed => r := SendError;
      case Moves(atMost) =>
        var n := if atMost < 1 then 1 else atMost;
        n := if |data| < n then |data| else n;
        outbound := outbound + data[..n];
        r := Sent(n);
    }

    /**
     * `read_all`: fills the whole buffer with the next bytes of the stream, however the calls
     * split them, or reports that the stream ended or a call failed.
     */
    method ReadAll(buffer: array<Byte>) returns (ok: bool)
      modifies this`inbound, this`schedule, buffer
      ensures ok ==> buffer.Length <= |old(inbound)|
      ensures ok ==> buffer[..] == old(inbound)[..buffer.Length] && inbound == old(inbound)[buffer.Length..]
      ensures Clean(old(schedule)) ==> Clean(schedule) && (ok <==> buffer.Length <= |old(inbound)|)
    {
      var done := 0;
      while done < buffer.Length
        invariant 0 <= done <= buffer.Length
        invariant done <= |old(inbound)| && inbound == old(inbound)[done..]
        invariant buffer[..done] == old(inbound)[..done]
        invariant Clean(old(schedule)) ==> Clean(schedule)
        decreases |schedule| + (buffer.Length - done)
      {
        var r := Read(buffer.Length - done);
        if r.Eintr? { continue; }
        if r.Error? || r.bytes == [] { return false; }
        var chunk := r.bytes;
        forall i | 0 <= i < |chunk| { buffer[done + i] := chunk[i]; }
        assert old(inbound)[..done + |chunk|] == old(inbound)[..done] + chunk by {
          assert old(inbound)[done..] == chunk + inbound;
        }
        done := done + |chunk|;
      }
      assert buffer[..] == buffer[..done];
      return true;
    }

    /** A vector of `n` bytes resized and filled by `read_all`. */
    method ReadBytes(n: nat) returns (r: Option<seq<Byte>>)
      modifies this`inbound, this`schedule
      ensures r.Some? ==> Take(n, old(inbound)) == Done(r.value, inbound)
      ensures Clean(old(schedule)) ==> Clean(schedule) && r.Some? == Take(n, old(inbound)).Done?
    {
      var buffer := new Byte[n];
      var ok := ReadAll(buffer);
      r := if ok then Some(buffer[..]) else None;
    }

    /** The Python `recv_exact`: collects chunks until nothing remains, then joins them. */
    method RecvExact(size: nat) returns (r: Option<seq<Byte>>)
      modifies this`inbound, this`schedule
      ensures r.Some? ==> Take(size, old(inbound)) == Done(r.value, inbound)
      ensures Clean(old(schedule)) ==> Clean(schedule) && r.Some? == Take(size, old(inbound)).Done?
    {
      var chunks: seq<seq<Byte>> := [];
      var remaining := size;
      while remaining > 0
        invariant 0 <= remaining <= size && size - remaining <= |old(inbound)|
        invariant Join(chunks) == old(inbound)[..size - remaining]
        invariant inbound == old(inbound)[size - remaining..]
        invariant Clean(old(schedule)) ==> Clean(schedule)
        decreases |schedule| + remaining
      {
        var c := Read(remaining);
        if c.Eintr? { continue; }  // the interpreter retries an interrupted call itself
        if c.Error? || c.bytes == [] { return None; }
        JoinSnoc(chunks, c.bytes);
        assert old(inbound)[..size - remaining + |c.bytes|] == old(inbound)[..size - remaining] + c.bytes by {
          assert old(inbound)[size - remaining..] == c.bytes + inbound;
        }
        chunks := chunks + [c.bytes];
        remaining := remaining - |c.bytes|;
      }
      return Some(Join(chunks));
    }

    /** `write_all`: the peer gets every byte in order, or the call reports failure. */
    method WriteAll(data: seq<Byte>) returns (ok: bool)
      modifies this`outbound, this`schedule
      ensures old(outbound) <= outbound <= old(outbound) + data
      ensures ok ==> outbound == old(outbound) + data
      ensures Clean(old(schedule)) ==> ok && Clean(schedule)
    {
      var sent := 0;
      while sent < |data|
        invariant 0 <= sent <= |data|
        invariant outbound == old(outbound) + data[..sent]
        invariant Clean(old(schedule)) ==> Clean(schedule)
        decreases |schedule| + (|data| - sent)
      {
        var r := Send(data[sent..]);
        if r.SendEintr? { continue; }
        if r.SendError? { return false; }
        assert data[..sent] + data[sent..][..r.count] == data[..sent + r.count];
        sent := sent + r.count;
      }
      return true;
    }
  }

  function Join(chunks: seq<seq<Byte>>): seq<Byte> {
    if chunks == [] then [] else chunks[0] + Join(chunks[1..])
  }

  lemma {:induction false} JoinSnoc(chunks: seq<seq<Byte>>, c: seq<Byte>)
    ensures Join(chunks + [c]) == Join(chunks) + c
  {
    if chunks == [] {
      assert chunks + [c] == [c];
    } else {
      JoinSnoc(chunks[1..], c);
      assert (chunks + [c])[1..] == chunks[1..] + [c];
    }
  }
}
