/** A non-blocking connection to the server (mysac_net.c), for a connection that is not lost. */
module Net {
  import opened Bytes

  class Socket {
    /** Every byte the server sends, and how many of them have been delivered. */
    const incoming: seq<byte>
    var pos: nat
    /** Every byte the server has received. */
    var outgoing: seq<byte>
    /** How many more times a call may return without moving a byte although it could. */
    var stalls: nat

    constructor (incoming: seq<byte>, stalls: nat)
      ensures this.incoming == incoming && pos == 0 && outgoing == [] && this.stalls == stalls
    {
      this.incoming, pos, outgoing, this.stalls := incoming, 0, [], stalls;
    }

    /** `mysac_read`: delivers from one to `count` of the next bytes, or -1 for now. */
    method Read(buf: array<byte>, at: nat, count: nat) returns (n: int)
      requires 0 < count && at + count <= buf.Length && pos <= |incoming|
      modifies this`pos, this`stalls, buf
      ensures n == -1 || 1 <= n <= count
      ensures n == -1 ==> pos == old(pos) && (stalls < old(stalls) || pos == |incoming|)
      ensures n > 0 ==> pos == old(pos) + n <= |incoming| && stalls == old(stalls)
      ensures n > 0 ==> buf[at..at + n] == incoming[old(pos)..pos]
      ensures forall k :: 0 <= k < buf.Length && !(at <= k < at + n) ==> buf[k] == old(buf[k])
      ensures stalls <= old(stalls)
    {
      if pos == |incoming| {
        return -1;
      }
      var stall: bool := *;
      if stalls > 0 && stall {
        stalls := stalls - 1;
        return -1;
      }
      var most := if count < |incoming| - pos then count else |incoming| - pos;
      n :| 1 <= n <= most;
      var chunk := incoming[pos..pos + n];
      pos := pos + n;
      for i := 0 to n
        invariant pos == old(pos) + n && stalls == old(stalls)
        invariant forall k :: 0 <= k < i ==> buf[at + k] == chunk[k]
        invariant forall k :: 0 <= k < buf.Length && !(at <= k < at + i) ==> buf[k] == old(buf[k])
      {
        buf[at + i] := chunk[i];
      }
      assert buf[at..at + n] == chunk;
    }

    /** `mysac_write`: sends the first n of the given bytes, or -1 for now. */
    method Write(data: seq<byte>) returns (n: int)
      modifies this`outgoing, this`stalls
      ensures n == -1 || 0 <= n <= |data|
      ensures outgoing == old(outgoing) + data[..if n < 0 then 0 else n]
      ensures stalls <= old(stalls) && (n <= 0 && data != [] ==> stalls < old(stalls))
    {
      var stall: bool := *;
      if data == [] {
        return 0;
      }
      if stalls > 0 && stall {
        stalls := stalls - 1;
        var again: bool := *;
        return if again then -1 else 0;
      }
      n :| 1 <= n <= |data|;
      outgoing := outgoing + data[..n];
    }
  }
}
