/** What the two ends of a FastCGI stream share: the connection, seen through OS_Read and
  * OS_Write, and the request structure.
  */
module FcgiConnection {
  import opened Basics
  import opened FcgiProtocol

  type errno = x: int | 0 < x witness 1

  /** Whether `n` more bytes are accepted once `out` have been; `limit` bytes are accepted in all. */
  predicate Accepts(limit: Option<nat>, out: seq<byte>, n: nat) {
    limit.None? || |out| + n <= limit.value
  }

  /** What the connection has accepted after an attempt to write all of `bytes`. */
  function Written(limit: Option<nat>, out: seq<byte>, bytes: seq<byte>): (r: seq<byte>)
    requires Accepts(limit, out, 0)
    ensures out <= r <= out + bytes
    ensures Accepts(limit, r, 0)
    ensures Accepts(limit, out, |bytes|) ==> r == out + bytes
  {
    if Accepts(limit, out, |bytes|) then out + bytes else out + bytes[..limit.value - |out|]
  }

  /** A connection. The reads of a run hand over `incoming` in pieces of any size and then
    * report the end: 0 when the peer has closed, an error otherwise. The writes accept any
    * part of what they are given, up to `limit` bytes in the whole run, and then fail.
    */
  class Connection {
    var incoming: seq<byte>
    var outgoing: seq<byte>
    const readErrno: Option<errno>
    const limit: Option<nat>
    const writeErrno: errno

    ghost predicate Valid()
      reads this
    {
      Accepts(limit, outgoing, 0)
    }

    constructor (incoming: seq<byte>, readErrno: Option<errno>, limit: Option<nat>, writeErrno: errno)
      ensures Valid()
      ensures this.incoming == incoming && outgoing == []
      ensures this.readErrno == readErrno && this.limit == limit && this.writeErrno == writeErrno
    {
      this.incoming, outgoing := incoming, [];
      this.readErrno, this.limit, this.writeErrno := readErrno, limit, writeErrno;
    }

    /** `OS_Read`: any positive number of bytes that fits, while there are any. */
    method OsRead(buf: array<byte>) returns (count: int)
      requires 0 < buf.Length
      modifies this`incoming, buf
      ensures old(incoming) == [] ==>
                incoming == [] && count == (if readErrno.None? then 0 else -1)
      ensures old(incoming) != [] ==>
                && 0 < count <= buf.Length && count <= |old(incoming)|
                && buf[..count] == old(incoming)[..count]
                && incoming == old(incoming)[count..]
    {
      if incoming == [] {
        return if readErrno.None? then 0 else -1;
      }
      count :| 0 < count <= buf.Length && count <= |incoming|;
      forall i | 0 <= i < count {
        buf[i] := incoming[i];
      }
      assert buf[..count] == incoming[..count];
      incoming := incoming[count..];
    }

    /** `OS_Write`: any positive part of the bytes, while the connection accepts any. */
    method OsWrite(buf: array<byte>, from: nat, len: nat) returns (wrote: int)
      requires Valid()
      requires 0 < len && from + len <= buf.Length
      modifies this`outgoing
      ensures Valid()
      ensures wrote < 0 <==> !Accepts(limit, old(outgoing), 1)
      ensures wrote < 0 ==> outgoing == old(outgoing)
      ensures wrote >= 0 ==> 0 < wrote <= len && outgoing == old(outgoing) + buf[from..from + wrote]
    {
      if !Accepts(limit, outgoing, 1) {
        return -1;
      }
      assert limit.None? || |outgoing| + 1 <= limit.value;
      var n: nat :| 0 < n <= len && (limit.None? || |outgoing| + n <= limit.value);
      outgoing := outgoing + buf[from..from + n];
      wrote := n;
    }

    /** `write_it_all` */
    method WriteItAll(buf: array<byte>, length: nat) returns (status: int)
      requires Valid()
      requires length <= buf.Length
      modifies this`outgoing
      ensures Valid()
      ensures outgoing == Written(limit, old(outgoing), buf[..length])
      ensures status < 0 <==> !Accepts(limit, old(outgoing), length)
    {
      var from: nat, len: nat := 0, length;
      while len != 0
        invariant from + len == length
        invariant Valid()
        invariant outgoing == old(outgoing) + buf[..from]
        decreases len
      {
        var wrote := OsWrite(buf, from, len);
        if wrote < 0 {
          assert Accepts(limit, old(outgoing), from) && !Accepts(limit, old(outgoing), from + 1);
          assert buf[..length][..from] == buf[..from];
          return wrote;
        }
        assert buf[..from] + buf[from..from + wrote] == buf[..from + wrote];
        len := len - wrote;
        from := from + wrote;
      }
      return len;
    }
  }

  /** The part of `FCGX_Request` that a BEGIN_REQUEST record fixes. */
  datatype Begin = Begin(id: uint16, role: uint16, keepConnection: bool, begun: bool)

  /** `FCGX_Request`; the connection stands for the file descriptor. */
  class Request {
    const conn: Connection
    var requestId: uint16
    var role: uint16
    var keepConnection: bool
    var isBeginProcessed: bool
    var appStatus: int
    var nWriters: int

    constructor (conn: Connection)
      ensures this.conn == conn
      ensures !isBeginProcessed && requestId == 0 && appStatus == 0 && nWriters == 0
    {
      this.conn := conn;
      requestId, role, keepConnection, isBeginProcessed, appStatus, nWriters := 0, 0, false, false, 0, 0;
    }

    ghost function Info(): Begin
      reads this
    {
      Begin(requestId, role, keepConnection, isBeginProcessed)
    }
  }
}
