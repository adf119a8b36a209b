/** A stream from end to end: a writer object at one end of a connection, a reader object at the other. */
module StreamTransfer {
  import opened Basics
  import opened FcgiProtocol
  import opened FcgiConnection
  import opened WriterTheorems
  import opened WriterRuns
  import WriterSpec
  import Writer
  import Reader
  import ReaderSpec
  import RequestReading

  /** A request that is under way on a connection. */
  method Underway(conn: Connection, id: uint16) returns (req: Request)
    ensures fresh(req) && req.conn == conn && req.nWriters == 2 && req.appStatus == 0
    ensures req.Info() == Begin(id, 0, false, true)
  {
    req := new Request(conn);
    req.requestId, req.role, req.keepConnection, req.isBeginProcessed := id, 0, false, true;
    req.nWriters := 2;
  }

  /** The two writers of a request, as `FCGX_Accept_r` makes them. */
  method OpenWriters(req: Request, kind: byte, errKind: byte, size: nat)
    returns (out: Writer.Stream, err: Writer.Stream, ghost p0: Pair)
    requires req.conn.Valid() && req.conn.outgoing == [] && req.nWriters == 2
    requires kind != errKind && kind != END_REQUEST && errKind != END_REQUEST
    requires 24 <= size <= 0x1_0000 && size % 8 == 0
    ensures fresh(out) && fresh(err) && fresh(out.buff) && fresh(err.buff) && out.req == req
    ensures Together(out, err) && Tracks(out, err, [], p0)
    ensures Fresh(p0) && p0.out.kind == kind && p0.err.kind == errKind && p0.shared.id == req.requestId
  {
    var outBuff := new byte[size](_ => 0);
    var errBuff := new byte[size](_ => 0);
    out := new Writer.Stream(req, outBuff, kind);
    err := new Writer.Stream(req, errBuff, errKind);
    p0 := Pair(out.Side(), err.Side(), out.Common(), []);
    NothingEncoded();
  }

  /** A run of operations on the two writers of a request leaves on the wire the records of the run. */
  method WriteStream(ops: seq<Op>, id: uint16, kind: byte, errKind: byte, size: nat)
    returns (wire: seq<byte>, ghost p0: Pair)
    requires kind != errKind && kind != END_REQUEST && errKind != END_REQUEST
    requires 24 <= size <= 0x1_0000 && size % 8 == 0
    ensures Fresh(p0) && p0.out.kind == kind && p0.err.kind == errKind && p0.shared.id == id
    ensures ValidRecords(Run(p0, ops).records) && wire == EncodeAll(Run(p0, ops).records)
  {
    hide Run, EncodeAll, Together, Tracks, ValidRecords, Fresh;
    var conn := new Connection([], None, None, 1);
    var req := Underway(conn, id);
    var out, err;
    out, err, p0 := OpenWriters(req, kind, errKind, size);
    PerformAll(out, err, ops, [], p0);
    wire := conn.outgoing;
  }

  lemma NothingEncoded()
    ensures EncodeAll([]) == []
  {
  }

  /** What a stream is given before it is closed, in whatever pieces and with whatever flushes, comes back from a reader
    * of that stream at the other end, however the connection cuts its reads and whatever the calls ask for.
    */
  method Transfer(ops: seq<Op>, id: uint16, kind: byte, errKind: byte, size: nat) returns (data: seq<byte>)
    requires kind != errKind && kind != END_REQUEST && errKind != END_REQUEST
    requires 24 <= size <= 0x1_0000 && size % 8 == 0
    requires OutOnly(ops) && ClosedIn(ops, Out) && kind != BEGIN_REQUEST && id != NULL_REQUEST_ID
    requires kind == STDERR ==> Given(ops, Out) != []
    ensures data == Given(ops, Out)
  {
    hide Run, EncodeAll, Given, ReaderSpec.Run;
    var wire, p0 := WriteStream(ops, id, kind, errKind, size);
    var conn := new Connection(wire, None, None, 1);
    var req := Underway(conn, id);
    var buff := new byte[size](_ => 0);
    var reader := new Reader.Stream(req, buff, kind);
    WrittenIsRead(p0, ops, reader.Setting(), req.Info(), [], []);
    assert wire + [] == wire;
    data := RequestReading.ReadToEnd(reader);
  }
}
