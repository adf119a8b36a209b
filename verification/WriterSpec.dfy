/** The meaning of the output side of a FastCGI request: two streams, each collecting bytes,
  * and the records they put on the shared connection.
  */
module WriterSpec {
  import opened Basics
  import opened FcgiProtocol

  /** One stream: bytes collected for its next record, at most `cap` of them; whether it has
    * put a record on the wire or been closed; whether it has been closed.
    */
  datatype Side = Side(kind: byte, cap: nat, pending: seq<byte>, written: bool, closed: bool)

  /** What the streams of a request have in common. */
  datatype Shared = Shared(id: uint16, appStatus: int, nWriters: int)

  /** A step: the stream and the common part after it, and the records it put on the wire. */
  datatype Effect = Effect(side: Side, shared: Shared, records: seq<Record>)

  const MAX_CONTENT: nat := 65528

  predicate ValidSide(s: Side) {
    0 < s.cap <= MAX_CONTENT && s.cap % 8 == 0 && |s.pending| <= s.cap
  }

  /** A record of stream data, padded with zeros to a multiple of eight bytes. */
  function DataRecord(kind: byte, id: uint16, content: seq<byte>): (r: Record)
    requires |content| <= MAX_CONTENT
    ensures ValidRecord(r)
  {
    Record(kind, id, content, Zeros(AlignInt8(|content|) - |content|), 0)
  }

  function Flushed(s: Side, id: uint16): seq<Record>
    requires ValidSide(s)
  {
    if s.pending == [] then [] else [DataRecord(s.kind, id, s.pending)]
  }

  function Then(records: seq<Record>, e: Effect): Effect {
    e.(records := records + e.records)
  }

  /** Writing bytes: a full buffer is sent off when there is more to come. */
  function Put(s: Side, shared: Shared, bytes: seq<byte>): (e: Effect)
    requires ValidSide(s)
    ensures ValidSide(e.side) && ValidRecords(e.records)
    ensures e.side.kind == s.kind && e.side.cap == s.cap && e.side.closed == s.closed && e.shared == shared
    decreases |bytes|, |s.pending|
  {
    var room := s.cap - |s.pending|;
    if s.closed then Effect(s, shared, [])
    else if |bytes| <= room then Effect(s.(pending := s.pending + bytes), shared, [])
    else
      var full := s.(pending := s.pending + bytes[..room]);
      Then(Flushed(full, shared.id), Put(full.(pending := [], written := true), shared, bytes[room..]))
  }

  function Flush(s: Side, shared: Shared): Effect
    requires ValidSide(s)
  {
    if s.closed then Effect(s, shared, [])
    else Effect(s.(pending := [], written := s.written || s.pending != []), shared, Flushed(s, shared.id))
  }

  /** The records that close a stream: none for an unused error stream, and END_REQUEST if this
    * is the last stream to be closed.
    */
  function CloseRecords(s: Side, shared: Shared): seq<Record> {
    (if s.kind == STDERR && s.pending == [] && !s.written then [] else [Record(s.kind, shared.id, [], [], 0)])
    + (if shared.nWriters == 1 then [EndRequestRecord(shared.id, shared.appStatus, REQUEST_COMPLETE)] else [])
  }

  function Close(s: Side, shared: Shared): Effect
    requires ValidSide(s)
  {
    if s.closed then Effect(s, shared, [])
    else
      var records := Flushed(s, shared.id) + CloseRecords(s, shared);
      Effect(s.(pending := [], written := true, closed := true),
             shared.(nWriters := shared.nWriters - 1), records)
  }

  /** Bytes that fit may be put into the buffer ahead of the rest. */
  lemma PutAhead(s: Side, shared: Shared, bytes: seq<byte>, m: nat)
    requires ValidSide(s) && !s.closed && m <= |bytes| && m <= s.cap - |s.pending|
    ensures Put(s, shared, bytes) == Put(s.(pending := s.pending + bytes[..m]), shared, bytes[m..])
  {
    var room := s.cap - |s.pending|;
    if |bytes| <= room {
      assert s.pending + bytes == s.pending + bytes[..m] + bytes[m..];
    } else {
      assert s.pending + bytes[..room] == s.pending + bytes[..m] + bytes[m..][..room - m];
      assert bytes[room..] == bytes[m..][room - m..];
    }
  }

  /** A full buffer is sent off before more bytes go in. */
  lemma PutFull(s: Side, shared: Shared, bytes: seq<byte>)
    requires ValidSide(s) && !s.closed && |s.pending| == s.cap && bytes != []
    ensures Put(s, shared, bytes) == Then(Flush(s, shared).records, Put(Flush(s, shared).side, shared, bytes))
  {
    assert s.pending + bytes[..0] == s.pending && bytes[0..] == bytes;
  }
}
