/** The CoAP client's sweep over its pending requests. */
module CoapClient {
  import opened Basics
  import opened CoapList
  import opened CoapPdu
  import opened PduSpec
  import opened PduTheorems
  import opened CoapQuery
  import opened SweepSpec

  const TOKEN: byte := 11

  /** The token of a message as the C string in its token option. */
  function TokenOf(m: Message): seq<byte> {
    match Lookup(m.options, TOKEN)
    case None => []
    case Some(o) => StringAt(o.data, 0)
  }

  /** The token is the value of option 11, up to a zero byte if there is one. */
  lemma TokenIs(m: Message, token: seq<byte>, rest: seq<byte>)
    requires 0 !in token && (rest == [] || rest[0] == 0)
    requires Lookup(m.options, 11) == Some(CoapOption(11, token + rest))
    ensures TokenOf(m) == token
  {
    StringUpTo(token, rest, 0);
  }

  lemma {:induction false} StringUpTo(token: seq<byte>, rest: seq<byte>, p: nat)
    requires 0 !in token && (rest == [] || rest[0] == 0) && p <= |token|
    ensures StringAt(token + rest, p) == token[p..]
    decreases |token| - p
  {
    if p < |token| {
      assert token[p] in token && (token + rest)[p] == token[p];
      StringUpTo(token, rest, p + 1);
    }
  }

  /** A pending request. A sweep only reads the message, so it is a value here. */
  class Connection {
    const pdu: Message
    var n_retransmit: nat
    var timestamp: int
    var is_observe: bool
    var is_separate_response: bool

    constructor (pdu: Message, now: int)
      ensures this.pdu == pdu && n_retransmit == 0 && timestamp == now && !is_observe && !is_separate_response
    {
      this.pdu, n_retransmit, timestamp, is_observe, is_separate_response := pdu, 0, now, false, false;
    }

    /** The connection as a sweep sees it. */
    ghost function Seen(): Waiting<Connection>
      reads this
    {
      Waiting(this, !is_observe && !is_separate_response, n_retransmit)
    }
  }

  /** A request a sweep can send: it has a token, and the buffer it is written to has room for its packet. */
  predicate Sendable(m: Message) {
    ValidMessage(m) && |m.options| < 0x100 && Lookup(m.options, TOKEN).Some? && Size(m) <= MAX_PACKET
  }

  /** What sending a message puts on the network. */
  function PacketOf(m: Message): seq<seq<byte>> {
    if Sendable(m) then [Encode(m, |m.options|)] else []
  }

  function Packets(sent: seq<Connection>): seq<seq<byte>> {
    if sent == [] then [] else Packets(sent[..|sent| - 1]) + PacketOf(sent[|sent| - 1].pdu)
  }

  lemma PacketsSnoc(sent: seq<Connection>, c: Connection)
    ensures Packets(sent + [c]) == Packets(sent) + PacketOf(c.pdu)
  {
    assert (sent + [c])[..|sent|] == sent;
  }

  /** A packet carries a message: the fields and the payload are where section 3.1 has them, its number of options is
    * that of the message, and it is read as the message wherever that is possible.
    */
  predicate Carries(packet: seq<byte>, m: Message) {
    && |packet| == 4 + WriteSize(m.options) + |m.payload| && packet[|packet| - |m.payload|..] == m.payload
    && (m.version < 4 && m.kind < 4 ==> packet[0] == 64 * m.version + 16 * m.kind + |m.options| % 16)
    && packet[1] == m.code && packet[2] as int + 256 * packet[3] as int == m.id
    && (Exact(m) ==> Read(packet) == Some(m))
  }

  lemma PacketCarries(m: Message)
    requires ValidMessage(m) && |m.options| < 0x100 && Lookup(m.options, 11).Some?
    requires 4 + WriteSize(m.options) + |m.payload| <= 1400
    ensures PacketOf(m) == [Encode(m, |m.options|)] && Carries(Encode(m, |m.options|), m)
  {
    hide Encode, Read, Exact, WriteSize, FirstByte;
    PacketLayout(m, |m.options|);
    if m.version < 4 && m.kind < 4 {
      FirstByteWhole(m.version, m.kind, |m.options|);
    }
    if Exact(m) {
      ExactIsRead(m);
    }
  }

  predicate AllSendable(sent: seq<Connection>) {
    forall k :: 0 <= k < |sent| ==> Sendable(sent[k].pdu)
  }

  /** One packet for each connection, in order, that carries its message. */
  lemma {:induction false} PacketsCarry(sent: seq<Connection>)
    requires AllSendable(sent)
    ensures |Packets(sent)| == |sent|
    ensures forall k :: 0 <= k < |sent| ==> Carries(Packets(sent)[k], sent[k].pdu)
  {
    hide Carries, PacketOf, ValidMessage, WriteSize, Lookup;
    if sent != [] {
      PacketsCarry(sent[..|sent| - 1]);
      PacketCarries(sent[|sent| - 1].pdu);
    }
  }

  /** What a sweep sends again is queued. */
  lemma {:induction false} SentIsQueued(queue: seq<Item<Waiting<Connection>>>)
    requires forall i :: 0 <= i < |queue| ==> Sendable(queue[i].data.conn.pdu)
    ensures AllSendable(ToSend(queue))
  {
    hide Sendable;
    if queue != [] {
      SentIsQueued(queue[1..]);
    }
  }

  /** `network` is `before`, and a packet for each connection of `sent`. */
  predicate Delivered(before: seq<seq<byte>>, network: seq<seq<byte>>, sent: seq<Connection>) {
    && |network| == |before| + |sent| && network[..|before|] == before
    && forall k :: 0 <= k < |sent| ==> Carries(network[|before| + k], sent[k].pdu)
  }

  lemma DeliveredThen(a: seq<seq<byte>>, b: seq<seq<byte>>, c: seq<seq<byte>>, first: seq<Connection>,
                      more: seq<Connection>)
    requires Delivered(a, b, first) && Delivered(b, c, more)
    ensures Delivered(a, c, first + more)
  {
    hide Carries;
    assert c[..|a|] == c[..|b|][..|a|];
    forall k | 0 <= k < |first + more|
      ensures Carries(c[|a| + k], (first + more)[k].pdu)
    {
      if k < |first| {
        assert c[|a| + k] == c[..|b|][|a| + k] == b[|a| + k];
      } else {
        assert c[|a| + k] == c[|b| + (k - |first|)];
      }
    }
  }

  lemma PacketsDelivered(before: seq<seq<byte>>, sent: seq<Connection>)
    requires AllSendable(sent)
    ensures Delivered(before, before + Packets(sent), sent)
  {
    hide Carries, Packets;
    PacketsCarry(sent);
  }

  /** Items of the same keys are found alike. */
  lemma {:induction false} SameKeys<A, B>(a: seq<Item<A>>, b: seq<Item<B>>, key: seq<byte>, n: nat, from: nat)
    requires |a| == |b| && from <= |a| && forall i :: 0 <= i < |a| ==> a[i].key == b[i].key
    ensures FirstMatch(a, key, n, from) == FirstMatch(b, key, n, from)
    decreases |a| - from
  {
    if from < |a| {
      SameKeys(a, b, key, n, from + 1);
    }
  }

  // ------------------------------------------------------------------ the nodes of a queue

  ghost function Data(nodes: seq<Node<Connection>>): set<Connection> {
    set i | 0 <= i < |nodes| :: nodes[i].data
  }

  ghost function QueueOf(nodes: seq<Node<Connection>>): (q: seq<Item<Waiting<Connection>>>)
    reads Data(nodes)
    ensures |q| == |nodes|
    ensures forall i :: 0 <= i < |nodes| ==> q[i] == Item(nodes[i].key, nodes[i].data.Seen())
  {
    seq(|nodes|, i requires 0 <= i < |nodes| reads Data(nodes) => Item(nodes[i].key, nodes[i].data.Seen()))
  }

  /** An entry is filed under its token, has been sent again at most four times, and was not stamped in the future. */
  ghost predicate Good(node: Node<Connection>, clock: int)
    reads node.data
  {
    && Sendable(node.data.pdu) && node.key == TokenOf(node.data.pdu)
    && node.data.n_retransmit <= MAX_RETRANSMIT && node.data.timestamp <= clock
  }

  ghost predicate AllGood(nodes: seq<Node<Connection>>, clock: int)
    reads Data(nodes)
  {
    forall i :: 0 <= i < |nodes| ==> Good(nodes[i], clock)
  }

  /** No connection is queued twice. */
  ghost predicate Once(nodes: seq<Node<Connection>>) {
    forall i, j :: 0 <= i < j < |nodes| ==> nodes[i].data != nodes[j].data
  }

  lemma WithoutNode(nodes: seq<Node<Connection>>, k: nat, clock: int)
    requires k < |nodes| && AllGood(nodes, clock) && Once(nodes)
    ensures AllGood(Skipping(nodes, k), clock) && Once(Skipping(nodes, k))
    ensures QueueOf(Skipping(nodes, k)) == Without(QueueOf(nodes), k)
    ensures Data(Skipping(nodes, k)) <= Data(nodes)
  {
    hide Good;
    var now := Skipping(nodes, k);
    assert forall i :: 0 <= i < |now| ==> now[i] == nodes[if i < k then i else i + 1];
  }

  lemma Later(nodes: seq<Node<Connection>>, before: int, clock: int)
    requires AllGood(nodes, before) && before <= clock
    ensures AllGood(nodes, clock)
  {
  }

  /** Those sent again were stamped no earlier than `since`; the others keep the stamp they had. */
  ghost predicate Stamps(sent: seq<Connection>, before: map<Connection, int>, since: int)
    reads before.Keys
  {
    forall c :: c in before ==> if c in sent then c.timestamp >= since else c.timestamp == before[c]
  }

  // The three cases of a turn.
  lemma TurnIdle(s: Sweeping<Connection>)
    requires s.at < |s.queue| && !s.queue[s.at].data.due
    ensures Turn(s) == s.(at := s.at + 1)
  {
  }

  lemma TurnResends(s: Sweeping<Connection>)
    requires s.at < |s.queue| && Resent(s.queue[s.at].data)
    ensures Turn(s) == Sweeping(s.queue[s.at := Again(s.queue[s.at])], s.at + 1, s.sent + [s.queue[s.at].data.conn],
                                s.dropped)
  {
  }

  lemma TurnRemoves(s: Sweeping<Connection>, nodes: seq<Node<Connection>>)
    requires s.at < |s.queue| && Expired(s.queue[s.at].data) && s.queue == QueueOf(nodes)
    ensures var key := s.queue[s.at].key;
      var k := FirstMatch(Items(nodes), key, |key|, 0);
      k <= s.at && Turn(s) == Sweeping(Without(s.queue, k), s.at, s.sent, s.dropped + [key])
  {
    hide FirstMatch;
    var key := s.queue[s.at].key;
    FirstFound(s.queue, s.at);
    SameKeys(s.queue, Items(nodes), key, |key|, 0);
  }

  class Client {
    const pending: List<Connection>
    /** The clock that `time` reads, what has been sent, and the tokens given to the callback. */
    var clock: int
    var network: seq<seq<byte>>
    var reported: seq<seq<byte>>

    ghost predicate Valid()
      reads this`clock, pending, pending.nodes, Data(pending.nodes)
    {
      pending.Valid() && !pending.ordered && Once(pending.nodes) && AllGood(pending.nodes, clock)
    }

    ghost function Queue(): seq<Item<Waiting<Connection>>>
      reads pending, Data(pending.nodes)
    {
      QueueOf(pending.nodes)
    }

    constructor (pending: List<Connection>, now: int)
      requires pending.Valid() && !pending.ordered && pending.nodes == []
      ensures Valid() && this.pending == pending && network == [] && reported == []
    {
      this.pending, clock, network, reported := pending, now, [], [];
    }

    /** `time`: the clock never runs back. */
    method Time() returns (now: int)
      requires Valid()
      modifies this`clock
      ensures now == clock >= old(clock) && Valid()
    {
      hide AllGood, Once, List.Valid;
      var passed :| 0 <= passed;
      clock := clock + passed;
      now := clock;
      assert forall c :: c in Data(pending.nodes) ==> unchanged(c);
      Later(pending.nodes, old(clock), clock);
    }

    /** The iterator is at the entry `s` is about to visit, and the queue is as `s` has it. */
    ghost predicate At(s: Sweeping<Connection>)
      reads pending, Data(pending.nodes)
    {
      && s.at < |s.queue| && s.queue == Queue()
      && pending.Iterating() && pending.position == s.at + 1 && pending.current == pending.nodes[s.at]
    }

    /** The entry has been dealt with, as `s` says, and the iterator can go on. */
    ghost predicate Past(s: Sweeping<Connection>)
      reads pending, Data(pending.nodes)
    {
      s.at <= |s.queue| && s.queue == Queue() && pending.Iterating() && pending.position == s.at
    }

    /** `coap_client_clean_pending` */
    method CleanPending()
      requires Valid()
      modifies this, pending, pending.nodes, Data(pending.nodes)`n_retransmit, Data(pending.nodes)`timestamp
      ensures Valid()
      ensures Queue() == Sweep(old(Queue())).queue
      ensures network == old(network) + Packets(Sweep(old(Queue())).sent)
      ensures Delivered(old(network), network, ToSend(old(Queue())))
      ensures reported == old(reported) + Sweep(old(Queue())).dropped == old(reported) + ToDrop(old(Queue()))
      ensures forall c :: c in old(Data(pending.nodes)) ==>
        if c in Sweep(old(Queue())).sent then c.timestamp >= old(clock) else c.timestamp == old(c.timestamp)
      ensures Data(pending.nodes) <= old(Data(pending.nodes))
      ensures forall i :: 0 <= i < |pending.nodes| ==> pending.nodes[i] in old(pending.nodes)
    {
      AllSent(network);
      CleanQueue();
      hide Valid, Queue, Sweep, Packets, Data, Delivered, ToSend, ToDrop;
    }

    /** The loop of `coap_client_clean_pending`. */
    method CleanQueue()
      requires Valid()
      modifies this, pending, pending.nodes, Data(pending.nodes)`n_retransmit, Data(pending.nodes)`timestamp
      ensures Valid()
      ensures Queue() == Sweep(old(Queue())).queue
      ensures network == old(network) + Packets(Sweep(old(Queue())).sent)
      ensures reported == old(reported) + Sweep(old(Queue())).dropped
      ensures forall c :: c in old(Data(pending.nodes)) ==>
        if c in Sweep(old(Queue())).sent then c.timestamp >= old(clock) else c.timestamp == old(c.timestamp)
      ensures Data(pending.nodes) <= old(Data(pending.nodes))
      ensures forall i :: 0 <= i < |pending.nodes| ==> pending.nodes[i] in old(pending.nodes)
    {
      hide Valid, Queue, Turn, Packets, Data, At, Past;
      ghost var start := Sweeping(Queue(), 0, [], []);
      ghost var s := start;
      ghost var before := map c | c in Data(pending.nodes) :: c.timestamp;
      var more := Begin(s, before, clock);
      assert old(network) + Packets([]) == old(network) by { NoPackets(); }
      while more
        invariant Valid() && s.at <= |s.queue| && Finish(s) == Finish(start)
        invariant if more then At(s) else s.at == |s.queue| && s.queue == Queue()
        invariant more ==> s.at < |s.queue|
        invariant Stamps(s.sent, before, old(clock)) && clock >= old(clock)
        invariant network == old(network) + Packets(s.sent) && reported == old(reported) + s.dropped
        invariant forall i :: 0 <= i < |pending.nodes| ==> pending.nodes[i] in old(pending.nodes)
        invariant Data(pending.nodes) <= old(Data(pending.nodes))
        decreases |s.queue| - s.at
      {
        Visit(s, old(network), old(reported), before, old(clock));
        s := Turn(s);
        more := Advance(s, before, old(clock));
      }
    }

    /** What a sweep is going to do, if it does what it should. */
    lemma AllSent(before: seq<seq<byte>>)
      requires Valid()
      ensures Sweep(Queue()).dropped == ToDrop(Queue())
      ensures Delivered(before, before + Packets(Sweep(Queue()).sent), ToSend(Queue()))
    {
      hide Delivered, Packets, Finish, ToSend, ToDrop, Sendable, TokenOf;
      var start := Sweeping(Queue(), 0, [], []);
      EveryEntryOnce(start);
      assert Queue()[0..] == Queue() && [] + ToSend(Queue()) == ToSend(Queue()) &&
          [] + ToDrop(Queue()) == ToDrop(Queue());
      assert forall i :: 0 <= i < |Queue()| ==> Good(pending.nodes[i], clock);
      SentIsQueued(Queue());
      PacketsDelivered(before, ToSend(Queue()));
    }

    lemma NoPackets()
      ensures Packets([]) == []
    {
    }

    method Begin(ghost s: Sweeping<Connection>, ghost before: map<Connection, int>, ghost since: int)
      returns (more: bool)
      requires Stamps(s.sent, before, since)
      requires Valid() && s.queue == Queue() && s.at == 0
      modifies pending`current, pending`upcoming, pending`position
      ensures Valid() && s.queue == Queue()
      ensures Stamps(s.sent, before, since)
      ensures if more then s.at < |s.queue| && At(s) else s.at == |s.queue|
    {
      hide AllGood, Once, List.Valid;
      more := pending.First();
      assert forall c :: c in before ==> unchanged(c);
      assert forall c :: c in Data(pending.nodes) ==> unchanged(c);
    }

    method Advance(ghost s: Sweeping<Connection>, ghost before: map<Connection, int>, ghost since: int)
      returns (more: bool)
      requires Stamps(s.sent, before, since)
      requires Valid() && Past(s)
      modifies pending`current, pending`upcoming, pending`position
      ensures Valid() && s.queue == Queue()
      ensures Stamps(s.sent, before, since)
      ensures if more then s.at < |s.queue| && At(s) else s.at == |s.queue|
    {
      hide AllGood, Once, List.Valid;
      more := pending.Next();
      assert forall c :: c in before ==> unchanged(c);
      assert forall c :: c in Data(pending.nodes) ==> unchanged(c);
    }

    /** An expired request is reported and deleted, by token. */
    method Remove(conn: Connection, ghost s: Sweeping<Connection>)
      requires Valid() && At(s) && conn == pending.nodes[s.at].data && Expired(conn.Seen())
      modifies this`reported, pending`first, pending`nodes, pending`position, pending.nodes
      ensures Valid() && Past(Turn(s)) && Data(pending.nodes) <= old(Data(pending.nodes))
      ensures Turn(s).sent == s.sent && Turn(s).dropped == s.dropped + [TokenOf(conn.pdu)]
      ensures reported == old(reported) + [TokenOf(conn.pdu)]
      ensures forall i :: 0 <= i < |pending.nodes| ==> pending.nodes[i] in old(pending.nodes)
    {
      hide FirstMatch, Deleted, Without, List.Valid, TokenOf, AllGood, Once, Turn, Skipping, Items, Begins, Match,
          Chained;
      assert s.queue[s.at].key == TokenOf(conn.pdu) by { FiledUnderToken(s.at); }
      TurnRemoves(s, pending.nodes);
      var token := TokenOf(conn.pdu);
      WithoutNode(pending.nodes, FirstMatch(Items(pending.nodes), token, |token|, 0), clock);
      reported := reported + [token];
      var _ := pending.Delete(token, |token|);
      assert forall c :: c in old(Data(pending.nodes)) ==> unchanged(c);
    }

    lemma FiledUnderToken(at: nat)
      requires AllGood(pending.nodes, clock) && at < |pending.nodes|
      ensures Queue()[at].key == TokenOf(pending.nodes[at].data.pdu)
    {
    }

    /** A due request is counted, stamped and sent again. */
    method Resend(conn: Connection, ghost s: Sweeping<Connection>)
      requires Valid() && At(s) && conn == pending.nodes[s.at].data && Resent(conn.Seen())
      modifies this`clock, this`network, conn`n_retransmit, conn`timestamp
      ensures Valid() && Past(Turn(s))
      ensures Turn(s).sent == s.sent + [conn] && Turn(s).dropped == s.dropped
      ensures network == old(network) + PacketOf(conn.pdu)
      ensures conn.timestamp == clock >= old(clock)
    {
      hide Turn, Valid, PacketOf;
      TurnResends(s);
      var now := Time();
      Stamp(conn, now, s.at);
      Send(conn);
    }

    /** `coap_context_send`, as far as it goes here. */
    method Send(conn: Connection)
      requires Valid()
      modifies this`network
      ensures Valid() && network == old(network) + PacketOf(conn.pdu)
    {
      hide AllGood, Once, List.Valid, PacketOf;
      network := network + PacketOf(conn.pdu);
      assert forall c :: c in Data(pending.nodes) ==> unchanged(c);
    }

    method Stamp(conn: Connection, now: int, ghost at: nat)
      requires Valid() && now == clock
      requires at < |pending.nodes| && conn == pending.nodes[at].data && conn.n_retransmit < MAX_RETRANSMIT
      modifies conn`n_retransmit, conn`timestamp
      ensures conn.timestamp == now
      ensures Valid() && Queue() == old(Queue())[at := Again(old(Queue())[at])]
    {
      hide TokenOf, Sendable, List.Valid;
      conn.timestamp := now;
      conn.n_retransmit := conn.n_retransmit + 1;
      forall i | 0 <= i < |pending.nodes|
        ensures Queue()[i] == old(Queue())[at := Again(old(Queue())[at])][i] && Good(pending.nodes[i], clock)
      {
        assert i != at ==> pending.nodes[i].data != conn;
        assert old(Good(pending.nodes[i], clock));
      }
    }

    /** The body of the loop. */
    method Visit(ghost s: Sweeping<Connection>, ghost network0: seq<seq<byte>>, ghost reported0: seq<seq<byte>>,
                 ghost before: map<Connection, int>, ghost since: int)
      requires Valid() && At(s)
      requires Data(pending.nodes) <= before.Keys && Stamps(s.sent, before, since) && clock >= since
      requires network == network0 + Packets(s.sent) && reported == reported0 + s.dropped
      modifies this, pending, pending.nodes, Data(pending.nodes)`n_retransmit, Data(pending.nodes)`timestamp
      ensures Valid() && Past(Turn(s)) && Data(pending.nodes) <= old(Data(pending.nodes))
      ensures Stamps(Turn(s).sent, before, since) && clock >= since
      ensures network == network0 + Packets(Turn(s).sent) && reported == reported0 + Turn(s).dropped
      ensures forall i :: 0 <= i < |pending.nodes| ==> pending.nodes[i] in old(pending.nodes)
    {
      hide Turn, Valid, PacketOf, Packets, Data;
      var conn := pending.This().data;
      Stamped(s.at);
      if !conn.is_observe && !conn.is_separate_response {
        var now := Time();
        if now - conn.timestamp + (conn.n_retransmit + 1) * 1000 >= 0 {
          if conn.n_retransmit + 1 > MAX_RETRANSMIT {
            Remove(conn, s);
          } else {
            PacketsSnoc(s.sent, conn);
            Resend(conn, s);
          }
        }
      } else {
        TurnIdle(s);
      }
    }

    lemma Stamped(at: nat)
      requires Valid() && at < |pending.nodes|
      ensures pending.nodes[at].data.timestamp <= clock && pending.nodes[at].data in Data(pending.nodes)
    {
    }

    // ---------------------------------------------------------------- many sweeps

    /** `n` sweeps with no traffic between them, with tokens none of which begins another: the queue, the packets
      * and the reports of the whole run are known in advance.
      */
    method CleanTimes(n: nat)
      requires Valid() && Separate(Queue())
      modifies this, pending, pending.nodes, Data(pending.nodes)`n_retransmit, Data(pending.nodes)`timestamp
      ensures Valid() && Queue() == Survivors(old(Queue()), n)
      ensures network == old(network) + AllPackets(old(Queue()), n)
      ensures Delivered(old(network), network, SentBy(old(Queue()), n))
      ensures reported == old(reported) + AllReports(old(Queue()), n)
    {
      hide Valid, Queue, Separate, Survivors, Sweep, Packets, SentIn, DroppedIn, Data, Carries, ToSend, ToDrop;
      ghost var queue := Queue();
      AllCounted();
      NoneGone(queue);
      var k := 0;
      while k < n
        invariant k <= n && Valid() && Queue() == Survivors(queue, k)
        invariant Delivered(old(network), network, SentBy(queue, k))
        invariant network == old(network) + AllPackets(queue, k) && reported == old(reported) + AllReports(queue, k)
        invariant forall i :: 0 <= i < |pending.nodes| ==> pending.nodes[i] in old(pending.nodes)
        invariant Data(pending.nodes) <= old(Data(pending.nodes))
      {
        OneSweep(queue, k);
        NextSweep(queue, k);
        ghost var sofar := network;
        CleanPending();
        DeliveredThen(old(network), sofar, network, SentBy(queue, k), SentIn(queue, k + 1));
        k := k + 1;
      }
    }

    /** A fresh request that is due and alone in the queue: five sweeps send four packets that carry it, report it once,
      * and leave the queue empty.
      */
    method Abandon(ghost conn: Connection)
      requires Valid() && Queue() == [Item(TokenOf(conn.pdu), Waiting(conn, true, 0))]
      modifies this, pending, pending.nodes, Data(pending.nodes)`n_retransmit, Data(pending.nodes)`timestamp
      ensures Valid() && Queue() == []
      ensures Delivered(old(network), network, [conn, conn, conn, conn]) && |network| == |old(network)| + 4
      ensures reported == old(reported) + [TokenOf(conn.pdu)]
    {
      OneAbandoned(TokenOf(conn.pdu), conn);
      CleanTimes(5);
      hide Valid, Queue, Data, Carries, SentBy, AllReports, TokenOf, Survivors;
    }

    lemma AllCounted()
      requires Valid()
      ensures SweepSpec.Counted(Queue())
    {
    }
  }

  /** The connections that `n` sweeps send again. */
  function SentBy(queue: seq<Item<Waiting<Connection>>>, n: nat): seq<Connection> {
    if n == 0 then [] else SentBy(queue, n - 1) + SentIn(queue, n)
  }

  lemma OneSent(key: seq<byte>, conn: Connection, n: nat)
    requires n >= 1
    ensures var queue := [Item(key, Waiting(conn, true, 0))];
      && SentIn(queue, n) == (if n <= 4 then [conn] else []) && DroppedIn(queue, n) == (if n == 5 then [key] else [])
      && Survivors(queue, n) == if n <= 4 then [Item(key, Waiting(conn, true, n))] else []
  {
    var queue := [Item(key, Waiting(conn, true, 0))];
    assert queue[1..] == [];
  }

  lemma {:induction false} OneSentBy(key: seq<byte>, conn: Connection, n: nat)
    ensures var queue := [Item(key, Waiting(conn, true, 0))];
      && |SentBy(queue, n)| == (if n <= 4 then n else 4)
      && (forall k :: 0 <= k < |SentBy(queue, n)| ==> SentBy(queue, n)[k] == conn)
      && AllReports(queue, n) == if n < 5 then [] else [key]
  {
    hide SentIn, DroppedIn;
    if n > 0 {
      OneSent(key, conn, n);
      OneSentBy(key, conn, n - 1);
    }
  }

  lemma OneAbandoned(key: seq<byte>, conn: Connection)
    ensures var queue := [Item(key, Waiting(conn, true, 0))];
      && SweepSpec.Separate(queue) && Survivors(queue, 5) == []
      && SentBy(queue, 5) == [conn, conn, conn, conn] && AllReports(queue, 5) == [key]
  {
    OneSent(key, conn, 5);
    OneSentBy(key, conn, 5);
    hide SentBy, AllReports, Survivors;
  }

  /** In any queue of tokens none of which begins another, a fresh request that is due is sent by `n` sweeps as often as
    * there are sweeps, up to four times, and reported once if there are five.
    */
  lemma {:induction false} SentFourTimes(queue: seq<Item<Waiting<Connection>>>, i: nat, n: nat)
    requires SweepSpec.Separate(queue) && i < |queue| && queue[i].data.due && queue[i].data.tries == 0
    ensures multiset(SentBy(queue, n))[queue[i].data.conn] == if n <= 4 then n else 4
    ensures multiset(AllReports(queue, n))[queue[i].key] == if n < 5 then 0 else 1
  {
    hide SentIn, DroppedIn, SweepSpec.Separate;
    if n > 0 {
      SentFourTimes(queue, i, n - 1);
      FreshEntry(queue, i, n);
    }
  }

  function AllPackets(queue: seq<Item<Waiting<Connection>>>, n: nat): seq<seq<byte>> {
    if n == 0 then [] else AllPackets(queue, n - 1) + Packets(SentIn(queue, n))
  }

  function AllReports(queue: seq<Item<Waiting<Connection>>>, n: nat): seq<seq<byte>> {
    if n == 0 then [] else AllReports(queue, n - 1) + DroppedIn(queue, n)
  }
}
