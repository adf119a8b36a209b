/** The cache proper: requests are hashed as they lie in memory, responses are stored as packets. */
module CoapCache {
  import opened Basics
  import opened CoapList
  import opened CoapPdu
  import opened PduSpec
  import opened PduTheorems
  import opened Md5
  import Md5Spec
  import opened CacheSpec

  lemma BitsAppend(a: seq<byte>, b: seq<byte>)
    ensures Bits(a + b) == Bits(a) + Bits(b)
  {
  }

  /** `coap_hash` */
  method Hash(pdu: Pdu) returns (digest: seq<bv8>)
    requires pdu.Valid()
    modifies pdu.opt_list`current, pdu.opt_list`upcoming, pdu.opt_list`position
    ensures pdu.Valid() && digest == Key(pdu.Image())
  {
    hide Pdu.Valid, Context.Valid, Md5Spec.Digest, Bits, Hashed;
    var context := new Context();
    HashHeader(context, pdu.version, pdu.kind, pdu.code);
    BitsAppend([pdu.version, pdu.kind, pdu.code], Hashed(pdu.options));
    HashOptions(pdu, context);
    context.Final();
    digest := context.digest[..];
  }

  /** The three header fields that go into the key. */
  method HashHeader(context: Context, version: byte, kind: byte, code: byte)
    requires context.Valid() && context.message == []
    modifies context, context.buf, context.input
    ensures context.Valid() && context.message == Bits([version, kind, code])
  {
    hide Context.Valid, Bits;
    context.Update([version as bv8]);
    context.Update([kind as bv8]);
    context.Update([code as bv8]);
    ThreeBits(version, kind, code);
  }

  lemma ThreeBits(a: byte, b: byte, c: byte)
    ensures [a as bv8] + [b as bv8] + [c as bv8] == Bits([a, b, c])
  {
  }

  /** The loop over the options. */
  method HashOptions(pdu: Pdu, context: Context)
    requires pdu.Valid() && context.Valid()
    modifies pdu.opt_list`current, pdu.opt_list`upcoming, pdu.opt_list`position
    modifies context, context.buf, context.input
    ensures pdu.Valid() && context.Valid()
    ensures context.message == old(context.message) + Bits(Hashed(pdu.options))
  {
    hide Pdu.Filed, Ascending, ValidOptions, Context.Valid, Bits, Hashed, Ignored;
    ghost var k := 0;
    ghost var done: seq<byte> := [];
    StartHashing(pdu.options, context.message);
    var more := pdu.FirstOption();
    while more
      invariant pdu.Valid() && context.Valid() && pdu.Visiting(k, more)
      invariant context.message == old(context.message) + Bits(done)
      invariant Hashed(pdu.options) == done + Hashed(pdu.options[k..])
      decreases |pdu.options| - k
    {
      var opt := pdu.opt_list.This().data;
      OneHashed(pdu.options, k, done, old(context.message));
      if !Ignored(opt.code) {
        context.Update([opt.code as bv8]);
        context.Update(Bits(opt.data));
        done := done + ([opt.code] + opt.data);
      }
      more := pdu.NextOption(k);
      k := k + 1;
    }
    EndHashing(pdu.options, k, done);
  }

  lemma StartHashing(os: seq<CoapOption>, m: seq<bv8>)
    ensures Hashed(os) == [] + Hashed(os[0..]) && m + Bits([]) == m
  {
    assert os[0..] == os;
  }

  lemma EndHashing(os: seq<CoapOption>, k: nat, done: seq<byte>)
    requires k == |os|
    ensures done + Hashed(os[k..]) == done
  {
  }

  lemma OneHashed(os: seq<CoapOption>, k: nat, done: seq<byte>, m: seq<bv8>)
    requires k < |os| && ValidOptions(os)
    ensures |os[k].data| <= MAX_OPTION
    ensures Ignored(os[k].code) ==> Hashed(os[k..]) == Hashed(os[k + 1..])
    ensures !Ignored(os[k].code) ==>
      && done + Hashed(os[k..]) == (done + ([os[k].code] + os[k].data)) + Hashed(os[k + 1..])
      && m + Bits(done) + [os[k].code as bv8] + Bits(os[k].data) == m + Bits(done + ([os[k].code] + os[k].data))
  {
    hide Bits, Ignored;
    assert os[k] in os;
    assert os[k..][1..] == os[k + 1..];
    if !Ignored(os[k].code) {
      var piece := [os[k].code] + os[k].data;
      assert Hashed(os[k..]) == piece + Hashed(os[k + 1..]);
      Associate(done, piece, Hashed(os[k + 1..]));
      PieceBits(m, done, os[k].code, os[k].data);
    }
  }

  lemma PieceBits(m: seq<bv8>, done: seq<byte>, code: byte, data: seq<byte>)
    ensures m + Bits(done) + [code as bv8] + Bits(data) == m + Bits(done + ([code] + data))
  {
    BitsAppend(done, [code] + data);
    BitsAppend([code], data);
    assert Bits([code]) == [code as bv8];
  }

  /** The reader stays inside the packet field. */
  predicate Readable(s: Stored) {
    s.packet_len <= |s.packet| && Reach(s.packet, s.packet_len) <= |s.packet|
  }

  /** So it does for every response that meets the conditions of the round trip. */
  lemma LastingIsReadable(r: Response)
    requires ValidResponse(r) && Lasts(r)
    ensures Readable(Entry(r))
  {
    hide Read, Entry, Lasts, Reach;
    EntryDecoded(r);
    ReaderStaysInside(Entry(r).packet, Entry(r).packet_len);
  }

  /** What `coap_cache_add` stores for a response. */
  ghost function ResponseOf(request: Pdu, response: Pdu): Response
    requires response.payload_len <= response.payload.Length
    reads request, response, response.payload
  {
    Response(response.Image(), response.optcnt, response.timestamp, request.addr)
  }

  class Cache {
    var db: Database

    constructor ()
      ensures db == map[]
    {
      db := map[];
    }

    /** `coap_cache_add`, of a response whose packet the cache entry has room for. */
    method Add(request: Pdu, response: Pdu) returns (ok: bool)
      requires request.Valid() && response.Valid() && request.opt_list != response.opt_list
      requires Size(response.Image()) <= MAX_PACKET
      modifies this, request.opt_list`current, request.opt_list`upcoming, request.opt_list`position
      modifies response.opt_list`current, response.opt_list`upcoming, response.opt_list`position
      ensures request.Valid() && response.Valid()
      ensures ok == (Key(request.Image()) !in old(db))
      ensures db == Step(old(db), CacheSpec.Add(request.Image(), ResponseOf(request, response)))
    {
      hide Pdu.Filed, Ascending, ValidOptions, Key, Size, Encode;
      var index := Hash(request);
      var packet := new byte[MAX_PACKET](_ => 0);
      WriterStaysInside(response.Image());
      var written, packet_len := response.PacketWrite(packet);
      EncodedLength(response.Image(), response.optcnt);
      ok := index !in db;
      if ok {
        db := db[index := Stored(response.timestamp, packet[..], packet_len, request.addr)];
        assert packet[packet_len..] == seq(MAX_PACKET - packet_len, _ => 0);
        assert packet[..] == packet[..packet_len] + packet[packet_len..];
      }
    }

    /** `coap_cache_get`. If what is stored is a bad packet, the message is whatever the reader left of it. */
    method Get(request: Pdu, now: int) returns (pdu: Option<Pdu>)
      requires request.Valid()
      requires Key(request.Image()) in db ==> Readable(db[Key(request.Image())])
      modifies request.opt_list`current, request.opt_list`upcoming, request.opt_list`position
      ensures request.Valid() && pdu.Some? == (Key(request.Image()) in db)
      ensures pdu.Some? ==> pdu.value.Valid() && fresh(pdu.value) && fresh(pdu.value.opt_list)
      ensures pdu.Some? ==> var s := db[Key(request.Image())];
        && pdu.value.timestamp == s.timestamp && pdu.value.addr == s.addr
        && (Decoded(s).Some? ==>
            pdu.value.Image() == Decoded(s).value.message && pdu.value.optcnt == |pdu.value.options|)
    {
      hide Pdu.Filed, Ascending, ValidOptions, Key, Read;
      var index := Hash(request);
      if index !in db {
        return None;
      }
      var data := db[index];
      var p := new Pdu(now);
      var _ := p.PacketRead(data.packet, data.packet_len, now);
      p.timestamp := data.timestamp;
      p.addr := data.addr;
      pdu := Some(p);
    }

    /** `coap_cache_delete` */
    method Delete(pdu: Pdu)
      requires pdu.Valid()
      modifies this, pdu.opt_list`current, pdu.opt_list`upcoming, pdu.opt_list`position
      ensures pdu.Valid() && db == Step(old(db), CacheSpec.Delete(pdu.Image()))
    {
      var digest := Hash(pdu);
      db := db - {digest};
    }
  }
}
