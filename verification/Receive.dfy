/** The receiving side of the transport: bytes in any pieces, messages out. */
module Receive {
  import opened Basics
  import opened Framing

  /** How far ahead of the data the receive buffer may be allocated. */
  const AHEAD := 256 * 1024

  /** Payload hash; the first four bytes are the checksum in a header. */
  type Hasher = seq<byte> -> seq<byte>

  function Filler(n: nat): (r: seq<byte>)
    ensures |r| == n
  {
    seq(n, i => 0)
  }

  /** A message as handed to the process queue. */
  datatype NetMessage = NetMessage(
    command: seq<byte>, payload: seq<byte>, messageSize: nat, rawSize: nat,
    validMagic: bool, validHeader: bool, validChecksum: bool)

  function FirstFour(digest: seq<byte>): seq<byte> { if |digest| >= 4 then digest[..4] else digest }

  predicate ChecksumHolds(hash: Hasher, payload: seq<byte>, header: seq<byte>)
    requires |header| == HEADER_SIZE
  {
    header[CHECKSUM_OFFSET..] == FirstFour(hash(payload))
  }

  /** What is to be handed out for a message, on a network with the given start bytes. */
  ghost function Judge(hash: Hasher, start: seq<byte>, m: Message): NetMessage
    requires |m.header| == HEADER_SIZE
  {
    NetMessage(
      UpToZero(CommandIn(m.header)), m.payload, SizeIn(m.header), SizeIn(m.header) + HEADER_SIZE,
      StartIn(m.header) == start,
      StartIn(m.header) == start && ProperCommand(CommandIn(m.header)) && SizeIn(m.header) <= MAX_SIZE,
      ChecksumHolds(hash, m.payload, m.header))
  }

  /** The verdicts, byte by byte: the first four bytes are the network's, the command is printable up to the first zero
      and zero from there, the size is within the limit, and the last four bytes are the first of the hash. */
  lemma JudgeIs(hash: Hasher, start: seq<byte>, m: Message)
    requires |m.header| == HEADER_SIZE
    ensures var h, r := m.header, Judge(hash, start, m);
      && r.payload == m.payload && r.command <= h[4..16] && (|r.command| < 12 ==> h[4 + |r.command|] == 0)
      && (forall i :: 0 <= i < |r.command| ==> r.command[i] != 0)
      && r.messageSize == h[16] as int + 256 * (h[17] as int) + 65536 * (h[18] as int) + 16777216 * (h[19] as int)
      && r.rawSize == r.messageSize + 24
      && (r.validMagic <==> h[..4] == start)
      && (r.validChecksum <==> h[20..24] == FirstFour(hash(m.payload)))
      && (r.validHeader <==>
            && h[..4] == start && r.messageSize <= 0x0200_0000
            && (forall i :: 0 <= i < |r.command| ==> 0x20 <= r.command[i] <= 0x7e)
            && (forall i :: 4 + |r.command| <= i < 16 ==> h[i] == 0))
  {
    hide UpToZero; hide FirstFour;
    var h, r := m.header, Judge(hash, start, m);
    assert h[20..24] == h[20..];
    var c := h[4..16];
    assert forall i :: 0 <= i < 12 ==> c[i] == h[4 + i];
    assert forall i :: 4 <= i < 16 ==> h[i] == c[i - 4];
    assert forall i :: 0 <= i < |r.command| ==> r.command[i] == c[i];
  }

  class V1TransportDeserializer {
    const hash: Hasher
    var inData: bool
    var hdrbuf: seq<byte>
    var hdr: seq<byte>
    var vRecv: seq<byte>
    var nHdrPos: nat
    var nDataPos: nat
    var hashed: seq<byte>   // what the running hash has been given

    constructor (h: Hasher)
      ensures hash == h && Valid() && Pending() == []
    {
      hash := h;
      inData, hdrbuf, hdr, vRecv, nHdrPos, nDataPos, hashed := false, Filler(HEADER_SIZE), [], [], 0, 0, [];
    }

    /** Between reads: part of a header, or a header with part of its payload and a buffer not too far ahead of it. */
    ghost predicate Valid()
      reads this
    {
      if !inData then
        |hdrbuf| == HEADER_SIZE && nHdrPos < HEADER_SIZE && nDataPos == 0 && vRecv == [] && hashed == []
      else
        && |hdr| == HEADER_SIZE && nHdrPos == HEADER_SIZE && !TooLarge(SizeIn(hdr))
        && nDataPos <= |vRecv| <= Min(SizeIn(hdr), nDataPos + AHEAD) && hashed == vRecv[..nDataPos]
    }

    /** The bytes taken in since the last message. */
    ghost function Pending(): seq<byte>
      reads this
      requires Valid()
    {
      if inData then hdr + vRecv[..nDataPos] else hdrbuf[..nHdrPos]
    }

    /** Without a complete message the pending bytes hold none. */
    lemma PendingPartial()
      requires Valid() && !Complete()
      ensures Parse(Pending()) == Reading([], Pending(), false)
    {
      hide SizeIn; hide TooLarge;
      if inData { ParsePartial(hdr, vRecv[..nDataPos]); }
    }

    predicate Complete()
      reads this
      requires Valid()
    {
      inData && SizeIn(hdr) == nDataPos
    }

    method Reset()
      modifies this
      ensures Valid() && Pending() == []
    {
      vRecv, hdrbuf, inData, nHdrPos, nDataPos, hashed := [], Filler(HEADER_SIZE), false, 0, 0, [];
    }

    /** `readHeader`: -1 for a header that announces too much. */
    method ReadHeader(pch: seq<byte>) returns (handled: int)
      requires Valid() && !inData && pch != []
      modifies this
      ensures handled >= 0 ==> Valid() && 0 < handled <= |pch| && Pending() == old(Pending()) + pch[..handled]
      ensures handled < 0 ==>
        exists n :: 0 <= n <= |pch| && |old(Pending()) + pch[..n]| == HEADER_SIZE &&
          TooLarge(SizeIn(old(Pending()) + pch[..n]))
    {
      hide SizeIn; hide TooLarge;
      var nCopy := Min(HEADER_SIZE - nHdrPos, |pch|);
      ghost var before := hdrbuf[..nHdrPos];
      hdrbuf := hdrbuf[..nHdrPos] + pch[..nCopy] + hdrbuf[nHdrPos + nCopy..];
      nHdrPos := nHdrPos + nCopy;
      assert hdrbuf[..nHdrPos] == before + pch[..nCopy];
      if nHdrPos < HEADER_SIZE { return nCopy; }
      hdr := hdrbuf;
      hdrbuf := [];
      assert hdr == before + pch[..nCopy];
      if TooLarge(SizeIn(hdr)) { return -1; }
      inData := true;
      return nCopy;
    }

    /** `readData`. */
    method ReadData(pch: seq<byte>) returns (handled: int)
      requires Valid() && inData && !Complete() && pch != []
      modifies this
      ensures Valid() && 0 < handled <= |pch| && Pending() == old(Pending()) + pch[..handled]
    {
      hide SizeIn; hide TooLarge;
      var nCopy := Min(SizeIn(hdr) - nDataPos, |pch|);
      ghost var before := vRecv[..nDataPos];
      if |vRecv| < nDataPos + nCopy {
        var n := Min(SizeIn(hdr), nDataPos + nCopy + AHEAD);
        vRecv := vRecv + Filler(n - |vRecv|);
      }
      assert vRecv[..nDataPos] == before;
      hashed := hashed + pch[..nCopy];
      vRecv := vRecv[..nDataPos] + pch[..nCopy] + vRecv[nDataPos + nCopy..];
      nDataPos := nDataPos + nCopy;
      assert vRecv[..nDataPos] == before + pch[..nCopy];
      return nCopy;
    }

    /** `Read`: always takes something, or fails for good on an oversized header. */
    method Read(pch: seq<byte>) returns (handled: int)
      requires Valid() && !Complete() && pch != []
      modifies this
      ensures Valid()
      ensures handled >= 0 ==> 0 < handled <= |pch| && Pending() == old(Pending()) + pch[..handled]
      ensures handled < 0 ==>
        Pending() == [] && Parse(old(Pending()) + pch).bad && Parse(old(Pending()) + pch).messages == []
    {
      hide SizeIn; hide TooLarge; hide Parse;
      if inData {
        handled := ReadData(pch);
      } else {
        ghost var before := Pending();
        handled := ReadHeader(pch);
        if handled < 0 {
          ghost var n :| 0 <= n <= |pch| && |before + pch[..n]| == HEADER_SIZE && TooLarge(SizeIn(before + pch[..n]));
          ParseTooLarge(before + pch[..n], pch[n..]);
          assert before + pch == before + pch[..n] + pch[n..];
          Reset();
        }
      }
    }

    /** `GetMessage`: hands the payload out and starts over. */
    method GetMessage(start: seq<byte>) returns (msg: NetMessage)
      requires Valid() && Complete()
      modifies this
      ensures Valid() && Pending() == []
      ensures |old(hdr)| == HEADER_SIZE && old(Pending()) == old(hdr) + old(vRecv)
      ensures |old(vRecv)| == SizeIn(old(hdr)) && !TooLarge(SizeIn(old(hdr)))
      ensures msg == Judge(hash, start, Message(old(hdr), old(vRecv)))
    {
      hide SizeIn; hide TooLarge; hide ChecksumHolds; hide UpToZero; hide ProperCommand;
      assert vRecv[..nDataPos] == vRecv;
      var validHeader := IsValid(hdr, start);
      msg := NetMessage(UpToZero(CommandIn(hdr)), vRecv, SizeIn(hdr), SizeIn(hdr) + HEADER_SIZE,
                        StartIn(hdr) == start, validHeader, ChecksumHolds(hash, hashed, hdr));
      Reset();
    }
  }

  predicate Headed(ms: seq<Message>) { forall i :: 0 <= i < |ms| ==> |ms[i].header| == HEADER_SIZE }

  /** The queue holds exactly the given messages, judged. */
  ghost predicate Delivers(hash: Hasher, start: seq<byte>, ms: seq<Message>, got: seq<NetMessage>) {
    Headed(ms) && |got| == |ms| && forall i :: 0 <= i < |ms| ==> got[i] == Judge(hash, start, ms[i])
  }

  lemma DeliversAppend(hash: Hasher, start: seq<byte>, a: seq<Message>, b: seq<Message>,
                       x: seq<NetMessage>, y: seq<NetMessage>)
    requires Delivers(hash, start, a, x) && Delivers(hash, start, b, y)
    ensures Delivers(hash, start, a + b, x + y)
  {
    hide Judge;
  }

  lemma DeliversOne(hash: Hasher, start: seq<byte>, ms: seq<Message>, m: Message,
                    got: seq<NetMessage>, msg: NetMessage)
    requires Delivers(hash, start, ms, got) && |m.header| == HEADER_SIZE && msg == Judge(hash, start, m)
    ensures Delivers(hash, start, ms + [m], got + [msg])
  {
    hide Judge;
  }

  /** The receiving part of a peer. */
  class Peer {
    const deserializer: V1TransportDeserializer
    const messageStart: seq<byte>
    var vRecvMsg: seq<NetMessage>

    constructor (hash: Hasher, start: seq<byte>)
      ensures fresh(deserializer) && deserializer.hash == hash && messageStart == start
      ensures Ready() && deserializer.Pending() == [] && vRecvMsg == []
    {
      deserializer := new V1TransportDeserializer(hash);
      messageStart := start;
      vRecvMsg := [];
    }

    ghost predicate Ready()
      reads deserializer
    {
      deserializer.Valid() && !deserializer.Complete()
    }

    /**
     * `ReceiveMsgBytes`: delivers exactly the messages that the simple reading finds in the pending bytes followed
     * by the new ones; false at an oversized header, after which nothing is pending.
     */
    method ReceiveMsgBytes(bytes: seq<byte>) returns (ok: bool, complete: bool, ghost added: seq<NetMessage>)
      requires Ready()
      modifies this`vRecvMsg, deserializer
      ensures Ready() && vRecvMsg == old(vRecvMsg) + added
      ensures Delivers(deserializer.hash, messageStart, Parse(old(deserializer.Pending()) + bytes).messages, added)
      ensures ok <==> !Parse(old(deserializer.Pending()) + bytes).bad
      ensures complete <==> added != []
      ensures deserializer.Pending() == if ok then Parse(old(deserializer.Pending()) + bytes).rest else []
    {
      hide Parse; hide Delivers; hide Continues;
      complete, added := false, [];
      var pch := bytes;
      ghost var total := deserializer.Pending() + bytes;
      ghost var found: seq<Message> := [];
      NoneFound(deserializer.hash, messageStart, total);
      while pch != []
        invariant Ready() && vRecvMsg == old(vRecvMsg) + added && (complete <==> added != [])
        invariant Delivers(deserializer.hash, messageStart, found, added) &&
          Continues(found, deserializer.Pending() + pch, total)
        decreases |pch|
      {
        ghost var left := deserializer.Pending() + pch;
        var handled := deserializer.Read(pch);
        if handled < 0 {
          ContinuesEnd(found, left, total);
          return false, complete, added;
        }
        assert left == deserializer.Pending() + pch[handled..];
        pch := pch[handled..];
        if deserializer.Complete() {
          ghost var m;
          var msg;
          m, msg := Deliver(found, added, pch, total);
          found, added := found + [m], added + [msg];
          complete := true;
        }
      }
      deserializer.PendingPartial();
      assert deserializer.Pending() + [] == deserializer.Pending();
      ContinuesEnd(found, deserializer.Pending(), total);
      return true, complete, added;
    }

    /** Queues the completed message. */
    method Deliver(ghost found: seq<Message>, ghost added: seq<NetMessage>, ghost tail: seq<byte>,
                   ghost total: seq<byte>)
      returns (ghost m: Message, msg: NetMessage)
      requires deserializer.Valid() && deserializer.Complete()
      requires Delivers(deserializer.hash, messageStart, found, added) &&
        Continues(found, deserializer.Pending() + tail, total)
      modifies this`vRecvMsg, deserializer
      ensures Ready() && deserializer.Pending() == [] && vRecvMsg == old(vRecvMsg) + [msg]
      ensures Delivers(deserializer.hash, messageStart, found + [m], added + [msg]) &&
        Continues(found + [m], deserializer.Pending() + tail, total)
    {
      hide Parse; hide Delivers; hide Continues; hide Judge; hide SizeIn; hide TooLarge;
      m := Message(deserializer.hdr, deserializer.vRecv);
      msg := deserializer.GetMessage(messageStart);
      ContinuesOne(found, m.header, m.payload, tail, total);
      DeliversOne(deserializer.hash, messageStart, found, m, added, msg);
      assert [] + tail == tail;
      vRecvMsg := vRecvMsg + [msg];
    }
  }

  /** The messages found so far and the bytes still to be read account for the whole stream. */
  ghost predicate Continues(found: seq<Message>, left: seq<byte>, total: seq<byte>) {
    var r := Parse(left);
    Parse(total) == Reading(found + r.messages, r.rest, r.bad)
  }

  lemma ContinuesOne(found: seq<Message>, header: seq<byte>, payload: seq<byte>, tail: seq<byte>, total: seq<byte>)
    requires |header| == HEADER_SIZE && SizeIn(header) == |payload| && !TooLarge(|payload|)
    requires Continues(found, header + payload + tail, total)
    ensures Continues(found + [Message(header, payload)], tail, total)
  {
    hide Parse; hide SizeIn; hide TooLarge;
    ParseFirst(header, payload, tail);
    assert found + ([Message(header, payload)] + Parse(tail).messages)
      == found + [Message(header, payload)] + Parse(tail).messages;
  }

  lemma NoneFound(hash: Hasher, start: seq<byte>, total: seq<byte>)
    ensures Delivers(hash, start, [], []) && Continues([], total, total)
  {
    hide Parse;
  }

  lemma ContinuesEnd(found: seq<Message>, left: seq<byte>, total: seq<byte>)
    requires Continues(found, left, total) && Parse(left).messages == []
    ensures Parse(total) == Reading(found, Parse(left).rest, Parse(left).bad)
  {
    hide Parse;
  }

  function Concat(chunks: seq<seq<byte>>): seq<byte> {
    if chunks == [] then [] else Concat(chunks[..|chunks| - 1]) + chunks[|chunks| - 1]
  }

  /** However a stream is cut into pieces, the messages are those of the simple reading of the whole. */
  method ReceiveAll(peer: Peer, chunks: seq<seq<byte>>) returns (ok: bool)
    requires peer.Ready() && peer.deserializer.Pending() == [] && peer.vRecvMsg == []
    modifies peer, peer.deserializer
    ensures peer.Ready() &&
      Delivers(peer.deserializer.hash, peer.messageStart, Parse(Concat(chunks)).messages, peer.vRecvMsg)
    ensures ok <==> !Parse(Concat(chunks)).bad
    ensures ok ==> peer.deserializer.Pending() == Parse(Concat(chunks)).rest
  {
    hide Parse; hide Delivers;
    ok := true;
    EmptyStream(peer.deserializer.hash, peer.messageStart);
    for i := 0 to |chunks|
      invariant peer.Ready() &&
        Delivers(peer.deserializer.hash, peer.messageStart, Parse(Concat(chunks[..i])).messages, peer.vRecvMsg)
      invariant ok <==> !Parse(Concat(chunks[..i])).bad
      invariant ok ==> peer.deserializer.Pending() == Parse(Concat(chunks[..i])).rest
    {
      ghost var before := Concat(chunks[..i]);
      assert Concat(chunks[..i + 1]) == before + chunks[i] by { assert chunks[..i + 1][..i] == chunks[..i]; }
      ParseContinues(before, chunks[i]);
      if ok {
        ghost var q := Parse(peer.deserializer.Pending() + chunks[i]);
        ghost var queued := peer.vRecvMsg;
        var complete;
        ghost var added;
        ok, complete, added := peer.ReceiveMsgBytes(chunks[i]);
        DeliversAppend(peer.deserializer.hash, peer.messageStart, Parse(before).messages, q.messages, queued, added);
      }
    }
    assert chunks[..|chunks|] == chunks;
  }

  lemma EmptyStream(hash: Hasher, start: seq<byte>)
    ensures Concat([]) == [] && Parse([]) == Reading([], [], false) && Delivers(hash, start, [], [])
  {
  }
}
