/** The sending side of the transport: a queue of buffers drained by partial sends. */
module Send {
  import opened Basics
  import opened Framing
  import opened Receive

  function Flatten(q: seq<seq<byte>>): seq<byte> {
    if q == [] then [] else q[0] + Flatten(q[1..])
  }

  lemma {:induction false} FlattenAppend(a: seq<seq<byte>>, b: seq<seq<byte>>)
    ensures Flatten(a + b) == Flatten(a) + Flatten(b)
  {
    if a == [] {
      assert a + b == b;
    } else {
      FlattenAppend(a[1..], b);
      assert (a + b)[1..] == a[1..] + b && (a + b)[0] == a[0];
      assert a[0] + (Flatten(a[1..]) + Flatten(b)) == a[0] + Flatten(a[1..]) + Flatten(b);
    }
  }

  ghost predicate NoneEmpty(q: seq<seq<byte>>) { forall i :: 0 <= i < |q| ==> q[i] != [] }

  /** The bytes not handed to the socket yet. */
  function Unsent(q: seq<seq<byte>>, offset: nat): seq<byte>
    requires offset <= |Flatten(q)|
  {
    Flatten(q)[offset..]
  }

  /** How many bytes the socket takes, given what its successive send calls return: up to the first that takes less than
      offered. */
  function Taken(q: seq<seq<byte>>, offset: nat, sends: seq<int>): nat
    requires q != [] ==> offset <= |q[0]|
    decreases |q|
  {
    if q == [] || sends == [] || sends[0] <= 0 then 0
    else if sends[0] < |q[0]| - offset then sends[0]
    else |q[0]| - offset + Taken(q[1..], 0, sends[1..])
  }

  /** The fields of a node that its send queue consists of. */
  class SendQueue {
    const nSendBufferMaxSize: nat
    var vSendMsg: seq<seq<byte>>
    var nSendSize: nat
    var nSendOffset: nat
    var fPauseSend: bool
    var sent: seq<byte>           // everything the socket has taken
    ghost var pushed: seq<byte>   // everything that was to be sent

    constructor (max: nat)
      ensures Valid() && sent == [] && pushed == []
    {
      nSendBufferMaxSize, vSendMsg, nSendSize, nSendOffset, fPauseSend, sent, pushed := max, [], 0, 0, false, [], [];
    }

    /** Nothing lost, doubled or reordered; the size is that of the queued buffers; sending pauses exactly above the
        limit. */
    ghost predicate Valid()
      reads this
    {
      && NoneEmpty(vSendMsg) && nSendSize == |Flatten(vSendMsg)|
      && (if vSendMsg == [] then nSendOffset == 0 else nSendOffset < |vSendMsg[0]|)
      && nSendOffset <= |Flatten(vSendMsg)| && sent + Unsent(vSendMsg, nSendOffset) == pushed
      && fPauseSend == (nSendSize > nSendBufferMaxSize)
    }

    /** `PushMessage`: queues header and payload, and tries to send at once when the queue was empty. */
    method PushMessage(header: seq<byte>, data: seq<byte>, sends: seq<int>, socketOpen: bool) returns (nBytesSent: nat)
      requires Valid() && header != []
      modifies this
      ensures Valid() && pushed == old(pushed) + header + data
      ensures old(sent) <= sent && |sent| == |old(sent)| + nBytesSent
      ensures nBytesSent ==
        if old(vSendMsg) == [] && socketOpen then Taken([header] + (if data == [] then [] else [data]), 0, sends) else 0
    {
      hide Flatten;
      var optimisticSend := vSendMsg == [];
      ghost var q := vSendMsg;
      nSendSize := nSendSize + |header| + |data|;
      if nSendSize > nSendBufferMaxSize { fPauseSend := true; }
      vSendMsg := vSendMsg + [header];
      if data != [] { vSendMsg := vSendMsg + [data]; }
      pushed := pushed + header + data;
      Pushes(q, header, data, nSendOffset);
      nBytesSent := 0;
      if optimisticSend { nBytesSent := SocketSendData(sends, socketOpen); }
    }

    /**
     * `SocketSendData`: hands the queue to the socket until it takes less than offered. `sends` holds what the
     * successive send calls return.
     */
    method SocketSendData(sends: seq<int>, socketOpen: bool) returns (nSentSize: nat)
      requires Valid()
      modifies this
      ensures Valid() && pushed == old(pushed)
      ensures old(sent) <= sent && |sent| == |old(sent)| + nSentSize
      ensures nSentSize == if socketOpen then Taken(old(vSendMsg), old(nSendOffset), sends) else 0
    {
      hide Flatten; hide Taken;
      NothingTaken(sends);
      var it, calls := 0, 0;
      nSentSize := 0;
      ghost var before := sent;
      ghost var total := Taken(vSendMsg, nSendOffset, sends);
      assert vSendMsg[0..] == vSendMsg && sends[0..] == sends;
      while it < |vSendMsg|
        invariant 0 <= it <= |vSendMsg| && vSendMsg == old(vSendMsg) && pushed == old(pushed)
        invariant Rests(it) && before <= sent && |sent| == |before| + nSentSize
        invariant calls <= |sends| &&
          if socketOpen then nSentSize + Taken(vSendMsg[it..], nSendOffset, sends[calls..]) == total else nSentSize == 0
        decreases |vSendMsg| - it
      {
        assert |vSendMsg[it]| > nSendOffset;
        if !socketOpen { break; }
        var offered := |vSendMsg[it]| - nSendOffset;
        TakenSteps(vSendMsg[it..], nSendOffset, sends[calls..]);
        assert vSendMsg[it..][1..] == vSendMsg[it + 1..];
        if calls == |sends| { break; }
        assert sends[calls..][1..] == sends[calls + 1..];
        var nBytes := if sends[calls] > offered then offered else sends[calls];
        calls := calls + 1;
        if nBytes <= 0 { break; }
        nSentSize := nSentSize + nBytes;
        var whole := Advance(it, nBytes);
        if !whole { break; }
        it := it + 1;
      }
      if it == |vSendMsg| {
        assert vSendMsg[it..] == [];
        NothingTaken(sends[calls..]);
        NothingRests();
        assert nSendOffset == 0 && nSendSize == 0;
      }
      vSendMsg := vSendMsg[it..];
    }

    /** The queue from position `it` on is what is left to send. */
    ghost predicate Rests(it: nat)
      reads this
      requires it <= |vSendMsg|
    {
      var q := vSendMsg[it..];
      && NoneEmpty(q) && nSendSize == |Flatten(q)|
      && (if q == [] then nSendOffset == 0 else nSendOffset < |q[0]|)
      && nSendOffset <= |Flatten(q)| && sent + Unsent(q, nSendOffset) == pushed
      && fPauseSend == (nSendSize > nSendBufferMaxSize)
    }

    lemma NothingRests()
      requires Rests(|vSendMsg|)
      ensures nSendOffset == 0 && nSendSize == 0
    {
    }

    /** Some bytes of the current buffer are gone; true when that was all of it. */
    method Advance(it: nat, nBytes: nat) returns (whole: bool)
      requires it < |vSendMsg| && Rests(it) && 0 < nBytes && nSendOffset + nBytes <= |vSendMsg[it]|
      modifies this
      ensures vSendMsg == old(vSendMsg) && pushed == old(pushed) && |sent| == |old(sent)| + nBytes && old(sent) <= sent
      ensures whole <==> old(nSendOffset) + nBytes == |vSendMsg[it]|
      ensures if whole then Rests(it + 1) && nSendOffset == 0 else Rests(it)
    {
      hide Flatten;
      ghost var q := vSendMsg[it..];
      Drains(q, nSendOffset, nBytes);
      sent := sent + vSendMsg[it][nSendOffset..nSendOffset + nBytes];
      nSendOffset := nSendOffset + nBytes;
      whole := nSendOffset == |vSendMsg[it]|;
      if whole {
        nSendOffset := 0;
        nSendSize := nSendSize - |vSendMsg[it]|;
        fPauseSend := nSendSize > nSendBufferMaxSize;
        assert vSendMsg[it + 1..] == q[1..];
      }
    }
  }

  lemma TakenSteps(q: seq<seq<byte>>, offset: nat, sends: seq<int>)
    requires q != [] && offset < |q[0]|
    ensures sends == [] || sends[0] <= 0 ==> Taken(q, offset, sends) == 0
    ensures sends != [] && 0 < sends[0] < |q[0]| - offset ==> Taken(q, offset, sends) == sends[0]
    ensures sends != [] && sends[0] >= |q[0]| - offset ==>
      Taken(q, offset, sends) == |q[0]| - offset + Taken(q[1..], 0, sends[1..])
  {
  }

  lemma NothingTaken(sends: seq<int>)
    ensures forall offset :: Taken([], offset, sends) == 0
  {
  }

  /** Taking bytes off the front of the first buffer. */
  lemma Drains(q: seq<seq<byte>>, offset: nat, n: nat)
    requires q != [] && offset + n <= |q[0]|
    ensures |Flatten(q)| == |q[0]| + |Flatten(q[1..])|
    ensures Unsent(q, offset) == q[0][offset..offset + n] + Unsent(q, offset + n)
    ensures offset + n == |q[0]| ==> Unsent(q, offset + n) == Unsent(q[1..], 0)
  {
  }

  lemma Pushes(q: seq<seq<byte>>, header: seq<byte>, data: seq<byte>, offset: nat)
    requires offset <= |Flatten(q)|
    ensures var r := q + [header] + (if data == [] then [] else [data]);
      |Flatten(r)| == |Flatten(q)| + |header| + |data| && Unsent(r, offset) == Unsent(q, offset) + header + data
    ensures data == [] ==> q + [header] + [] == q + [header]
  {
    FlattenAppend(q, [header]);
    FlattenAppend(q + [header], [data]);
    assert Flatten([header]) == header && Flatten([data]) == data;
    assert q + [header] + [] == q + [header];
  }

  // ----- headers

  /** A message to be sent: a command and the payload. */
  datatype Outgoing = Outgoing(command: seq<byte>, data: seq<byte>)

  /** Commands are strings without zeros that fit their field. */
  predicate Sendable(m: Outgoing) {
    |m.command| <= COMMAND_SIZE && (forall i :: 0 <= i < |m.command| ==> m.command[i] != 0) && !TooLarge(|m.data|)
  }

  function LittleEndian(n: nat): seq<byte>
    requires n < 0x1_0000_0000
  {
    [n % 0x100, n / 0x100 % 0x100, n / 0x1_0000 % 0x100, n / 0x100_0000]
  }

  /** A network: its start bytes and checksum hash. */
  datatype Network = Network(start: seq<byte>, hash: Hasher)

  ghost predicate ProperNetwork(net: Network) {
    |net.start| == MESSAGE_START_SIZE && forall s :: |FirstFour(net.hash(s))| == 4
  }

  /** The command field: padded with zeros. */
  function Padded(command: seq<byte>): (r: seq<byte>)
    requires |command| <= COMMAND_SIZE
    ensures |r| == COMMAND_SIZE
  {
    command + Filler(COMMAND_SIZE - |command|)
  }

  /** `prepareForTransport`. */
  function PrepareHeader(net: Network, m: Outgoing): (h: seq<byte>)
    requires ProperNetwork(net) && Sendable(m)
    ensures |h| == HEADER_SIZE
  {
    net.start + Padded(m.command) + LittleEndian(|m.data|) + FirstFour(net.hash(m.data))
  }

  /** The four bytes of a number make it up again. */
  lemma FourDigits(n: nat)
    requires n < 0x1_0000_0000
    ensures n % 0x100 + 0x100 * (n / 0x100 % 0x100) + 0x1_0000 * (n / 0x1_0000 % 0x100)
      + 0x100_0000 * (n / 0x100_0000) == n
  {
    var a, b, c := n / 0x100, n / 0x1_0000, n / 0x100_0000;
    assert n == 0x100 * a + n % 0x100;
    assert b == a / 0x100 && a == 0x100 * b + a % 0x100;
    assert c == b / 0x100 && b == 0x100 * c + b % 0x100;
  }

  lemma LittleEndianBack(n: nat, header: seq<byte>)
    requires n < 0x1_0000_0000 && |header| == HEADER_SIZE && header[SIZE_OFFSET..CHECKSUM_OFFSET] == LittleEndian(n)
    ensures SizeIn(header) == n
  {
    FourDigits(n);
    var four := header[SIZE_OFFSET..CHECKSUM_OFFSET];
    assert header[SIZE_OFFSET] == four[0] && header[SIZE_OFFSET + 1] == four[1];
    assert header[SIZE_OFFSET + 2] == four[2] && header[SIZE_OFFSET + 3] == four[3];
  }

  lemma {:induction false} PaddedBack(command: seq<byte>, n: nat)
    requires forall i :: 0 <= i < |command| ==> command[i] != 0
    ensures UpToZero(command + Filler(n)) == command
  {
    if command == [] {
      assert command + Filler(n) == Filler(n);
    } else {
      PaddedBack(command[1..], n);
      assert (command + Filler(n))[1..] == command[1..] + Filler(n);
    }
  }

  /** What a prepared header says to the receiver. */
  lemma HeaderSays(net: Network, m: Outgoing)
    requires ProperNetwork(net) && Sendable(m)
    ensures var h := PrepareHeader(net, m);
      && SizeIn(h) == |m.data| && ChecksumHolds(net.hash, m.data, h) && StartIn(h) == net.start
      && UpToZero(CommandIn(h)) == m.command && CommandIn(h) == Padded(m.command)
  {
    hide SizeIn; hide UpToZero; hide FirstFour; hide TooLarge; hide LittleEndian;
    var h := PrepareHeader(net, m);
    assert m.data == m.data && |m.data| < 0x1_0000_0000 by { NotTooLarge(|m.data|); }
    assert |LittleEndian(|m.data|)| == 4 by { LittleEndianLength(|m.data|); }
    assert h[..MESSAGE_START_SIZE] == net.start && h[MESSAGE_START_SIZE..SIZE_OFFSET] == Padded(m.command);
    assert h[SIZE_OFFSET..CHECKSUM_OFFSET] == LittleEndian(|m.data|);
    assert h[CHECKSUM_OFFSET..] == FirstFour(net.hash(m.data));
    LittleEndianBack(|m.data|, h);
    PaddedBack(m.command, COMMAND_SIZE - |m.command|);
  }

  /** The same byte by byte: start bytes, the command and zeros, the size with its low byte first, the checksum. */
  lemma HeaderBytes(net: Network, m: Outgoing)
    requires ProperNetwork(net) && Sendable(m)
    ensures var h, n := PrepareHeader(net, m), |m.data|;
      && |h| == 24 && h[..4] == net.start && h[4..4 + |m.command|] == m.command
      && h[20..] == FirstFour(net.hash(m.data))
      && (forall i :: 4 + |m.command| <= i < 16 ==> h[i] == 0)
      && h[16] == n % 256 && h[17] == n / 256 % 256 && h[18] == n / 65536 % 256 && h[19] == n / 16777216
  {
    hide FirstFour; hide TooLarge;
    NotTooLarge(|m.data|);
    var h := PrepareHeader(net, m);
    var front := net.start + Padded(m.command);
    assert |front| == 16 && h[..16] == front && h[16..20] == LittleEndian(|m.data|);
    assert h[16] == h[16..20][0] && h[17] == h[16..20][1] && h[18] == h[16..20][2] && h[19] == h[16..20][3];
    forall i | 4 + |m.command| <= i < 16 ensures h[i] == 0 { assert h[i] == front[i]; }
    assert h[4..4 + |m.command|] == front[4..4 + |m.command|];
  }

  lemma NotTooLarge(n: nat)
    requires !TooLarge(n)
    ensures n < 0x1_0000_0000 && n <= MAX_SIZE
  {
  }

  lemma LittleEndianLength(n: nat)
    requires n < 0x1_0000_0000
    ensures |LittleEndian(n)| == 4
  {
  }

  // ----- whole runs

  /** What happens to a queue: a message is pushed, or the socket is ready for more. */
  datatype Action =
    | Push(header: seq<byte>, data: seq<byte>, sends: seq<int>, socketOpen: bool)
    | Drain(sends: seq<int>, socketOpen: bool)

  /** The bytes pushed by a run of actions. */
  function PushedBy(acts: seq<Action>): seq<byte> {
    if acts == [] then []
    else
      var last := acts[|acts| - 1];
      PushedBy(acts[..|acts| - 1]) + (if last.Push? then last.header + last.data else [])
  }

  /** In every run the socket gets a prefix of the exact concatenation of what was pushed; the queue holds the rest. */
  method RunActions(q: SendQueue, acts: seq<Action>)
    requires q.Valid() && q.sent == [] == q.pushed
    requires forall i :: 0 <= i < |acts| && acts[i].Push? ==> acts[i].header != []
    modifies q
    ensures q.Valid() && q.pushed == PushedBy(acts) && q.sent <= PushedBy(acts)
    ensures q.nSendOffset <= |Flatten(q.vSendMsg)|
    ensures q.sent + Unsent(q.vSendMsg, q.nSendOffset) == PushedBy(acts)
  {
    hide Flatten;
    assert acts[..0] == [];
    for i := 0 to |acts|
      invariant q.Valid() && q.pushed == PushedBy(acts[..i])
    {
      assert acts[..i + 1][..i] == acts[..i];
      match acts[i] {
        case Push(header, data, sends, open) => var _ := q.PushMessage(header, data, sends, open);
        case Drain(sends, open) => var _ := q.SocketSendData(sends, open);
      }
    }
    assert acts[..|acts|] == acts;
  }

  // ----- messages on the wire

  /** What a sender does: it sends a message, or the socket is ready for more. */
  datatype Deed = SendOff(m: Outgoing, sends: seq<int>, socketOpen: bool) | Ready(sends: seq<int>, socketOpen: bool)

  predicate OnlySendable(deeds: seq<Deed>) {
    forall i :: 0 <= i < |deeds| && deeds[i].SendOff? ==> Sendable(deeds[i].m)
  }

  /** The same with headers prepared. */
  function Prepared(net: Network, deeds: seq<Deed>): (acts: seq<Action>)
    requires ProperNetwork(net) && OnlySendable(deeds)
    ensures forall i :: 0 <= i < |acts| && acts[i].Push? ==> acts[i].header != []
  {
    if deeds == [] then []
    else
      var last := deeds[|deeds| - 1];
      Prepared(net, deeds[..|deeds| - 1]) +
        [if last.SendOff? then Push(PrepareHeader(net, last.m), last.m.data, last.sends, last.socketOpen)
         else Drain(last.sends, last.socketOpen)]
  }

  ghost function MessagesOf(deeds: seq<Deed>): seq<Outgoing> {
    if deeds == [] then []
    else
      var last := deeds[|deeds| - 1];
      MessagesOf(deeds[..|deeds| - 1]) + (if last.SendOff? then [last.m] else [])
  }

  ghost predicate AllSendable(ms: seq<Outgoing>) { forall i :: 0 <= i < |ms| ==> Sendable(ms[i]) }

  /** The bytes of messages sent one after the other. */
  ghost function Wire(net: Network, ms: seq<Outgoing>): seq<byte>
    requires ProperNetwork(net) && AllSendable(ms)
  {
    if ms == [] then [] else PrepareHeader(net, ms[0]) + ms[0].data + Wire(net, ms[1..])
  }

  lemma {:induction false} WireAppend(net: Network, ms: seq<Outgoing>, m: Outgoing)
    requires ProperNetwork(net) && AllSendable(ms) && Sendable(m)
    ensures AllSendable(ms + [m]) && Wire(net, ms + [m]) == Wire(net, ms) + (PrepareHeader(net, m) + m.data)
  {
    hide PrepareHeader; hide Sendable;
    if ms == [] {
      assert ms + [m] == [m] && [m][1..] == [];
      assert Wire(net, [m]) == PrepareHeader(net, m) + m.data + [];
    } else {
      WireAppend(net, ms[1..], m);
      assert (ms + [m])[1..] == ms[1..] + [m];
    }
  }

  /** What is pushed is the wire form of the messages. */
  lemma {:induction false} PushedIsWire(net: Network, deeds: seq<Deed>)
    requires ProperNetwork(net) && OnlySendable(deeds)
    ensures AllSendable(MessagesOf(deeds)) && PushedBy(Prepared(net, deeds)) == Wire(net, MessagesOf(deeds))
  {
    hide PrepareHeader; hide Sendable; hide Wire;
    if deeds == [] {
      assert Wire(net, []) == [] by { WireNothing(net); }
    } else {
      var rest, last := deeds[..|deeds| - 1], deeds[|deeds| - 1];
      PushedIsWire(net, rest);
      var acts := Prepared(net, deeds);
      assert acts[..|acts| - 1] == Prepared(net, rest);
      if last.SendOff? {
        WireAppend(net, MessagesOf(rest), last.m);
      } else {
        assert MessagesOf(deeds) == MessagesOf(rest) && PushedBy(acts) == PushedBy(Prepared(net, rest)) + [];
      }
    }
  }

  lemma WireNothing(net: Network)
    requires ProperNetwork(net)
    ensures Wire(net, []) == []
  {
  }

  // ----- from sender to receiver

  /** The receiver's reading of what was pushed: the same payloads in order, with nothing left over. */
  lemma {:induction false} WireParses(net: Network, ms: seq<Outgoing>)
    requires ProperNetwork(net) && AllSendable(ms)
    ensures var r := Parse(Wire(net, ms));
      && r.rest == [] && !r.bad && |r.messages| == |ms|
      && forall i :: 0 <= i < |ms| ==> r.messages[i] == Message(PrepareHeader(net, ms[i]), ms[i].data)
  {
    hide Parse; hide SizeIn; hide PrepareHeader; hide ChecksumHolds; hide ProperNetwork;
    if ms == [] {
      EmptyStream(net.hash, net.start);
    } else {
      HeaderSays(net, ms[0]);
      ParseFirst(PrepareHeader(net, ms[0]), ms[0].data, Wire(net, ms[1..]));
      WireParses(net, ms[1..]);
    }
  }

  /** A message as it should arrive. */
  ghost predicate Arrives(m: Outgoing, got: NetMessage) {
    && got.command == m.command && got.payload == m.data
    && got.messageSize == |m.data| && got.rawSize == |m.data| + HEADER_SIZE
    && got.validMagic && got.validChecksum
    && (got.validHeader <==> forall i :: 0 <= i < |m.command| ==> Printable(m.command[i]))
  }

  lemma JudgedArrives(net: Network, m: Outgoing)
    requires ProperNetwork(net) && Sendable(m)
    ensures Arrives(m, Judge(net.hash, net.start, Message(PrepareHeader(net, m), m.data)))
  {
    hide SizeIn; hide ChecksumHolds; hide PrepareHeader; hide UpToZero; hide ProperNetwork; hide TooLarge;
    HeaderSays(net, m);
    NotTooLarge(|m.data|);
    var c := Padded(m.command);
    assert forall i :: 0 <= i < |m.command| ==> c[i] == m.command[i];
    assert forall i :: |m.command| <= i < COMMAND_SIZE ==> c[i] == 0;
  }

  /** What has been sent reads as a prefix of the pushed messages. */
  lemma PrefixParses(net: Network, ms: seq<Outgoing>, sent: seq<byte>, unsent: seq<byte>)
    requires ProperNetwork(net) && AllSendable(ms) && sent + unsent == Wire(net, ms)
    ensures !Parse(sent).bad && |Parse(sent).messages| <= |ms| && (unsent == [] ==> |Parse(sent).messages| == |ms|)
    ensures forall i :: 0 <= i < |Parse(sent).messages| ==>
      Parse(sent).messages[i] == Message(PrepareHeader(net, ms[i]), ms[i].data)
  {
    hide Parse; hide ProperNetwork; hide PrepareHeader;
    WireParses(net, ms);
    ParseContinues(sent, unsent);
    assert unsent == [] ==> sent == Wire(net, ms);
    var found, all := Parse(sent).messages, Parse(Wire(net, ms)).messages;
    assert found <= all && forall i :: 0 <= i < |found| ==> found[i] == all[i];
  }

  /** Of what reaches the receiver, the messages are the pushed ones in order, and all of them once all is sent. */
  lemma PrefixArrives(net: Network, ms: seq<Outgoing>, sent: seq<byte>, unsent: seq<byte>, got: seq<NetMessage>)
    requires ProperNetwork(net) && AllSendable(ms) && sent + unsent == Wire(net, ms)
    requires Delivers(net.hash, net.start, Parse(sent).messages, got)
    ensures |got| <= |ms| && (unsent == [] ==> |got| == |ms|)
    ensures forall i :: 0 <= i < |got| ==> Arrives(ms[i], got[i])
  {
    hide Parse; hide Judge; hide Arrives; hide ProperNetwork; hide PrepareHeader; hide Wire;
    PrefixParses(net, ms, sent, unsent);
    forall i | 0 <= i < |got| ensures Arrives(ms[i], got[i]) { JudgedArrives(net, ms[i]); }
  }

  /**
   * Both ends together: whatever pushes and partial sends happen, and however the network cuts what was sent, the
   * receiver gets the pushed messages in order, with good checksums, and all of them once the queue is empty.
   */
  method Converse(ghost net: Network, q: SendQueue, acts: seq<Action>, ghost deeds: seq<Deed>, peer: Peer,
                  cut: seq<byte> -> seq<seq<byte>>)
    requires ProperNetwork(net) && OnlySendable(deeds) && acts == Prepared(net, deeds)
    requires q.Valid() && q.sent == [] == q.pushed
    requires peer.Ready() && peer.deserializer.Pending() == [] && peer.vRecvMsg == []
    requires peer.deserializer.hash == net.hash && peer.messageStart == net.start
    requires forall s :: Concat(cut(s)) == s
    modifies q, peer, peer.deserializer
    ensures var ms := MessagesOf(deeds);
      && |peer.vRecvMsg| <= |ms| && (q.vSendMsg == [] ==> |peer.vRecvMsg| == |ms|)
      && forall i :: 0 <= i < |peer.vRecvMsg| ==> Arrives(ms[i], peer.vRecvMsg[i])
  {
    hide Parse; hide Delivers; hide Arrives; hide ProperNetwork; hide Wire; hide MessagesOf; hide OnlySendable;
    hide Prepared; hide PushedBy;
    RunActions(q, acts);
    PushedIsWire(net, deeds);
    ghost var unsent := Unsent(q.vSendMsg, q.nSendOffset);
    var _ := ReceiveAll(peer, cut(q.sent));
    PrefixArrives(net, MessagesOf(deeds), q.sent, unsent, peer.vRecvMsg);
  }
}
