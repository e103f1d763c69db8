/** The version 1 message framing: a 24-byte header, then as many payload bytes as it says. */
module Framing {
  import opened Basics

  const MESSAGE_START_SIZE := 4
  const COMMAND_SIZE := 12
  const HEADER_SIZE := 24
  const SIZE_OFFSET := 16
  const CHECKSUM_OFFSET := 20
  const MAX_SIZE := 0x0200_0000
  const MAX_PROTOCOL_MESSAGE_LENGTH := 4 * 1000 * 1000

  /** A message off the wire: its header bytes and payload. */
  datatype Message = Message(header: seq<byte>, payload: seq<byte>)

  /** The payload size in a header, little endian. */
  function SizeIn(header: seq<byte>): nat
    requires |header| == HEADER_SIZE
  {
    var b0: int, b1: int := header[SIZE_OFFSET], header[SIZE_OFFSET + 1];
    var b2: int, b3: int := header[SIZE_OFFSET + 2], header[SIZE_OFFSET + 3];
    b0 + 0x100 * b1 + 0x1_0000 * b2 + 0x100_0000 * b3
  }

  predicate TooLarge(size: nat) { size > MAX_SIZE || size > MAX_PROTOCOL_MESSAGE_LENGTH }

  // ----- what a header says

  function StartIn(header: seq<byte>): seq<byte>
    requires |header| == HEADER_SIZE
  {
    header[..MESSAGE_START_SIZE]
  }

  function CommandIn(header: seq<byte>): seq<byte>
    requires |header| == HEADER_SIZE
  {
    header[MESSAGE_START_SIZE..SIZE_OFFSET]
  }

  /** `GetCommand`: the bytes before the first zero. */
  function UpToZero(s: seq<byte>): (r: seq<byte>)
    ensures r <= s && forall i :: 0 <= i < |r| ==> r[i] != 0
    ensures |r| < |s| ==> s[|r|] == 0
  {
    if s == [] || s[0] == 0 then [] else [s[0]] + UpToZero(s[1..])
  }

  predicate Printable(b: byte) { 0x20 <= b <= 0x7e }

  /** Printable characters, then zeros only. */
  ghost predicate ProperCommand(c: seq<byte>) {
    forall i :: 0 <= i < |c| ==>
      if i < |UpToZero(c)| then Printable(c[i]) else c[i] == 0
  }

  /** `CMessageHeader::IsValid`. */
  method IsValid(header: seq<byte>, start: seq<byte>) returns (ok: bool)
    requires |header| == HEADER_SIZE
    ensures ok <==> StartIn(header) == start && ProperCommand(CommandIn(header)) && SizeIn(header) <= MAX_SIZE
  {
    hide SizeIn; hide UpToZero;
    if StartIn(header) != start { return false; }
    var c := CommandIn(header);
    var p := 0;
    while p < COMMAND_SIZE
      invariant 0 <= p <= COMMAND_SIZE && (p <= |UpToZero(c)| || p == COMMAND_SIZE)
      invariant forall i :: 0 <= i < p && i < |UpToZero(c)| ==> Printable(c[i])
      invariant forall i :: 0 <= i < p && i >= |UpToZero(c)| ==> c[i] == 0
    {
      if c[p] == 0 {
        FirstZero(c, p);
        while p < COMMAND_SIZE
          invariant |UpToZero(c)| <= p <= COMMAND_SIZE
          invariant forall i :: 0 <= i < p && i < |UpToZero(c)| ==> Printable(c[i])
          invariant forall i :: 0 <= i < p && i >= |UpToZero(c)| ==> c[i] == 0
        {
          if c[p] != 0 { return false; }
          p := p + 1;
        }
      } else {
        if !Printable(c[p]) { return false; }
        p := p + 1;
      }
    }
    return SizeIn(header) <= MAX_SIZE;
  }

  lemma FirstZero(c: seq<byte>, p: nat)
    requires p < |c| && c[p] == 0
    ensures |UpToZero(c)| <= p
  {
    var r := UpToZero(c);
    assert forall i :: 0 <= i < |r| ==> c[i] == r[i];
  }

  // ----- streams

  /** The simple reading of a byte stream: whole messages, what is left over, and whether an oversized header stopped
      it. */
  datatype Reading = Reading(messages: seq<Message>, rest: seq<byte>, bad: bool)

  function Parse(s: seq<byte>): Reading {
    if |s| < HEADER_SIZE then Reading([], s, false)
    else
      var size := SizeIn(s[..HEADER_SIZE]);
      if TooLarge(size) then Reading([], s, true)
      else if |s| < HEADER_SIZE + size then Reading([], s, false)
      else
        var first := Message(s[..HEADER_SIZE], s[HEADER_SIZE..HEADER_SIZE + size]);
        var r := Parse(s[HEADER_SIZE + size..]);
        Reading([first] + r.messages, r.rest, r.bad)
  }

  /** A stream starts with a whole message. */
  ghost predicate Whole(s: seq<byte>) {
    |s| >= HEADER_SIZE && !TooLarge(SizeIn(s[..HEADER_SIZE])) && |s| >= HEADER_SIZE + SizeIn(s[..HEADER_SIZE])
  }

  /** One step of the parse. */
  lemma ParseFirst(header: seq<byte>, payload: seq<byte>, tail: seq<byte>)
    requires |header| == HEADER_SIZE && SizeIn(header) == |payload| && !TooLarge(|payload|)
    ensures var r := Parse(tail);
      Parse(header + payload + tail) == Reading([Message(header, payload)] + r.messages, r.rest, r.bad)
  {
    hide SizeIn; hide TooLarge;
    var s := header + payload + tail;
    assert s[..HEADER_SIZE] == header && s[HEADER_SIZE..HEADER_SIZE + |payload|] == payload;
    assert s[HEADER_SIZE + |payload|..] == tail;
  }

  lemma ParseNone(s: seq<byte>)
    requires !Whole(s)
    ensures Parse(s).messages == [] && Parse(s).rest == s
    ensures Parse(s).bad <==> |s| >= HEADER_SIZE && TooLarge(SizeIn(s[..HEADER_SIZE]))
  {
    hide SizeIn; hide TooLarge;
  }

  /** Reading on after a part of the stream is the same as reading the whole. */
  lemma {:induction false} ParseContinues(a: seq<byte>, b: seq<byte>)
    ensures var r := Parse(a);
      if r.bad then Parse(a + b).messages == r.messages && Parse(a + b).bad
      else
        var q := Parse(r.rest + b);
        Parse(a + b) == Reading(r.messages + q.messages, q.rest, q.bad)
    decreases |a|
  {
    hide Parse; hide SizeIn; hide TooLarge;
    if Whole(a) {
      var n := HEADER_SIZE + SizeIn(a[..HEADER_SIZE]);
      var h, p, t := a[..HEADER_SIZE], a[HEADER_SIZE..n], a[n..];
      assert a == h + p + t && a + b == h + p + (t + b);
      ParseFirst(h, p, t);
      ParseFirst(h, p, t + b);
      ParseContinues(t, b);
    } else {
      ParseNone(a);
      if Parse(a).bad {
        assert (a + b)[..HEADER_SIZE] == a[..HEADER_SIZE];
        ParseNone(a + b);
      }
    }
  }

  /** What is left over never holds a whole message. */
  lemma {:induction false} RestIncomplete(s: seq<byte>)
    requires !Parse(s).bad
    ensures Parse(Parse(s).rest) == Reading([], Parse(s).rest, false)
    decreases |s|
  {
    hide Parse; hide SizeIn; hide TooLarge;
    if Whole(s) {
      var n := HEADER_SIZE + SizeIn(s[..HEADER_SIZE]);
      assert s == s[..HEADER_SIZE] + s[HEADER_SIZE..n] + s[n..];
      ParseFirst(s[..HEADER_SIZE], s[HEADER_SIZE..n], s[n..]);
      RestIncomplete(s[n..]);
    } else {
      ParseNone(s);
    }
  }

  /** A header that announces too much. */
  lemma ParseTooLarge(header: seq<byte>, tail: seq<byte>)
    requires |header| == HEADER_SIZE && TooLarge(SizeIn(header))
    ensures Parse(header + tail).messages == [] && Parse(header + tail).bad
  {
    assert (header + tail)[..HEADER_SIZE] == header;
  }

  lemma ParsePartial(header: seq<byte>, part: seq<byte>)
    requires |header| == HEADER_SIZE && !TooLarge(SizeIn(header)) && |part| < SizeIn(header)
    ensures Parse(header + part) == Reading([], header + part, false)
  {
    assert (header + part)[..HEADER_SIZE] == header;
  }
}
