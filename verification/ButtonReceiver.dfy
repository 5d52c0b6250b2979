/** The listener's end of the GPIO pipe: it cuts the byte stream, however it arrives, into packets again. */
module ButtonReceiver {
  import opened Basics
  import opened GpioButtons
  import opened GpioButtonsTheorems

  const MAX_PACKET_SIZE := 1024

  function SizeField(data: seq<byte>): nat
    requires |data| >= 2
  {
    data[0] as int + 0x100 * (data[1] as int)
  }

  /**
   * The key codes found in the bytes, and the bytes to keep until more arrive; a byte that makes no sense is skipped.
   */
  function Parse(data: seq<byte>): (seq<byte>, seq<byte>) {
    if |data| < 4 then ([], data)
    else if SizeField(data) > MAX_PACKET_SIZE || SizeField(data) < 2 then Parse(data[1..])
    else if SizeField(data) > |data| then ([], data)
    else if data[2] == MSG_ID_GPIO_INPUT_EVENT_DATA then
      var rest := Parse(data[4..]);
      ([data[3]] + rest.0, rest.1)
    else Parse(data[1..])
  }

  class Receiver {
    var data: seq<byte>
    /** The key codes acted upon. */
    var keys: seq<byte>

    constructor ()
      ensures data == [] && keys == []
    {
      data, keys := [], [];
    }

    /** Takes what one read of the pipe returned. */
    method OnInput(chunk: seq<byte>)
      modifies this
      ensures var p := Parse(old(data) + chunk);
              keys == old(keys) + p.0 && data == p.1
    {
      data := data + chunk;
      while 4 <= |data|
        invariant keys + Parse(data).0 == old(keys) + Parse(old(data) + chunk).0
        invariant Parse(data).1 == Parse(old(data) + chunk).1
        decreases |data|
      {
        var size := SizeField(data);
        if 1024 < size {
          data := data[1..];
        } else if 2 > size {
          data := data[1..];
        } else if size > |data| {
          break;
        } else if data[2] == MSG_ID_GPIO_INPUT_EVENT_DATA {
          var key := data[3];
          ghost var rest := Parse(data[4..]).0;
          assert keys + ([key] + rest) == keys + [key] + rest;
          data := data[4..];
          keys := keys + [key];
        } else {
          data := data[1..];
        }
      }
      assert Parse(data) == ([], data) && keys + [] == keys;
    }
  }

  // ---------- reading in chunks ----------

  /** What the listener has after reading the chunks one by one: key codes and kept bytes. */
  function Received(chunks: seq<seq<byte>>): (seq<byte>, seq<byte>) {
    if chunks == [] then ([], [])
    else
      var before := Received(chunks[..|chunks| - 1]);
      var p := Parse(before.1 + chunks[|chunks| - 1]);
      (before.0 + p.0, p.1)
  }

  function Joined(chunks: seq<seq<byte>>): seq<byte> {
    if chunks == [] then [] else Joined(chunks[..|chunks| - 1]) + chunks[|chunks| - 1]
  }

  /** Parsing can stop at any byte and go on with the bytes kept. */
  lemma {:induction false} ParseInTwo(a: seq<byte>, b: seq<byte>, all: seq<byte>)
    requires all == a + b
    ensures var first := Parse(a);
            var second := Parse(first.1 + b);
            Parse(all) == (first.0 + second.0, second.1)
    decreases |a|
  {
    if |a| < 4 {
      assert Parse(a) == ([], a) && [] + Parse(all).0 == Parse(all).0;
    } else if SizeField(a) > MAX_PACKET_SIZE || SizeField(a) < 2 {
      ParseInTwo(a[1..], b, all[1..]);
    } else if SizeField(a) > |a| {
      assert Parse(a) == ([], a) && [] + Parse(all).0 == Parse(all).0;
    } else if a[2] == MSG_ID_GPIO_INPUT_EVENT_DATA {
      KeyInTwo(a, b, all);
      ParseInTwo(a[4..], b, all[4..]);
      var later := Parse(Parse(a[4..]).1 + b);
      assert [a[3]] + (Parse(a[4..]).0 + later.0) == [a[3]] + Parse(a[4..]).0 + later.0;
    } else {
      ParseInTwo(a[1..], b, all[1..]);
    }
  }

  lemma {:induction false} KeyInTwo(a: seq<byte>, b: seq<byte>, all: seq<byte>)
    requires all == a + b && |a| >= 4 && 2 <= SizeField(a) <= MAX_PACKET_SIZE && SizeField(a) <= |a|
    requires a[2] == MSG_ID_GPIO_INPUT_EVENT_DATA
    ensures Parse(a) == ([a[3]] + Parse(a[4..]).0, Parse(a[4..]).1)
    ensures Parse(all) == ([a[3]] + Parse(all[4..]).0, Parse(all[4..]).1)
  {}

  /** However a stream of any bytes is cut into chunks, the listener gets what it would get from the stream at once. */
  lemma {:induction false} ChunksDoNotMatter(chunks: seq<seq<byte>>)
    ensures Received(chunks) == Parse(Joined(chunks))
  {
    if chunks != [] {
      var k := |chunks| - 1;
      ChunksDoNotMatter(chunks[..k]);
      ParseInTwo(Joined(chunks[..k]), chunks[k], Joined(chunks));
    }
  }

  // ---------- round trip ----------

  function Codes(es: seq<Event>): (r: seq<byte>)
    requires OnPort(es)
    ensures |r| == |es| && forall i :: 0 <= i < |r| ==> r[i] == Code(es[i])
  {
    seq(|es|, i requires 0 <= i < |es| => Code(es[i]))
  }

  lemma {:induction false} EncodeFirst(es: seq<Event>)
    requires OnPort(es) && es != []
    ensures Encode(es) == Packet(es[0]) + Encode(es[1..])
  {
    var n := |es| - 1;
    if n > 0 {
      EncodeFirst(es[..n]);
      assert es[1..][..n - 1] == es[..n][1..];
    }
  }

  lemma {:induction false} ParsePacket(e: Event, rest: seq<byte>, all: seq<byte>)
    requires e.bit < 8 && all == Packet(e) + rest
    ensures Parse(all) == ([Code(e)] + Parse(rest).0, Parse(rest).1)
  {
    assert all[..4] == Packet(e) && all[4..] == rest;
  }

  /** Whole packets parse to their codes, whatever follows. */
  lemma {:induction false} ParsePackets(es: seq<Event>, rest: seq<byte>)
    requires OnPort(es)
    ensures Parse(Encode(es) + rest) == (Codes(es) + Parse(rest).0, Parse(rest).1)
  {
    if es == [] {
      assert [] + rest == rest && [] + Parse(rest).0 == Parse(rest).0;
    } else {
      EncodeFirst(es);
      assert Encode(es) + rest == Packet(es[0]) + (Encode(es[1..]) + rest);
      ParsePacket(es[0], Encode(es[1..]) + rest, Encode(es) + rest);
      ParsePackets(es[1..], rest);
      assert Codes(es) == [Code(es[0])] + Codes(es[1..]);
      assert [Code(es[0])] + (Codes(es[1..]) + Parse(rest).0) == Codes(es) + Parse(rest).0;
    }
  }

  lemma {:induction false} EncodeTake(es: seq<Event>, n: nat)
    requires OnPort(es) && n <= |es|
    ensures Encode(es)[..4 * n] == Encode(es[..n])
  {
    if n == |es| {
      assert es[..n] == es;
    } else {
      var k := |es| - 1;
      EncodeTake(es[..k], n);
      assert es[..k][..n] == es[..n];
    }
  }

  /** The first n bytes of the packet stream parse to the codes of the packets they hold whole. */
  lemma {:induction false} ParseStretch(es: seq<Event>, n: nat)
    requires OnPort(es) && n <= 4 * |es|
    ensures Parse(Encode(es)[..n]) == (Codes(es)[..n / 4], Encode(es)[4 * (n / 4)..n])
  {
    var whole := n / 4;
    var rest := Encode(es)[4 * whole..n];
    EncodeTake(es, whole);
    ParsePackets(es[..whole], rest);
    assert Encode(es)[..n] == Encode(es)[..4 * whole] + rest;
    assert Codes(es[..whole]) + [] == Codes(es)[..whole];
  }

  /** However the stream is cut into chunks, the listener gets the codes of the whole packets it holds, in order. */
  lemma {:induction false} ChunksDecode(es: seq<Event>, chunks: seq<seq<byte>>)
    requires OnPort(es) && Joined(chunks) <= Encode(es)
    ensures var n := |Joined(chunks)|;
            Received(chunks) == (Codes(es)[..n / 4], Encode(es)[4 * (n / 4)..n])
  {
    ChunksDoNotMatter(chunks);
    ParseStretch(es, |Joined(chunks)|);
    assert Encode(es)[..|Joined(chunks)|] == Joined(chunks);
  }

  /**
   * From edge to key: after any run of the sender that met no write error, and any way the listener's reads cut
   * the pipe, it has the codes of exactly the events sent whose packet is in the pipe as a whole.
   */
  lemma {:induction false} ListenerGetsEvents(direction: Port, steps: seq<Step>, chunks: seq<seq<byte>>)
    requires RunErrors(direction, steps) == 0 && Joined(chunks) == Run(direction, steps).pipe
    ensures var g := Run(direction, steps);
            && OnPort(SentOnly(g.taken)) && |g.pipe| <= 4 * |SentOnly(g.taken)|
            && Received(chunks).0 == Codes(SentOnly(g.taken))[..|g.pipe| / 4]
            && (g.tail == [] ==> Received(chunks) == (Codes(SentOnly(g.taken)), []))
  {
    var g := Run(direction, steps);
    FramedExactly(direction, steps);
    ChunksDecode(SentOnly(g.taken), chunks);
    if g.tail == [] {
      assert g.pipe + [] == g.pipe;
      WholeStreamDecodes(SentOnly(g.taken), chunks);
    }
  }

  lemma {:induction false} WholeStreamDecodes(es: seq<Event>, chunks: seq<seq<byte>>)
    requires OnPort(es) && Joined(chunks) == Encode(es)
    ensures Received(chunks) == (Codes(es), [])
  {
    ChunksDecode(es, chunks);
    var n := |Joined(chunks)|;
    assert n / 4 == |es| && n == 4 * |es|;
    assert Encode(es)[n..n] == [] && Codes(es)[..|es|] == Codes(es);
  }

  // ---------- from port to port ----------

  /** The events the listener reads off the key codes. */
  function EventsOf(keys: seq<byte>): (r: seq<Event>)
    ensures OnPort(r)
  {
    if keys == [] then []
    else
      var last := EventOf(keys[|keys| - 1]);
      EventsOf(keys[..|keys| - 1]) + if last.Some? then [last.value] else []
  }

  lemma {:induction false} EventsComeBack(es: seq<Event>)
    requires OnPort(es)
    ensures EventsOf(Codes(es)) == es
  {
    if es != [] {
      var n := |es| - 1;
      EventsComeBack(es[..n]);
      CodesTellEvents(es[n]);
      assert Codes(es)[..n] == Codes(es[..n]);
    }
  }

  predicate NoneDropped(taken: seq<Taken>) {
    forall i :: 0 <= i < |taken| ==> taken[i].Sent?
  }

  lemma {:induction false} AllSent(taken: seq<Taken>)
    requires NoneDropped(taken)
    ensures SentOnly(taken) == Events(taken)
  {
    if taken != [] {
      AllSent(taken[..|taken| - 1]);
    }
  }

  /**
   * After any run of the sender that met no write error, dropped no event and has nothing left to send, the listener
   * knows the port: its events, replayed on a port with all lines high, give the status on the input lines.
   */
  lemma {:induction false} ListenerKnowsPort(direction: Port, steps: seq<Step>, chunks: seq<seq<byte>>)
    requires RunErrors(direction, steps) == 0 && Joined(chunks) == Run(direction, steps).pipe
    requires !Run(direction, steps).Pending() && NoneDropped(Run(direction, steps).taken)
    ensures AgreeOnInputs(direction, Replay(EventsOf(Received(chunks).0)), Run(direction, steps).status)
  {
    var g := Run(direction, steps);
    RunKeepsInv(direction, steps);
    ListenerGetsEvents(direction, steps, chunks);
    AllSent(g.taken);
    EventsComeBack(SentOnly(g.taken));
    assert g.detected == Events(g.taken) + [] == Events(g.taken);
  }

  // ---------- after a write error ----------

  /** The keys read off the first k bytes of a packet and the whole packets of the events that follow. */
  function KeysAfterCut(k: nat, es: seq<Event>): seq<byte>
    requires OnPort(es)
  {
    if k <= 1 then Codes(es)
    else if k == 2 then if |es| < 256 then [] else Codes(es)
    else if es == [] then []
    else if |es| <= 64 then [4]
    else [4] + Codes(es[1..])
  }

  /** One byte makes no sense as a size together with the next packet's start, and is skipped. */
  lemma {:induction false} CutAfterOne(es: seq<Event>, data: seq<byte>)
    requires OnPort(es) && data == [4] + Encode(es)
    ensures Parse(data).0 == Codes(es)
  {
    if es != [] {
      EncodeFirst(es);
      assert SizeField(data) == 1028 && data[1..] == Encode(es);
    }
    WholeParses(es);
  }

  lemma {:induction false} WholeParses(es: seq<Event>)
    requires OnPort(es)
    ensures Parse(Encode(es)) == (Codes(es), [])
  {
    ParsePackets(es, []);
    assert Encode(es) + [] == Encode(es) && Codes(es) + [] == Codes(es);
  }

  /** Two bytes pass for a packet of 4 bytes without a message, and then for the start of one of 1024 bytes. */
  lemma {:induction false} CutAfterTwo(es: seq<Event>, data: seq<byte>)
    requires OnPort(es) && data == [4, 0] + Encode(es)
    ensures Parse(data).0 == if |es| < 256 then [] else Codes(es)
  {
    if es != [] {
      EncodeFirst(es);
      assert SizeField(data) == 4 && data[2] == 4;
      var shifted := data[1..];
      assert SizeField(shifted) == 1024 && |shifted| == 1 + 4 * |es|;
      if |es| >= 256 {
        assert shifted[2] == 0 && shifted[1..] == Encode(es);
        WholeParses(es);
      }
    }
  }

  /** The rest of a packet whose first byte was taken for a key passes for the start of one of 256 bytes. */
  lemma {:induction false} AfterWrongKey(e: Event, es: seq<Event>, data: seq<byte>)
    requires e.bit < 8 && OnPort(es) && data == [0, 1, Code(e)] + Encode(es)
    ensures Parse(data).0 == if |es| < 64 then [] else Codes(es)
  {
    if es != [] {
      EncodeFirst(es);
      assert SizeField(data) == 256 && |data| == 3 + 4 * |es|;
      if |es| >= 64 {
        var second, third := data[1..], data[2..];
        assert data[2] == Code(e) && SizeField(second) > 1024 && SizeField(third) > 1024;
        assert second[1..] == third && third[1..] == Encode(es);
        assert Parse(data) == Parse(second) && Parse(second) == Parse(third) && Parse(third) == Parse(Encode(es));
        WholeParses(es);
      }
    }
  }

  /** Three bytes pass for a packet whose message is the first byte of the next packet. */
  lemma {:induction false} CutAfterThree(es: seq<Event>, data: seq<byte>)
    requires OnPort(es) && data == [4, 0, 1] + Encode(es)
    ensures Parse(data).0 == KeysAfterCut(3, es)
  {
    if es != [] {
      EncodeFirst(es);
      assert SizeField(data) == 4 && data[3] == 4;
      assert data[4..] == [0, 1, Code(es[0])] + Encode(es[1..]);
      AfterWrongKey(es[0], es[1..], data[4..]);
    }
  }

  /** The keys read off a packet cut after k bytes and any whole packets behind it. */
  lemma {:induction false} CutPacketKeys(e: Event, k: nat, es: seq<Event>)
    requires e.bit < 8 && k < 4 && OnPort(es)
    ensures Parse(Packet(e)[..k] + Encode(es)).0 == KeysAfterCut(k, es)
  {
    if k == 0 {
      assert Packet(e)[..0] + Encode(es) == Encode(es);
      WholeParses(es);
    } else if k == 1 {
      CutAfterOne(es, Packet(e)[..1] + Encode(es));
    } else if k == 2 {
      CutAfterTwo(es, Packet(e)[..2] + Encode(es));
    } else {
      CutAfterThree(es, Packet(e)[..3] + Encode(es));
    }
  }

  /**
   * A packet cut after k of its 4 bytes: the keys of all events behind it come through exactly if there are none, or at
   * most one byte of it was written, or two were and at least 256 whole packets follow.
   */
  lemma {:induction false} HarmlessExactly(k: nat, es: seq<Event>)
    requires k < 4 && OnPort(es)
    ensures KeysAfterCut(k, es) == Codes(es) <==> Harmless(k, |es|)
  {
    if es != [] {
      assert Codes(es)[0] == Code(es[0]) && Code(es[0]) != 4;
    }
  }

  predicate Harmless(k: nat, later: nat) {
    later == 0 || k <= 1 || (k == 2 && later >= 256)
  }

  lemma {:induction false} SameStart<T>(a: seq<T>, b: seq<T>, c: seq<T>)
    ensures a + b == a + c <==> b == c
  {
    if a + b == a + c {
      assert b == (a + b)[|a|..] && c == (a + c)[|a|..];
    }
  }

  /** Only the i-th packet was cut short. */
  predicate CutOnlyAt(kept: seq<int>, i: nat) {
    i < |kept| && 0 <= kept[i] < PACKET_SIZE && forall j :: 0 <= j < |kept| && j != i ==> kept[j] == PACKET_SIZE
  }

  lemma {:induction false} AppendLast<T>(a: seq<T>, b: seq<T>, c: seq<T>, d: seq<T>)
    ensures a + (b + c) + d == a + (b + (c + d))
  {}

  lemma {:induction false} StreamOfOneCut(es: seq<Event>, kept: seq<int>, i: nat)
    requires OnPort(es) && |kept| == |es| && Shares(kept) && CutOnlyAt(kept, i)
    ensures Stream(es, kept) == Encode(es[..i]) + (Packet(es[i])[..kept[i]] + Encode(es[i + 1..]))
  {
    var n := |es| - 1;
    if i == n {
      NoCuts(kept[..n]);
      WholeStream(es[..n], kept[..n]);
      assert es[i + 1..] == [] && Packet(es[i])[..kept[i]] + [] == Packet(es[i])[..kept[i]];
    } else {
      var later := es[i + 1..];
      StreamOfOneCut(es[..n], kept[..n], i);
      assert es[..n][..i] == es[..i] && es[..n][i + 1..] == later[..|later| - 1];
      EndsWhole(es, kept, later);
      AppendLast(Encode(es[..i]), Packet(es[i])[..kept[i]], Encode(later[..|later| - 1]), Packet(es[n]));
    }
  }

  lemma {:induction false} EndsWhole(es: seq<Event>, kept: seq<int>, later: seq<Event>)
    requires OnPort(es) && |kept| == |es| && Shares(kept) && es != [] && kept[|es| - 1] == PACKET_SIZE
    requires later != [] && OnPort(later) && later[|later| - 1] == es[|es| - 1]
    ensures Stream(es, kept) == Stream(es[..|es| - 1], kept[..|es| - 1]) + Packet(es[|es| - 1])
    ensures Encode(later) == Encode(later[..|later| - 1]) + Packet(es[|es| - 1])
  {
    assert Packet(es[|es| - 1])[..PACKET_SIZE] == Packet(es[|es| - 1]);
  }

  lemma {:induction false} NoCuts(kept: seq<int>)
    requires forall j :: 0 <= j < |kept| ==> kept[j] == PACKET_SIZE
    ensures CutCount(kept) == 0
  {
    if kept != [] {
      NoCuts(kept[..|kept| - 1]);
    }
  }

  lemma {:induction false} FindCut(kept: seq<int>) returns (i: nat)
    requires Shares(kept) && CutCount(kept) == 1
    ensures CutOnlyAt(kept, i)
  {
    var n := |kept| - 1;
    if kept[n] < PACKET_SIZE {
      i := n;
      UncutIsWhole(kept[..n]);
      assert forall j :: 0 <= j < n ==> kept[j] == kept[..n][j];
    } else {
      i := FindCut(kept[..n]);
      assert forall j :: 0 <= j < n ==> kept[j] == kept[..n][j];
    }
  }

  lemma {:induction false} UncutIsWhole(kept: seq<int>)
    requires Shares(kept) && CutCount(kept) == 0
    ensures forall j :: 0 <= j < |kept| ==> kept[j] == PACKET_SIZE
  {
    if kept != [] {
      UncutIsWhole(kept[..|kept| - 1]);
      assert forall j :: 0 <= j < |kept| - 1 ==> kept[j] == kept[..|kept| - 1][j];
    }
  }

  lemma {:induction false} OneCutDecodes(es: seq<Event>, kept: seq<int>, i: nat, chunks: seq<seq<byte>>)
    requires OnPort(es) && |kept| == |es| && Shares(kept) && CutOnlyAt(kept, i)
    requires Joined(chunks) == Stream(es, kept)
    ensures Received(chunks).0 == Codes(es[..i]) + KeysAfterCut(kept[i], es[i + 1..])
    ensures Received(chunks).0 == Codes(es[..i]) + Codes(es[i + 1..]) <==> Harmless(kept[i], |es| - i - 1)
  {
    StreamOfOneCut(es, kept, i);
    ChunksDoNotMatter(chunks);
    var later := es[i + 1..];
    ParsePackets(es[..i], Packet(es[i])[..kept[i]] + Encode(later));
    CutPacketKeys(es[i], kept[i], later);
    HarmlessExactly(kept[i], later);
    SameStart(Codes(es[..i]), KeysAfterCut(kept[i], later), Codes(later));
  }

  /**
   * After any run of the sender that met one write error, with everything else in the pipe: the listener has the
   * codes of the events sent before the one whose packet was cut, and what a cut after that many bytes leaves of the
   * later ones; those are their codes exactly if the cut is harmless.
   */
  lemma {:induction false} ListenerAfterError(direction: Port, steps: seq<Step>, chunks: seq<seq<byte>>)
    returns (i: nat)
    requires RunErrors(direction, steps) == 1
    requires Run(direction, steps).tail == [] && Joined(chunks) == Run(direction, steps).pipe
    ensures var g := Run(direction, steps);
            var sent := SentOnly(g.taken);
            && OnPort(sent) && |g.kept| == |sent| && CutOnlyAt(g.kept, i)
            && Received(chunks).0 == Codes(sent[..i]) + KeysAfterCut(g.kept[i], sent[i + 1..])
            && (Received(chunks).0 == Codes(sent[..i]) + Codes(sent[i + 1..]) <==> Harmless(g.kept[i], |sent| - i - 1))
  {
    var g := Run(direction, steps);
    var sent := SentOnly(g.taken);
    RunKeepsInv(direction, steps);
    LosesOnErrorOnly(direction, steps);
    i := FindCut(g.kept);
    assert g.pipe + [] == g.pipe;
    OneCutDecodes(sent, g.kept, i, chunks);
  }

  // ---------- any number of write errors ----------

  /** The events whose packets are whole. */
  function WholeOnes(es: seq<Event>, kept: seq<int>): (r: seq<Event>)
    requires |kept| == |es|
    ensures OnPort(es) ==> OnPort(r)
  {
    if es == [] then []
    else (if kept[0] == PACKET_SIZE then [es[0]] else []) + WholeOnes(es[1..], kept[1..])
  }

  /** How many bytes there are in all. */
  function Bytes(kept: seq<int>): int {
    if kept == [] then 0 else kept[0] + Bytes(kept[1..])
  }

  predicate NoneWhole(kept: seq<int>) {
    forall i :: 0 <= i < |kept| ==> kept[i] != PACKET_SIZE
  }

  /**
   * The cuts that keep no whole packet from the listener and make it read no wrong key: up to a packet cut after its
   * second byte with fewer than 1025 bytes from its start on, none is cut after its third byte with a byte behind it;
   * and there is no whole packet behind that one.
   */
  predicate ComesThrough(kept: seq<int>) {
    if kept == [] then true
    else if kept[0] == 2 && Bytes(kept) < 1025 then NoneWhole(kept)
    else if kept[0] == 3 then Bytes(kept) == 3
    else ComesThrough(kept[1..])
  }

  lemma {:induction false} StreamFirst(es: seq<Event>, kept: seq<int>)
    requires OnPort(es) && |kept| == |es| && Shares(kept) && es != []
    ensures Stream(es, kept) == Packet(es[0])[..kept[0]] + Stream(es[1..], kept[1..])
  {
    var n := |es| - 1;
    if n == 0 {
      assert es[..0] == [] && es[1..] == [];
    } else {
      StreamFirst(es[..n], kept[..n]);
      assert es[1..][..n - 1] == es[..n][1..] && kept[1..][..n - 1] == kept[..n][1..];
      Regroup(Packet(es[0])[..kept[0]], Stream(es[..n][1..], kept[..n][1..]), Packet(es[n])[..kept[n]]);
    }
  }

  /** A stream starts with a packet's first byte, and then with its second or the next packet's first. */
  lemma {:induction false} StreamStarts(es: seq<Event>, kept: seq<int>, data: seq<byte>)
    requires OnPort(es) && |kept| == |es| && Shares(kept) && data == Stream(es, kept)
    ensures |data| == Bytes(kept)
    ensures |data| >= 1 ==> data[0] == 4
    ensures |data| >= 2 ==> data[1] == 0 || data[1] == 4
  {
    if es != [] {
      StreamFirst(es, kept);
      StreamStarts(es[1..], kept[1..], Stream(es[1..], kept[1..]));
    }
  }

  lemma {:induction false} WholeOnesNone(es: seq<Event>, kept: seq<int>)
    requires |kept| == |es|
    ensures WholeOnes(es, kept) == [] <==> NoneWhole(kept)
  {
    if es != [] {
      WholeOnesNone(es[1..], kept[1..]);
      assert NoneWhole(kept) <==> kept[0] != PACKET_SIZE && NoneWhole(kept[1..]) by {
        assert forall i :: 1 <= i < |kept| ==> kept[i] == kept[1..][i - 1];
      }
    }
  }

  lemma {:induction false} FewBytesNoneWhole(kept: seq<int>)
    requires Shares(kept)
    ensures Bytes(kept) >= 0 && (Bytes(kept) < 4 ==> NoneWhole(kept))
  {
    if kept != [] {
      FewBytesNoneWhole(kept[1..]);
      assert forall i :: 1 <= i < |kept| ==> kept[i] == kept[1..][i - 1];
    }
  }

  /** One byte in front of a stream is skipped, or waits with too few bytes behind it. */
  lemma {:induction false} OneByteInFront(data: seq<byte>, rest: seq<byte>)
    requires data == [4] + rest && (|rest| >= 1 ==> rest[0] == 4)
    ensures Parse(data).0 == Parse(rest).0
  {
    if |data| >= 4 {
      assert SizeField(data) == 1028 && data[1..] == rest;
    }
  }

  /** Two bytes in front of a stream let it through exactly if 1025 bytes are there. */
  lemma {:induction false} TwoBytesInFront(data: seq<byte>, rest: seq<byte>)
    requires data == [4, 0] + rest
    requires (|rest| >= 1 ==> rest[0] == 4) && (|rest| >= 2 ==> rest[1] == 0 || rest[1] == 4)
    ensures Parse(data).0 == if |data| < 1025 then [] else Parse(rest).0
  {
    if |data| >= 4 {
      assert SizeField(data) == 4 && data[2] == 4;
      var shifted := data[1..];
      if |shifted| >= 4 {
        assert SizeField(shifted) == 1024;
        if |shifted| >= 1024 {
          assert shifted[2] != 1 && shifted[1..] == rest;
        }
      }
    }
  }

  /** Three bytes in front of anything make a wrong key. */
  lemma {:induction false} ThreeBytesInFront(data: seq<byte>, rest: seq<byte>)
    requires data == [4, 0, 1] + rest && (|rest| >= 1 ==> rest[0] == 4)
    ensures if rest == [] then Parse(data).0 == [] else |Parse(data).0| > 0 && Parse(data).0[0] == 4
  {
    if rest != [] {
      assert SizeField(data) == 4 && data[3] == 4;
    }
  }

  /** The listener reads exactly the keys of the whole packets exactly if the cuts let them through. */
  lemma {:induction false} ComesThroughExactly(es: seq<Event>, kept: seq<int>)
    requires OnPort(es) && |kept| == |es| && Shares(kept)
    ensures Parse(Stream(es, kept)).0 == Codes(WholeOnes(es, kept)) <==> ComesThrough(kept)
  {
    if es != [] {
      var data, rest := Stream(es, kept), Stream(es[1..], kept[1..]);
      StreamFirst(es, kept);
      StreamStarts(es, kept, data);
      StreamStarts(es[1..], kept[1..], rest);
      ComesThroughExactly(es[1..], kept[1..]);
      FirstPiece(es, kept, data, rest);
    }
  }

  lemma {:induction false} ThreePiece(es: seq<Event>, kept: seq<int>, data: seq<byte>, rest: seq<byte>,
                                      whole: seq<Event>)
    requires OnPort(es) && |kept| == |es| && Shares(kept) && es != [] && kept[0] == 3 && whole == WholeOnes(es, kept)
    requires data == Packet(es[0])[..3] + rest && |data| == Bytes(kept) && (|rest| >= 1 ==> rest[0] == 4)
    ensures Parse(data).0 == Codes(whole) <==> Bytes(kept) == 3
  {
    ThreeBytesInFront(data, rest);
    if rest == [] {
      FewBytesNoneWhole(kept);
      WholeOnesNone(es, kept);
    } else if whole != [] {
      assert Codes(whole)[0] == Code(whole[0]) != 4;
    }
  }

  lemma {:induction false} WholePiece(e: Event, data: seq<byte>, rest: seq<byte>, whole: seq<Event>)
    requires e.bit < 8 && OnPort(whole) && data == Packet(e) + rest
    ensures Parse(data).0 == Codes([e] + whole) <==> Parse(rest).0 == Codes(whole)
  {
    ParsePacket(e, rest, data);
    assert Codes([e] + whole) == [Code(e)] + Codes(whole);
    SameStart([Code(e)], Parse(rest).0, Codes(whole));
  }

  lemma {:induction false} TwoPiece(es: seq<Event>, kept: seq<int>, data: seq<byte>, rest: seq<byte>, whole: seq<Event>)
    requires OnPort(es) && |kept| == |es| && es != [] && kept[0] == 2 && whole == WholeOnes(es, kept)
    requires data == Packet(es[0])[..2] + rest && |data| == Bytes(kept)
    requires (|rest| >= 1 ==> rest[0] == 4) && (|rest| >= 2 ==> rest[1] == 0 || rest[1] == 4)
    ensures if |data| < 1025 then Parse(data).0 == Codes(whole) <==> NoneWhole(kept)
            else Parse(data).0 == Parse(rest).0
  {
    TwoBytesInFront(data, rest);
    WholeOnesNone(es, kept);
  }

  lemma {:induction false} FirstPiece(es: seq<Event>, kept: seq<int>, data: seq<byte>, rest: seq<byte>)
    requires OnPort(es) && |kept| == |es| && Shares(kept) && es != []
    requires data == Packet(es[0])[..kept[0]] + rest && |data| == Bytes(kept)
    requires (|rest| >= 1 ==> rest[0] == 4) && (|rest| >= 2 ==> rest[1] == 0 || rest[1] == 4)
    requires Parse(rest).0 == Codes(WholeOnes(es[1..], kept[1..])) <==> ComesThrough(kept[1..])
    ensures Parse(data).0 == Codes(WholeOnes(es, kept)) <==> ComesThrough(kept)
  {
    var later := WholeOnes(es[1..], kept[1..]);
    assert [] + later == later;
    if kept[0] == 0 {
      assert data == rest;
    } else if kept[0] == 1 {
      OneByteInFront(data, rest);
    } else if kept[0] == 2 {
      TwoPiece(es, kept, data, rest, WholeOnes(es, kept));
    } else if kept[0] == 3 {
      ThreePiece(es, kept, data, rest, WholeOnes(es, kept));
    } else {
      assert Packet(es[0])[..PACKET_SIZE] == Packet(es[0]);
      WholePiece(es[0], data, rest, later);
    }
  }

  /** How many bytes of each packet sent are in the pipe. */
  function InPipe(g: Gpio): seq<int> {
    if g.tail == [] then g.kept else CutLast(g.kept, |g.tail|)
  }

  /**
   * From edge to key after any run, with any number of write errors and perhaps a packet half written: the listener has
   * the codes of exactly the events whose packets are whole in the pipe, exactly if the cuts let them through.
   */
  lemma {:induction false} ListenerExactly(direction: Port, steps: seq<Step>, chunks: seq<seq<byte>>)
    requires Joined(chunks) == Run(direction, steps).pipe
    ensures var g := Run(direction, steps);
            var sent := SentOnly(g.taken);
            && OnPort(sent) && |InPipe(g)| == |sent|
            && (Received(chunks).0 == Codes(WholeOnes(sent, InPipe(g))) <==> ComesThrough(InPipe(g)))
  {
    var g := Run(direction, steps);
    var sent := SentOnly(g.taken);
    RunKeepsInv(direction, steps);
    if g.tail != [] {
      CutFrames(g.pipe, g.tail, g.kept, sent);
    }
    assert g.pipe + [] == g.pipe;
    ChunksDoNotMatter(chunks);
    ComesThroughExactly(sent, InPipe(g));
  }

  /** No packet was cut after its second or third byte. */
  predicate CutEarly(kept: seq<int>) {
    forall i :: 0 <= i < |kept| ==> kept[i] <= 1 || kept[i] == PACKET_SIZE
  }

  lemma {:induction false} EarlyCutsComeThrough(kept: seq<int>)
    requires CutEarly(kept)
    ensures ComesThrough(kept)
  {
    if kept != [] {
      EarlyCutsComeThrough(kept[1..]);
    }
  }

  /** In particular, cuts after at most one byte keep no whole packet back, however many there are. */
  lemma {:induction false} EarlyCutsAreHarmless(direction: Port, steps: seq<Step>, chunks: seq<seq<byte>>)
    requires var g := Run(direction, steps); CutEarly(InPipe(g)) && Joined(chunks) == g.pipe
    ensures var g := Run(direction, steps);
            var sent := SentOnly(g.taken);
            && OnPort(sent) && |InPipe(g)| == |sent|
            && Received(chunks).0 == Codes(WholeOnes(sent, InPipe(g)))
  {
    ListenerExactly(direction, steps, chunks);
    EarlyCutsComeThrough(InPipe(Run(direction, steps)));
  }

  // ---------- every cut is reached ----------

  /** Line "bit", an input, is the only one that has changed, and it has gone low. */
  predicate WentLow(direction: Port, was: Port, now: Port, bit: nat) {
    bit < 8 && !direction[bit] && was[bit] && !now[bit] && forall j :: 0 <= j < 8 && j != bit ==> now[j] == was[j]
  }

  lemma {:induction false} OneEdge(direction: Port, was: Port, now: Port, bit: nat, n: nat)
    requires WentLow(direction, was, now, bit) && n <= 8
    ensures Edges(direction, was, now, n) == if bit < n then [Event(bit, false)] else []
  {
    if n > 0 {
      OneEdge(direction, was, now, bit, n - 1);
      EdgeOfBit(direction, was, now, bit, n - 1);
    }
  }

  lemma {:induction false} EdgeOfBit(direction: Port, was: Port, now: Port, bit: nat, k: nat)
    requires WentLow(direction, was, now, bit) && k < 8
    ensures EdgeAt(direction, was, now, k) == if k == bit then [Event(bit, false)] else []
  {}

  lemma {:induction false} OnlyOne(e: Event, all: seq<Event>)
    requires all == [] + [e]
    ensures Excess(|all|) == 0 && all[0..] == [e] && all[Excess(|all|)..] == [e]
    ensures [] + DropAll(all[..Excess(|all|)]) == []
  {}

  lemma {:induction false} EdgeIsQueued(g: Gpio, direction: Port, now: Port, bit: nat)
    requires WentLow(direction, g.status, now, bit) && g.queue == [] && g.taken == []
    ensures var g1 := AfterCheck(g, direction, now);
            && g1.queue == [Event(bit, false)] && g1.tail == g.tail
            && g1.pipe == g.pipe && g1.taken == [] && g1.kept == g.kept
  {
    var e := Event(bit, false);
    var edges := Edges(direction, g.status, now, |now|);
    var all := g.queue + edges;
    OneEdge(direction, g.status, now, bit, |now|);
    OnlyOne(e, all);
    CheckIs(g, direction, now, edges, all,
            g.(status := now, queue := [e], detected := g.detected + edges, taken := [], watching := true));
  }

  /** The pipe takes k bytes of the only packet, then fails. */
  function CutAnswers(k: nat): seq<Answer> {
    if k == 0 then [Error] else [Wrote(k), Error]
  }

  lemma {:induction false} LastError(g: Gpio)
    requires g.queue == [] && g.tail != []
    ensures Drain(g, [Error]) == GivenUp(g) && ErrorsMet(g, [Error]) == 1
  {
    var none: seq<Answer> := [];
    var g1 := GivenUp(g);
    assert [Error][1..] == none;
    assert Stops(g1, none) && Drain(g1, none) == g1 && ErrorsMet(g1, none) == 0;
    assert WriteStep(g, [Error]) == g1;
  }

  lemma {:induction false} WroteThen(g: Gpio, k: nat, answers: seq<Answer>)
    requires g.queue == [] && g.tail != [] && answers == [Wrote(k), Error]
    ensures Drain(g, answers) == Drain(Written(g, k), [Error])
    ensures ErrorsMet(g, answers) == ErrorsMet(Written(g, k), [Error])
  {
    assert answers[1..] == [Error];
    assert WriteStep(g, answers) == Written(g, k);
  }

  lemma {:induction false} CutDrain(g: Gpio, e: Event, k: nat)
    requires g.queue == [e] && e.bit < 8 && g.tail == [] && k < 4
    ensures var d := Drain(g, CutAnswers(k));
            && d == g.(queue := [], pipe := g.pipe + Packet(e)[..k], taken := g.taken + [Sent(e)], kept := g.kept + [k])
            && ErrorsMet(g, CutAnswers(k)) == 1
  {
    var answers := CutAnswers(k);
    var g1 := Popped(g);
    assert WriteStep(g, answers) == g1 && g1.queue == [] && g1.tail == Packet(e);
    assert g.pipe + [] == g.pipe && Packet(e)[..0] == [];
    var g2 := if k == 0 then g1 else Written(g1, k);
    if k > 0 {
      WroteThen(g1, k, answers);
    }
    LastError(g2);
    assert GivenUp(g2).kept == g.kept + [k];
  }

  lemma {:induction false} RunTwo(direction: Port, first: Step, second: Step, g: Gpio)
    requires first.Check? && second.Write? && g == Next(INIT, direction, first)
    ensures Run(direction, [first, second]) == Next(g, direction, second)
    ensures RunErrors(direction, [first, second]) == ErrorsMet(g, second.answers)
  {
    assert [first, second][..1] == [first] && [first][..0] == [];
    assert Run(direction, []) == INIT && Run(direction, [first]) == g;
    assert RunErrors(direction, []) == 0 && RunErrors(direction, [first]) == 0;
  }

  /** A falling edge on any input line and a pipe that fails after k bytes: the one packet sent is cut there. */
  lemma {:induction false} CutIsReached(direction: Port, now: Port, bit: nat, k: nat, steps: seq<Step>)
    requires k < 4 && WentLow(direction, ALL_HIGH, now, bit)
    requires steps == [Check(Some(now)), Write(CutAnswers(k))]
    ensures RunErrors(direction, steps) == 1
    ensures var g := Run(direction, steps);
            && g.tail == [] && g.kept == [k]
            && SentOnly(g.taken) == [Event(bit, false)] && g.pipe == Packet(Event(bit, false))[..k]
  {
    var g := AfterCheck(INIT, direction, now);
    EdgeIsQueued(INIT, direction, now, bit);
    RunTwo(direction, steps[0], steps[1], g);
    CutDrain(g, Event(bit, false), k);
    var taken := [Sent(Event(bit, false))];
    assert taken[..0] == [] && SentOnly(taken) == [] + [Event(bit, false)];
  }
}
