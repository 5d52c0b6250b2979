/**
 * The GPIO buttons: edges are detected, queued and sent as 4-byte packets over a pipe that may take part of a packet.
 */
module GpioButtons {
  import opened Basics

  /** The 8 lines of the port, lowest bit first. */
  type Port = s: seq<bool> | |s| == 8 witness [true, true, true, true, true, true, true, true]

  const ALL_HIGH: Port := [true, true, true, true, true, true, true, true]
  const QUEUE_MAX_LEN := 200
  const MSG_ID_GPIO_INPUT_EVENT_DATA: byte := 1
  const PACKET_SIZE := 4

  /** One edge of one line. */
  datatype Event = Event(bit: nat, up: bool)

  function Code(e: Event): byte
    requires e.bit < 8
  {
    if e.up then 20 + e.bit else 10 + e.bit
  }

  function Packet(e: Event): (r: seq<byte>)
    requires e.bit < 8
    ensures |r| == PACKET_SIZE
  {
    [4, 0, MSG_ID_GPIO_INPUT_EVENT_DATA, Code(e)]
  }

  predicate OnPort(es: seq<Event>) {
    forall i :: 0 <= i < |es| ==> es[i].bit < 8
  }

  function Encode(es: seq<Event>): (r: seq<byte>)
    requires OnPort(es)
    ensures |r| == PACKET_SIZE * |es|
  {
    if es == [] then [] else Encode(es[..|es| - 1]) + Packet(es[|es| - 1])
  }

  /** How an event left the queue. */
  datatype Taken = Sent(event: Event) | Dropped(event: Event)

  function Events(taken: seq<Taken>): (r: seq<Event>)
    ensures |r| == |taken|
  {
    if taken == [] then [] else Events(taken[..|taken| - 1]) + [taken[|taken| - 1].event]
  }

  function SentOnly(taken: seq<Taken>): seq<Event> {
    if taken == [] then []
    else
      var last := taken[|taken| - 1];
      if last.Sent? then SentOnly(taken[..|taken| - 1]) + [last.event] else SentOnly(taken[..|taken| - 1])
  }

  function DropAll(es: seq<Event>): (r: seq<Taken>)
    ensures |r| == |es| && forall i :: 0 <= i < |r| ==> r[i] == Dropped(es[i])
  {
    seq(|es|, i requires 0 <= i < |es| => Dropped(es[i]))
  }

  /** The edge of one line; an input line has a false direction bit. */
  function EdgeAt(direction: Port, was: Port, now: Port, k: nat): (r: seq<Event>)
    requires k < 8
    ensures OnPort(r)
  {
    if !direction[k] && now[k] != was[k] then [Event(k, now[k])] else []
  }

  /** Edges of the lines below n. */
  function Edges(direction: Port, was: Port, now: Port, n: nat): (r: seq<Event>)
    requires n <= 8
    ensures OnPort(r)
  {
    if n == 0 then [] else Edges(direction, was, now, n - 1) + EdgeAt(direction, was, now, n - 1)
  }

  /** How the pipe answers a write: it takes some bytes, none, refuses for now, or fails. */
  datatype Answer = Wrote(n: nat) | Zero | Again | Error

  /**
   * The sender: port status, queue, bytes of the current packet not yet written, bytes in the pipe, whether
   * the pipe is watched; and for the record, all events detected, how each left the queue, and how many bytes
   * of its packet each event sent got or will get into the pipe.
   */
  datatype Gpio = Gpio(
    status: Port,
    queue: seq<Event>,
    tail: seq<byte>,
    pipe: seq<byte>,
    watching: bool,
    detected: seq<Event>,
    taken: seq<Taken>,
    kept: seq<int>)
  {
    predicate Pending() {
      tail != [] || queue != []
    }
  }

  const INIT := Gpio(ALL_HIGH, [], [], [], false, [], [], [])

  /** How many of the oldest events are too many. */
  function Excess(n: nat): (r: nat)
    ensures r <= n
  {
    if n > QUEUE_MAX_LEN then n - QUEUE_MAX_LEN else 0
  }

  /** One reading of the port. */
  function AfterCheck(g: Gpio, direction: Port, now: Port): (r: Gpio)
    ensures OnPort(g.queue) ==> OnPort(r.queue)
  {
    if now == g.status then g
    else
      var edges := Edges(direction, g.status, now, |now|);
      var all := g.queue + edges;
      var over := Excess(|all|);
      g.(status := now, queue := all[over..], detected := g.detected + edges, taken := g.taken + DropAll(all[..over]),
         watching := g.watching || g.tail != [] || all[over..] != [])
  }

  lemma {:induction false} CheckIs(g: Gpio, direction: Port, now: Port, edges: seq<Event>, all: seq<Event>, r: Gpio)
    requires now != g.status && edges == Edges(direction, g.status, now, |now|) && all == g.queue + edges
    requires r.status == now && r.tail == g.tail && r.pipe == g.pipe && r.kept == g.kept
    requires r.queue == all[Excess(|all|)..] && r.taken == g.taken + DropAll(all[..Excess(|all|)])
    requires r.detected == g.detected + edges && r.watching == (g.watching || g.tail != [] || r.queue != [])
    ensures r == AfterCheck(g, direction, now)
  {}

  /** How much of the tail one write takes. */
  function Part(n: nat, tail: seq<byte>): (r: nat)
    requires tail != []
    ensures 1 <= r <= |tail|
  {
    if n == 0 then 1 else if n < |tail| then n else |tail|
  }

  function Popped(g: Gpio): Gpio
    requires g.queue != [] && OnPort(g.queue)
  {
    g.(queue := g.queue[1..], tail := Packet(g.queue[0]), taken := g.taken + [Sent(g.queue[0])],
       kept := g.kept + [PACKET_SIZE])
  }

  function Written(g: Gpio, n: nat): Gpio
    requires g.tail != []
  {
    var k := Part(n, g.tail);
    g.(pipe := g.pipe + g.tail[..k], tail := g.tail[k..])
  }

  /** The last event sent does not get the given number of bytes of its packet into the pipe. */
  function CutLast(kept: seq<int>, left: nat): seq<int> {
    if kept == [] then kept else kept[|kept| - 1 := PACKET_SIZE - left]
  }

  function GivenUp(g: Gpio): Gpio {
    g.(tail := [], kept := CutLast(g.kept, |g.tail|))
  }

  /** Writing stops when nothing is left, or the pipe refuses; a pipe without further answers refuses. */
  predicate Stops(g: Gpio, answers: seq<Answer>) {
    if g.tail != [] then answers == [] || answers[0].Zero? || answers[0].Again? else g.queue == []
  }

  function WriteStep(g: Gpio, answers: seq<Answer>): (r: Gpio)
    requires OnPort(g.queue) && !Stops(g, answers)
    ensures OnPort(r.queue) && (|r.queue| < |g.queue| || (r.queue == g.queue && |r.tail| < |g.tail|))
  {
    if g.tail == [] then Popped(g)
    else if answers[0].Wrote? then Written(g, answers[0].n)
    else GivenUp(g)
  }

  function Drain(g: Gpio, answers: seq<Answer>): (r: Gpio)
    requires OnPort(g.queue)
    ensures OnPort(r.queue)
    decreases |g.queue|, |g.tail|
  {
    if Stops(g, answers) then g
    else Drain(WriteStep(g, answers), if g.tail == [] then answers else answers[1..])
  }

  function AfterWrite(g: Gpio, answers: seq<Answer>): (r: Gpio)
    requires OnPort(g.queue)
    ensures OnPort(r.queue)
  {
    var d := Drain(g, answers);
    d.(watching := d.watching && d.Pending())
  }

  // ---------- the program ----------

  class GpioBtnInput {
    const direction: Port
    var oldStatus: Port
    var queue: seq<Event>
    const packet: array<byte>
    var leftSizeToSend: nat
    var watching: bool
    /** Bytes the pipe has taken. */
    var pipe: seq<byte>
    ghost var detected: seq<Event>
    ghost var taken: seq<Taken>
    ghost var kept: seq<int>

    ghost predicate Valid()
      reads this
    {
      packet.Length == PACKET_SIZE && leftSizeToSend <= PACKET_SIZE && OnPort(queue)
    }

    ghost function State(): Gpio
      requires Valid()
      reads this, packet
    {
      Gpio(oldStatus, queue, Tail(), pipe, watching, detected, taken, kept)
    }

    /** The bytes of the current packet not yet written. */
    ghost function Tail(): (r: seq<byte>)
      requires packet.Length == PACKET_SIZE && leftSizeToSend <= PACKET_SIZE
      reads this`leftSizeToSend, packet
      ensures |r| == leftSizeToSend
    {
      packet[PACKET_SIZE - leftSizeToSend..]
    }

    constructor (direction: Port)
      ensures Valid() && fresh(packet) && State() == INIT && this.direction == direction
    {
      this.direction := direction;
      oldStatus, queue, leftSizeToSend, watching, pipe := ALL_HIGH, [], 0, false, [];
      packet := new byte[PACKET_SIZE](_ => 0);
      detected, taken, kept := [], [], [];
    }

    /** Queues the edge of one line, behind those of the lines below. */
    method CheckBit(k: nat, now: Port, ghost edges: seq<Event>, ghost before: seq<Event>, ghost detected0: seq<Event>)
      returns (ghost more: seq<Event>)
      requires Valid() && k < 8 && edges == Edges(direction, oldStatus, now, k)
      requires queue == before + edges && detected == detected0 + edges
      modifies this`queue, this`detected
      ensures Valid() && more == Edges(direction, oldStatus, now, k + 1)
      ensures queue == before + more && detected == detected0 + more
    {
      more := edges + EdgeAt(direction, oldStatus, now, k);
      if !direction[k] && now[k] != oldStatus[k] {
        var event := Event(k, now[k]);
        queue := queue + [event];
        detected := detected + [event];
      }
    }

    method CheckFour(k: nat, now: Port, ghost edges: seq<Event>, ghost before: seq<Event>, ghost detected0: seq<Event>)
      returns (ghost more: seq<Event>)
      requires Valid() && k + 4 <= 8 && edges == Edges(direction, oldStatus, now, k)
      requires queue == before + edges && detected == detected0 + edges
      modifies this`queue, this`detected
      ensures Valid() && more == Edges(direction, oldStatus, now, k + 4)
      ensures queue == before + more && detected == detected0 + more
    {
      more := CheckBit(k, now, edges, before, detected0);
      more := CheckBit(k + 1, now, more, before, detected0);
      more := CheckBit(k + 2, now, more, before, detected0);
      more := CheckBit(k + 3, now, more, before, detected0);
    }

    method CheckBits(now: Port) returns (ghost edges: seq<Event>)
      requires Valid()
      modifies this`queue, this`detected
      ensures Valid()
      ensures edges == Edges(direction, oldStatus, now, |now|)
      ensures queue == old(queue) + edges && detected == old(detected) + edges
    {
      ghost var q, d := queue, detected;
      edges := CheckFour(|now| - 8, now, [], q, d);
      edges := CheckFour(|now| - 4, now, edges, q, d);
    }

    /** Throws the oldest events away until the queue is short enough. */
    method LimitQueue()
      requires Valid()
      modifies this`queue, this`taken
      ensures Valid()
      ensures var over := Excess(|old(queue)|);
              queue == old(queue)[over..] && taken == old(taken) + DropAll(old(queue)[..over])
    {
      ghost var over := 0;
      while QUEUE_MAX_LEN < |queue|
        invariant 0 <= over <= |old(queue)|
        invariant over > 0 ==> |queue| >= QUEUE_MAX_LEN
        invariant queue == old(queue)[over..] && taken == old(taken) + DropAll(old(queue)[..over])
      {
        taken := taken + [Dropped(queue[0])];
        queue := queue[1..];
        over := over + 1;
      }
    }

    /**
     * Puts the edges behind the queue, throws away what is too much in front, and watches the pipe if anything is
     * unsent.
     */
    method QueueEdges(now: Port) returns (ghost edges: seq<Event>, ghost all: seq<Event>)
      requires Valid()
      modifies this`queue, this`detected, this`taken, this`watching, this`oldStatus
      ensures Valid() && oldStatus == now
      ensures edges == Edges(direction, old(oldStatus), now, |now|) && all == old(queue) + edges
      ensures detected == old(detected) + edges
      ensures queue == all[Excess(|all|)..] && taken == old(taken) + DropAll(all[..Excess(|all|)])
      ensures watching == (old(watching) || leftSizeToSend > 0 || queue != [])
    {
      edges := CheckBits(now);
      all := queue;
      LimitQueue();
      if 0 < leftSizeToSend || 0 < |queue| {
        watching := true;
      }
      oldStatus := now;
    }

    /** A reading of the port may fail. */
    method ChkGpioBtnInput(read: Option<Port>)
      requires Valid()
      modifies this`queue, this`detected, this`taken, this`watching, this`oldStatus
      ensures Valid()
      ensures State() == if read.None? then old(State()) else AfterCheck(old(State()), direction, read.value)
    {
      ghost var g := State();
      if read.Some? && read.value != oldStatus {
        ghost var edges, all := QueueEdges(read.value);
        CheckIs(g, direction, read.value, edges, all, State());
      }
    }

    method FillPacket(e: Event)
      requires Valid() && e.bit < 8
      modifies this`leftSizeToSend, packet
      ensures Valid() && leftSizeToSend == PACKET_SIZE && packet[..] == Packet(e)
    {
      leftSizeToSend := packet.Length;
      packet[0], packet[1] := 4, 0;
      packet[2] := MSG_ID_GPIO_INPUT_EVENT_DATA;
      packet[3] := Code(e);
    }

    /** One write of the unsent part of the packet that the pipe does not refuse. */
    method WriteOnce(answers: seq<Answer>)
      requires Valid() && leftSizeToSend > 0 && !Stops(State(), answers)
      modifies this`leftSizeToSend, this`pipe, this`kept
      ensures Valid() && leftSizeToSend < old(leftSizeToSend)
      ensures State() == WriteStep(old(State()), answers)
    {
      var tail := packet[packet.Length - leftSizeToSend..];
      if answers[0].Wrote? {
        var sizeWritten := Part(answers[0].n, tail);
        pipe := pipe + tail[..sizeWritten];
        leftSizeToSend := leftSizeToSend - sizeWritten;
        assert packet[packet.Length - leftSizeToSend..] == tail[sizeWritten..];
      } else {
        kept := CutLast(kept, leftSizeToSend);
        leftSizeToSend := 0;
      }
    }

    /**
     * Writes the current packet; stops when it is out, when the pipe refuses, or, giving the rest up, when it fails.
     */
    method WritePacket(answers: seq<Answer>) returns (rest: seq<Answer>)
      requires Valid()
      modifies this`leftSizeToSend, this`pipe, this`kept
      ensures Valid()
      ensures Drain(old(State()), answers) == Drain(State(), rest)
      ensures leftSizeToSend > 0 ==> Stops(State(), rest)
    {
      rest := answers;
      while true
        invariant Valid() && Drain(old(State()), answers) == Drain(State(), rest)
        decreases leftSizeToSend
      {
        if !(0 < leftSizeToSend) {
          break;
        }
        if rest == [] || rest[0].Zero? || rest[0].Again? {
          break;
        }
        WriteOnce(rest);
        rest := rest[1..];
      }
    }

    method PopEvent()
      requires Valid() && queue != []
      modifies this`queue, this`taken, this`leftSizeToSend, this`kept, packet
      ensures Valid() && leftSizeToSend == PACKET_SIZE
      ensures old(leftSizeToSend) == 0 ==> State() == Popped(old(State()))
    {
      var event := queue[0];
      taken := taken + [Sent(event)];
      kept := kept + [PACKET_SIZE];
      queue := queue[1..];
      FillPacket(event);
    }

    method OnBtnDataOutPipeWrite(answers: seq<Answer>)
      requires Valid()
      modifies this`queue, this`taken, this`leftSizeToSend, this`pipe, this`kept, this`watching, packet
      ensures Valid() && State() == AfterWrite(old(State()), answers)
    {
      var rest := answers;
      while true
        invariant Valid() && Drain(old(State()), answers) == Drain(State(), rest)
        decreases |queue|
      {
        rest := WritePacket(rest);
        if 0 < leftSizeToSend {
          break;
        }
        if 0 < |queue| {
          PopEvent();
        } else {
          break;
        }
      }
      assert State() == Drain(old(State()), answers);
      if !(0 < leftSizeToSend) && !(0 < |queue|) {
        watching := false;
      }
    }
  }
}
