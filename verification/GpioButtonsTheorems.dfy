/** What every run of the GPIO sender guarantees. */
module GpioButtonsTheorems {
  import opened Basics
  import opened GpioButtons

  /** A reading of the port (which may fail), or a chance to write with the answers the pipe gives. */
  datatype Step = Check(read: Option<Port>) | Write(answers: seq<Answer>)

  function Next(g: Gpio, direction: Port, step: Step): (r: Gpio)
    requires OnPort(g.queue)
    ensures OnPort(r.queue)
  {
    match step
    case Check(None) => g
    case Check(Some(now)) => AfterCheck(g, direction, now)
    case Write(answers) => AfterWrite(g, answers)
  }

  /** The port as the listener sees it: all lines high, then each event sets its line. */
  function Replay(es: seq<Event>): Port
    requires OnPort(es)
  {
    if es == [] then ALL_HIGH else Replay(es[..|es| - 1])[es[|es| - 1].bit := es[|es| - 1].up]
  }

  predicate AgreeOnInputs(direction: Port, a: Port, b: Port) {
    forall k :: 0 <= k < 8 && !direction[k] ==> a[k] == b[k]
  }

  /** Detected is sent, dropped and still queued, in order; and no more is queued than allowed. */
  predicate Conserved(g: Gpio) {
    && |g.queue| <= QUEUE_MAX_LEN
    && g.detected == Events(g.taken) + g.queue
  }

  /** Every packet gets at most its own bytes into the pipe. */
  predicate Shares(kept: seq<int>) {
    forall i :: 0 <= i < |kept| ==> 0 <= kept[i] <= PACKET_SIZE
  }

  /** The first kept[i] bytes of the packet of each event, one after the other. */
  function Stream(es: seq<Event>, kept: seq<int>): seq<byte>
    requires OnPort(es) && |kept| == |es| && Shares(kept)
  {
    if es == [] then []
    else Stream(es[..|es| - 1], kept[..|es| - 1]) + Packet(es[|es| - 1])[..kept[|es| - 1]]
  }

  function Lost(kept: seq<int>): int {
    if kept == [] then 0 else Lost(kept[..|kept| - 1]) + (PACKET_SIZE - kept[|kept| - 1])
  }

  /** How many packets were cut short. */
  function CutCount(kept: seq<int>): nat {
    if kept == [] then 0 else CutCount(kept[..|kept| - 1]) + if kept[|kept| - 1] < PACKET_SIZE then 1 else 0
  }

  /** The packet that is under way is the last one and not cut yet. */
  predicate UnderWay(tail: seq<byte>, kept: seq<int>) {
    tail != [] ==> kept != [] && kept[|kept| - 1] == PACKET_SIZE
  }

  /** The pipe and the unsent tail hold the packets of the events sent, each up to where it was cut. */
  predicate Framed(pipe: seq<byte>, tail: seq<byte>, kept: seq<int>, sent: seq<Event>) {
    && OnPort(sent) && |kept| == |sent| && Shares(kept)
    && |tail| <= PACKET_SIZE && UnderWay(tail, kept)
    && pipe + tail == Stream(sent, kept)
  }

  predicate Sound(g: Gpio) {
    OnPort(g.queue) && Conserved(g) && Framed(g.pipe, g.tail, g.kept, SentOnly(g.taken))
  }

  /** Replaying all events on an all-high port gives the current port on the input lines. */
  predicate Shown(g: Gpio, direction: Port) {
    OnPort(g.detected) && AgreeOnInputs(direction, Replay(g.detected), g.status)
  }

  predicate Inv(g: Gpio, direction: Port) {
    Sound(g) && Shown(g, direction) && (g.Pending() <==> g.watching)
  }

  // ---------- codes ----------

  /** The codes of the buttons in order of their lines, as both programs share them. */
  const DOWN_CODES: seq<byte> := [10, 11, 12, 13, 14, 15, 16, 17]
  const UP_CODES: seq<byte> := [20, 21, 22, 23, 24, 25, 26, 27]

  /** The event a code stands for; other codes are no button's. */
  function EventOf(code: byte): Option<Event> {
    if 10 <= code <= 17 then Some(Event(code - 10, false))
    else if 20 <= code <= 27 then Some(Event(code - 20, true))
    else None
  }

  /** Each line has its two codes, and a code tells the line and the edge. */
  lemma {:induction false} CodesTellEvents(e: Event)
    requires e.bit < 8
    ensures Code(e) == if e.up then UP_CODES[e.bit] else DOWN_CODES[e.bit]
    ensures EventOf(Code(e)) == Some(e)
  {}

  // ---------- reading the port ----------

  lemma {:induction false} ReplayMore(es: seq<Event>, e: Event)
    requires OnPort(es) && e.bit < 8
    ensures OnPort(es + [e]) && Replay(es + [e]) == Replay(es)[e.bit := e.up]
  {
  }

  lemma {:induction false} EdgeAtReplay(direction: Port, es: seq<Event>, was: Port, now: Port, j: nat, k: nat)
    requires j < 8 && k < 8 && OnPort(es) && !direction[k]
    ensures Replay(es + EdgeAt(direction, was, now, j))[k] ==
            if k == j && was[k] != now[k] then now[k] else Replay(es)[k]
  {
    if EdgeAt(direction, was, now, j) == [] {
      assert es + [] == es;
    } else {
      ReplayMore(es, Event(j, now[j]));
    }
  }

  /** Replaying the edges between two readings turns the one into the other, on the input lines. */
  lemma {:induction false} EdgesReplay(direction: Port, es: seq<Event>, was: Port, now: Port, n: nat, k: nat)
    requires n <= 8 && k < 8 && OnPort(es) && !direction[k] && Replay(es)[k] == was[k]
    ensures Replay(es + Edges(direction, was, now, n))[k] == if k < n then now[k] else was[k]
  {
    if n == 0 {
      assert es + [] == es;
    } else {
      EdgesReplay(direction, es, was, now, n - 1, k);
      var before := es + Edges(direction, was, now, n - 1);
      Regroup(es, Edges(direction, was, now, n - 1), EdgeAt(direction, was, now, n - 1));
      EdgeAtReplay(direction, before, was, now, n - 1, k);
    }
  }

  lemma {:induction false} EventsOfMore(taken: seq<Taken>, more: seq<Taken>)
    ensures Events(taken + more) == Events(taken) + Events(more)
  {
    if more == [] {
      assert taken + more == taken;
    } else {
      var n := |more| - 1;
      EventsOfMore(taken, more[..n]);
      assert (taken + more)[..|taken + more| - 1] == taken + more[..n];
    }
  }

  lemma {:induction false} DropAllEvents(es: seq<Event>)
    ensures Events(DropAll(es)) == es
  {
    if es != [] {
      var n := |es| - 1;
      DropAllEvents(es[..n]);
      assert DropAll(es)[..n] == DropAll(es[..n]);
    }
  }

  lemma {:induction false} DropsSendNothing(taken: seq<Taken>, es: seq<Event>)
    ensures SentOnly(taken + DropAll(es)) == SentOnly(taken)
  {
    if es == [] {
      assert taken + DropAll(es) == taken;
    } else {
      var n := |es| - 1;
      DropsSendNothing(taken, es[..n]);
      var all := taken + DropAll(es);
      assert all[..|all| - 1] == taken + DropAll(es[..n]);
    }
  }

  lemma {:induction false} CheckKeepsShown(g: Gpio, direction: Port, now: Port)
    requires Shown(g, direction)
    ensures Shown(AfterCheck(g, direction, now), direction)
  {
    if now != g.status {
      forall k: nat | k < 8 && !direction[k]
        ensures Replay(g.detected + Edges(direction, g.status, now, |now|))[k] == now[k]
      {
        EdgesReplay(direction, g.detected, g.status, now, 8, k);
      }
    }
  }

  /** Dropping events from the front of the queue moves them to the record. */
  lemma {:induction false} DropConserves(taken: seq<Taken>, dropped: seq<Event>, kept: seq<Event>)
    ensures Events(taken + DropAll(dropped)) + kept == Events(taken) + (dropped + kept)
  {
    EventsOfMore(taken, DropAll(dropped));
    DropAllEvents(dropped);
  }

  /** A queue with the new edges behind it is cut at the front, and the record grows by what was cut off. */
  lemma {:induction false} TrimConserves(detected: seq<Event>, taken: seq<Taken>, queue: seq<Event>, edges: seq<Event>,
                                         all: seq<Event>, over: nat)
    requires detected == Events(taken) + queue && all == queue + edges && over <= |all|
    ensures detected + edges == Events(taken + DropAll(all[..over])) + all[over..]
    ensures SentOnly(taken + DropAll(all[..over])) == SentOnly(taken)
  {
    DropConserves(taken, all[..over], all[over..]);
    DropsSendNothing(taken, all[..over]);
    assert all[..over] + all[over..] == all;
    assert detected + edges == Events(taken) + all;
  }

  lemma {:induction false} CheckKeepsSound(g: Gpio, direction: Port, now: Port)
    requires Sound(g)
    ensures Sound(AfterCheck(g, direction, now))
  {
    if now != g.status {
      var edges := Edges(direction, g.status, now, |now|);
      var all := g.queue + edges;
      TrimConserves(g.detected, g.taken, g.queue, edges, all, Excess(|all|));
    }
  }

  /** A check keeps the latest 200 of the events queued and found: it drops just those in front of them. */
  lemma {:induction false} CheckKeepsLatest(g: Gpio, direction: Port, now: Port)
    requires |g.queue| <= QUEUE_MAX_LEN
    ensures var r := AfterCheck(g, direction, now);
            var found := r.detected[|g.detected|..];
            && g.detected <= r.detected
            && (exists n :: 0 <= n <= |g.queue| + |found| && r.queue == (g.queue + found)[n..])
            && |r.queue| == (if |g.queue| + |found| > 200 then 200 else |g.queue| + |found|)
  {
    if now == g.status {
      assert (g.queue + [])[0..] == g.queue;
    } else {
      var r := AfterCheck(g, direction, now);
      var all := g.queue + Edges(direction, g.status, now, |now|);
      assert r.detected[|g.detected|..] == Edges(direction, g.status, now, |now|);
      assert r.queue == all[Excess(|all|)..];
    }
  }

  // ---------- writing ----------

  lemma {:induction false} StreamMore(es: seq<Event>, kept: seq<int>, e: Event, k: int, es': seq<Event>,
                                      kept': seq<int>)
    requires OnPort(es) && |kept| == |es| && Shares(kept) && e.bit < 8 && 0 <= k <= PACKET_SIZE
    requires es' == es + [e] && kept' == kept + [k]
    ensures OnPort(es') && Shares(kept') && Stream(es', kept') == Stream(es, kept) + Packet(e)[..k]
  {
    assert es'[..|es|] == es && kept'[..|es|] == kept;
  }

  lemma {:induction false} PoppedKeeps(g: Gpio)
    requires Sound(g) && g.queue != [] && g.tail == []
    ensures Sound(Popped(g))
  {
    var e, sent := g.queue[0], SentOnly(g.taken);
    var taken' := g.taken + [Sent(e)];
    assert taken'[..|g.taken|] == g.taken;
    assert Events(taken') + g.queue[1..] == Events(g.taken) + g.queue;
    StreamMore(sent, g.kept, e, PACKET_SIZE, SentOnly(taken'), g.kept + [PACKET_SIZE]);
    assert g.pipe + [] == g.pipe && Packet(e)[..PACKET_SIZE] == Packet(e);
  }

  lemma {:induction false} PartFrames(pipe: seq<byte>, tail: seq<byte>, kept: seq<int>, sent: seq<Event>, k: nat)
    requires Framed(pipe, tail, kept, sent) && k <= |tail|
    ensures Framed(pipe + tail[..k], tail[k..], kept, sent)
  {
    assert pipe + tail[..k] + tail[k..] == pipe + tail;
  }

  lemma {:induction false} CutTail<T>(pipe: seq<T>, tail: seq<T>, before: seq<T>, packet: seq<T>, k: nat)
    requires pipe + tail == before + packet && |packet| == k + |tail|
    ensures pipe == before + packet[..k]
  {
    assert pipe == (pipe + tail)[..|before| + k];
  }

  lemma {:induction false} CutFrames(pipe: seq<byte>, tail: seq<byte>, kept: seq<int>, sent: seq<Event>)
    requires Framed(pipe, tail, kept, sent) && tail != []
    ensures Framed(pipe, [], CutLast(kept, |tail|), sent)
    ensures CutCount(CutLast(kept, |tail|)) == CutCount(kept) + 1
  {
    var n, k := |sent| - 1, PACKET_SIZE - |tail|;
    var kept' := CutLast(kept, |tail|);
    assert sent == sent[..n] + [sent[n]] && kept == kept[..n] + [PACKET_SIZE] && kept' == kept[..n] + [k];
    StreamMore(sent[..n], kept[..n], sent[n], PACKET_SIZE, sent, kept);
    StreamMore(sent[..n], kept[..n], sent[n], k, sent, kept');
    CutTail(pipe, tail, Stream(sent[..n], kept[..n]), Packet(sent[n])[..PACKET_SIZE], k);
    assert Packet(sent[n])[..PACKET_SIZE][..k] == Packet(sent[n])[..k];
    assert pipe + [] == pipe;
    assert kept'[..n] == kept[..n];
  }

  /** What writing leaves alone, and what only grows. */
  predicate DrainFrame(g: Gpio, d: Gpio) {
    && d.status == g.status && d.detected == g.detected && d.watching == g.watching
    && g.pipe <= d.pipe
  }

  lemma {:induction false} DrainLeaves(g: Gpio, answers: seq<Answer>)
    requires OnPort(g.queue)
    ensures DrainFrame(g, Drain(g, answers))
    decreases |g.queue|, |g.tail|
  {
    if !Stops(g, answers) {
      DrainLeaves(WriteStep(g, answers), if g.tail == [] then answers else answers[1..]);
    }
  }

  lemma {:induction false} WriteStepKeeps(g: Gpio, answers: seq<Answer>)
    requires Sound(g) && !Stops(g, answers)
    ensures Sound(WriteStep(g, answers))
  {
    if g.tail == [] {
      PoppedKeeps(g);
    } else if answers[0].Wrote? {
      PartFrames(g.pipe, g.tail, g.kept, SentOnly(g.taken), Part(answers[0].n, g.tail));
    } else {
      CutFrames(g.pipe, g.tail, g.kept, SentOnly(g.taken));
    }
  }

  lemma {:induction false} DrainKeeps(g: Gpio, answers: seq<Answer>)
    requires Sound(g)
    ensures Sound(Drain(g, answers))
    decreases |g.queue|, |g.tail|
  {
    if !Stops(g, answers) {
      WriteStepKeeps(g, answers);
      DrainKeeps(WriteStep(g, answers), if g.tail == [] then answers else answers[1..]);
    }
  }

  /** A pipe that never refuses is given everything: enough taking answers leave nothing behind. */
  lemma {:induction false} WritingDrains(g: Gpio, answers: seq<Answer>)
    requires Sound(g)
    requires forall i :: 0 <= i < |answers| ==> answers[i].Wrote?
    requires |answers| >= |g.tail| + PACKET_SIZE * |g.queue|
    ensures !Drain(g, answers).Pending() && CutCount(Drain(g, answers).kept) == CutCount(g.kept)
    decreases |g.queue|, |g.tail|
  {
    if !Stops(g, answers) {
      WriteStepKeeps(g, answers);
      WriteStepCuts(g, answers);
      WritingDrains(WriteStep(g, answers), if g.tail == [] then answers else answers[1..]);
    }
  }

  /** How many hard errors the writing meets. */
  function ErrorsMet(g: Gpio, answers: seq<Answer>): nat
    requires OnPort(g.queue)
    decreases |g.queue|, |g.tail|
  {
    if Stops(g, answers) then 0
    else
      ErrorNow(g, answers) + ErrorsMet(WriteStep(g, answers), if g.tail == [] then answers else answers[1..])
  }

  function ErrorNow(g: Gpio, answers: seq<Answer>): nat {
    if g.tail != [] && answers != [] && answers[0].Error? then 1 else 0
  }

  lemma {:induction false} WriteStepCuts(g: Gpio, answers: seq<Answer>)
    requires Sound(g) && !Stops(g, answers)
    ensures CutCount(WriteStep(g, answers).kept) == CutCount(g.kept) + ErrorNow(g, answers)
  {
    if g.tail == [] {
      assert (g.kept + [PACKET_SIZE])[..|g.kept|] == g.kept;
    } else if answers[0].Error? {
      CutFrames(g.pipe, g.tail, g.kept, SentOnly(g.taken));
    }
  }

  /** Each error that is met cuts one packet short, and nothing else does. */
  lemma {:induction false} DrainCuts(g: Gpio, answers: seq<Answer>)
    requires Sound(g)
    ensures CutCount(Drain(g, answers).kept) == CutCount(g.kept) + ErrorsMet(g, answers)
    decreases |g.queue|, |g.tail|
  {
    if !Stops(g, answers) {
      WriteStepKeeps(g, answers);
      WriteStepCuts(g, answers);
      DrainCuts(WriteStep(g, answers), if g.tail == [] then answers else answers[1..]);
    }
  }

  // ---------- runs ----------

  function Run(direction: Port, steps: seq<Step>): (g: Gpio)
    ensures OnPort(g.queue)
  {
    if steps == [] then INIT else Next(Run(direction, steps[..|steps| - 1]), direction, steps[|steps| - 1])
  }

  /**
   * After any run: detected events are those sent, dropped (oldest first) and still queued, in order, at most 200
   * queued; pipe and unsent tail are the packets of the events sent, in order, each up to where it was cut; replaying
   * the events gives the port on the input lines; and the pipe is watched exactly while anything is unsent.
   */
  lemma {:induction false} RunKeepsInv(direction: Port, steps: seq<Step>)
    ensures Inv(Run(direction, steps), direction)
  {
    if steps != [] {
      RunKeepsInv(direction, steps[..|steps| - 1]);
      StepKeepsInv(Run(direction, steps[..|steps| - 1]), direction, steps[|steps| - 1]);
    }
  }

  lemma {:induction false} StepKeepsInv(g: Gpio, direction: Port, step: Step)
    requires Inv(g, direction)
    ensures Inv(Next(g, direction, step), direction)
  {
    match step
    case Check(None) =>
    case Check(Some(now)) => CheckKeepsSound(g, direction, now); CheckKeepsShown(g, direction, now);
    case Write(answers) => DrainKeeps(g, answers); DrainLeaves(g, answers);
  }

  /** The errors met by a whole run. */
  function RunErrors(direction: Port, steps: seq<Step>): nat {
    if steps == [] then 0
    else
      var last := steps[|steps| - 1];
      RunErrors(direction, steps[..|steps| - 1])
      + if last.Write? then ErrorsMet(Run(direction, steps[..|steps| - 1]), last.answers) else 0
  }

  lemma {:induction false} CutsAreLosses(kept: seq<int>)
    requires Shares(kept)
    ensures CutCount(kept) <= Lost(kept) <= PACKET_SIZE * CutCount(kept)
  {
    if kept != [] {
      CutsAreLosses(kept[..|kept| - 1]);
    }
  }

  /** Every error met cuts one packet short, and bytes are lost in no other way. */
  lemma {:induction false} LosesOnErrorOnly(direction: Port, steps: seq<Step>)
    ensures var g := Run(direction, steps);
            && CutCount(g.kept) == RunErrors(direction, steps)
            && RunErrors(direction, steps) <= Lost(g.kept) <= PACKET_SIZE * RunErrors(direction, steps)
  {
    RunKeepsInv(direction, steps);
    CutsAreLosses(Run(direction, steps).kept);
    if steps != [] {
      var before := steps[..|steps| - 1];
      LosesOnErrorOnly(direction, before);
      RunKeepsInv(direction, before);
      if steps[|steps| - 1].Write? {
        DrainCuts(Run(direction, before), steps[|steps| - 1].answers);
      }
    }
  }

  lemma {:induction false} StreamLength(es: seq<Event>, kept: seq<int>)
    requires OnPort(es) && |kept| == |es| && Shares(kept)
    ensures |Stream(es, kept)| + Lost(kept) == PACKET_SIZE * |es|
  {
    if es != [] {
      StreamLength(es[..|es| - 1], kept[..|es| - 1]);
    }
  }

  lemma {:induction false} WholeStream(es: seq<Event>, kept: seq<int>)
    requires OnPort(es) && |kept| == |es| && Shares(kept) && CutCount(kept) == 0
    ensures Stream(es, kept) == Encode(es)
  {
    if es != [] {
      var n := |es| - 1;
      WholeStream(es[..n], kept[..n]);
      assert Packet(es[n])[..PACKET_SIZE] == Packet(es[n]);
    }
  }

  /** So the packets are whole and in order in pipe and tail exactly when no error was met. */
  lemma {:induction false} FramedExactly(direction: Port, steps: seq<Step>)
    ensures var g := Run(direction, steps);
            && OnPort(SentOnly(g.taken))
            && (g.pipe + g.tail == Encode(SentOnly(g.taken)) <==> RunErrors(direction, steps) == 0)
  {
    RunKeepsInv(direction, steps);
    LosesOnErrorOnly(direction, steps);
    var g := Run(direction, steps);
    StreamLength(SentOnly(g.taken), g.kept);
    if RunErrors(direction, steps) == 0 {
      WholeStream(SentOnly(g.taken), g.kept);
    }
  }
}
