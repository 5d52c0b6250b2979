/** The playback service: its message handlers, and what runs of messages guarantee. */
module Playback {
  import opened Basics
  import opened IdCounter

  datatype Status = Idle | Prepared | Playing

  datatype Code = Success | InvalidState | StatusUnreadable | PlayerError

  /** How the media player answers a request; it may not be there at all. */
  datatype Player = Absent | Accepts | Refuses

  /** The signal that a playback has come to its end. */
  datatype Signal = PlaybackEos(id: uint32, url: string, complete: bool)

  /** The service's own fields and the signals it has emitted. */
  datatype Srv = Srv(
    status: Status,
    url: string,
    id: uint32,
    remaining: int,
    complete: bool,
    signals: seq<Signal>)

  /** "srvIdle" is what the shared status says, "readable" whether it could be read. */
  datatype Msg =
    | SetDataSource(url: string)
    | Prepare
    | Play(loopCount: int32, player: Player)
    | Stop(readable: bool, srvIdle: bool, player: Player)
    | Eos(id: uint32, player: Player)

  // ---------- the handlers as functions ----------

  function AfterPlay(s: Srv, loopCount: int32, player: Player): Srv {
    if s.status != Prepared then s
    else s.(status := Playing, complete := true, id := NextId(s.id),
            remaining := if player.Absent? then s.remaining else loopCount)
  }

  /** A stop that finds nothing to do changes nothing. */
  predicate NothingToStop(s: Srv, srvIdle: bool) {
    s.status == Idle && srvIdle
  }

  function AfterStop(s: Srv, srvIdle: bool, player: Player): Srv {
    if NothingToStop(s, srvIdle) then s
    else if player.Refuses? then s.(complete := false)
    else s.(complete := false, status := Idle)
  }

  /** Whether an end-of-stream message ends the session. */
  predicate Ends(s: Srv, id: uint32, player: Player) {
    id == s.id && s.remaining <= 1 && s.status != Idle && !player.Refuses?
  }

  function AfterEos(s: Srv, id: uint32, player: Player): Srv {
    var counted := if id == s.id then s.(remaining := s.remaining - 1) else s;
    if Ends(s, id, player)
    then counted.(status := Idle, signals := s.signals + [PlaybackEos(s.id, s.url, s.complete)])
    else counted
  }

  function After(s: Srv, m: Msg): Srv {
    match m
    case SetDataSource(url) => if s.status == Idle then s.(url := url) else s
    case Prepare => if s.status == Idle then s.(status := Prepared) else s
    case Play(loopCount, player) => AfterPlay(s, loopCount, player)
    case Stop(_, srvIdle, player) => AfterStop(s, srvIdle, player)
    case Eos(id, player) => AfterEos(s, id, player)
  }

  /** The code a message is answered with. A status that cannot be read is reported, but stops nothing. */
  function Answer(s: Srv, m: Msg): Code {
    match m
    case SetDataSource(_) => if s.status == Idle then Success else InvalidState
    case Prepare => if s.status == Idle then Success else InvalidState
    case Play(_, player) =>
      if s.status != Prepared then InvalidState else if player.Refuses? then PlayerError else Success
    case Stop(readable, srvIdle, player) =>
      if !NothingToStop(s, srvIdle) && player.Refuses? then PlayerError
      else if !readable then StatusUnreadable else Success
    case Eos(id, player) =>
      if player.Refuses? && Ends(s, id, Accepts) then PlayerError else Success
  }

  class MediaSrv {
    var playStatus: Status
    var dataSrcUrl: string
    var playbackId: uint32
    var remainingLoopCount: int
    var isCompletePlaybackEos: bool
    var signals: seq<Signal>

    ghost function State(): Srv
      reads this
    {
      Srv(playStatus, dataSrcUrl, playbackId, remainingLoopCount, isCompletePlaybackEos, signals)
    }

    /** The remaining loop count is not initialised. */
    constructor (arbitrary: int)
      ensures State() == Srv(Idle, "", 0, arbitrary, true, [])
    {
      playStatus, dataSrcUrl, playbackId := Idle, "", 0;
      remainingLoopCount, isCompletePlaybackEos, signals := arbitrary, true, [];
    }

    method OnSetDataSource(url: string) returns (code: Code)
      modifies this
      ensures State() == After(old(State()), SetDataSource(url)) && code == Answer(old(State()), SetDataSource(url))
    {
      if playStatus != Idle {
        return InvalidState;
      }
      dataSrcUrl := url;
      code := Success;
    }

    method OnPrepare() returns (code: Code)
      modifies this
      ensures State() == After(old(State()), Prepare) && code == Answer(old(State()), Prepare)
    {
      if playStatus != Idle {
        return InvalidState;
      }
      playStatus := Prepared;
      code := Success;
    }

    /** A player that refuses is reported, yet the service stays in its playing state. */
    method OnPlay(loopCount: int32, player: Player) returns (code: Code, id: uint32)
      modifies this
      ensures State() == After(old(State()), Play(loopCount, player))
      ensures code == Answer(old(State()), Play(loopCount, player)) && id == playbackId
    {
      if playStatus != Prepared {
        return InvalidState, playbackId;
      }
      playStatus := Playing;
      isCompletePlaybackEos := true;
      playbackId := Wrap32(playbackId + 1);
      if playbackId == 0 {
        playbackId := Wrap32(playbackId + 1);
      }
      code := Success;
      if !player.Absent? {
        remainingLoopCount := loopCount;
        if player.Refuses? {
          code := PlayerError;
        }
      }
      id := playbackId;
    }

    /** Hands back the id and address of the playback that was broken off, if one was. */
    method OnStop(readable: bool, srvIdle: bool, player: Player) returns (code: Code, stopped: Option<(uint32, string)>)
      modifies this
      ensures State() == After(old(State()), Stop(readable, srvIdle, player))
      ensures stopped ==
              if old(playStatus) == Playing && !player.Refuses? then Some((old(playbackId), old(dataSrcUrl))) else None
      ensures code == Answer(old(State()), Stop(readable, srvIdle, player))
    {
      code := if readable then Success else StatusUnreadable;
      stopped := None;
      if playStatus == Idle && srvIdle {
        return;
      }
      isCompletePlaybackEos := false;
      if player.Refuses? {
        code := PlayerError;
        return;
      }
      if playStatus == Playing {
        stopped := Some((playbackId, dataSrcUrl));
      }
      playStatus := Idle;
    }

    method OnPlaybackEos(id: uint32, player: Player) returns (code: Code)
      modifies this
      ensures State() == After(old(State()), Eos(id, player)) && code == Answer(old(State()), Eos(id, player))
    {
      code := Success;
      if id != playbackId {
        return;
      }
      remainingLoopCount := remainingLoopCount - 1;
      if 0 < remainingLoopCount {
        return;
      }
      if playStatus == Idle {
        return;
      }
      if player.Refuses? {
        code := PlayerError;
        return;
      }
      playStatus := Idle;
      signals := signals + [PlaybackEos(playbackId, dataSrcUrl, isCompletePlaybackEos)];
    }

    /** The message loop: each message goes to its handler. */
    method ProcessMsg(m: Msg) returns (code: Code)
      modifies this
      ensures State() == After(old(State()), m) && code == Answer(old(State()), m)
    {
      match m
      case SetDataSource(url) => code := OnSetDataSource(url);
      case Prepare => code := OnPrepare();
      case Play(loopCount, player) => var id; code, id := OnPlay(loopCount, player);
      case Stop(readable, srvIdle, player) => var stopped; code, stopped := OnStop(readable, srvIdle, player);
      case Eos(id, player) => code := OnPlaybackEos(id, player);
    }
  }

  // ---------- runs ----------

  function Run(s: Srv, msgs: seq<Msg>): Srv {
    if msgs == [] then s else After(Run(s, msgs[..|msgs| - 1]), msgs[|msgs| - 1])
  }

  function Init(arbitrary: int): Srv {
    Srv(Idle, "", 0, arbitrary, true, [])
  }

  /** How often a run goes from one status to another. */
  function Moves(s: Srv, msgs: seq<Msg>, away: Status, to: Status): nat {
    if msgs == [] then 0
    else
      var before := Run(s, msgs[..|msgs| - 1]);
      var moved := before.status == away && After(before, msgs[|msgs| - 1]).status == to;
      Moves(s, msgs[..|msgs| - 1], away, to) + if moved then 1 else 0
  }

  /**
   * Sessions opened are sessions closed, plus the one now open; and end-of-playback signals never outnumber the
   * closed ones.
   */
  lemma {:induction false} SessionsBalance(s: Srv, msgs: seq<Msg>)
    requires s.status == Idle
    ensures var end := Run(s, msgs);
            var closed := Moves(s, msgs, Prepared, Idle) + Moves(s, msgs, Playing, Idle);
            && Moves(s, msgs, Idle, Prepared) == closed + (if end.status == Idle then 0 else 1)
            && Moves(s, msgs, Prepared, Playing) == Moves(s, msgs, Playing, Idle)
              + (if end.status == Playing then 1 else 0)
            && |s.signals| <= |end.signals| <= |s.signals| + closed
            && s.signals <= end.signals
  {
    if msgs != [] {
      SessionsBalance(s, msgs[..|msgs| - 1]);
    }
  }

  /** What moves the service from status to status, and nothing else does. */
  predicate Moved(before: Srv, m: Msg, status: Status) {
    match before.status
    case Idle => status == if m.Prepare? then Prepared else Idle
    case Prepared => status == if m.Play? then Playing else if Closes(before, m) then Idle else Prepared
    case Playing => status == if Closes(before, m) then Idle else Playing
  }

  /** A stop, or the end message of the last round, that the player does not refuse. */
  predicate Closes(before: Srv, m: Msg) {
    || (m.Stop? && !m.player.Refuses?)
    || (m.Eos? && m.id == before.id && before.remaining <= 1 && !m.player.Refuses?)
  }

  lemma {:induction false} StatusMoves(s: Srv, msgs: seq<Msg>, m: Msg)
    ensures Moved(Run(s, msgs), m, Run(s, msgs + [m]).status)
  {
    assert (msgs + [m])[..|msgs|] == msgs;
  }

  /**
   * After any run, a stop that the player does not refuse leaves no session, keeps id, address, count and signals, and
   * lets a prepare request open the next session at once; a refused one only keeps the playback from counting as
   * complete.
   */
  lemma {:induction false} StopEnds(s: Srv, msgs: seq<Msg>, readable: bool, srvIdle: bool, player: Player)
    ensures var before := Run(s, msgs);
            var after := Run(s, msgs + [Stop(readable, srvIdle, player)]);
            && after == before.(status := after.status, complete := after.complete)
            && (if player.Refuses? then after.status == before.status else after.status == Idle)
            && after.complete == (before.complete && before.status == Idle && srvIdle)
            && (!player.Refuses? ==> Run(s, msgs + [Stop(readable, srvIdle, player)] + [Prepare]).status == Prepared)
  {
    var stop := Stop(readable, srvIdle, player);
    var stopped := msgs + [stop];
    assert stopped[..|msgs|] == msgs;
    assert (stopped + [Prepare])[..|stopped|] == stopped;
  }

  /** Where a request is in time: an address and a new session need an idle service, a playback a prepared one. */
  predicate InTime(s: Srv, m: Msg) {
    match m
    case SetDataSource(_) => s.status == Idle
    case Prepare => s.status == Idle
    case Play(_, _) => s.status == Prepared
    case _ => true
  }

  /** Where the player is asked at all: to play, to stop unless nothing runs anywhere, or to end with the last round. */
  predicate AsksPlayer(s: Srv, m: Msg) {
    match m
    case Play(_, _) => s.status == Prepared
    case Stop(_, srvIdle, _) => s.status != Idle || !srvIdle
    case Eos(id, _) => s.status != Idle && id == s.id && s.remaining <= 1
    case _ => false
  }

  /**
   * A request out of time, and no other, is answered so and changes nothing. Exactly a player that is asked and refuses
   * is an error of the player, and then stop and end messages leave the status alone; a status that could not be read
   * is told unless that happened; and a request that is a success does what it says.
   */
  lemma {:induction false} AnswersTell(s: Srv, msgs: seq<Msg>, m: Msg)
    ensures var before, after, code := Run(s, msgs), Run(s, msgs + [m]), Answer(Run(s, msgs), m);
            && (code == InvalidState <==> !InTime(before, m))
            && (code == InvalidState ==> after == before)
            && (code == PlayerError <==> AsksPlayer(before, m) && m.player.Refuses?)
            && (code == PlayerError && !m.Play? ==> after.status == before.status && after.signals == before.signals)
            && (code == StatusUnreadable <==>
                  m.Stop? && !m.readable && !(AsksPlayer(before, m) && m.player.Refuses?))
            && (code == Success ==>
                  match m
                  case SetDataSource(url) => after.url == url
                  case Prepare => after.status == Prepared
                  case Play(_, player) => after.status == Playing && !player.Refuses?
                  case Stop(_, _, _) => after.status == Idle
                  case Eos(_, player) => Closes(before, m) ==> after.status == Idle)
  {
    assert (msgs + [m])[..|msgs|] == msgs;
  }

  /** The address given last while no session was open. */
  function GivenUrl(s: Srv, msgs: seq<Msg>): string {
    if msgs == [] then s.url
    else
      var last := msgs[|msgs| - 1];
      if last.SetDataSource? && Run(s, msgs[..|msgs| - 1]).status == Idle then last.url
      else GivenUrl(s, msgs[..|msgs| - 1])
  }

  lemma {:induction false} UrlIsGiven(s: Srv, msgs: seq<Msg>)
    ensures Run(s, msgs).url == GivenUrl(s, msgs)
  {
    if msgs != [] {
      UrlIsGiven(s, msgs[..|msgs| - 1]);
    }
  }

  /**
   * An end message emits one signal or none: one exactly if it closes a session, and that names the last id and the
   * address given last while no session was open. It counts one round down exactly if it carries the last id. No
   * other message emits a signal.
   */
  lemma {:induction false} SignalNamesAddress(s: Srv, msgs: seq<Msg>, m: Msg)
    ensures var before, after := Run(s, msgs), Run(s, msgs + [m]);
            && (if m.Eos? && before.status != Idle && Closes(before, m)
                then after.signals == before.signals + [PlaybackEos(m.id, GivenUrl(s, msgs), before.complete)]
                else after.signals == before.signals)
            && (m.Eos? ==> after.remaining == before.remaining - if m.id == before.id then 1 else 0)
            && (m.Eos? ==> after.id == before.id && after.url == before.url && after.complete == before.complete)
  {
    UrlIsGiven(s, msgs);
    assert (msgs + [m])[..|msgs|] == msgs;
  }

  /** Messages that end no session by themselves: no stop request and no refusal by the player. */
  predicate Undisturbed(msgs: seq<Msg>) {
    forall i :: 0 <= i < |msgs| ==> !msgs[i].Stop? && (msgs[i].Eos? ==> !msgs[i].player.Refuses?)
  }

  /** End-of-stream messages with the id. */
  function EosCount(msgs: seq<Msg>, id: uint32): nat {
    if msgs == [] then 0
    else EosCount(msgs[..|msgs| - 1], id) + if msgs[|msgs| - 1].Eos? && msgs[|msgs| - 1].id == id then 1 else 0
  }

  function Max(a: int, b: int): int {
    if a > b then a else b
  }

  /**
   * While playing with id p and loop count n, undisturbed: fewer than max(1, n) end-of-stream messages with
   * id p leave everything but the count as it was, whatever other ids come.
   */
  lemma {:induction false} PlaysOn(s: Srv, msgs: seq<Msg>)
    requires s.status == Playing && Undisturbed(msgs) && EosCount(msgs, s.id) < Max(1, s.remaining)
    ensures Run(s, msgs) == s.(remaining := s.remaining - EosCount(msgs, s.id))
  {
    if msgs != [] {
      PlaysOn(s, msgs[..|msgs| - 1]);
    }
  }

  /** The max(1, n)-th one, and no earlier message, ends playback with one signal carrying the id and address. */
  lemma {:induction false} NthEosEnds(s: Srv, msgs: seq<Msg>, last: Msg)
    requires s.status == Playing && Undisturbed(msgs + [last]) && EosCount(msgs, s.id) < Max(1, s.remaining)
    ensures var end := Run(s, msgs + [last]);
            if EosCount(msgs + [last], s.id) == Max(1, s.remaining)
            then end.status == Idle && end.signals == s.signals + [PlaybackEos(s.id, s.url, s.complete)]
            else end.status == Playing && end.signals == s.signals
  {
    assert (msgs + [last])[..|msgs|] == msgs;
    assert Undisturbed(msgs) by {
      assert forall i :: 0 <= i < |msgs| ==> msgs[i] == (msgs + [last])[i];
    }
    PlaysOn(s, msgs);
  }

  /** The play requests that were taken. */
  function Plays(s: Srv, msgs: seq<Msg>): nat {
    if msgs == [] then 0
    else
      var before := Run(s, msgs[..|msgs| - 1]);
      Plays(s, msgs[..|msgs| - 1]) + if msgs[|msgs| - 1].Play? && before.status == Prepared then 1 else 0
  }

  lemma {:induction false} IdMoves(s: Srv, m: Msg)
    ensures After(s, m).id == if m.Play? && s.status == Prepared then NextId(s.id) else s.id
  {}

  lemma {:induction false} IdIsCounted(s: Srv, msgs: seq<Msg>)
    ensures Run(s, msgs).id == IdAfter(s.id, Plays(s, msgs))
  {
    if msgs != [] {
      IdIsCounted(s, msgs[..|msgs| - 1]);
      IdMoves(Run(s, msgs[..|msgs| - 1]), msgs[|msgs| - 1]);
    }
  }

  lemma {:induction false} PlaysGrow(s: Srv, msgs: seq<Msg>, n: nat)
    requires n <= |msgs|
    ensures Plays(s, msgs[..n]) <= Plays(s, msgs)
  {
    if n == |msgs| {
      assert msgs[..n] == msgs;
    } else {
      PlaysGrow(s, msgs[..|msgs| - 1], n);
      assert msgs[..|msgs| - 1][..n] == msgs[..n];
    }
  }

  /** Two playbacks of a run have the same id exactly when they are a multiple of 2^32 - 1 play requests apart. */
  lemma {:induction false} PlayIdsRepeatExactly(s: Srv, msgs: seq<Msg>, n: nat)
    requires n <= |msgs| && Plays(s, msgs[..n]) > 0
    ensures Run(s, msgs[..n]).id == Run(s, msgs).id <==>
            (Plays(s, msgs) - Plays(s, msgs[..n])) % (TWO_TO_THE_32 - 1) == 0
    ensures Run(s, msgs).id != 0
  {
    IdIsCounted(s, msgs);
    IdIsCounted(s, msgs[..n]);
    PlaysGrow(s, msgs, n);
    IdsRepeatExactly(s.id, Plays(s, msgs[..n]), Plays(s, msgs));
  }

  /**
   * A play request taken after any run starts such a playback, with an id that is not 0 and that no playback among the
   * 2^32 - 2 before it had.
   */
  lemma {:induction false} PlayStarts(s: Srv, msgs: seq<Msg>, loopCount: int32, player: Player, n: nat)
    requires Run(s, msgs).status == Prepared && n <= |msgs|
    ensures var before := Run(s, msgs);
            var p := After(before, Play(loopCount, player));
            && p.status == Playing && p.complete && p.id != 0
            && p.remaining == (if player.Absent? then before.remaining else loopCount)
            && (0 < Plays(s, msgs[..n]) && Plays(s, msgs) - Plays(s, msgs[..n]) < TWO_TO_THE_32 - 2 ==>
                  p.id != Run(s, msgs[..n]).id)
  {
    var all := msgs + [Play(loopCount, player)];
    assert all[..|msgs|] == msgs && all[..n] == msgs[..n];
    assert Plays(s, all) == Plays(s, msgs) + 1;
    IdIsCounted(s, all);
    IdsRepeatExactly(s.id, Plays(s, all), Plays(s, all));
    if 0 < Plays(s, msgs[..n]) {
      PlaysGrow(s, msgs, n);
      PlayIdsRepeatExactly(s, all, n);
    }
  }

  /**
   * The end-of-stream rule does not ask for the playing state: with nothing playing, the message of an earlier
   * playback can end a prepared session, exactly when it carries the last id and at most one round was left.
   */
  lemma {:induction false} EosInPrepared(s: Srv, id: uint32, player: Player)
    requires s.status == Prepared && !player.Refuses?
    ensures After(s, Eos(id, player)).status == Idle <==> id == s.id && s.remaining <= 1
  {
  }

  /**
   * It does happen: an end-of-stream message that comes twice ends the session prepared in between, with a second
   * signal.
   */
  lemma {:induction false} LateEosEndsNextSession(arbitrary: int)
    ensures var msgs := [Prepare, Play(1, Accepts), Eos(1, Accepts), Prepare, Eos(1, Accepts)];
            && Run(Init(arbitrary), msgs[..4]).status == Prepared
            && Run(Init(arbitrary), msgs).status == Idle
            && Run(Init(arbitrary), msgs).signals == [PlaybackEos(1, "", true), PlaybackEos(1, "", true)]
  {
    var msgs := [Prepare, Play(1, Accepts), Eos(1, Accepts), Prepare, Eos(1, Accepts)];
    var s := Init(arbitrary);
    assert msgs[..4] == [Prepare, Play(1, Accepts), Eos(1, Accepts), Prepare];
    assert msgs[..4][..3] == [Prepare, Play(1, Accepts), Eos(1, Accepts)];
    assert msgs[..4][..3][..2] == [Prepare, Play(1, Accepts)];
    assert msgs[..4][..3][..2][..1] == [Prepare];
    assert msgs[..4][..3][..2][..1][..0] == [];
    assert Run(s, [Prepare]) == s.(status := Prepared);
    var playing := s.(status := Playing, id := 1, remaining := 1);
    assert Run(s, [Prepare, Play(1, Accepts)]) == playing;
    assert Run(s, msgs[..4][..3]) == playing.(status := Idle, remaining := 0, signals := [PlaybackEos(1, "", true)]);
  }

  /** A message that asks to stop while there is something to stop. */
  predicate StopsSomething(s: Srv, m: Msg) {
    m.Stop? && !NothingToStop(s, m.srvIdle)
  }

  /** No effective stop request since the last play request that was taken. */
  predicate NotBrokenOff(s: Srv, msgs: seq<Msg>) {
    if msgs == [] then true
    else
      var before, m := Run(s, msgs[..|msgs| - 1]), msgs[|msgs| - 1];
      if m.Play? && before.status == Prepared then true
      else NotBrokenOff(s, msgs[..|msgs| - 1]) && !StopsSomething(before, m)
  }

  /**
   * A signal says "complete" exactly when nobody asked to stop since the play request, even if that stop was refused.
   */
  lemma {:induction false} CompleteMeansNotBrokenOff(arbitrary: int, msgs: seq<Msg>, id: uint32, player: Player)
    ensures var s := Run(Init(arbitrary), msgs);
            && s.complete == NotBrokenOff(Init(arbitrary), msgs)
            && (Ends(s, id, player) ==>
                  After(s, Eos(id, player)).signals == s.signals
                    + [PlaybackEos(s.id, s.url, NotBrokenOff(Init(arbitrary), msgs))])
  {
    if msgs != [] {
      CompleteMeansNotBrokenOff(arbitrary, msgs[..|msgs| - 1], id, player);
    }
  }
}
