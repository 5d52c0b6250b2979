/** Splitting a command line into arguments: one pass counts them, a second fills the argument array. */
module Tokenizer {
  /** One entry of the argument array; a fresh array holds nothing usable. */
  datatype Slot = Unset | Null | Arg(text: string)

  /** "Faulted": an argument length of -1 was given to the copy. */
  datatype Outcome = InvalidParameter | Faulted | Filled(slots: seq<Slot>)

  // ---------- what the filling pass does, character by character ----------

  datatype Scan = Between(args: seq<string>) | Within(args: seq<string>, quoted: bool, token: string) | Fault

  /** Whether the character before the current one is a quote; an empty token has only its opening quote before it. */
  predicate AfterQuote(token: string) {
    token == "" || token[|token| - 1] == '\''
  }

  /** Ends the token at a space or at the end of the text; without a closing quote a quoted token goes on. */
  function Stored(args: seq<string>, token: string): Scan {
    if token == "" then Fault
    else if AfterQuote(token) then Between(args + [token[..|token| - 1]])
    else Between(args + [token])
  }

  function Feed(s: Scan, c: char): Scan {
    match s
    case Fault => Fault
    case Between(args) =>
      if c == ' ' then s else if c == '\'' then Within(args, true, "") else Within(args, false, [c])
    case Within(args, quoted, token) =>
      if c != ' ' || (quoted && !AfterQuote(token)) then Within(args, quoted, token + [c])
      else Stored(args, token)
  }

  function FeedAll(s: Scan, text: string): Scan {
    if text == "" then s else Feed(FeedAll(s, text[..|text| - 1]), text[|text| - 1])
  }

  function Args(texts: seq<string>): (r: seq<Slot>)
    ensures |r| == |texts| && forall i :: 0 <= i < |r| ==> r[i] == Arg(texts[i])
  {
    seq(|texts|, i requires 0 <= i < |texts| => Arg(texts[i]))
  }

  /** The array is properly ended only if the text ends with an argument that is complete. */
  function Result(s: Scan): Outcome {
    match s
    case Fault => Faulted
    case Between(args) => Filled(Args(args) + [Unset, Null])
    case Within(args, quoted, token) =>
      if quoted && !AfterQuote(token) then Filled(Args(args) + [Unset, Null])
      else
        var last := Stored(args, token);
        if last.Fault? then Faulted else Filled(Args(last.args) + [Null])
  }

  function Tokenize(command: string): (r: Outcome)
    ensures r.InvalidParameter? <==> command == ""
  {
    if command == "" then InvalidParameter else Result(FeedAll(Between([]), command))
  }

  // ---------- the counting pass ----------

  /** The counting pass keeps no text, so it does not see a fault. */
  datatype Count = Count(count: nat, within: bool, quoted: bool)

  function CountFeed(n: Count, before: char, c: char): Count {
    if !n.within then (if c == ' ' then n else n.(within := true, quoted := n.quoted || c == '\''))
    else if c != ' ' then n
    else if n.quoted && before != '\'' then n
    else Count(n.count + 1, false, false)
  }

  function CountAll(text: string): Count {
    if text == "" then Count(1, false, false)
    else CountFeed(CountAll(text[..|text| - 1]), if |text| == 1 then ' ' else text[|text| - 2], text[|text| - 1])
  }

  /** The passes agree as long as the filling pass has not faulted. */
  predicate Agree(n: Count, s: Scan) {
    match s
    case Fault => true
    case Between(args) => n == Count(|args| + 1, false, false)
    case Within(args, quoted, token) => n == Count(|args| + 1, true, quoted)
  }

  predicate LastIs(s: Scan, before: char) {
    s.Within? ==> (if s.token == "" then before == '\'' && s.quoted else before == s.token[|s.token| - 1])
  }

  lemma {:induction false} PassesAgree(text: string)
    ensures Agree(CountAll(text), FeedAll(Between([]), text))
    ensures text != "" ==> LastIs(FeedAll(Between([]), text), text[|text| - 1])
  {
    if text != "" {
      PassesAgree(text[..|text| - 1]);
    }
  }

  method CountArguments(command: string) returns (count: nat)
    ensures count == CountAll(command).count
  {
    count := 1;
    var within, quoted := false, false;
    var i := 0;
    while i < |command|
      invariant i <= |command| && CountAll(command[..i]) == Count(count, within, quoted)
      invariant within ==> i > 0
    {
      assert command[..i + 1][..i] == command[..i];
      if !within {
        if ' ' != command[i] {
          within := true;
          if command[i] == '\'' {
            quoted := true;
          }
        }
      } else {
        if ' ' == command[i] {
          if command[i - 1] == '\'' {
            quoted := false;
          }
          if !quoted {
            count := count + 1;
            within := false;
          }
        }
      }
      i := i + 1;
    }
    assert command[..i] == command;
  }

  /** Copies the characters from start up to end into a slot; says whether the length was a length. */
  method CopyArgument(slots: array<Slot>, id: nat, command: string, start: nat, end: int) returns (ok: bool)
    requires id < slots.Length && start <= |command| && end <= |command|
    modifies slots
    ensures ok == (start <= end)
    ensures ok ==> slots[..] == old(slots[..])[id := Arg(command[start..end])]
  {
    if end - start < 0 {
      return false;
    }
    slots[id] := Arg(command[start..end]);
    ok := true;
  }

  function Unused(n: nat): (r: seq<Slot>)
    ensures |r| == n && forall i :: 0 <= i < n ==> r[i] == Unset
  {
    seq(n, _ => Unset)
  }

  /** The array after some arguments have been stored: those, then unused entries, then the end mark. */
  ghost predicate FilledTo(slots: seq<Slot>, args: seq<string>) {
    |args| < |slots| && slots == Args(args) + Unused(|slots| - 1 - |args|) + [Null]
  }

  lemma {:induction false} StoreOne(slots: seq<Slot>, args: seq<string>, text: string)
    requires FilledTo(slots, args) && |args| + 1 < |slots|
    ensures FilledTo(slots[|args| := Arg(text)], args + [text])
  {
  }

  lemma {:induction false} EndShapes(slots: seq<Slot>, args: seq<string>)
    requires FilledTo(slots, args)
    ensures |slots| == |args| + 1 ==> slots == Args(args) + [Null] && slots[|args| := Null] == slots
    ensures |slots| == |args| + 2 ==> slots == Args(args) + [Unset, Null]
  {
  }

  lemma {:induction false} CountGrows(text: string, i: nat)
    requires i <= |text|
    ensures CountAll(text[..i]).count <= CountAll(text).count
  {
    if i == |text| {
      assert text[..i] == text;
    } else {
      CountGrows(text[..|text| - 1], i);
      assert text[..|text| - 1][..i] == text[..i];
    }
  }

  /** Where the filling pass stands before character i: its variables, as the scan so far. */
  ghost predicate Standing(s: Scan, command: string, i: nat, id: nat, within: bool, quoted: bool, start: nat)
    requires i <= |command|
  {
    match s
    case Fault => false
    case Between(args) => !within && !quoted && id == |args|
    case Within(args, q, token) => within && quoted == q && id == |args| && start <= i && token == command[start..i]
  }

  /** There is room for an argument that ends before the text does, and for the last one. */
  lemma {:induction false} RoomFor(command: string, i: nat)
    requires i <= |command|
    ensures match FeedAll(Between([]), command[..i])
            case Fault => true
            case Between(args) => |args| + 1 <= CountAll(command).count
            case Within(args, _, _) => |args| + 1 <= CountAll(command).count
  {
    PassesAgree(command[..i]);
    CountGrows(command, i);
  }

  /** Ends the argument that started at "start" before character i, leaving out a closing quote. */
  method StoreArgument(slots: array<Slot>, id: nat, command: string, start: nat, i: nat, ghost args: seq<string>)
    returns (ok: bool)
    requires start <= i <= |command| && i > 0 && (start == i ==> command[i - 1] == '\'')
    requires id == |args| && |args| + 1 < slots.Length && FilledTo(slots[..], args)
    modifies slots
    ensures ok == Stored(args, command[start..i]).Between?
    ensures ok ==> FilledTo(slots[..], Stored(args, command[start..i]).args)
  {
    var end := i;
    if command[i - 1] == '\'' {
      end := end - 1;
    }
    ghost var before := slots[..];
    ok := CopyArgument(slots, id, command, start, end);
    if ok {
      assert command[start..i][..|command[start..i]| - 1] == command[start..i - 1];
      StoreOne(before, args, command[start..end]);
    }
  }

  method CreateArguments(command: string) returns (outcome: Outcome)
    ensures outcome == Tokenize(command)
    ensures outcome.Filled? ==> |outcome.slots| == CountAll(command).count + 1
  {
    if 0 >= |command| {
      return InvalidParameter;
    }
    var count := CountArguments(command);
    var slots := new Slot[count + 1](_ => Unset);
    slots[count] := Null;
    assert FilledTo(slots[..], []);
    outcome := Fill(command, slots);
  }

  /** A space in an argument: a quote that is still open goes on, anything else ends there. */
  method AtSpace(command: string, slots: array<Slot>, i: nat, id: nat, start: nat, quoted: bool, ghost scan: Scan)
    returns (ok: bool, within': bool, quoted': bool, id': nat)
    requires 0 < i < |command| && command[i] == ' ' && LastIs(scan, command[i - 1])
    requires Standing(scan, command, i, id, true, quoted, start)
    requires |scan.args| + 1 < slots.Length && FilledTo(slots[..], scan.args)
    modifies slots
    ensures ok == !Feed(scan, ' ').Fault?
    ensures ok ==> Standing(Feed(scan, ' '), command, i + 1, id', within', quoted', start)
    ensures ok ==> FilledTo(slots[..], Feed(scan, ' ').args)
  {
    ok, within', quoted', id' := true, true, quoted, id;
    if command[i - 1] == '\'' {
      quoted' := false;
    }
    if quoted' {
      Continues(scan, command, i, id, quoted, start);
    } else {
      ok := StoreArgument(slots, id, command, start, i, scan.args);
      within' := false;
      id' := id + 1;
    }
  }

  method Fill(command: string, slots: array<Slot>) returns (outcome: Outcome)
    requires command != "" && slots.Length == CountAll(command).count + 1 && FilledTo(slots[..], [])
    modifies slots
    ensures outcome == Tokenize(command)
    ensures outcome.Filled? ==> outcome.slots == slots[..]
  {
    var id, start, within, quoted := 0, 0, false, false;
    ghost var scan := Between([]);
    assert command[..0] == "";
    var i := 0;
    while i < |command|
      invariant i <= |command| && scan == FeedAll(Between([]), command[..i])
      invariant Standing(scan, command, i, id, within, quoted, start)
      invariant FilledTo(slots[..], scan.args)
    {
      assert command[..i + 1][..i] == command[..i];
      FactsAt(command, i);
      RoomFor(command, i);
      if !within {
        if ' ' != command[i] {
          within := true;
          start := i;
          if command[i] == '\'' {
            quoted := true;
            start := start + 1;
          }
        }
        Begins(scan, command, i, id, start);
      } else if ' ' != command[i] {
        Continues(scan, command, i, id, quoted, start);
      } else {
        var ok;
        ok, within, quoted, id := AtSpace(command, slots, i, id, start, quoted, scan);
        if !ok {
          FaultStays(command, i + 1);
          return Faulted;
        }
      }
      scan := Feed(scan, command[i]);
      i := i + 1;
    }
    assert command[..i] == command;
    outcome := EndFill(command, slots, id, start, within, quoted, scan);
  }

  /** The text has ended; an argument that is complete becomes the last one. */
  method EndFill(command: string, slots: array<Slot>, id: nat, start: nat, within: bool, quoted: bool, ghost scan: Scan)
    returns (outcome: Outcome)
    requires command != "" && slots.Length == CountAll(command).count + 1
    requires scan == FeedAll(Between([]), command) && Standing(scan, command, |command|, id, within, quoted, start)
    requires FilledTo(slots[..], scan.args)
    modifies slots
    ensures outcome == Tokenize(command)
    ensures outcome.Filled? ==> outcome.slots == slots[..]
  {
    PassesAgree(command);
    ghost var args := scan.args;
    if within {
      var open := quoted;
      if command[|command| - 1] == '\'' {
        open := false;
      }
      if !open {
        var ok := StoreArgument(slots, id, command, start, |command|, args);
        if !ok {
          return Faulted;
        }
        args := Stored(args, command[start..]).args;
        assert command[start..] == command[start..|command|];
        EndShapes(slots[..], args);
        slots[id + 1] := Null;
      }
    }
    EndShapes(slots[..], args);
    outcome := Filled(slots[..]);
  }

  lemma {:induction false} Begins(scan: Scan, command: string, i: nat, id: nat, start: nat)
    requires i < |command| && Standing(scan, command, i, id, false, false, 0)
    requires command[i] != ' ' ==> start == if command[i] == '\'' then i + 1 else i
    ensures Standing(Feed(scan, command[i]), command, i + 1, id, command[i] != ' ', command[i] == '\'', start)
    ensures Feed(scan, command[i]).args == scan.args
  {
  }

  lemma {:induction false} Continues(scan: Scan, command: string, i: nat, id: nat, quoted: bool, start: nat)
    requires i < |command| && Standing(scan, command, i, id, true, quoted, start)
    requires command[i] != ' ' || (quoted && !AfterQuote(scan.token))
    ensures Standing(Feed(scan, command[i]), command, i + 1, id, true, quoted, start)
    ensures Feed(scan, command[i]).args == scan.args
  {
  }

  lemma {:induction false} FactsAt(command: string, i: nat)
    requires i <= |command|
    ensures LastIs(FeedAll(Between([]), command[..i]), if i == 0 then ' ' else command[i - 1])
    ensures i == 0 ==> FeedAll(Between([]), command[..i]) == Between([])
  {
  }

  lemma {:induction false} FaultStays(command: string, i: nat)
    requires i <= |command| && FeedAll(Between([]), command[..i]).Fault?
    ensures FeedAll(Between([]), command).Fault?
  {
    if i == |command| {
      assert command[..i] == command;
    } else {
      assert command[..|command| - 1][..i] == command[..i];
      FaultStays(command[..|command| - 1], i);
    }
  }
}
