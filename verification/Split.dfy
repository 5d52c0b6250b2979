/** The two Split implementations; a text is what a C string holds before its terminating NUL. */
module Split {
  import opened Basics

  datatype SplitOptions = KeepEmptyParts | SkipEmptyParts

  // ---------- what is computed ----------

  /** The first position that holds the character, or the length. */
  function Find(text: string, c: char): (r: nat)
    ensures r <= |text|
  {
    if text == "" || text[0] == c then 0 else 1 + Find(text[1..], c)
  }

  lemma {:induction false} FindIsFirst(text: string, c: char)
    ensures var r := Find(text, c);
            c !in text[..r] && (r < |text| ==> text[r] == c)
  {
    if text != "" && text[0] != c {
      FindIsFirst(text[1..], c);
      assert text[..Find(text, c)] == [text[0]] + text[1..][..Find(text[1..], c)];
    }
  }

  function Taken(part: string, options: SplitOptions): seq<string> {
    if part != "" || options.KeepEmptyParts? then [part] else []
  }

  /** Nothing comes after a delimiter that ends the text. */
  function Parts(text: string, delimiter: char, options: SplitOptions): seq<string> {
    if text == "" then []
    else
      var p := Find(text, delimiter);
      if p == |text| then [text] else Taken(text[..p], options) + Parts(text[p + 1..], delimiter, options)
  }

  // ---------- the programs ----------

  /** The C library's search. */
  method StrChr(text: string, from: nat, c: char) returns (at: Option<nat>)
    requires from <= |text|
    ensures var p := from + Find(text[from..], c);
            at == if p < |text| then Some(p) else None
  {
    var i := from;
    while i < |text| && text[i] != c
      invariant from <= i <= |text| && from + Find(text[from..], c) == i + Find(text[i..], c)
    {
      assert text[i..][1..] == text[i + 1..];
      i := i + 1;
    }
    at := if i < |text| then Some(i) else None;
  }

  /** Copies n characters from a position on; at the end of the text the copy is empty. */
  method SetContent(text: string, from: nat, n: nat) returns (content: string)
    requires from + n <= |text|
    ensures content == text[from..from + n]
  {
    if from == |text| {
      return "";
    }
    content := "";
    var i := 0;
    while i < n
      invariant i <= n && content == text[from..from + i]
    {
      content := content + [text[from + i]];
      i := i + 1;
    }
  }

  /** The parts found so far and those of the rest of the text are all parts. */
  ghost predicate SoFar(all: seq<string>, parts: seq<string>, text: string, from: nat, delimiter: char,
                        options: SplitOptions)
  {
    from <= |text| && all == parts + Parts(text[from..], delimiter, options)
  }

  /** Adds the part before a delimiter just found, unless it is empty and empties are skipped. */
  method AddPart(parts: seq<string>, text: string, from: nat, end: nat, ghost delimiter: char, options: SplitOptions,
                 ghost all: seq<string>)
    returns (more: seq<string>)
    requires from <= end < |text| && end == from + Find(text[from..], delimiter)
    requires SoFar(all, parts, text, from, delimiter, options)
    ensures SoFar(all, more, text, end + 1, delimiter, options)
  {
    FoundStep(all, parts, text, delimiter, options, from, end);
    more := parts;
    if 0 < end - from || options.KeepEmptyParts? {
      var part := SetContent(text, from, end - from);
      more := more + [part];
    }
    assert more == parts + Taken(text[from..end], options);
  }

  /** Searches for the next delimiter and adds the part before it; None if there is no delimiter left. */
  method NextPart(parts: seq<string>, text: string, from: nat, delimiter: char, options: SplitOptions,
                  ghost all: seq<string>)
    returns (more: seq<string>, next: Option<nat>)
    requires SoFar(all, parts, text, from, delimiter, options)
    ensures next.Some? ==> from < next.value && SoFar(all, more, text, next.value, delimiter, options)
    ensures next.None? ==> more == parts && all == if from < |text| then parts + [text[from..]] else parts
  {
    var at := StrChr(text, from, delimiter);
    if at.None? {
      NoneLeft(all, parts, text, from, delimiter, options);
      return parts, None;
    }
    more := AddPart(parts, text, from, at.value, delimiter, options, all);
    next := Some(at.value + 1);
  }

  /** CString: ends as soon as a delimiter ends the text. */
  method CStringSplit(text: string, delimiter: char, options: SplitOptions) returns (parts: seq<string>)
    requires delimiter != '\0'
    ensures parts == Parts(text, delimiter, options)
  {
    parts := [];
    if text == "" {
      return;
    }
    var start: nat := 0;
    ghost var all := Parts(text, delimiter, options);
    AtStart(all, text, start, delimiter, options);
    while true
      invariant start < |text| && SoFar(all, parts, text, start, delimiter, options)
      decreases |text| - start
    {
      var next;
      parts, next := NextPart(parts, text, start, delimiter, options, all);
      if next.Some? {
        start := next.value;
        if start == |text| {
          break;
        }
      } else {
        var part := SetContent(text, start, |text| - start);
        assert part == text[start..];
        parts := parts + [part];
        return;
      }
    }
    AtEnd(all, parts, text, start, delimiter, options);
  }

  /** CStackBufString: goes on searching and then leaves an empty rest out. */
  method StackBufStringSplit(text: string, delimiter: char, options: SplitOptions) returns (parts: seq<string>)
    requires delimiter != '\0'
    ensures parts == Parts(text, delimiter, options)
  {
    parts := [];
    if text == "" {
      return;
    }
    var start: nat := 0;
    ghost var all := Parts(text, delimiter, options);
    AtStart(all, text, start, delimiter, options);
    while true
      invariant start <= |text| && SoFar(all, parts, text, start, delimiter, options)
      decreases |text| - start
    {
      var next;
      parts, next := NextPart(parts, text, start, delimiter, options, all);
      if next.Some? {
        start := next.value;
      } else {
        if start < |text| {
          var part := SetContent(text, start, |text| - start);
          assert part == text[start..];
          parts := parts + [part];
        }
        return;
      }
    }
  }

  lemma {:induction false} FoundStep(all: seq<string>, parts: seq<string>, text: string, delimiter: char,
                                     options: SplitOptions, from: nat, at: nat)
    requires from <= at < |text| && at == from + Find(text[from..], delimiter)
    requires SoFar(all, parts, text, from, delimiter, options)
    ensures SoFar(all, parts + Taken(text[from..at], options), text, at + 1, delimiter, options)
  {
    var rest := text[from..];
    assert rest[..at - from] == text[from..at] && rest[at - from + 1..] == text[at + 1..];
    Regroup(parts, Taken(text[from..at], options), Parts(text[at + 1..], delimiter, options));
  }

  lemma {:induction false} NoneLeft(all: seq<string>, parts: seq<string>, text: string, from: nat, delimiter: char,
                                    options: SplitOptions)
    requires SoFar(all, parts, text, from, delimiter, options) && Find(text[from..], delimiter) == |text| - from
    ensures all == if from < |text| then parts + [text[from..]] else parts
  {
  }

  lemma {:induction false} AtStart(all: seq<string>, text: string, at: nat, delimiter: char, options: SplitOptions)
    requires at == 0 && all == Parts(text, delimiter, options)
    ensures SoFar(all, [], text, at, delimiter, options)
  {
    assert text[at..] == text;
  }

  lemma {:induction false} AtEnd(all: seq<string>, parts: seq<string>, text: string, at: nat, delimiter: char,
                                 options: SplitOptions)
    requires at == |text| && SoFar(all, parts, text, at, delimiter, options)
    ensures parts == all
  {
  }

  // ---------- what the parts are ----------

  function Join(parts: seq<string>, delimiter: char): string {
    if parts == [] then "" else if |parts| == 1 then parts[0] else parts[0] + [delimiter] + Join(parts[1..], delimiter)
  }

  predicate EndsWith(text: string, c: char) {
    text != "" && text[|text| - 1] == c
  }

  function WithoutEmpty(parts: seq<string>): seq<string> {
    if parts == [] then [] else Taken(parts[0], SkipEmptyParts) + WithoutEmpty(parts[1..])
  }

  predicate FreeOf(parts: seq<string>, c: char) {
    forall i :: 0 <= i < |parts| ==> c !in parts[i]
  }

  predicate Restores(parts: seq<string>, text: string, delimiter: char) {
    && text == Join(parts, delimiter) + (if EndsWith(text, delimiter) then [delimiter] else "")
    && FreeOf(parts, delimiter)
    && (parts == [] <==> text == "")
  }

  lemma {:induction false} JoinMore(part: string, rest: seq<string>, tail: string, text: string, delimiter: char)
    requires Restores(rest, tail, delimiter) && delimiter !in part && text == part + [delimiter] + tail
    ensures Restores([part] + rest, text, delimiter)
  {
  }

  /**
   * Keeping the empty parts loses nothing: joining them, plus one delimiter if the text ended in one, restores the
   * text.
   */
  lemma {:induction false} JoinRestores(text: string, delimiter: char)
    ensures Restores(Parts(text, delimiter, KeepEmptyParts), text, delimiter)
  {
    var p := Find(text, delimiter);
    FindIsFirst(text, delimiter);
    if text != "" {
      if p < |text| {
        assert text == text[..p] + [delimiter] + text[p + 1..];
        JoinRestores(text[p + 1..], delimiter);
        JoinMore(text[..p], Parts(text[p + 1..], delimiter, KeepEmptyParts), text[p + 1..], text, delimiter);
      } else {
        assert text[..p] == text;
      }
    }
  }

  lemma {:induction false} FilterMore(first: string, rest: seq<string>)
    ensures WithoutEmpty([first] + rest) == Taken(first, SkipEmptyParts) + WithoutEmpty(rest)
  {
    assert ([first] + rest)[1..] == rest;
  }

  /** Skipping empties is keeping them and then leaving them out. */
  lemma {:induction false} SkipIsFilter(text: string, delimiter: char)
    ensures Parts(text, delimiter, SkipEmptyParts) == WithoutEmpty(Parts(text, delimiter, KeepEmptyParts))
  {
    if text != "" {
      var p := Find(text, delimiter);
      if p < |text| {
        var first, rest := text[..p], text[p + 1..];
        SkipIsFilter(rest, delimiter);
        FilterMore(first, Parts(rest, delimiter, KeepEmptyParts));
        assert Parts(text, delimiter, KeepEmptyParts) == [first] + Parts(rest, delimiter, KeepEmptyParts);
        assert Parts(text, delimiter, SkipEmptyParts) ==
               Taken(first, SkipEmptyParts) + Parts(rest, delimiter, SkipEmptyParts);
      } else {
        assert WithoutEmpty([text]) == [text];
      }
    }
  }

  /** The positions, in order, of the parts that are not empty. */
  predicate PicksNonEmpty(parts: seq<string>, at: seq<nat>) {
    && (forall i :: 0 <= i < |at| ==> at[i] < |parts| && parts[at[i]] != "")
    && (forall i, j :: 0 <= i < j < |at| ==> at[i] < at[j])
    && (forall k :: 0 <= k < |parts| && parts[k] != "" ==> k in at)
  }

  /** The positions with one more part in front. */
  function PicksBefore(first: string, at: seq<nat>): (r: seq<nat>) {
    (if first == "" then [] else [0]) + seq(|at|, i requires 0 <= i < |at| => at[i] + 1)
  }

  lemma {:induction false} PicksMore(first: string, rest: seq<string>, parts: seq<string>, at: seq<nat>, more: seq<nat>)
    requires PicksNonEmpty(rest, at) && parts == [first] + rest && more == PicksBefore(first, at)
    ensures PicksNonEmpty(parts, more)
  {
    var shift := |more| - |at|;
    forall k | 0 <= k < |parts| && parts[k] != "" ensures k in more {
      if k == 0 {
        assert more[0] == k;
      } else {
        assert rest[k - 1] != "";
        var i :| 0 <= i < |at| && at[i] == k - 1;
        assert more[shift + i] == k;
      }
    }
  }

  lemma {:induction false} PicksAt(first: string, rest: seq<string>, kept: seq<string>, at: seq<nat>, more: seq<nat>)
    requires PicksNonEmpty(rest, at) && |kept| == |at| && more == PicksBefore(first, at)
    requires forall i :: 0 <= i < |at| ==> kept[i] == rest[at[i]]
    ensures var all := Taken(first, SkipEmptyParts) + kept;
            && |all| == |more|
            && forall i :: 0 <= i < |more| ==> more[i] <= |rest| && all[i] == ([first] + rest)[more[i]]
  {
  }

  lemma {:induction false} FilterPicks(parts: seq<string>) returns (at: seq<nat>)
    ensures PicksNonEmpty(parts, at) && |WithoutEmpty(parts)| == |at|
    ensures forall i :: 0 <= i < |at| ==> WithoutEmpty(parts)[i] == parts[at[i]]
  {
    at := [];
    if parts != [] {
      var rest := FilterPicks(parts[1..]);
      at := PicksBefore(parts[0], rest);
      assert parts == [parts[0]] + parts[1..];
      PicksMore(parts[0], parts[1..], parts, rest, at);
      PicksAt(parts[0], parts[1..], WithoutEmpty(parts[1..]), rest, at);
    }
  }

  /** Skipping leaves exactly those of the kept parts that are not empty, in their order. */
  lemma {:induction false} SkipLeavesOutEmpty(text: string, delimiter: char) returns (at: seq<nat>)
    ensures var kept, skipped := Parts(text, delimiter, KeepEmptyParts), Parts(text, delimiter, SkipEmptyParts);
            && PicksNonEmpty(kept, at) && |skipped| == |at|
            && forall i :: 0 <= i < |at| ==> skipped[i] == kept[at[i]]
  {
    SkipIsFilter(text, delimiter);
    at := FilterPicks(Parts(text, delimiter, KeepEmptyParts));
  }

  lemma {:induction false} FindFirst(part: string, tail: string, c: char)
    requires c !in part
    ensures Find(part + [c] + tail, c) == |part|
  {
    if part != "" {
      FindFirst(part[1..], tail, c);
      assert (part + [c] + tail)[1..] == part[1..] + [c] + tail;
    }
  }

  /** A delimiter-free part, a delimiter, and more. */
  lemma {:induction false} PartsOfFirst(part: string, tail: string, text: string, delimiter: char)
    requires delimiter !in part && text == part + [delimiter] + tail
    ensures Parts(text, delimiter, KeepEmptyParts) == [part] + Parts(tail, delimiter, KeepEmptyParts)
  {
    FindFirst(part, tail, delimiter);
    assert text[..|part|] == part && text[|part| + 1..] == tail;
  }

  lemma {:induction false} PartsOfLast(part: string, delimiter: char)
    requires delimiter !in part && part != ""
    ensures Parts(part, delimiter, KeepEmptyParts) == [part]
  {
    FindIsFirst(part, delimiter);
    assert forall i :: 0 <= i < |part| ==> part[i] in part;
  }

  /**
   * Any delimiter-free parts come back from joining them, if the text ends in a delimiter or a part that is not
   * empty.
   */
  lemma {:induction false} SplitOfJoin(parts: seq<string>, delimiter: char, closed: bool)
    requires parts != [] && FreeOf(parts, delimiter)
    requires closed || parts[|parts| - 1] != ""
    ensures Parts(Join(parts, delimiter) + (if closed then [delimiter] else ""), delimiter, KeepEmptyParts) == parts
  {
    var end := if closed then [delimiter] else "";
    var text := Join(parts, delimiter) + end;
    if |parts| > 1 {
      SplitOfJoin(parts[1..], delimiter, closed);
      PartsOfFirst(parts[0], Join(parts[1..], delimiter) + end, text, delimiter);
    } else if closed {
      PartsOfFirst(parts[0], "", text, delimiter);
    } else {
      assert text == parts[0];
      PartsOfLast(parts[0], delimiter);
    }
  }

  /** Text a is b with a delimiter at the end that b does not have. */
  predicate Closes(a: string, b: string, delimiter: char) {
    a == b + [delimiter] && b != "" && !EndsWith(b, delimiter)
  }

  lemma {:induction false} ClosedHasSameParts(a: string, b: string, delimiter: char)
    requires Closes(a, b, delimiter)
    ensures Parts(a, delimiter, KeepEmptyParts) == Parts(b, delimiter, KeepEmptyParts)
  {
    var parts := Parts(b, delimiter, KeepEmptyParts);
    JoinRestores(b, delimiter);
    assert b == Join(parts, delimiter) + "" == Join(parts, delimiter);
    SplitOfJoin(parts, delimiter, true);
  }

  lemma {:induction false} SamePartsSameText(a: string, b: string, delimiter: char)
    requires Parts(a, delimiter, KeepEmptyParts) == Parts(b, delimiter, KeepEmptyParts)
    ensures a == b || Closes(a, b, delimiter) || Closes(b, a, delimiter)
  {
    var joined := Join(Parts(a, delimiter, KeepEmptyParts), delimiter);
    JoinRestores(a, delimiter);
    JoinRestores(b, delimiter);
    assert a == (if EndsWith(a, delimiter) then joined + [delimiter] else joined);
    assert b == (if EndsWith(b, delimiter) then joined + [delimiter] else joined);
  }

  /** Two texts have the same parts exactly if they are the same, but for a delimiter at the end of one of them. */
  lemma {:induction false} PartsDetermineText(a: string, b: string, delimiter: char)
    ensures Parts(a, delimiter, KeepEmptyParts) == Parts(b, delimiter, KeepEmptyParts) <==>
            a == b || Closes(a, b, delimiter) || Closes(b, a, delimiter)
  {
    if Parts(a, delimiter, KeepEmptyParts) == Parts(b, delimiter, KeepEmptyParts) {
      SamePartsSameText(a, b, delimiter);
    }
    if Closes(a, b, delimiter) {
      ClosedHasSameParts(a, b, delimiter);
    }
    if Closes(b, a, delimiter) {
      ClosedHasSameParts(b, a, delimiter);
    }
  }
}
