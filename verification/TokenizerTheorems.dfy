/** When the tokenizer's argument array is sound, and which argument lists come back as they were. */
module TokenizerTheorems {
  import opened Tokenizer

  // ---------- every command ----------

  /** The text ends inside an argument that is complete: not quoted, or with its closing quote. */
  predicate EndsComplete(command: string) {
    command != "" && CountAll(command).within && (CountAll(command).quoted ==> command[|command| - 1] == '\'')
  }

  /**
   * The array has one entry more than were counted, never more arguments than counted, and the end mark last;
   * one entry stays unset exactly when the text does not end with a complete argument.
   */
  lemma {:induction false} PassesFit(command: string)
    requires Tokenize(command).Filled?
    ensures var slots := Tokenize(command).slots;
            var n := CountAll(command).count;
            && |slots| == n + 1 && slots[n] == Null
            && (forall i :: 0 <= i < n - 1 ==> slots[i].Arg?)
            && (if EndsComplete(command) then slots[n - 1].Arg? else slots[n - 1] == Unset)
  {
    PassesAgree(command);
  }

  /** An argument that begins with a quote, and that quote has a space after it. */
  predicate SpacedQuote(text: string, i: nat) {
    i + 1 < |text| && text[i] == '\'' && text[i + 1] == ' ' && !CountAll(text[..i]).within
  }

  lemma {:induction false} FaultAt(text: string)
    ensures FeedAll(Between([]), text).Fault? <==> exists i: nat :: SpacedQuote(text, i)
  {
    if text != "" {
      var n := |text| - 1;
      var head := text[..n];
      FaultAt(head);
      assert forall i: nat | i < n :: head[..i] == text[..i];
      assert forall i: nat :: SpacedQuote(head, i) ==> SpacedQuote(text, i);
      assert forall i: nat :: SpacedQuote(text, i) ==> SpacedQuote(head, i) || i + 1 == n;
      if !FeedAll(Between([]), head).Fault? {
        EmptyToken(head);
        assert FeedAll(Between([]), text).Fault? ==> SpacedQuote(text, n - 1);
      }
    }
  }

  /** The token is empty right after its opening quote, and only there. */
  lemma {:induction false} EmptyToken(text: string)
    requires !FeedAll(Between([]), text).Fault?
    ensures var s := FeedAll(Between([]), text);
            s.Within? && s.token == "" <==>
            text != "" && text[|text| - 1] == '\'' && !CountAll(text[..|text| - 1]).within
  {
    if text != "" {
      PassesAgree(text[..|text| - 1]);
    }
  }

  /** The copy gets a negative length exactly when some argument is a quote with a space or the end right after it. */
  lemma {:induction false} FaultExactly(command: string)
    ensures Tokenize(command).Faulted? <==>
            || (exists i: nat :: SpacedQuote(command, i))
            || (command != "" && command[|command| - 1] == '\'' && !CountAll(command[..|command| - 1]).within)
  {
    FaultAt(command);
    if !FeedAll(Between([]), command).Fault? {
      EmptyToken(command);
    }
  }

  /** The shortest command with a fault: its only argument is a quote. */
  lemma {:induction false} LoneQuoteFaults()
    ensures Tokenize("'").Faulted?
  {
    assert "'"[..0] == "";
    assert FeedAll(Between([]), "'") == Within([], true, "");
  }

  /** A space at the end leaves the last entry before the end mark unset. */
  lemma {:induction false} EndingSpaceLeavesUnset()
    ensures Tokenize("a ") == Filled([Arg("a"), Unset, Null]) && !EndsComplete("a ")
  {
    assert "a "[..1] == "a" && "a"[..0] == "";
    assert FeedAll(Between([]), "a") == Within([], false, "a");
    assert FeedAll(Between([]), "a ") == Between(["a"]);
    assert CountAll("a") == Count(1, true, false);
  }

  // ---------- round trip ----------

  datatype Argument = Plain(text: string) | Quoted(text: string)

  predicate QuoteSpaceAt(text: string, i: nat) {
    i + 1 < |text| && text[i] == '\'' && text[i + 1] == ' '
  }

  predicate NoQuoteSpace(text: string) {
    forall i: nat | i < |text| :: !QuoteSpaceAt(text, i)
  }

  /** The arguments that can be written: words not starting or ending with a quote, and quoted texts. */
  predicate Printable(a: Argument) {
    match a
    case Plain(t) => t != "" && ' ' !in t && t[0] != '\'' && t[|t| - 1] != '\''
    case Quoted(t) => (t != "" ==> t[0] != ' ') && NoQuoteSpace(t)
  }

  function Render(a: Argument): string {
    match a
    case Plain(t) => t
    case Quoted(t) => "'" + t + "'"
  }

  function Spaces(n: nat): string {
    if n == 0 then "" else Spaces(n - 1) + " "
  }

  /** The arguments in order, "gaps" giving the extra spaces before each. */
  function CommandLine(args: seq<Argument>, gaps: seq<nat>): string
    requires |gaps| == |args|
  {
    if args == [] then ""
    else
      var n := |args| - 1;
      CommandLine(args[..n], gaps[..n]) + Spaces(gaps[n] + if n == 0 then 0 else 1) + Render(args[n])
  }

  function Texts(args: seq<Argument>): (r: seq<string>)
    ensures |r| == |args| && forall i :: 0 <= i < |r| ==> r[i] == args[i].text
  {
    seq(|args|, i requires 0 <= i < |args| => args[i].text)
  }

  /** The scan is inside an argument that would be complete here, and then all the texts are stored. */
  predicate Completes(s: Scan, texts: seq<string>) {
    s.Within? && (s.quoted ==> AfterQuote(s.token)) && Stored(s.args, s.token) == Between(texts)
  }

  lemma {:induction false} FeedAllConcat(s: Scan, a: string, b: string)
    ensures FeedAll(s, a + b) == FeedAll(FeedAll(s, a), b)
  {
    if b == "" {
      assert a + b == a;
    } else {
      FeedAllConcat(s, a, b[..|b| - 1]);
      assert (a + b)[..|a + b| - 1] == a + b[..|b| - 1];
    }
  }

  lemma {:induction false} SpacesSkip(args: seq<string>, n: nat)
    ensures FeedAll(Between(args), Spaces(n)) == Between(args)
  {
    if n > 0 {
      SpacesSkip(args, n - 1);
      assert Spaces(n)[..|Spaces(n)| - 1] == Spaces(n - 1);
    }
  }

  lemma {:induction false} PlainFeeds(args: seq<string>, t: string)
    requires t != "" && ' ' !in t && t[0] != '\''
    ensures FeedAll(Between(args), t) == Within(args, false, t)
  {
    var n := |t| - 1;
    if n == 0 {
      assert t[..n] == "" && t == [t[0]];
    } else {
      PlainFeeds(args, t[..n]);
      assert t[..n] + [t[n]] == t;
    }
  }

  lemma {:induction false} QuotedFeeds(args: seq<string>, t: string)
    requires (t != "" ==> t[0] != ' ') && NoQuoteSpace(t)
    ensures FeedAll(Between(args), "'" + t) == Within(args, true, t)
  {
    if t == "" {
      assert "'" + t == "'" && "'"[..0] == "";
    } else {
      var n := |t| - 1;
      forall i: nat ensures !QuoteSpaceAt(t[..n], i) {
        assert !QuoteSpaceAt(t, i);
      }
      QuotedFeeds(args, t[..n]);
      assert ("'" + t)[..n + 1] == "'" + t[..n];
      assert t[..n] + [t[n]] == t;
      assert n > 0 ==> !QuoteSpaceAt(t, n - 1);
    }
  }

  lemma {:induction false} RenderFeeds(args: seq<string>, a: Argument)
    requires Printable(a)
    ensures Completes(FeedAll(Between(args), Render(a)), args + [a.text])
  {
    match a
    case Plain(t) => PlainFeeds(args, t);
    case Quoted(t) =>
      QuotedFeeds(args, t);
      assert Render(a)[..|t| + 1] == "'" + t;
      assert FeedAll(Between(args), Render(a)) == Within(args, true, t + "'");
      assert (t + "'")[..|t|] == t;
  }

  predicate AllPrintable(args: seq<Argument>) {
    forall i :: 0 <= i < |args| ==> Printable(args[i])
  }

  /** The line has been read, and what was stored or is complete are the texts. */
  predicate Read(line: string, texts: seq<string>) {
    var s := FeedAll(Between([]), line);
    if texts == [] then s == Between([]) else Completes(s, texts)
  }

  lemma {:induction false} CommandLineFeeds(args: seq<Argument>, gaps: seq<nat>)
    requires |gaps| == |args| && AllPrintable(args)
    ensures Read(CommandLine(args, gaps), Texts(args))
  {
    if args != [] {
      var n := |args| - 1;
      var head, texts := CommandLine(args[..n], gaps[..n]), Texts(args[..n]);
      CommandLineFeeds(args[..n], gaps[..n]);
      TextsSplit(args);
      OneMoreFeeds(CommandLine(args, gaps), Texts(args), head, texts, args[n], gaps[n]);
    }
  }

  lemma {:induction false} OneMoreFeeds(line: string, all: seq<string>, head: string, texts: seq<string>, a: Argument,
                                        gap: nat)
    requires Read(head, texts) && Printable(a) && (texts == [] ==> head == "")
    requires line == head + Spaces(gap + if texts == [] then 0 else 1) + Render(a) && all == texts + [a.text]
    ensures Read(line, all)
  {
    SpacesFeed(head, texts, texts == [], gap);
    ArgumentFeeds(head, gap + if texts == [] then 0 else 1, a, texts);
  }

  lemma {:induction false} TextsSplit(args: seq<Argument>)
    requires args != []
    ensures Texts(args) == Texts(args[..|args| - 1]) + [args[|args| - 1].text]
  {
  }

  lemma {:induction false} SpacesFeed(head: string, texts: seq<string>, first: bool, gap: nat)
    requires if first then head == "" && texts == [] else Completes(FeedAll(Between([]), head), texts)
    ensures FeedAll(Between([]), head + Spaces(gap + if first then 0 else 1)) == Between(texts)
  {
    FeedAllConcat(Between([]), head, Spaces(gap + if first then 0 else 1));
    if first {
      SpacesSkip([], gap);
    } else {
      SpaceEnds(FeedAll(Between([]), head), texts, gap);
    }
  }

  lemma {:induction false} ArgumentFeeds(head: string, spaces: nat, a: Argument, texts: seq<string>)
    requires FeedAll(Between([]), head + Spaces(spaces)) == Between(texts) && Printable(a)
    ensures Completes(FeedAll(Between([]), head + Spaces(spaces) + Render(a)), texts + [a.text])
  {
    FeedAllConcat(Between([]), head + Spaces(spaces), Render(a));
    RenderFeeds(texts, a);
  }

  /** One space ends a complete argument, more are skipped. */
  lemma {:induction false} SpaceEnds(s: Scan, texts: seq<string>, n: nat)
    requires Completes(s, texts)
    ensures FeedAll(s, Spaces(n + 1)) == Between(texts)
  {
    assert Spaces(n + 1)[..|Spaces(n + 1)| - 1] == Spaces(n);
    if n == 0 {
      assert Spaces(1) == " " && " "[..0] == "";
    } else {
      SpaceEnds(s, texts, n - 1);
    }
  }

  /** Tokenizing a printed argument list gives the arguments, then the end mark. */
  lemma {:induction false} RoundTrip(args: seq<Argument>, gaps: seq<nat>)
    requires |gaps| == |args| && args != [] && AllPrintable(args)
    ensures Tokenize(CommandLine(args, gaps)) == Filled(Args(Texts(args)) + [Null])
  {
    CommandLineFeeds(args, gaps);
  }

  // ---------- which arguments come back ----------

  ghost predicate OnlySpaces(text: string) {
    exists n: nat :: text == Spaces(n)
  }

  /** Spaces, the opening quote if there is one, and the token so far. */
  ghost predicate OpensWith(text: string, quoted: bool, token: string) {
    exists n: nat :: text == Spaces(n) + (if quoted then "'" else "") + token
  }

  /** What a token looks like that has not been ended by a space. */
  predicate Unended(quoted: bool, token: string) {
    if quoted then (token != "" ==> token[0] != ' ') && NoQuoteSpace(token)
    else token != "" && token[0] != '\'' && ' ' !in token
  }

  lemma {:induction false} OpensWithMore(text: string, quoted: bool, token: string, c: char)
    requires OpensWith(text, quoted, token)
    ensures OpensWith(text + [c], quoted, token + [c])
  {
    var n: nat :| text == Spaces(n) + (if quoted then "'" else "") + token;
    assert text + [c] == Spaces(n) + (if quoted then "'" else "") + (token + [c]);
  }

  lemma {:induction false} UnendedMore(quoted: bool, token: string, c: char)
    requires Unended(quoted, token) && (c != ' ' || (quoted && !AfterQuote(token)))
    ensures Unended(quoted, token + [c])
  {
    if quoted {
      var more := token + [c];
      forall i: nat | i < |more| ensures !QuoteSpaceAt(more, i) {
        assert i < |token| ==> !QuoteSpaceAt(token, i);
      }
    }
  }

  lemma {:induction false} BeginsAfter(head: string, c: char)
    requires OnlySpaces(head)
    ensures c == ' ' ==> OnlySpaces(head + [c])
    ensures c == '\'' ==> OpensWith(head + [c], true, "")
    ensures c != ' ' && c != '\'' ==> OpensWith(head + [c], false, [c])
  {
    var n: nat :| head == Spaces(n);
    if c == ' ' {
      assert head + [c] == Spaces(n + 1);
    } else if c == '\'' {
      assert head + [c] == Spaces(n) + "'" + "";
    } else {
      assert head + [c] == Spaces(n) + "" + [c];
    }
  }

  /** As long as no argument is stored, the text is spaces and the beginning of one argument. */
  lemma {:induction false} FirstArgument(text: string)
    ensures var s := FeedAll(Between([]), text);
            && (s == Between([]) ==> OnlySpaces(text))
            && (s.Within? && s.args == [] ==> OpensWith(text, s.quoted, s.token) && Unended(s.quoted, s.token))
  {
    if text == "" {
      assert text == Spaces(0);
    } else {
      var n := |text| - 1;
      var head, c := text[..n], text[n];
      FirstArgument(head);
      assert text == head + [c];
      var before := FeedAll(Between([]), head);
      if before == Between([]) {
        BeginsAfter(head, c);
      } else if before.Within? && before.args == [] && (c != ' ' || (before.quoted && !AfterQuote(before.token))) {
        OpensWithMore(head, before.quoted, before.token, c);
        UnendedMore(before.quoted, before.token, c);
      }
    }
  }

  /** A single complete argument is all that was read. */
  predicate OnlyToken(s: Scan, text: string) {
    && s.Within? && s.args == [] && s.token != ""
    && if AfterQuote(s.token) then s.token == text + "'" else !s.quoted && s.token == text
  }

  lemma {:induction false} ResultIsOne(s: Scan, text: string)
    ensures Result(s) == Filled(Args([text]) + [Null]) <==> OnlyToken(s, text)
  {
    var one := Args([text]) + [Null];
    assert one == [Arg(text), Null];
    if s.Between? {
      assert (Args(s.args) + [Unset, Null])[|s.args|] == Unset;
    } else if s.Within? && s.quoted && !AfterQuote(s.token) {
      assert (Args(s.args) + [Unset, Null])[|s.args|] == Unset;
    } else if s.Within? && s.token != "" {
      var last := Stored(s.args, s.token).args;
      var word := if AfterQuote(s.token) then s.token[..|s.token| - 1] else s.token;
      assert last == s.args + [word] && last[|s.args|] == word;
      if Args(last) + [Null] == one {
        assert |s.args| == 0 && (Args(last) + [Null])[0] == Arg(word);
      }
      if s.args == [] && word == text {
        assert last == [text];
      }
    }
  }

  lemma {:induction false} PlainExactly(t: string, s: Scan)
    requires t != "" && s == FeedAll(Between([]), t)
    ensures OnlyToken(s, t) <==> Printable(Plain(t))
  {
    if OnlyToken(s, t) {
      FirstArgument(t);
      var n: nat :| t == Spaces(n) + (if s.quoted then "'" else "") + s.token;
      assert |s.token| <= |t|;
    }
    if Printable(Plain(t)) {
      PlainFeeds([], t);
    }
  }

  lemma {:induction false} SpacesAreSpaces(n: nat)
    ensures |Spaces(n)| == n && forall i :: 0 <= i < n ==> Spaces(n)[i] == ' '
  {
    if n > 0 {
      SpacesAreSpaces(n - 1);
    }
  }

  lemma {:induction false} FirstIsSpace(line: string, n: nat, rest: string)
    requires n > 0 && line == Spaces(n) + rest
    ensures line[0] == ' '
  {
    SpacesAreSpaces(n);
  }

  /** A line that starts with a quote opens a quoted argument there. */
  lemma {:induction false} OpensAtOnce(line: string, t: string, quoted: bool, token: string)
    requires line == "'" + t + "'" && OpensWith(line, quoted, token) && Unended(quoted, token)
    ensures quoted && token == t + "'"
  {
    var open := if quoted then "'" else "";
    var n: nat :| line == Spaces(n) + open + token;
    if n > 0 {
      assert Spaces(n) + open + token == Spaces(n) + (open + token);
      FirstIsSpace(line, n, open + token);
      assert false;
    }
    assert line == open + token;
    assert token == line[1..] && t + "'" == line[1..];
  }

  lemma {:induction false} QuotedExactly(t: string, line: string, s: Scan)
    requires line == "'" + t + "'" && s == FeedAll(Between([]), line)
    ensures OnlyToken(s, t) <==> Printable(Quoted(t))
  {
    if OnlyToken(s, t) {
      FirstArgument(line);
      OpensAtOnce(line, t, s.quoted, s.token);
      forall i: nat | i < |t| ensures !QuoteSpaceAt(t, i) {
        assert !QuoteSpaceAt(s.token, i);
      }
    }
    if Printable(Quoted(t)) {
      QuotedFeeds([], t);
      assert line[..|line| - 1] == "'" + t;
    }
  }

  /**
   * Exactly which arguments come back: a plain word that has no space and no quote at either end, and a quoted text
   * that does not start with a space and in which no quote is followed by one.
   */
  lemma {:induction false} PrintableExactly(a: Argument)
    ensures Tokenize(Render(a)) == Filled(Args([a.text]) + [Null]) <==> Printable(a)
  {
    var line := Render(a);
    var s := FeedAll(Between([]), line);
    ResultIsOne(s, a.text);
    match a
    case Plain(t) => if t != "" { PlainExactly(t, s); }
    case Quoted(t) => QuotedExactly(t, line, s);
  }
}
