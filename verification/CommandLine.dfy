/**
 * The command line that is announced to other peers: igs_set_command_line_from_args of
 * src/igs_network.c.
 */
module CommandLine {
  import opened Options

  /** The size of the buffers, terminators included. */
  const MAX_COMMAND_LINE: nat := 4096
  const QUOTE: char := '"'
  const SPACE: char := ' '

  // ------------------------------------------------------------ the quoting

  predicate NeedsQuotes(s: string) {
    SPACE in s || QUOTE in s
  }

  function Doubled(s: string): (r: string)
    ensures |r| >= |s|
  {
    if s == [] then [] else (if s[0] == QUOTE then [QUOTE, QUOTE] else [s[0]]) + Doubled(s[1..])
  }

  function Quoted(s: string): string {
    [QUOTE] + Doubled(s) + [QUOTE]
  }

  function Formatted(s: string): string {
    if NeedsQuotes(s) then Quoted(s) else s
  }

  /** A word is left bare exactly when it has neither a space nor a quote; any other stands in quotes. */
  lemma BareIff(s: string)
    ensures Formatted(s) == s <==> ' ' !in s && '"' !in s
    ensures Formatted(s) != s ==> |Formatted(s)| >= |s| + 2 && Formatted(s)[0] == '"' == Formatted(s)[|Formatted(s)| - 1]
  {
    assert |Quoted(s)| >= |s| + 2;
  }

  /** The path and the arguments with one space before each. */
  function Line(path: string, args: seq<string>): string {
    if args == [] then Formatted(path)
    else Line(path, args[..|args| - 1]) + [SPACE] + Formatted(args[|args| - 1])
  }

  // ------------------------------------------------------------ reading it back

  /** A word without quotes ends before the next space. */
  function ReadPlain(s: string): (string, string) {
    if s == [] || s[0] == SPACE then ([], s)
    else
      var (word, rest) := ReadPlain(s[1..]);
      ([s[0]] + word, rest)
  }

  /** A quoted word ends with a quote that is not doubled. */
  function ReadQuoted(s: string): Option<(string, string)> {
    if s == [] then None
    else if s[0] != QUOTE then
      match ReadQuoted(s[1..])
      case None => None
      case Some((word, rest)) => Some(([s[0]] + word, rest))
    else if |s| > 1 && s[1] == QUOTE then
      match ReadQuoted(s[2..])
      case None => None
      case Some((word, rest)) => Some(([QUOTE] + word, rest))
    else Some(([], s[1..]))
  }

  function ReadWord(s: string): (r: Option<(string, string)>)
    ensures r.Some? ==> |r.value.1| <= |s|
  {
    ReadIsShorter(s);
    if s != [] && s[0] == QUOTE then ReadQuoted(s[1..]) else Some(ReadPlain(s))
  }

  lemma {:induction false} PlainIsShorter(s: string)
    ensures |ReadPlain(s).1| <= |s|
  {
    if s != [] && s[0] != SPACE {
      PlainIsShorter(s[1..]);
    }
  }

  lemma {:induction false} QuotedIsShorter(s: string)
    ensures ReadQuoted(s).Some? ==> |ReadQuoted(s).value.1| <= |s|
  {
    if s != [] {
      QuotedIsShorter(s[1..]);
      if |s| > 1 {
        QuotedIsShorter(s[2..]);
      }
    }
  }

  lemma ReadIsShorter(s: string)
    ensures |ReadPlain(s).1| <= |s|
    ensures s != [] && ReadQuoted(s[1..]).Some? ==> |ReadQuoted(s[1..]).value.1| <= |s|
  {
    PlainIsShorter(s);
    if s != [] {
      QuotedIsShorter(s[1..]);
    }
  }

  /** Words with one space between them. */
  function Decode(s: string): Option<seq<string>>
    decreases |s|
  {
    match ReadWord(s)
    case None => None
    case Some((word, rest)) =>
      if rest == [] then Some([word])
      else if rest[0] != SPACE then None
      else
        match Decode(rest[1..])
        case None => None
        case Some(words) => Some([word] + words)
  }

  ghost predicate Delimited(rest: string) {
    rest == [] || rest[0] == SPACE
  }

  lemma {:induction false} PlainRead(s: string, rest: string)
    requires !NeedsQuotes(s) && Delimited(rest)
    ensures ReadPlain(s + rest) == (s, rest)
  {
    if s == [] {
      assert s + rest == rest;
    } else {
      assert (s + rest)[1..] == s[1..] + rest;
      assert s[0] in s && [s[0]] + s[1..] == s;
      PlainRead(s[1..], rest);
    }
  }

  lemma ReadDoubled(more: string)
    ensures ReadQuoted([QUOTE, QUOTE] + more) ==
            match ReadQuoted(more) { case None => None case Some((word, rest)) => Some(([QUOTE] + word, rest)) }
  {
    assert ([QUOTE, QUOTE] + more)[2..] == more;
  }

  lemma ReadOther(c: char, more: string)
    requires c != QUOTE
    ensures ReadQuoted([c] + more) ==
            match ReadQuoted(more) { case None => None case Some((word, rest)) => Some(([c] + word, rest)) }
  {
    assert ([c] + more)[1..] == more;
  }

  lemma ReadEnd(rest: string)
    requires Delimited(rest)
    ensures ReadQuoted([QUOTE] + rest) == Some(([], rest))
  {
    assert ([QUOTE] + rest)[1..] == rest;
  }

  lemma DoubledCons(s: string, tail: string)
    requires s != []
    ensures Doubled(s) + tail == (if s[0] == QUOTE then [QUOTE, QUOTE] else [s[0]]) + (Doubled(s[1..]) + tail)
  {
  }

  lemma {:induction false} QuotedRead(s: string, rest: string)
    requires Delimited(rest)
    ensures ReadQuoted(Doubled(s) + ([QUOTE] + rest)) == Some((s, rest))
  {
    var tail := [QUOTE] + rest;
    if s == [] {
      assert Doubled(s) + tail == tail;
      ReadEnd(rest);
    } else {
      QuotedRead(s[1..], rest);
      DoubledCons(s, tail);
      assert [s[0]] + s[1..] == s;
      if s[0] == QUOTE {
        ReadDoubled(Doubled(s[1..]) + tail);
      } else {
        ReadOther(s[0], Doubled(s[1..]) + tail);
      }
    }
  }

  lemma WordRead(s: string, rest: string)
    requires Delimited(rest)
    ensures ReadWord(Formatted(s) + rest) == Some((s, rest))
  {
    if NeedsQuotes(s) {
      assert (Quoted(s) + rest)[1..] == Doubled(s) + ([QUOTE] + rest);
      QuotedRead(s, rest);
    } else {
      PlainRead(s, rest);
      assert s != [] ==> (s + rest)[0] == s[0] && s[0] in s;
    }
  }

  /** A line from its first word on. */
  function Words(words: seq<string>): string {
    if |words| == 0 then []
    else if |words| == 1 then Formatted(words[0])
    else Formatted(words[0]) + ([SPACE] + Words(words[1..]))
  }

  lemma {:induction false} WordsDecoded(words: seq<string>)
    requires words != []
    ensures Decode(Words(words)) == Some(words)
  {
    if |words| == 1 {
      WordRead(words[0], []);
      assert Formatted(words[0]) + [] == Formatted(words[0]);
      assert [words[0]] == words;
    } else {
      var rest := [SPACE] + Words(words[1..]);
      WordRead(words[0], rest);
      assert rest[1..] == Words(words[1..]);
      WordsDecoded(words[1..]);
      assert [words[0]] + words[1..] == words;
    }
  }

  lemma {:induction false} WordsAppend(words: seq<string>, word: string)
    requires words != []
    ensures Words(words + [word]) == Words(words) + [SPACE] + Formatted(word)
  {
    var all := words + [word];
    if |words| == 1 {
      assert all[1..] == [word];
    } else {
      WordsAppend(words[1..], word);
      assert all[1..] == words[1..] + [word];
      var first, more := Formatted(words[0]), Words(words[1..]);
      assert first + ([SPACE] + (more + [SPACE] + Formatted(word))) == first + ([SPACE] + more) + [SPACE] + Formatted(word);
    }
  }

  lemma {:induction false} LineIsWords(path: string, args: seq<string>)
    ensures Line(path, args) == Words([path] + args)
  {
    if args == [] {
      assert [path] + args == [path];
    } else {
      var init := args[..|args| - 1];
      LineIsWords(path, init);
      WordsAppend([path] + init, args[|args| - 1]);
      assert [path] + args == [path] + init + [args[|args| - 1]];
    }
  }

  /** The path and every argument can be read back, empty ones included. */
  lemma LineRoundTrip(path: string, args: seq<string>)
    ensures Decode(Line(path, args)) == Some([path] + args)
  {
    LineIsWords(path, args);
    WordsDecoded([path] + args);
  }

  lemma LineIsUnambiguous(path: string, args: seq<string>, path': string, args': seq<string>)
    requires Line(path, args) == Line(path', args')
    ensures path == path' && args == args'
  {
    LineRoundTrip(path, args);
    LineRoundTrip(path', args');
    assert ([path] + args)[0] == path && ([path] + args)[1..] == args;
    assert ([path'] + args')[0] == path' && ([path'] + args')[1..] == args';
  }

  // ------------------------------------------------------------ the bound

  predicate FitsBuffer(s: string) {
    |s| + 1 <= MAX_COMMAND_LINE
  }

  /** How many of the arguments from the n-th on are appended before one does not fit. */
  function Kept(path: string, args: seq<string>, n: nat): (k: nat)
    requires n <= |args|
    ensures n <= k <= |args|
    decreases |args| - n
  {
    if n == |args| || !FitsBuffer(Line(path, args[..n + 1])) then n else Kept(path, args, n + 1)
  }

  /** A path is refused when it is too long, or when it needs quotes and does not fit with them. */
  predicate PathAccepted(path: string) {
    |path| <= MAX_COMMAND_LINE && (NeedsQuotes(path) ==> FitsBuffer(Quoted(path)))
  }

  /** A path that is refused leaves the command line as it was. */
  function CommandLineOf(path: string, args: seq<string>): Option<string> {
    if PathAccepted(path) then Some(Line(path, args[..Kept(path, args, 0)])) else None
  }

  /** When a path is refused: with quotes it needs room for the terminator, without it does not. */
  lemma PathRefusedIff(path: string, args: seq<string>)
    ensures CommandLineOf(path, args).None? <==>
            |path| > 4096 || ((' ' in path || '"' in path) && |Quoted(path)| >= 4096)
  {
  }

  lemma LineStep(path: string, args: seq<string>, n: nat)
    requires n < |args|
    ensures Line(path, args[..n + 1]) == Line(path, args[..n]) + [SPACE] + Formatted(args[n])
  {
    assert args[..n + 1][..n] == args[..n];
  }

  lemma {:induction false} LineGrows(path: string, args: seq<string>, n: nat, m: nat)
    requires n <= m <= |args|
    ensures |Line(path, args[..n])| <= |Line(path, args[..m])|
    decreases m - n
  {
    if n < m {
      LineStep(path, args, m - 1);
      LineGrows(path, args, n, m - 1);
    }
  }

  lemma KeptIs(path: string, args: seq<string>, n: nat)
    requires n <= |args|
    ensures Kept(path, args, n) ==
            if n < |args| && FitsBuffer(Line(path, args[..n + 1])) then Kept(path, args, n + 1) else n
  {
  }

  /** As many arguments are kept as fit: one more would not, and fewer do. */
  lemma {:induction false} KeptStops(path: string, args: seq<string>, n: nat)
    requires n <= |args|
    ensures Kept(path, args, n) < |args| ==> !FitsBuffer(Line(path, args[..Kept(path, args, n) + 1]))
    decreases |args| - n
  {
    KeptIs(path, args, n);
    if Kept(path, args, n) > n {
      KeptStops(path, args, n + 1);
    }
  }

  lemma {:induction false} KeptFits(path: string, args: seq<string>, n: nat)
    requires n <= |args| && FitsBuffer(Line(path, args[..n]))
    ensures FitsBuffer(Line(path, args[..Kept(path, args, n)]))
    decreases |args| - n
  {
    KeptIs(path, args, n);
    if Kept(path, args, n) > n {
      KeptFits(path, args, n + 1);
    }
  }

  lemma FitsIffKept(path: string, args: seq<string>, m: nat)
    requires FitsBuffer(Formatted(path)) && m <= |args|
    ensures FitsBuffer(Line(path, args[..m])) <==> m <= Kept(path, args, 0)
  {
    var k := Kept(path, args, 0);
    assert args[..0] == [];
    if m <= k {
      KeptFits(path, args, 0);
      LineGrows(path, args, m, k);
    } else {
      KeptStops(path, args, 0);
      LineGrows(path, args, k + 1, m);
    }
  }

  /**
   * The command line is the exact form of the path and a prefix of the arguments: the longest that
   * fits, terminator included.
   */
  lemma LongestPrefixIsKept(path: string, args: seq<string>, m: nat)
    requires PathAccepted(path) && m <= |args|
    ensures var k := Kept(path, args, 0);
            && Decode(CommandLineOf(path, args).value) == Some([path] + args[..k])
            && (|path| < 4096 ==> (|Line(path, args[..m])| < 4096 <==> m <= k))
  {
    LineRoundTrip(path, args[..Kept(path, args, 0)]);
    if FitsBuffer(path) {
      FitsIffKept(path, args, m);
    }
  }

  /** The command line fits with its terminator unless the path alone is as long as the buffer. */
  lemma FitsIffPathDoes(path: string, args: seq<string>)
    requires PathAccepted(path)
    ensures FitsBuffer(CommandLineOf(path, args).value) <==> FitsBuffer(path)
    ensures !FitsBuffer(path) ==> CommandLineOf(path, args) == Some(path)
  {
    assert args[..0] == [];
    if FitsBuffer(path) {
      KeptFits(path, args, 0);
    } else if args != [] {
      LineGrows(path, args, 0, 1);
    }
  }

  /** A path as long as the buffer is accepted. */
  lemma FullPathExample()
    ensures var path := seq(MAX_COMMAND_LINE, _ => 'a'); PathAccepted(path) && !FitsBuffer(path)
  {
  }

  // ------------------------------------------------------------ the loops

  method FindQuote(s: string, start: nat) returns (it: Option<nat>)
    requires start <= |s|
    ensures it.Some? ==> start <= it.value < |s| && s[it.value] == QUOTE && QUOTE !in s[start..it.value]
    ensures it.None? ==> QUOTE !in s[start..]
  {
    var i := start;
    while i < |s| && s[i] != QUOTE
      invariant start <= i <= |s|
      invariant QUOTE !in s[start..i]
    {
      i := i + 1;
    }
    it := if i < |s| then Some(i) else None;
  }

  lemma {:induction false} DoubledConcat(a: string, b: string)
    ensures Doubled(a + b) == Doubled(a) + Doubled(b)
  {
    if a == [] {
      assert a + b == b;
    } else {
      assert (a + b)[1..] == a[1..] + b;
      DoubledConcat(a[1..], b);
    }
  }

  lemma {:induction false} DoubledPlain(s: string)
    requires QUOTE !in s
    ensures Doubled(s) == s
  {
    if s != [] {
      DoubledPlain(s[1..]);
    }
  }

  /** A part up to a quote is copied and the quote is written once more. */
  lemma CopyPart(s: string, prev: nat, it: nat)
    requires prev <= it < |s| && s[it] == QUOTE && QUOTE !in s[prev..it]
    ensures Doubled(s[..it + 1]) == Doubled(s[..prev]) + s[prev..it + 1] + [QUOTE]
  {
    assert s[..it + 1] == s[..prev] + (s[prev..it] + [QUOTE]);
    assert s[prev..it + 1] == s[prev..it] + [QUOTE];
    DoubledConcat(s[..prev], s[prev..it] + [QUOTE]);
    DoubledConcat(s[prev..it], [QUOTE]);
    DoubledPlain(s[prev..it]);
    assert Doubled([QUOTE]) == [QUOTE, QUOTE];
  }

  lemma CopyRest(s: string, prev: nat)
    requires prev <= |s| && QUOTE !in s[prev..]
    ensures Doubled(s) == Doubled(s[..prev]) + s[prev..]
  {
    assert s == s[..prev] + s[prev..];
    DoubledConcat(s[..prev], s[prev..]);
    DoubledPlain(s[prev..]);
  }

  /** What is written for the first n characters. */
  function Opened(s: string, n: nat): string
    requires n <= |s|
  {
    [QUOTE] + Doubled(s[..n])
  }

  lemma OpenedStart(s: string)
    ensures Opened(s, 0) == [QUOTE]
  {
    assert s[..0] == [];
  }

  lemma OpenedPart(s: string, prev: nat, it: nat)
    requires prev <= it < |s| && s[it] == QUOTE && QUOTE !in s[prev..it]
    ensures Opened(s, prev) + s[prev..it + 1] + [QUOTE] == Opened(s, it + 1)
    ensures |Opened(s, prev)| + (it - prev + 2) < |Quoted(s)|
  {
    CopyPart(s, prev, it);
    assert s == s[..it + 1] + s[it + 1..];
    DoubledConcat(s[..it + 1], s[it + 1..]);
  }

  lemma OpenedRest(s: string, prev: nat)
    requires prev <= |s| && QUOTE !in s[prev..]
    ensures Opened(s, prev) + s[prev..] + [QUOTE] == Quoted(s)
  {
    CopyRest(s, prev);
  }

  lemma OpenedGrows(s: string, n: nat, m: nat)
    requires n <= m <= |s|
    ensures |Opened(s, n)| <= |Opened(s, m)| <= |Quoted(s)|
  {
    assert s[..m] == s[..n] + s[n..m] && s == s[..m] + s[m..];
    DoubledConcat(s[..n], s[n..m]);
    DoubledConcat(s[..m], s[m..]);
  }

  /**
   * The loop over the quotes of an argument. Its buffer has no check: the text is given as if the
   * buffer went on, and every write stays in it exactly when the result fits.
   */
  method FormatArg(arg: string) returns (formatted: string, inBuffer: bool)
    ensures formatted == Formatted(arg)
    ensures inBuffer <==> FitsBuffer(Formatted(arg))
  {
    if !NeedsQuotes(arg) {
      return arg, FitsBuffer(arg);
    }
    formatted, inBuffer := [QUOTE], true;
    OpenedStart(arg);
    var prev := 0;
    var it := FindQuote(arg, 0);
    while it.Some?
      invariant 0 <= prev <= |arg|
      invariant it.Some? ==> prev <= it.value < |arg| && arg[it.value] == QUOTE && QUOTE !in arg[prev..it.value]
      invariant it.None? ==> QUOTE !in arg[prev..]
      invariant formatted == Opened(arg, prev)
      invariant inBuffer <==> FitsBuffer(formatted)
      decreases |arg| - prev
    {
      OpenedPart(arg, prev, it.value);
      formatted := formatted + arg[prev..it.value + 1];
      inBuffer := inBuffer && FitsBuffer(formatted);
      formatted := formatted + [QUOTE];
      inBuffer := inBuffer && FitsBuffer(formatted);
      prev := it.value + 1;
      it := FindQuote(arg, prev);
    }
    OpenedRest(arg, prev);
    formatted := formatted + arg[prev..];
    inBuffer := inBuffer && FitsBuffer(formatted);
    formatted := formatted + [QUOTE];
    inBuffer := inBuffer && FitsBuffer(formatted);
  }

  /** An argument without spaces that is longer than the buffer. */
  lemma LongArgumentExample()
    ensures !FitsBuffer(Formatted(seq(MAX_COMMAND_LINE, _ => 'a')))
  {
    var arg := seq(MAX_COMMAND_LINE, _ => 'a');
    assert !NeedsQuotes(arg);
  }

  /** No part of the path that passes the check ends where there is no room for the terminator. */
  ghost predicate PathStaysInBuffer(path: string) {
    forall it :: 0 <= it < |path| && path[it] == QUOTE ==> |Opened(path, it + 1)| != MAX_COMMAND_LINE
  }

  ghost predicate PartsStayInBuffer(path: string, upTo: nat) {
    forall it :: 0 <= it < upTo && it < |path| && path[it] == QUOTE ==> |Opened(path, it + 1)| != MAX_COMMAND_LINE
  }

  lemma PartsStep(path: string, prev: nat, it: nat)
    requires prev <= it < |path| && path[it] == QUOTE && QUOTE !in path[prev..it]
    ensures PartsStayInBuffer(path, it + 1) <==>
            PartsStayInBuffer(path, prev) && |Opened(path, it + 1)| != MAX_COMMAND_LINE
  {
    assert forall k :: prev <= k < it ==> path[k] == path[prev..it][k - prev];
  }

  lemma PartsEnd(path: string, prev: nat)
    requires prev <= |path| && QUOTE !in path[prev..]
    ensures PartsStayInBuffer(path, prev) <==> PathStaysInBuffer(path)
  {
    assert forall k :: prev <= k < |path| ==> path[k] == path[prev..][k - prev];
  }

  /** The parts behind one that does not pass the check do not count. */
  lemma PartsTooLong(path: string, prev: nat, it: nat)
    requires prev <= it < |path| && path[it] == QUOTE && QUOTE !in path[prev..it]
    requires |Opened(path, it + 1)| > MAX_COMMAND_LINE
    ensures PartsStayInBuffer(path, prev) <==> PathStaysInBuffer(path)
    ensures !FitsBuffer(Quoted(path))
  {
    PartsStep(path, prev, it);
    forall k | it < k < |path| && path[k] == QUOTE
      ensures |Opened(path, k + 1)| != MAX_COMMAND_LINE
    {
      OpenedGrows(path, it + 1, k + 1);
    }
    OpenedGrows(path, it + 1, |path|);
  }

  /**
   * The checks on the way fail just for a path whose quoted form does not fit in the end. They
   * leave room for the text but not for its terminator: writes stay in the buffer exactly
   * when no part that passes fills it up. A path that is as long as the buffer is given back at
   * once when it needs quotes.
   */
  method QuotePath(path: string) returns (cmd: Option<string>, inBuffer: bool)
    ensures cmd == if !NeedsQuotes(path) || FitsBuffer(Quoted(path)) then Some(Formatted(path)) else None
    ensures inBuffer <==> (FitsBuffer(path) ==> PathStaysInBuffer(path))
  {
    if !NeedsQuotes(path) {
      return Some(path), true;
    }
    if |path| + 1 > MAX_COMMAND_LINE {
      return None, true;
    }
    cmd, inBuffer := QuoteParts(path);
  }

  /** What has been written of a path up to an index, and whether that stayed in the buffer. */
  ghost predicate Quoting(path: string, text: string, prev: nat, inBuffer: bool) {
    && prev <= |path| && text == Opened(path, prev) && |text| <= MAX_COMMAND_LINE
    && (inBuffer <==> PartsStayInBuffer(path, prev))
  }

  /** The next quote from an index on. */
  ghost predicate IsNextQuote(path: string, prev: nat, it: Option<nat>) {
    && prev <= |path|
    && (it.Some? ==> prev <= it.value < |path| && path[it.value] == QUOTE && QUOTE !in path[prev..it.value])
    && (it.None? ==> QUOTE !in path[prev..])
  }

  lemma QuotingStep(path: string, text: string, prev: nat, inBuffer: bool, it: nat)
    requires Quoting(path, text, prev, inBuffer) && IsNextQuote(path, prev, Some(it))
    ensures var more := text + path[prev..it + 1] + [QUOTE];
            && |more| == |text| + (it - prev + 2)
            && (|more| <= MAX_COMMAND_LINE ==> Quoting(path, more, it + 1, inBuffer && FitsBuffer(more)))
            && (|more| > MAX_COMMAND_LINE ==>
                  !FitsBuffer(Quoted(path)) && (inBuffer <==> PathStaysInBuffer(path)))
  {
    OpenedPart(path, prev, it);
    PartsStep(path, prev, it);
    if |Opened(path, it + 1)| > MAX_COMMAND_LINE {
      PartsTooLong(path, prev, it);
    }
  }

  lemma QuotingEnd(path: string, text: string, prev: nat, inBuffer: bool)
    requires Quoting(path, text, prev, inBuffer) && IsNextQuote(path, prev, None)
    ensures text + path[prev..] + [QUOTE] == Quoted(path) && (inBuffer <==> PathStaysInBuffer(path))
  {
    OpenedRest(path, prev);
    PartsEnd(path, prev);
  }

  /** The loop over the quotes of a path. */
  method QuoteParts(path: string) returns (cmd: Option<string>, inBuffer: bool)
    ensures cmd == if FitsBuffer(Quoted(path)) then Some(Quoted(path)) else None
    ensures inBuffer <==> PathStaysInBuffer(path)
  {
    var text := [QUOTE];
    OpenedStart(path);
    var prev := 0;
    var it := FindQuote(path, 0);
    inBuffer := true;
    while it.Some?
      invariant Quoting(path, text, prev, inBuffer) && IsNextQuote(path, prev, it)
      decreases |path| - prev
    {
      QuotingStep(path, text, prev, inBuffer, it.value);
      if |text| + (it.value - prev + 2) > MAX_COMMAND_LINE {
        return None, inBuffer;
      }
      text := text + path[prev..it.value + 1] + [QUOTE];
      inBuffer := inBuffer && FitsBuffer(text);
      prev := it.value + 1;
      it := FindQuote(path, prev);
    }
    QuotingEnd(path, text, prev, inBuffer);
    cmd := None;
    if |text| + (|path| - prev) + 2 <= MAX_COMMAND_LINE {
      cmd := Some(text + path[prev..] + [QUOTE]);
    }
  }

  /** A path that fits, with one quote, at its end. */
  lemma FullBufferExample()
    ensures var path := seq(MAX_COMMAND_LINE - 3, _ => 'a') + [QUOTE];
            FitsBuffer(path) && !PathStaysInBuffer(path)
  {
    var plain := seq(MAX_COMMAND_LINE - 3, _ => 'a');
    var path := plain + [QUOTE];
    DoubledConcat(plain, [QUOTE]);
    DoubledPlain(plain);
    var it := |plain|;
    assert path[..it + 1] == path && path[it] == QUOTE && Doubled([QUOTE]) == [QUOTE, QUOTE];
    assert |Opened(path, it + 1)| == MAX_COMMAND_LINE;
  }

  /**
   * The path is copied into a buffer of the same size first, so it must be shorter; and only the
   * first argument that is left out can be too long for its buffer.
   */
  ghost predicate StaysInBuffers(path: string, args: seq<string>) {
    |path| <= MAX_COMMAND_LINE ==>
      && FitsBuffer(path) && PathStaysInBuffer(path)
      && (PathAccepted(path) ==>
            var k := Kept(path, args, 0);
            k < |args| ==> FitsBuffer(Formatted(args[k])))
  }

  /** igs_set_command_line_from_args, given the path of the executable and the arguments behind the first. */
  method SetCommandLine(path: string, args: seq<string>, was: Option<string>)
    returns (line: Option<string>, inBuffers: bool)
    ensures line == if CommandLineOf(path, args).Some? then CommandLineOf(path, args) else was
    ensures inBuffers <==> StaysInBuffers(path, args)
  {
    if |path| > MAX_COMMAND_LINE {
      return was, true;
    }
    var quoted, pathInBuffer := QuotePath(path);
    inBuffers := FitsBuffer(path) && pathInBuffer;
    if quoted.None? {
      return was, inBuffers;
    }
    var cmd, argsInBuffer := AppendArgs(quoted.value, path, args);
    return Some(cmd), inBuffers && argsInBuffer;
  }

  /** The loop over the arguments, which goes on behind the path. */
  method AppendArgs(start: string, ghost path: string, args: seq<string>) returns (cmd: string, inBuffers: bool)
    requires start == Formatted(path)
    ensures cmd == Line(path, args[..Kept(path, args, 0)])
    ensures inBuffers <==> var k := Kept(path, args, 0); k < |args| ==> FitsBuffer(Formatted(args[k]))
  {
    cmd, inBuffers := start, true;
    var i, full := 0, false;
    assert args[..0] == [];
    while i < |args| && !full
      invariant 0 <= i <= |args| && (full ==> i < |args|)
      invariant cmd == Line(path, args[..i])
      invariant Kept(path, args, 0) == if full then i else Kept(path, args, i)
      invariant inBuffers <==> (full ==> FitsBuffer(Formatted(args[i])))
      decreases |args| - i, !full
    {
      LineStep(path, args, i);
      KeptIs(path, args, i);
      var formatted, inBuffer := FormatArg(args[i]);
      if |cmd| + |formatted| + 2 > MAX_COMMAND_LINE {
        full, inBuffers := true, inBuffers && inBuffer;
      } else {
        KeptArgFits(path, args, i);
        cmd := cmd + [SPACE];
        cmd := cmd + formatted;
        inBuffers := inBuffers && inBuffer;
        i := i + 1;
      }
    }
    KeptIs(path, args, |args|);
  }

  lemma KeptArgFits(path: string, args: seq<string>, i: nat)
    requires i < |args| && FitsBuffer(Line(path, args[..i + 1]))
    ensures FitsBuffer(Formatted(args[i]))
  {
    LineStep(path, args, i);
  }
}
