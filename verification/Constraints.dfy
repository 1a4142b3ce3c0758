/**
 * Constraints on integer inputs, outputs and attributes: how they are printed
 * (src/igs_parser.c) and read (model_parse_constraint of src/igs_model.c).
 */
module Constraints {
  import opened Options

  // ------------------------------------------------------------ numbers as text

  predicate IsDigit(c: char) {
    '0' <= c <= '9'
  }

  function DigitChar(n: nat): char
    requires n < 10
  {
    '0' + n as char
  }

  function PrintNat(n: nat): (s: string)
    ensures s != []
  {
    if n < 10 then [DigitChar(n)] else PrintNat(n / 10) + [DigitChar(n % 10)]
  }

  /** printf "%d" */
  function PrintInt(i: int): string {
    if i < 0 then "-" + PrintNat(-i) else PrintNat(i)
  }

  function DigitsRun(s: string): (n: nat)
    ensures n <= |s|
    ensures forall k :: 0 <= k < n ==> IsDigit(s[k])
    ensures n < |s| ==> !IsDigit(s[n])
  {
    if s == [] || !IsDigit(s[0]) then 0 else 1 + DigitsRun(s[1..])
  }

  function ReadNat(digits: string): nat {
    if digits == [] then 0
    else
      var c := digits[|digits| - 1];
      10 * ReadNat(digits[..|digits| - 1]) + if IsDigit(c) then (c - '0') as int else 0
  }

  /** atoi on a text without leading space: an optional sign and the digits after it. */
  function Atoi(s: string): int {
    if s != [] && s[0] == '-' then 0 - ReadNat(s[1..][..DigitsRun(s[1..])])
    else if s != [] && s[0] == '+' then ReadNat(s[1..][..DigitsRun(s[1..])])
    else ReadNat(s[..DigitsRun(s)])
  }

  lemma {:induction false} PrintNatDigits(n: nat)
    ensures forall k :: 0 <= k < |PrintNat(n)| ==> IsDigit(PrintNat(n)[k])
    ensures ReadNat(PrintNat(n)) == n
  {
    if n >= 10 {
      PrintNatDigits(n / 10);
      assert PrintNat(n)[..|PrintNat(n)| - 1] == PrintNat(n / 10);
    } else {
      assert PrintNat(n)[..0] == [];
      assert ReadNat(PrintNat(n)[..0]) == 0;
    }
  }

  lemma DigitsRunAll(digits: string, rest: string)
    requires forall k :: 0 <= k < |digits| ==> IsDigit(digits[k])
    requires rest == [] || !IsDigit(rest[0])
    ensures DigitsRun(digits + rest) == |digits|
  {
    var s, n := digits + rest, DigitsRun(digits + rest);
    assert forall k :: 0 <= k < |digits| ==> s[k] == digits[k];
    assert rest != [] ==> s[|digits|] == rest[0];
  }

  lemma AtoiPrintInt(i: int)
    ensures Atoi(PrintInt(i)) == i
  {
    var digits := PrintNat(if i < 0 then -i else i);
    PrintNatDigits(if i < 0 then -i else i);
    DigitsRunAll(digits, []);
    assert digits + [] == digits && digits[..|digits|] == digits;
    if i < 0 {
      assert PrintInt(i)[1..] == digits;
    }
  }

  // ------------------------------------------------------------ the regular expressions

  /** The length matched by optional digits up to a dot and digits. */
  function UnsignedPrefix(t: string): (n: Option<nat>)
    ensures n.Some? ==> n.value <= |t|
  {
    var a := DigitsRun(t);
    var b := if a < |t| && t[a] == '.' then DigitsRun(t[a + 1..]) else 0;
    if b > 0 then Some(a + 1 + b) else if a > 0 then Some(a) else None
  }

  predicate IsSign(c: char) {
    c == '+' || c == '-'
  }

  /** The length matched at the start of s by an optional sign and a number. */
  function NumberPrefix(s: string): (n: Option<nat>)
    ensures n.Some? ==> n.value <= |s|
  {
    if s != [] && IsSign(s[0]) then
      match UnsignedPrefix(s[1..])
      case Some(n) => Some(1 + n)
      case None => None
    else UnsignedPrefix(s)
  }

  /** The number after the first place where the word is followed by one. */
  function FindAfter(word: string, s: string): Option<string> {
    if |s| < |word| then None
    else if word <= s && NumberPrefix(s[|word|..]).Some? then
      Some(s[|word|..][..NumberPrefix(s[|word|..]).value])
    else if s == [] then None
    else FindAfter(word, s[1..])
  }

  function SkipSpaces(s: string): string {
    if s != [] && s[0] in " \t\n\r" then SkipSpaces(s[1..]) else s
  }

  /** A number and the closing bracket. */
  function SecondBound(t: string): Option<string> {
    var n := NumberPrefix(t);
    if n.None? || n.value == |t| || t[n.value] != ']' then None else Some(t[..n.value])
  }

  /** A comma with spaces around it, and the second bound. */
  function AfterFirst(t: string): Option<string> {
    var comma := SkipSpaces(t);
    if comma == [] || comma[0] != ',' then None else SecondBound(SkipSpaces(comma[1..]))
  }

  function AfterBracket(t: string): Option<(string, string)> {
    var n := NumberPrefix(t);
    if n.None? then None
    else
      match AfterFirst(t[n.value..])
      case Some(second) => Some((t[..n.value], second))
      case None => None
  }

  /** "[a, b]" at the start of s. */
  function RangePrefix(s: string): Option<(string, string)> {
    if s == [] || s[0] != '[' then None else AfterBracket(s[1..])
  }

  function FindRange(s: string): Option<(string, string)> {
    if s == [] then None
    else if RangePrefix(s).Some? then RangePrefix(s)
    else FindRange(s[1..])
  }

  // ------------------------------------------------------------ constraints

  datatype Constraint = Min(min: int) | Max(max: int) | Range(low: int, high: int)

  predicate Ordered(c: Constraint) {
    c.Range? ==> c.low <= c.high
  }

  function PrintConstraint(c: Constraint): string {
    match c
    case Min(v) => "min " + PrintInt(v)
    case Max(v) => "max " + PrintInt(v)
    case Range(a, b) => "[" + (PrintInt(a) + ("," + (" " + (PrintInt(b) + "]"))))
  }

  /** model_parse_constraint for an integer; a range that is upside down is refused. */
  function ParseConstraint(s: string): (c: Option<Constraint>)
    ensures c.Some? ==> Ordered(c.value)
  {
    match (FindAfter("min ", s), FindAfter("max ", s), FindRange(s))
    case (Some(v), _, _) => Some(Min(Atoi(v)))
    case (None, Some(v), _) => Some(Max(Atoi(v)))
    case (None, None, Some((a, b))) => if Atoi(b) < Atoi(a) then None else Some(Range(Atoi(a), Atoi(b)))
    case (None, None, None) => None
  }

  lemma {:induction false} FindAfterAbsent(word: string, s: string)
    requires word != [] && word[0] !in s
    ensures FindAfter(word, s) == None
  {
    if |s| >= |word| {
      assert s[0] in s;
      FindAfterAbsent(word, s[1..]);
    }
  }

  lemma UnsignedPrinted(n: nat, rest: string)
    requires rest == [] || (!IsDigit(rest[0]) && rest[0] != '.')
    ensures UnsignedPrefix(PrintNat(n) + rest) == Some(|PrintNat(n)|)
  {
    var digits := PrintNat(n);
    PrintNatDigits(n);
    DigitsRunAll(digits, rest);
    assert rest != [] ==> (digits + rest)[|digits|] == rest[0];
    assert digits + rest != [];
  }

  lemma SignedPrefix(t: string, n: nat)
    requires UnsignedPrefix(t) == Some(n)
    ensures NumberPrefix("-" + t) == Some(1 + n)
  {
    assert ("-" + t)[1..] == t;
  }

  lemma Regroup(a: string, b: string, c: string)
    ensures (a + b) + c == a + (b + c)
  {
  }

  /** A printed number is matched up to the first character that cannot belong to it. */
  lemma NumberPrefixPrinted(i: int, rest: string)
    requires rest == [] || (!IsDigit(rest[0]) && rest[0] != '.')
    ensures NumberPrefix(PrintInt(i) + rest) == Some(|PrintInt(i)|)
  {
    if i < 0 {
      UnsignedPrinted(-i, rest);
      SignedPrefix(PrintNat(-i) + rest, |PrintNat(-i)|);
      Regroup("-", PrintNat(-i), rest);
    } else {
      UnsignedPrinted(i, rest);
      PrintNatDigits(i);
      assert (PrintNat(i) + rest)[0] == PrintNat(i)[0];
    }
  }

  lemma SplitAt(a: string, b: string)
    ensures (a + b)[..|a|] == a && (a + b)[|a|..] == b
  {
  }

  lemma PrintedHasNoM(i: int)
    ensures 'm' !in PrintInt(i)
  {
    PrintNatDigits(if i < 0 then -i else i);
  }

  lemma NumberPrefixAlone(i: int)
    ensures NumberPrefix(PrintInt(i)) == Some(|PrintInt(i)|)
    ensures PrintInt(i)[..|PrintInt(i)|] == PrintInt(i)
  {
    NumberPrefixPrinted(i, []);
    SplitAt(PrintInt(i), []);
    assert PrintInt(i) + [] == PrintInt(i);
  }

  lemma FindAfterWord(word: string, i: int)
    ensures FindAfter(word, word + PrintInt(i)) == Some(PrintInt(i))
  {
    NumberPrefixAlone(i);
    var s := word + PrintInt(i);
    assert word <= s && s[|word|..] == PrintInt(i);
  }

  lemma NoMinInMax(i: int)
    ensures FindAfter("min ", "max " + PrintInt(i)) == None
  {
    var t := "max " + PrintInt(i);
    PrintedHasNoM(i);
    assert t[1] == 'a' && "min "[1] == 'i';
    assert t[1..] == "ax " + PrintInt(i);
    FindAfterAbsent("min ", t[1..]);
  }

  lemma ParseMin(v: int)
    ensures ParseConstraint(PrintConstraint(Min(v))) == Some(Min(v))
  {
    AtoiPrintInt(v);
    FindAfterWord("min ", v);
  }

  lemma ParseMax(v: int)
    ensures ParseConstraint(PrintConstraint(Max(v))) == Some(Max(v))
  {
    AtoiPrintInt(v);
    NoMinInMax(v);
    FindAfterWord("max ", v);
  }

  lemma SkipNoSpace(i: int, rest: string)
    ensures SkipSpaces(PrintInt(i) + rest) == PrintInt(i) + rest
  {
    PrintNatDigits(if i < 0 then -i else i);
    assert (PrintInt(i) + rest)[0] == PrintInt(i)[0];
  }

  lemma SkipOneSpace(s: string)
    ensures SkipSpaces(" " + s) == SkipSpaces(s)
  {
    assert (" " + s)[1..] == s;
  }

  lemma SecondBoundPrinted(b: int)
    ensures SecondBound(PrintInt(b) + "]") == Some(PrintInt(b))
  {
    NumberPrefixPrinted(b, "]");
    SplitAt(PrintInt(b), "]");
    assert (PrintInt(b) + "]")[|PrintInt(b)|] == ']';
  }

  lemma AfterComma(t: string, second: string)
    requires SecondBound(SkipSpaces(t)) == Some(second)
    ensures AfterFirst("," + t) == Some(second)
  {
    assert ("," + t)[0] == ',' && ("," + t)[1..] == t;
  }

  lemma AfterFirstPrinted(b: int)
    ensures AfterFirst("," + (" " + (PrintInt(b) + "]"))) == Some(PrintInt(b))
  {
    SkipOneSpace(PrintInt(b) + "]");
    SkipNoSpace(b, "]");
    SecondBoundPrinted(b);
    AfterComma(" " + (PrintInt(b) + "]"), PrintInt(b));
  }

  lemma AfterBracketPrinted(a: int, rest: string, second: string)
    requires rest != [] && rest[0] == ',' && AfterFirst(rest) == Some(second)
    ensures AfterBracket(PrintInt(a) + rest) == Some((PrintInt(a), second))
  {
    NumberPrefixPrinted(a, rest);
    SplitAt(PrintInt(a), rest);
  }

  lemma RangePrefixPrinted(a: int, b: int)
    ensures RangePrefix(PrintConstraint(Range(a, b))) == Some((PrintInt(a), PrintInt(b)))
  {
    var rest := "," + (" " + (PrintInt(b) + "]"));
    AfterFirstPrinted(b);
    AfterBracketPrinted(a, rest, PrintInt(b));
    SplitAt("[", PrintInt(a) + rest);
  }

  lemma ParseRange(a: int, b: int)
    requires a <= b
    ensures ParseConstraint(PrintConstraint(Range(a, b))) == Some(Range(a, b))
  {
    var s := PrintConstraint(Range(a, b));
    AtoiPrintInt(a);
    AtoiPrintInt(b);
    PrintedHasNoM(a);
    PrintedHasNoM(b);
    FindAfterAbsent("min ", s);
    FindAfterAbsent("max ", s);
    RangePrefixPrinted(a, b);
  }

  ghost predicate AllSpaces(s: string) {
    forall k :: 0 <= k < |s| ==> s[k] in " \t\n\r"
  }

  lemma {:induction false} SkipAll(spaces: string, rest: string)
    requires AllSpaces(spaces) && (rest == [] || rest[0] !in " \t\n\r")
    ensures SkipSpaces(spaces + rest) == rest
  {
    if spaces == [] {
      assert spaces + rest == rest;
    } else {
      assert (spaces + rest)[1..] == spaces[1..] + rest;
      SkipAll(spaces[1..], rest);
    }
  }

  lemma AfterFirstSpaced(b: int, before: string, after: string)
    requires AllSpaces(before) && AllSpaces(after)
    ensures AfterFirst(before + ("," + (after + (PrintInt(b) + "]")))) == Some(PrintInt(b))
  {
    var last := PrintInt(b) + "]";
    PrintNatDigits(if b < 0 then -b else b);
    assert last[0] == PrintInt(b)[0];
    SkipAll(after, last);
    SecondBoundPrinted(b);
    SkipAll(before, "," + (after + last));
    SplitAt(",", after + last);
  }

  /** A range as text, with spaces around the comma. */
  function Spaced(a: int, before: string, after: string, b: int): string {
    "[" + (PrintInt(a) + (before + ("," + (after + (PrintInt(b) + "]")))))
  }

  lemma RangePrefixSpaced(a: int, before: string, after: string, b: int)
    requires AllSpaces(before) && AllSpaces(after)
    ensures RangePrefix(Spaced(a, before, after, b)) == Some((PrintInt(a), PrintInt(b)))
  {
    var rest := before + ("," + (after + (PrintInt(b) + "]")));
    AfterFirstSpaced(b, before, after);
    assert rest[0] == if before == [] then ',' else before[0];
    NumberPrefixPrinted(a, rest);
    SplitAt(PrintInt(a), rest);
    SplitAt("[", PrintInt(a) + rest);
  }

  lemma NoMInSpaced(a: int, before: string, after: string, b: int)
    requires AllSpaces(before) && AllSpaces(after)
    ensures 'm' !in Spaced(a, before, after, b)
  {
    PrintedHasNoM(a);
    PrintedHasNoM(b);
  }

  /** A range is read with any spaces around its comma, or none, and is refused upside down. */
  lemma ParseSpaced(a: int, before: string, after: string, b: int)
    requires AllSpaces(before) && AllSpaces(after)
    ensures ParseConstraint(Spaced(a, before, after, b)) == if a <= b then Some(Range(a, b)) else None
  {
    AtoiPrintInt(a);
    AtoiPrintInt(b);
    NoMInSpaced(a, before, after, b);
    FindAfterAbsent("min ", Spaced(a, before, after, b));
    FindAfterAbsent("max ", Spaced(a, before, after, b));
    RangePrefixSpaced(a, before, after, b);
  }

  lemma SpacedExamples()
    ensures Spaced(0, "", "", 10) == "[0,10]" && Spaced(0, "", " ", 10) == "[0, 10]" && Spaced(10, "", "", 0) == "[10,0]"
  {
    assert PrintInt(0) == "0" && PrintNat(1) == "1" && PrintInt(10) == "10";
  }

  /** Such texts. */
  lemma ParseSpacedExamples()
    ensures ParseConstraint("[0,10]") == Some(Range(0, 10))
    ensures ParseConstraint("[10,0]") == None
  {
    SpacedExamples();
    ParseSpaced(0, "", "", 10);
    ParseSpaced(10, "", "", 0);
  }

  // ------------------------------------------------------------ nothing else is a range

  ghost predicate AllDigits(s: string) {
    forall k :: 0 <= k < |s| ==> '0' <= s[k] <= '9'
  }

  /** Digits, or digits with a dot somewhere before the last one. */
  ghost predicate IsUnsigned(s: string) {
    s != [] && (AllDigits(s) || exists k :: IsPoint(s, k))
  }

  ghost predicate IsPoint(s: string, k: nat) {
    k + 1 < |s| && s[k] == '.' && AllDigits(s[..k]) && AllDigits(s[k + 1..])
  }

  /** With a sign or without. */
  ghost predicate IsNumber(s: string) {
    IsUnsigned(s) || (s != [] && (s[0] == '+' || s[0] == '-') && IsUnsigned(s[1..]))
  }

  lemma UnsignedMatched(t: string)
    requires UnsignedPrefix(t).Some?
    ensures IsUnsigned(t[..UnsignedPrefix(t).value])
  {
    var a := DigitsRun(t);
    var b := if a < |t| && t[a] == '.' then DigitsRun(t[a + 1..]) else 0;
    if b > 0 {
      var m := t[..a + 1 + b];
      assert m[..a] == t[..a] && m[a + 1..] == t[a + 1..][..b];
      assert IsPoint(m, a);
    }
  }

  lemma NumberMatched(s: string)
    requires NumberPrefix(s).Some?
    ensures IsNumber(s[..NumberPrefix(s).value])
  {
    if s != [] && IsSign(s[0]) {
      UnsignedMatched(s[1..]);
      var m := s[..NumberPrefix(s).value];
      assert m[1..] == s[1..][..UnsignedPrefix(s[1..]).value];
    } else {
      UnsignedMatched(s);
    }
  }

  function SpacesOf(s: string): string {
    if s != [] && s[0] in " \t\n\r" then [s[0]] + SpacesOf(s[1..]) else []
  }

  lemma {:induction false} SpacesSkipped(s: string)
    ensures AllSpaces(SpacesOf(s)) && SpacesOf(s) + SkipSpaces(s) == s
  {
    if s != [] && s[0] in " \t\n\r" {
      SpacesSkipped(s[1..]);
    }
  }

  /** Spaces, a comma, spaces, the second bound and the bracket. */
  ghost predicate IsSecond(t: string, b: string, before: string, after: string) {
    AllSpaces(before) && AllSpaces(after) && before + ("," + (after + (b + "]"))) <= t
  }

  ghost predicate HasSecond(t: string, b: string) {
    IsNumber(b) && exists before, after :: IsSecond(t, b, before, after)
  }

  lemma PrefixBehind(front: string, a: string, b: string)
    requires a <= b
    ensures front + a <= front + b
  {
  }

  lemma BoundMatched(t: string, b: string)
    requires SecondBound(t) == Some(b)
    ensures IsNumber(b) && b + "]" <= t
  {
    NumberMatched(t);
    assert b + "]" == t[..|b| + 1];
  }

  lemma Nested(before: string, after: string, bound: string, last: string)
    requires bound <= last
    ensures before + ("," + (after + bound)) <= before + ("," + (after + last))
  {
    PrefixBehind(after, bound, last);
    PrefixBehind(",", after + bound, after + last);
    PrefixBehind(before, "," + (after + bound), "," + (after + last));
  }

  lemma SecondMatched(t: string, b: string)
    requires AfterFirst(t) == Some(b)
    ensures HasSecond(t, b)
  {
    var comma := SkipSpaces(t);
    var last := SkipSpaces(comma[1..]);
    SpacesSkipped(t);
    SpacesSkipped(comma[1..]);
    BoundMatched(last, b);
    Nested(SpacesOf(t), SpacesOf(comma[1..]), b + "]", last);
    assert comma == "," + comma[1..];
    assert IsSecond(t, b, SpacesOf(t), SpacesOf(comma[1..]));
  }

  /** What is read as a range at the start of a text has this shape, and its bounds are numbers. */
  lemma RangeMatched(s: string, a: string, b: string)
    requires RangePrefix(s) == Some((a, b))
    ensures "[" + a <= s && IsNumber(a) && HasSecond(s[1 + |a|..], b)
  {
    NumberMatched(s[1..]);
    SecondMatched(s[1..][|a|..], b);
    assert s[1..][|a|..] == s[1 + |a|..];
    assert "[" + a == s[..1 + |a|];
  }

  /** The words of the printed forms. */
  lemma PrintedWords(a: int, b: int)
    ensures PrintConstraint(Min(a)) == "min " + PrintInt(a)
    ensures PrintConstraint(Max(a)) == "max " + PrintInt(a)
    ensures PrintConstraint(Range(a, b)) == "[" + PrintInt(a) + ", " + PrintInt(b) + "]"
  {
  }

  /** Reading what was printed gives the constraint back. */
  lemma ParsePrinted(c: Constraint)
    requires Ordered(c)
    ensures ParseConstraint(PrintConstraint(c)) == Some(c)
  {
    match c
    case Min(v) => ParseMin(v);
    case Max(v) => ParseMax(v);
    case Range(a, b) => ParseRange(a, b);
  }
}
