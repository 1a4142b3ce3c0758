/**
 * The string kernels of src/igs_model.c and src/igs_core.c.
 *
 * A C string is a Dafny string without NUL; a char stands for one unsigned byte.
 * A buffer is an array of chars that holds a C string up to its first NUL.
 */
module CStrings {

  const NUL: char := '\0'
  const INT64_MAX: int := 0x7fff_ffff_ffff_ffff

  predicate IsControl(c: char) {
    c == '\t' || c == '\n' || c == '\r' || c == '\U{0B}' || c == '\U{0C}'
  }

  /** The string without its five kinds of control characters. */
  function Strip(s: string): (r: string)
    ensures |r| <= |s|
  {
    if s == [] then []
    else
      var init := Strip(s[..|s| - 1]);
      if IsControl(s[|s| - 1]) then init else init + [s[|s| - 1]]
  }

  /** The five are the characters 9 to 13; removing them is done character by character. */
  lemma StripLaws(a: string, c: char)
    ensures Strip([]) == []
    ensures Strip(a + [c]) == Strip(a) + if 9 <= c as int <= 13 then [] else [c]
  {
    assert (a + [c])[..|a|] == a;
  }

  ghost predicate Clean(s: string) {
    forall i :: 0 <= i < |s| ==> !IsControl(s[i])
  }

  /** `s_strndup`: at most n characters. */
  function Truncate(s: string, n: nat): string {
    if |s| <= n then s else s[..n]
  }

  /** A non-positive bound means no bound other than the range of int64_t. */
  function Limit(max: int): nat {
    if max <= 0 then INT64_MAX else max
  }

  function Cleaned(s: string, max: int): string {
    Truncate(Strip(s), Limit(max))
  }

  /** What model_check_string accepts. */
  ghost predicate Acceptable(s: string, max: int) {
    Clean(s) && |s| <= Limit(max)
  }

  ghost predicate Holds(b: seq<char>, s: string) {
    |s| < |b| && b[..|s|] == s && b[|s|] == NUL && NUL !in s
  }

  lemma {:induction false} StripConcat(a: string, b: string)
    ensures Strip(a + b) == Strip(a) + Strip(b)
  {
    if b == [] {
      assert a + b == a;
    } else {
      assert (a + b)[..|a + b| - 1] == a + b[..|b| - 1];
      StripConcat(a, b[..|b| - 1]);
    }
  }

  lemma {:induction false} StripClean(s: string)
    ensures Clean(Strip(s))
    ensures (Strip(s) == s) <==> Clean(s)
    ensures |Strip(s)| == |s| ==> Clean(s)
  {
    if s != [] {
      var init := s[..|s| - 1];
      StripClean(init);
      assert s == init + [s[|s| - 1]];
      assert Clean(s) ==> Clean(init);
    }
  }

  /** Whatever is cleaned is accepted, and what is accepted is left alone. */
  lemma CleanedIsAcceptable(s: string, max: int)
    ensures Acceptable(Cleaned(s, max), max)
    ensures (Cleaned(s, max) == s) <==> Acceptable(s, max)
  {
    StripClean(s);
  }

  /** What is accepted, in full. */
  lemma AcceptableIff(s: string, max: int)
    ensures Acceptable(s, max) <==>
            && (forall i :: 0 <= i < |s| ==> s[i] as int < 9 || 13 < s[i] as int)
            && |s| <= if max <= 0 then 0x7fff_ffff_ffff_ffff else max
  {
  }

  lemma CleanedIdempotent(s: string, max: int)
    ensures Cleaned(Cleaned(s, max), max) == Cleaned(s, max)
  {
    CleanedIsAcceptable(s, max);
    CleanedIsAcceptable(Cleaned(s, max), max);
  }

  /** When model_clean_string returns a non-zero change count. */
  ghost predicate SignalsChange(s: string, max: int) {
    !Clean(s) || |s| >= Limit(max)
  }

  /**
   * The change count is not quite "the string changed": a clean string of exactly
   * `max` characters is reported as changed although it is left as it was.
   */
  lemma SignalIsExactUnlessFull(s: string, max: int)
    ensures (SignalsChange(s, max) <==> Cleaned(s, max) != s) <==> !(Clean(s) && |s| == Limit(max))
  {
    CleanedIsAcceptable(s, max);
  }

  lemma FalseAlarmExample()
    ensures SignalsChange("abc", 3) && Cleaned("abc", 3) == "abc"
  {
    CleanedIsAcceptable("abc", 3);
  }

  lemma {:induction false} StripNoNul(s: string)
    requires NUL !in s
    ensures NUL !in Strip(s)
  {
    if s != [] {
      StripNoNul(s[..|s| - 1]);
    }
  }

  lemma StripPrefix(s: string, n: nat)
    requires n <= |s|
    ensures Strip(s[..n]) <= Strip(s)
  {
    var a, b := s[..n], s[n..];
    assert s == a + b;
    StripConcat(a, b);
  }

  lemma StripOne(s: string, n: nat)
    requires n < |s|
    ensures Strip(s[..n + 1]) == if IsControl(s[n]) then Strip(s[..n]) else Strip(s[..n]) + [s[n]]
  {
    assert s[..n + 1][..n] == s[..n];
  }

  /** From position `at` on, the buffer is as it was. */
  ghost predicate SameFrom(b: seq<char>, b0: seq<char>, at: nat) {
    |b| == |b0| && forall k :: at <= k < |b| ==> b[k] == b0[k]
  }

  /** The inner loop of model_clean_string: moves the read position past control characters. */
  method SkipControls(buf: array<char>, write: nat, offset: nat, ghost b0: seq<char>, ghost s: string)
    returns (moved: nat)
    requires Holds(b0, s) && write + offset <= |s| && SameFrom(buf[..], b0, write + offset)
    ensures offset <= moved && write + moved <= |s|
    ensures buf[write + moved] == b0[write + moved] && !IsControl(buf[write + moved])
    ensures Strip(s[..write + moved]) == Strip(s[..write + offset])
    ensures moved > offset ==> !Clean(s)
  {
    moved := offset;
    while IsControl(buf[write + moved])
      invariant offset <= moved && write + moved <= |s|
      invariant Strip(s[..write + moved]) == Strip(s[..write + offset])
      invariant moved > offset ==> !Clean(s)
      decreases |s| - moved
    {
      assert buf[write + moved] == b0[write + moved];
      StripOne(s, write + moved);
      moved := moved + 1;
    }
  }

  /** The part already written, the part still to be read, and how far apart they are. */
  ghost predicate InPlace(b: seq<char>, b0: seq<char>, s: string, write: nat, offset: nat)
    requires Holds(b0, s)
  {
    && write + offset <= |s|
    && SameFrom(b, b0, write + offset)
    && b[..write] == Strip(s[..write + offset])
    && (if offset == 0 then Clean(s[..write]) else !Clean(s))
  }

  lemma InPlaceStep(b: seq<char>, b0: seq<char>, s: string, write: nat, offset: nat)
    requires Holds(b0, s) && InPlace(b, b0, s, write, offset) && write + offset < |s|
    requires !IsControl(b0[write + offset])
    ensures InPlace(b[write := b0[write + offset]], b0, s, write + 1, offset)
  {
    StripOne(s, write + offset);
  }

  /** Ending the string at the write position leaves the first `write` kept characters. */
  lemma InPlaceEnd(b: seq<char>, b0: seq<char>, s: string, write: nat, offset: nat)
    requires Holds(b0, s) && InPlace(b, b0, s, write, offset)
    ensures Holds(b[write := NUL], Truncate(Strip(s), write))
    ensures SameFrom(b[write := NUL], b0, |s| + 1)
    ensures write + offset == |s| ==> |Strip(s)| == write && (Clean(s) <==> offset == 0)
  {
    var written := b[..write];
    StripNoNul(s);
    StripPrefix(s, write + offset);
    assert Truncate(Strip(s), write) == written;
    var full := b[write := NUL];
    assert full[..write] == written;
    assert s[..|s|] == s;
  }

  /** model_clean_string: works in place, reading at or ahead of where it writes. */
  method CleanString(buf: array<char>, max: int, ghost s: string) returns (changes: nat)
    requires Holds(buf[..], s) && |s| < INT64_MAX
    modifies buf
    ensures Holds(buf[..], Cleaned(s, max))
    ensures SameFrom(buf[..], old(buf[..]), |s| + 1)
    ensures changes != 0 <==> SignalsChange(s, max)
  {
    var limit: int := if max <= 0 then INT64_MAX else max;
    var write, offset := 0, 0;
    ghost var b0 := buf[..];
    while true
      invariant InPlace(buf[..], b0, s, write, offset) && write < limit
      decreases |s| - write
    {
      ghost var before := buf[..];
      offset := SkipControls(buf, write, offset, b0, s);
      if offset > 0 {
        buf[write] := buf[write + offset];
      }
      assert buf[..] == before[write := b0[write + offset]];
      if buf[write] == NUL {
        InPlaceEnd(before, b0, s, write, offset);
        return offset;
      }
      InPlaceStep(before, b0, s, write, offset);
      write := write + 1;
      if write == limit {
        ghost var last := buf[..];
        InPlaceEnd(last, b0, s, write, offset);
        buf[write] := NUL;
        assert buf[..] == last[write := NUL];
        return offset + 1;
      }
    }
  }

  /** model_check_string. */
  method CheckString(buf: array<char>, max: int, ghost s: string) returns (ok: bool)
    requires Holds(buf[..], s) && |s| < INT64_MAX
    ensures ok <==> Acceptable(s, max)
  {
    var limit: int := max;
    if max <= 0 {
      limit := INT64_MAX;
    }
    var offset := 0;
    while true
      invariant 0 <= offset <= |s| && offset <= limit
      invariant Clean(s[..offset])
      decreases |s| - offset
    {
      assert offset < |s| ==> buf[offset] == s[offset];
      if IsControl(buf[offset]) {
        return false;
      }
      if buf[offset] == NUL {
        return true;
      }
      if offset >= limit {
        return false;
      }
      offset := offset + 1;
    }
  }
}
