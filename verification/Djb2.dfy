/**
 * The ids of mapping and split elements (src/igs_mapping.c): the 64-bit djb2 hash
 * of the text "input.agent.output".
 */
module Djb2 {

  const WORD: nat := 0x1_0000_0000_0000_0000
  const SEED: nat := 5381
  /** 33 * INVERSE == 1 modulo 2^64. */
  const INVERSE: nat := 1117984489315730401

  function Pow33(n: nat): nat {
    if n == 0 then 1 else 33 * Pow33(n - 1)
  }

  /** The sum over i of s[i] * 33^(n-1-i). */
  function WeightedSum(s: string): nat {
    if s == [] then 0 else s[0] as int * Pow33(|s| - 1) + WeightedSum(s[1..])
  }

  /** The hash in closed form. */
  function Id(s: string): nat {
    (SEED * Pow33(|s|) + WeightedSum(s)) % WORD
  }

  lemma {:induction false} WeightedSumAppend(s: string, c: char)
    ensures WeightedSum(s + [c]) == 33 * WeightedSum(s) + c as int
  {
    var t := s + [c];
    if s == [] {
      assert t == [c] && t[1..] == [];
      assert WeightedSum(t) == c as int * Pow33(0) + WeightedSum(t[1..]);
    } else {
      assert t[1..] == s[1..] + [c];
      WeightedSumAppend(s[1..], c);
      var w, p := s[0] as int, Pow33(|s| - 1);
      assert Pow33(|s|) == 33 * p;
      assert w * (33 * p) == 33 * (w * p);
    }
  }

  lemma ReduceFirst(whole: nat, c: nat)
    ensures (33 * whole + c) % WORD == (33 * (whole % WORD) + c) % WORD
  {
    AddMultiple(33 * (whole % WORD) + c, 33 * (whole / WORD));
  }

  lemma AddMultiple(x: int, k: int)
    ensures (x + k * WORD) % WORD == x % WORD
  {
    var q, r := x / WORD, x % WORD;
    assert x + k * WORD == (q + k) * WORD + r;
  }

  /** A shift by five and two additions, each wrapping, multiply by 33 and add. */
  lemma WrapsAgree(hash: nat, c: nat)
    ensures (((hash * 32) % WORD + hash) % WORD + c) % WORD == (33 * hash + c) % WORD
  {
    var q := (hash * 32) / WORD;
    var shifted := (hash * 32) % WORD;
    var q' := (shifted + hash) / WORD;
    AddMultiple(((shifted + hash) % WORD) + c, q + q');
  }

  lemma HashAppend(s: string, c: char)
    ensures Id(s + [c]) == (33 * Id(s) + c as int) % WORD
  {
    WeightedSumAppend(s, c);
    assert |s + [c]| == |s| + 1;
    ReduceFirst(SEED * Pow33(|s|) + WeightedSum(s), c as int);
  }

  /** The hash starts with 5381 and takes each character in turn, modulo 2^64. */
  lemma HashLaws(s: string, c: char)
    ensures Id([]) == 5381
    ensures Id(s + [c]) == (33 * Id(s) + c as int) % 0x1_0000_0000_0000_0000
  {
    HashAppend(s, c);
  }

  /** mapping_djb2_hash: shift-and-add in 64-bit unsigned arithmetic. */
  method Hash(s: string) returns (hash: nat)
    ensures hash == Id(s)
  {
    hash := SEED;
    var i := 0;
    while i < |s|
      invariant 0 <= i <= |s|
      invariant hash == Id(s[..i])
    {
      HashAppend(s[..i], s[i]);
      WrapsAgree(hash, s[i] as int);
      assert s[..i + 1] == s[..i] + [s[i]];
      var shifted := (hash * 32) % WORD;
      hash := ((shifted + hash) % WORD + s[i] as int) % WORD;
      i := i + 1;
    }
    assert s[..i] == s;
  }

  /** Multiplying by 33 loses nothing modulo 2^64. */
  lemma StepInjective(a: nat, b: nat, c: nat)
    requires a < WORD && b < WORD
    requires (33 * a + c) % WORD == (33 * b + c) % WORD
    ensures a == b
  {
    var k := (33 * a + c) / WORD - (33 * b + c) / WORD;
    assert 33 * (a - b) == WORD * k;
    assert INVERSE * 33 == 1 + 2 * WORD;
    assert a - b == WORD * (INVERSE * k - 2 * (a - b));
  }

  /** Appending the same text neither creates nor removes a collision. */
  lemma {:induction false} SuffixKeepsCollisions(a: string, b: string, suffix: string)
    ensures Id(a + suffix) == Id(b + suffix) <==> Id(a) == Id(b)
  {
    if suffix == [] {
      assert a + suffix == a && b + suffix == b;
    } else {
      var init, c := suffix[..|suffix| - 1], suffix[|suffix| - 1];
      assert a + suffix == (a + init) + [c] && b + suffix == (b + init) + [c];
      HashAppend(a + init, c);
      HashAppend(b + init, c);
      if Id(a + suffix) == Id(b + suffix) {
        StepInjective(Id(a + init), Id(b + init), c as int);
      }
      SuffixKeepsCollisions(a, b, init);
    }
  }

  /** "input.agent.output" */
  function Mashup(input: string, agent: string, output: string): string {
    input + "." + agent + "." + output
  }

  function TripleId(input: string, agent: string, output: string): nat {
    Id(Mashup(input, agent, output))
  }

  predicate DotFree(s: string) {
    '.' !in s
  }

  /** Cutting at the first dot is unambiguous when the head has none. */
  lemma CutAtDot(a: string, x: string, b: string, y: string)
    requires DotFree(a) && DotFree(b)
    requires a + "." + x == b + "." + y
    ensures a == b && x == y
  {
    var l, r := a + "." + x, b + "." + y;
    assert l[|a|] == '.' && r[|b|] == '.';
    assert forall k :: 0 <= k < |a| ==> l[k] == a[k];
    assert forall k :: 0 <= k < |b| ==> r[k] == b[k];
    assert |a| == |b|;
    assert l[..|a|] == a && r[..|a|] == b;
    assert l[|a| + 1..] == x && r[|a| + 1..] == y;
  }

  lemma MashupInjective(i: string, a: string, o: string, i': string, a': string, o': string)
    requires DotFree(i) && DotFree(a) && DotFree(i') && DotFree(a')
    requires Mashup(i, a, o) == Mashup(i', a', o')
    ensures i == i' && a == a' && o == o'
  {
    assert Mashup(i, a, o) == i + "." + (a + "." + o);
    assert Mashup(i', a', o') == i' + "." + (a' + "." + o');
    CutAtDot(i, a + "." + o, i', a' + "." + o');
    CutAtDot(a, o, a', o');
  }

  ghost predicate SpelledOnlyBy(i: string, a: string, o: string) {
    forall i', a', o' :: Mashup(i', a', o') == Mashup(i, a, o) ==> i' == i && a' == a && o' == o
  }

  function CountDots(s: string): nat {
    if s == [] then 0 else CountDots(s[1..]) + if s[0] == '.' then 1 else 0
  }

  lemma {:induction false} CountDotsConcat(a: string, b: string)
    ensures CountDots(a + b) == CountDots(a) + CountDots(b)
  {
    if a == [] {
      assert a + b == b;
    } else {
      assert (a + b)[1..] == a[1..] + b;
      CountDotsConcat(a[1..], b);
    }
  }

  lemma {:induction false} CountDotsZero(s: string)
    ensures CountDots(s) == 0 <==> DotFree(s)
  {
    if s != [] {
      CountDotsZero(s[1..]);
      assert s == [s[0]] + s[1..];
    }
  }

  lemma CountDotsMashup(i: string, a: string, o: string)
    ensures CountDots(Mashup(i, a, o)) == CountDots(i) + CountDots(a) + CountDots(o) + 2
  {
    CountDotsConcat(i, ".");
    CountDotsConcat(i + ".", a);
    CountDotsConcat(i + "." + a, ".");
    CountDotsConcat(i + "." + a + ".", o);
  }

  /** The names are not checked for dots: a text names one triple exactly when none of them has one. */
  lemma UnambiguousIffDotFree(i: string, a: string, o: string)
    ensures SpelledOnlyBy(i, a, o) <==> DotFree(i) && DotFree(a) && DotFree(o)
  {
    if DotFree(i) && DotFree(a) && DotFree(o) {
      forall i', a', o' | Mashup(i', a', o') == Mashup(i, a, o)
        ensures i' == i && a' == a && o' == o
      {
        CountDotsMashup(i, a, o);
        CountDotsMashup(i', a', o');
        CountDotsZero(i); CountDotsZero(a); CountDotsZero(o);
        CountDotsZero(i'); CountDotsZero(a');
        MashupInjective(i', a', o', i, a, o);
      }
    }
    if !DotFree(i) {
      var k :| 0 <= k < |i| && i[k] == '.';
      assert i == i[..k] + "." + i[k + 1..];
      assert Mashup(i[..k], i[k + 1..], a + "." + o) == Mashup(i, a, o);
    } else if !DotFree(a) {
      var k :| 0 <= k < |a| && a[k] == '.';
      assert a == a[..k] + "." + a[k + 1..];
      assert Mashup(i, a[..k], a[k + 1..] + "." + o) == Mashup(i, a, o);
    } else if !DotFree(o) {
      var k :| 0 <= k < |o| && o[k] == '.';
      assert o == o[..k] + "." + o[k + 1..];
      assert Mashup(i, a + "." + o[..k], o[k + 1..]) == Mashup(i, a, o);
    }
  }

  /** Dot-free names collide as well: 33 * 'a' + 'B' == 33 * 'b' + '!'. */
  lemma CollidingInputs(agent: string, output: string)
    ensures TripleId("aB", agent, output) == TripleId("b!", agent, output)
    ensures DotFree("aB") && DotFree("b!") && "aB" != "b!"
  {
    HashAppend("", 'a');
    HashAppend("a", 'B');
    HashAppend("", 'b');
    HashAppend("b", '!');
    assert "" + ['a'] == "a" && "a" + ['B'] == "aB" && "" + ['b'] == "b" && "b" + ['!'] == "b!";
    assert Id("aB") == Id("b!");
    var rest := "." + agent + "." + output;
    SuffixKeepsCollisions("aB", "b!", rest);
    assert Mashup("aB", agent, output) == "aB" + rest;
    assert Mashup("b!", agent, output) == "b!" + rest;
    assert "aB"[0] != "b!"[0];
  }
}
