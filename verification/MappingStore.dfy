/**
 * The mapping of one agent: src/igs_mapping.c.
 */
module MappingStore {
  import opened Options
  import CStrings
  import opened Djb2
  import opened Json
  import opened ZLists
  import opened MappingText

  // ------------------------------------------------------------ comparing mappings

  /** The test the code makes: as many elements, and each id of the first is an id of the second. */
  predicate SameSizeAndIncluded(a: seq<Elem>, b: seq<Elem>) {
    |a| == |b| && forall i :: 0 <= i < |a| ==> HasId(b, a[i].id)
  }

  ghost predicate ReadableOrNull(t: Option<Text>) {
    t.Some? ==> ReadableText(t.value)
  }

  /** What mapping_is_equal computes, over NULL, unparsable and valid texts. */
  predicate EqualTexts(first: Option<Text>, second: Option<Text>)
    requires ReadableOrNull(first) && ReadableOrNull(second)
  {
    if first.None? || second.None? then first.None? && second.None?
    else match (Load(first.value), Load(second.value))
      case (Some(m), Some(n)) => SameSizeAndIncluded(m.maps, n.maps) && SameSizeAndIncluded(m.splits, n.splits)
      case (None, None) => true
      case _ => false
  }

  ghost predicate SameIds(m: Mapping, n: Mapping) {
    Ids(m.maps) == Ids(n.maps) && Ids(m.splits) == Ids(n.splits)
  }

  lemma {:induction false} IdsCount(es: seq<Elem>)
    requires DistinctIds(es)
    ensures |Ids(es)| == |es|
  {
    if es != [] {
      var init, last := es[..|es| - 1], es[|es| - 1];
      IdsCount(init);
      assert Ids(es) == Ids(init) + {last.id};
      assert last.id !in Ids(init);
    }
  }

  lemma SubsetOfSameSize(a: set<nat>, b: set<nat>)
    requires a <= b && |a| == |b|
    ensures a == b
  {
    assert b == a + (b - a);
    assert |b| == |a| + |b - a|;
  }

  /** One-sided inclusion is enough, because ids are distinct and the sizes agree. */
  lemma InclusionDecidesEquality(a: seq<Elem>, b: seq<Elem>)
    requires DistinctIds(a) && DistinctIds(b)
    ensures SameSizeAndIncluded(a, b) <==> Ids(a) == Ids(b)
  {
    IdsCount(a);
    IdsCount(b);
    if SameSizeAndIncluded(a, b) {
      SubsetOfSameSize(Ids(a), Ids(b));
    }
    if Ids(a) == Ids(b) {
      forall i | 0 <= i < |a| ensures HasId(b, a[i].id) {
        assert a[i].id in Ids(a);
      }
    }
  }

  lemma EqualTextsDecides(s: Text, t: Text)
    requires ReadableText(s) && ReadableText(t) && Load(s).Some? && Load(t).Some?
    ensures EqualTexts(Some(s), Some(t)) <==> SameIds(Load(s).value, Load(t).value)
  {
    LoadOk(s);
    LoadOk(t);
    InclusionDecidesEquality(Load(s).value.maps, Load(t).value.maps);
    InclusionDecidesEquality(Load(s).value.splits, Load(t).value.splits);
  }

  /** Two texts are equal when both are null, both are no mappings, or both have the same ids in both lists. */
  lemma EqualTextsIff(s: Option<Text>, t: Option<Text>)
    requires ReadableOrNull(s) && ReadableOrNull(t)
    ensures EqualTexts(s, t) <==>
            || (s.None? && t.None?)
            || (s.Some? && t.Some? && Load(s.value).None? && Load(t.value).None?)
            || (s.Some? && t.Some? && Load(s.value).Some? && Load(t.value).Some?
                && Ids(Load(s.value).value.maps) == Ids(Load(t.value).value.maps)
                && Ids(Load(s.value).value.splits) == Ids(Load(t.value).value.splits))
  {
    if s.Some? && t.Some? && Load(s.value).Some? && Load(t.value).Some? {
      EqualTextsDecides(s.value, t.value);
    }
  }

  lemma EqualTextsIsEquivalence(s: Option<Text>, t: Option<Text>, u: Option<Text>)
    requires ReadableOrNull(s) && ReadableOrNull(t) && ReadableOrNull(u)
    ensures EqualTexts(s, s)
    ensures EqualTexts(s, t) ==> EqualTexts(t, s)
    ensures EqualTexts(s, t) && EqualTexts(t, u) ==> EqualTexts(s, u)
  {
    forall x, y | x in {s, t, u} && y in {s, t, u} && x.Some? && y.Some? && Load(x.value).Some? && Load(y.value).Some?
      ensures EqualTexts(x, y) <==> SameIds(Load(x.value).value, Load(y.value).value)
    {
      EqualTextsDecides(x.value, y.value);
    }
  }

  /** The two nested loops of mapping_is_equal. */
  method CompareLists(first: ZList<Elem>, second: ZList<Elem>) returns (res: bool)
    requires first.Valid() && second.Valid() && first != second
    modifies first`cursor, second`cursor
    ensures first.Valid() && second.Valid()
    ensures res == SameSizeAndIncluded(first.items, second.items)
  {
    if |first.items| != |second.items| {
      return false;
    }
    var elmt := first.First();
    ghost var n := 0;
    while elmt.Some?
      invariant first.Valid() && second.Valid() && elmt == first.Current()
      invariant 0 <= n <= |first.items| && first.cursor == (if n < |first.items| then n else -1)
      invariant forall i :: 0 <= i < n ==> HasId(second.items, first.items[i].id)
      decreases |first.items| - n
    {
      var other := LookupId(second, elmt.value.id);
      if other.None? {
        return false;
      }
      n := n + 1;
      elmt := first.Next();
    }
    return true;
  }

  /** mapping_is_equal */
  method IsEqual(first: Option<Text>, second: Option<Text>) returns (res: bool)
    requires ReadableOrNull(first) && ReadableOrNull(second)
    ensures res == EqualTexts(first, second)
  {
    if first.None? && second.None? {
      return true;
    }
    if first.None? || second.None? {
      return false;
    }
    var m := LoadMapping(first.value);
    var n := LoadMapping(second.value);
    if m.None? && n.None? {
      return true;
    }
    if m.None? || n.None? {
      return false;
    }
    res := CompareLists(m.value.0, n.value.0);
    if res {
      res := CompareLists(m.value.1, n.value.1);
    }
  }

  // ------------------------------------------------------------ changing a mapping

  datatype Doomed = WithId(id: nat) | ToAgent(name: string) | FromInput(name: string)

  predicate Hit(e: Elem, d: Doomed) {
    match d
    case WithId(id) => e.id == id
    case ToAgent(name) => e.agent == name
    case FromInput(name) => e.input == name
  }

  /** The elements that are not doomed, in order. */
  function Drop(es: seq<Elem>, d: Doomed): (r: seq<Elem>)
    ensures |r| <= |es|
  {
    if es == [] then []
    else
      var before := Drop(es[..|es| - 1], d);
      if Hit(es[|es| - 1], d) then before else before + [es[|es| - 1]]
  }

  lemma {:induction false} DropConcat(a: seq<Elem>, b: seq<Elem>, d: Doomed)
    ensures Drop(a + b, d) == Drop(a, d) + Drop(b, d)
  {
    if b == [] {
      assert a + b == a;
    } else {
      assert (a + b)[..|a + b| - 1] == a + b[..|b| - 1];
      DropConcat(a, b[..|b| - 1], d);
    }
  }

  lemma {:induction false} DropNothing(es: seq<Elem>, d: Doomed)
    requires forall i :: 0 <= i < |es| ==> !Hit(es[i], d)
    ensures Drop(es, d) == es
  {
    if es != [] {
      DropNothing(es[..|es| - 1], d);
    }
  }

  lemma DropOne(es: seq<Elem>, at: nat, d: Doomed)
    requires at < |es| && Hit(es[at], d)
    ensures Drop(Cut(es, at), d) == Drop(es, d)
  {
    var pre, post := es[..at], es[at + 1..];
    assert es == (pre + [es[at]]) + post;
    assert (pre + [es[at]])[..at] == pre;
    DropConcat(pre + [es[at]], post, d);
    DropConcat(pre, post, d);
  }

  lemma {:induction false} DropMembers(es: seq<Elem>, d: Doomed, e: Elem)
    ensures e in Drop(es, d) <==> e in es && !Hit(e, d)
  {
    if es != [] {
      DropMembers(es[..|es| - 1], d, e);
      assert es == es[..|es| - 1] + [es[|es| - 1]];
    }
  }

  /** The indices of what is kept. */
  function KeptIndices(es: seq<Elem>, d: Doomed): seq<nat> {
    if es == [] then []
    else
      var before := KeptIndices(es[..|es| - 1], d);
      if Hit(es[|es| - 1], d) then before else before + [|es| - 1]
  }

  lemma {:induction false} DropInOrder(es: seq<Elem>, d: Doomed)
    ensures InOrder(es, Drop(es, d), KeptIndices(es, d))
    ensures forall i :: 0 <= i < |es| ==> (i in KeptIndices(es, d) <==> !Hit(es[i], d))
  {
    if es != [] {
      var init, last := es[..|es| - 1], es[|es| - 1];
      DropInOrder(init, d);
      InOrderMore(init, Drop(init, d), KeptIndices(init, d), last);
      assert init + [last] == es;
    }
  }

  lemma DropMembersAll(es: seq<Elem>, d: Doomed)
    ensures forall e :: e in Drop(es, d) <==> e in es && !Hit(e, d)
  {
    forall e
      ensures e in Drop(es, d) <==> e in es && !Hit(e, d)
    {
      DropMembers(es, d, e);
    }
  }

  lemma WithoutId(was: seq<Elem>, id: nat)
    ensures forall e :: e in Drop(was, WithId(id)) <==> e in was && e.id != id
    ensures exists at :: InOrder(was, Drop(was, WithId(id)), at) &&
                         forall i :: 0 <= i < |was| ==> (i in at <==> was[i].id != id)
  {
    DropMembersAll(was, WithId(id));
    DropInOrder(was, WithId(id));
  }

  lemma WithoutTriple(was: seq<Elem>, input: string, agent: string, output: string)
    ensures var id, kept := Id(input + "." + agent + "." + output), Drop(was, WithId(TripleId(input, agent, output)));
            && (forall e :: e in kept <==> e in was && e.id != id)
            && exists at :: InOrder(was, kept, at) && forall i :: 0 <= i < |was| ==> (i in at <==> was[i].id != id)
  {
    WithoutId(was, TripleId(input, agent, output));
  }

  lemma WithoutAgent(was: seq<Elem>, name: string)
    ensures forall e :: e in Drop(was, ToAgent(name)) <==> e in was && e.agent != name
    ensures exists at :: InOrder(was, Drop(was, ToAgent(name)), at) &&
                         forall i :: 0 <= i < |was| ==> (i in at <==> was[i].agent != name)
  {
    DropMembersAll(was, ToAgent(name));
    DropInOrder(was, ToAgent(name));
  }

  lemma WithoutInput(was: seq<Elem>, name: string)
    ensures forall e :: e in Drop(was, FromInput(name)) <==> e in was && e.input != name
    ensures exists at :: InOrder(was, Drop(was, FromInput(name)), at) &&
                         forall i :: 0 <= i < |was| ==> (i in at <==> was[i].input != name)
  {
    DropMembersAll(was, FromInput(name));
    DropInOrder(was, FromInput(name));
  }

  lemma {:induction false} DropOk(es: seq<Elem>, d: Doomed)
    requires ListOk(es)
    ensures ListOk(Drop(es, d))
  {
    if es != [] {
      var init, last := es[..|es| - 1], es[|es| - 1];
      DropOk(init, d);
      var kept := Drop(init, d);
      forall i | 0 <= i < |kept| ensures kept[i].id != last.id {
        DropMembers(init, d, kept[i]);
      }
    }
  }

  lemma CutOk(es: seq<Elem>, at: nat)
    requires ListOk(es) && at < |es|
    ensures ListOk(Cut(es, at))
    ensures Drop(Cut(es, at), WithId(es[at].id)) == Cut(es, at)
  {
    var cut := Cut(es, at);
    assert forall i :: 0 <= i < |cut| ==> cut[i] == es[if i < at then i else i + 1];
    DropNothing(cut, WithId(es[at].id));
  }

  /**
   * A walk that removes doomed elements of es on its way: nothing before the cursor is
   * doomed, and an unset cursor says that the walk is over.
   */
  ghost predicate Scanning(items: seq<Elem>, cursor: int, es: seq<Elem>, d: Doomed) {
    && -1 <= cursor < |items| <= |es|
    && Drop(items, d) == Drop(es, d)
    && (forall k :: 0 <= k < (if cursor < 0 then |items| else cursor) ==> !Hit(items[k], d))
    && (|items| == |es| ==> items == es)
  }

  /** After a removal the cursor stands on the predecessor, or nowhere when the list was printed. */
  lemma ScanStep(items: seq<Elem>, c: nat, resume: int, es: seq<Elem>, d: Doomed)
    requires Scanning(items, c, es, d) && (resume == c - 1 || resume == -1)
    ensures Hit(items[c], d) ==> Scanning(Cut(items, c), NextCursor(resume, |items| - 1), es, d)
    ensures !Hit(items[c], d) ==> Scanning(items, NextCursor(c, |items|), es, d)
  {
    if Hit(items[c], d) {
      DropOne(items, c, d);
    }
  }

  lemma ScanEnd(items: seq<Elem>, es: seq<Elem>, d: Doomed)
    requires Scanning(items, -1, es, d)
    ensures items == Drop(es, d)
    ensures items == es <==> |items| == |es|
  {
    DropNothing(items, d);
  }

  /** The walk of igsagent_clear_mappings_with_agent: unlinks the cursor element and goes on. */
  method RemoveToAgent(list: ZList<Elem>, name: string) returns (removed: bool)
    requires list.Valid()
    modifies list
    ensures list.Valid() && list.items == Drop(old(list.items), ToAgent(name))
    ensures forall e :: e in list.items <==> e in old(list.items) && e.agent != name
    ensures removed <==> list.items != old(list.items)
  {
    removed := false;
    ghost var es, d := list.items, ToAgent(name);
    var elmt := list.First();
    while elmt.Some?
      invariant list.Valid() && elmt == list.Current()
      invariant Scanning(list.items, list.cursor, es, d)
      invariant removed <==> |list.items| < |es|
      decreases |list.items|, if elmt.Some? then |list.items| - list.cursor else 0
    {
      ScanStep(list.items, list.cursor, list.cursor - 1, es, d);
      if elmt.value.agent == name {
        list.RemoveCurrent();
        removed := true;
      }
      elmt := list.Next();
    }
    ScanEnd(list.items, es, d);
    WithoutAgent(es, name);
  }

  datatype Op =
    | Add(input: string, agent: string, output: string)
    | RemoveWithId(id: nat)
    | RemoveWithName(input: string, agent: string, output: string)
    | Clear
    | ClearWithAgent(agent: string)
    | ClearForInput(input: string)
    | LoadStr(text: Text)

  /** What the API asserts about its arguments. */
  ghost predicate Allowed(op: Op) {
    match op
    case Add(i, a, o) => i != "" && a != "" && o != "" && NameOk(i) && NameOk(a) && NameOk(o)
    case LoadStr(t) => ReadableText(t)
    case _ => true
  }

  /** The mapping after an operation. */
  ghost function Apply(m: Mapping, op: Op): Mapping
    requires Allowed(op)
  {
    match op
    case Add(i, a, o) => m.(maps := AddElem(m.maps, MakeElem(i, a, o)))
    case RemoveWithId(id) => m.(maps := Drop(m.maps, WithId(id)))
    case RemoveWithName(i, a, o) => m.(maps := Drop(m.maps, WithId(TripleId(i, a, o))))
    case Clear => Mapping([], [])
    case ClearWithAgent(a) => m.(maps := Drop(m.maps, ToAgent(a)))
    case ClearForInput(i) => m.(maps := Drop(m.maps, FromInput(i)))
    case LoadStr(t) => if Load(t).None? || SameIds(Load(t).value, m) then m else Load(t).value
  }

  lemma ApplyOk(m: Mapping, op: Op)
    requires Allowed(op) && MappingOk(m)
    ensures MappingOk(Apply(m, op))
  {
    match op
    case RemoveWithId(id) => DropOk(m.maps, WithId(id));
    case RemoveWithName(i, a, o) => DropOk(m.maps, WithId(TripleId(i, a, o)));
    case ClearWithAgent(a) => DropOk(m.maps, ToAgent(a));
    case ClearForInput(i) => DropOk(m.maps, FromInput(i));
    case LoadStr(t) => if Load(t).Some? { LoadOk(t); }
    case _ =>
  }

  ghost function RunOps(m: Mapping, ops: seq<Op>): Mapping
    requires forall i :: 0 <= i < |ops| ==> Allowed(ops[i])
  {
    if ops == [] then m else Apply(RunOps(m, ops[..|ops| - 1]), ops[|ops| - 1])
  }

  /** Over every run, ids are distinct and each is the hash of its own triple. */
  lemma {:induction false} EveryRunOk(m: Mapping, ops: seq<Op>)
    requires MappingOk(m) && forall i :: 0 <= i < |ops| ==> Allowed(ops[i])
    ensures MappingOk(RunOps(m, ops))
  {
    if ops != [] {
      EveryRunOk(m, ops[..|ops| - 1]);
      ApplyOk(RunOps(m, ops[..|ops| - 1]), ops[|ops| - 1]);
    }
  }

  /** What comparing a text with the cached text of a mapping tells. */
  lemma ComparedWithCache(m: Mapping, t: Text)
    requires MappingOk(m) && ReadableText(t)
    ensures ReadableText(Emit(MappingTree(m)))
    ensures EqualTexts(Some(t), Some(Emit(MappingTree(m)))) <==> Load(t).Some? && SameIds(Load(t).value, m)
  {
    ExportLoad(m);
    if Load(t).Some? {
      EqualTextsDecides(t, Emit(MappingTree(m)));
    }
  }

  ghost predicate Collide(a: seq<Elem>, b: seq<Elem>) {
    exists i, j :: 0 <= i < |a| && 0 <= j < |b| && a[i].id == b[j].id && a[i] != b[j]
  }

  ghost function Elems(es: seq<Elem>): set<Elem> {
    set e | e in es
  }

  lemma SameElemsUnlessCollision(a: seq<Elem>, b: seq<Elem>)
    requires DistinctIds(a) && DistinctIds(b) && Ids(a) == Ids(b)
    ensures Elems(a) == Elems(b) <==> !Collide(a, b)
  {
    if Collide(a, b) {
      var i, j :| 0 <= i < |a| && 0 <= j < |b| && a[i].id == b[j].id && a[i] != b[j];
      assert a[i] in Elems(a);
      assert forall k :: 0 <= k < |b| && b[k].id == b[j].id ==> k == j;
    } else {
      OneWay(a, b);
      OneWay(b, a);
    }
  }

  lemma OneWay(a: seq<Elem>, b: seq<Elem>)
    requires Ids(a) == Ids(b) && !Collide(a, b)
    ensures Elems(a) <= Elems(b)
  {
    forall e | e in Elems(a) ensures e in Elems(b) {
      var i :| 0 <= i < |a| && a[i] == e;
      assert a[i].id in Ids(b);
      var j :| 0 <= j < |b| && b[j].id == a[i].id;
      assert b[j] == e;
    }
  }

  /**
   * The elements themselves are those of the text except when the early return is taken
   * over a collision: the ids already agree, yet one of them stands for two triples.
   */
  lemma LoadGivesElemsUnlessCollision(m: Mapping, t: Text)
    requires MappingOk(m) && ReadableText(t) && Load(t).Some?
    ensures
      var n, after := Load(t).value, Apply(m, LoadStr(t));
      (Elems(after.maps) == Elems(n.maps) && Elems(after.splits) == Elems(n.splits))
      <==> !(SameIds(n, m) && (Collide(m.maps, n.maps) || Collide(m.splits, n.splits)))
  {
    var n := Load(t).value;
    LoadOk(t);
    if SameIds(n, m) {
      SameElemsUnlessCollision(m.maps, n.maps);
      SameElemsUnlessCollision(m.splits, n.splits);
    }
  }

  lemma TwoCharsOk(s: string)
    requires |s| == 2 && !CStrings.IsControl(s[0]) && !CStrings.IsControl(s[1])
    ensures NameOk(s)
  {
  }

  lemma OneCharOk(s: string)
    requires |s| == 1 && !CStrings.IsControl(s[0])
    ensures NameOk(s)
  {
  }

  lemma ExampleNamesOk()
    ensures NameOk("aB") && NameOk("b!") && NameOk("x") && NameOk("y")
  {
    TwoCharsOk("aB");
    TwoCharsOk("b!");
    OneCharOk("x");
    OneCharOk("y");
  }

  /** A load over a collision is ignored: the text maps f, the agent goes on mapping e. */
  lemma IgnoredLoad(e: Elem, f: Elem)
    requires ElemOk(e) && ElemOk(f) && e.id == f.id && e != f
    ensures
      var before, t := Mapping([e], []), Emit(MappingTree(Mapping([f], [])));
      ReadableText(t) && Load(t) == Some(Mapping([f], [])) && Mapping([f], []) != before
      && Apply(before, LoadStr(t)) == before
  {
    ExportLoad(Mapping([f], []));
    assert Ids([e]) == {e.id} && Ids([f]) == {f.id} by {
      assert [e][0].id in Ids([e]) && [f][0].id in Ids([f]);
    }
    assert [e][0] != [f][0];
  }

  lemma IgnoredLoadExample()
    ensures
      var before, t := Mapping([MakeElem("aB", "x", "y")], []),
                       Emit(MappingTree(Mapping([MakeElem("b!", "x", "y")], [])));
      ReadableText(t) && Load(t).Some? && Load(t).value != before && Apply(before, LoadStr(t)) == before
  {
    CollidingInputs("x", "y");
    ExampleNamesOk();
    IgnoredLoad(MakeElem("aB", "x", "y"), MakeElem("b!", "x", "y"));
  }

  /** Adding a colliding triple returns the id of the other one and maps nothing. */
  lemma IgnoredAddExample(m: Mapping)
    requires MakeElem("aB", "x", "y") in m.maps
    ensures Allowed(Add("b!", "x", "y")) && Apply(m, Add("b!", "x", "y")) == m
  {
    CollidingInputs("x", "y");
    ExampleNamesOk();
    var i :| 0 <= i < |m.maps| && m.maps[i] == MakeElem("aB", "x", "y");
    assert m.maps[i].id == TripleId("b!", "x", "y");
  }

  // ------------------------------------------------------------ ids that stand for two triples

  /** Another triple is mapped under the id of this one. */
  ghost predicate Taken(es: seq<Elem>, e: Elem) {
    exists i :: 0 <= i < |es| && es[i].id == e.id && es[i] != e
  }

  lemma IdIsThere(es: seq<Elem>, id: nat)
    ensures HasId(es, id) <==> exists e :: e in es && e.id == id
  {
    if HasId(es, id) {
      var i :| 0 <= i < |es| && es[i].id == id;
      assert es[i] in es;
    }
  }

  lemma MappedOrTaken(es: seq<Elem>, e: Elem)
    requires DistinctIds(es) && HasId(es, e.id)
    ensures e in es <==> !Taken(es, e)
  {
    var at :| 0 <= at < |es| && es[at].id == e.id;
    assert forall i :: 0 <= i < |es| && es[i].id == e.id ==> i == at;
  }

  /** After an add, the triple is mapped exactly when no other triple has its id. */
  lemma AddMapsItIff(m: Mapping, input: string, agent: string, output: string)
    requires MappingOk(m) && Allowed(Add(input, agent, output))
    ensures var e := MakeElem(input, agent, output);
            e in Apply(m, Add(input, agent, output)).maps <==> !Taken(m.maps, e)
  {
    var e := MakeElem(input, agent, output);
    if HasId(m.maps, e.id) {
      MappedOrTaken(m.maps, e);
    } else {
      assert (m.maps + [e])[|m.maps|] == e;
    }
  }

  /** The triple that a removal by name drops, given that one has the id. */
  ghost function Dropped(es: seq<Elem>, id: nat): (e: Elem)
    requires HasId(es, id)
    ensures e in es && e.id == id
  {
    var i :| 0 <= i < |es| && es[i].id == id;
    es[i]
  }

  /**
   * A removal by name that succeeds drops one triple and keeps all others, and that one is the
   * named triple exactly when no other triple has its id.
   */
  lemma RemoveDropsItIff(m: Mapping, input: string, agent: string, output: string)
    requires MappingOk(m) && HasId(m.maps, TripleId(input, agent, output))
    ensures
      var e, after := MakeElem(input, agent, output), Apply(m, RemoveWithName(input, agent, output));
      && (forall f :: f in after.maps <==> f in m.maps && f != Dropped(m.maps, e.id))
      && (Dropped(m.maps, e.id) == e <==> !Taken(m.maps, e))
  {
    var e := MakeElem(input, agent, output);
    var gone := Dropped(m.maps, e.id);
    forall f
      ensures f in Drop(m.maps, WithId(e.id)) <==> f in m.maps && f != gone
    {
      DropMembers(m.maps, WithId(e.id), f);
      if f in m.maps && f.id == gone.id {
        var i :| 0 <= i < |m.maps| && m.maps[i] == f;
        var j :| 0 <= j < |m.maps| && m.maps[j] == gone;
        assert i == j;
      }
    }
    MappedOrTaken(m.maps, e);
    if gone != e {
      var j :| 0 <= j < |m.maps| && m.maps[j] == gone;
      assert Taken(m.maps, e);
    }
  }

  /** Removing "b!" by name where only "aB" is mapped drops "aB" and succeeds. */
  lemma OtherTripleDroppedExample()
    ensures
      var m := Mapping([MakeElem("aB", "x", "y")], []);
      HasId(m.maps, TripleId("b!", "x", "y")) && Apply(m, RemoveWithName("b!", "x", "y")) == Mapping([], [])
  {
    CollidingInputs("x", "y");
    var m := Mapping([MakeElem("aB", "x", "y")], []);
    assert m.maps[0].id == TripleId("b!", "x", "y");
    assert Drop(m.maps[..0], WithId(m.maps[0].id)) == [];
  }

  // ------------------------------------------------------------ the agent

  lemma RemovesOne(m: Mapping, at: nat, id: nat)
    requires MappingOk(m) && at < |m.maps| && m.maps[at].id == id
    ensures Apply(m, RemoveWithId(id)) == m.(maps := Cut(m.maps, at))
  {
    CutOk(m.maps, at);
    DropOne(m.maps, at, WithId(id));
  }

  /** The mapping fields of igsagent_t together with the igs_mapping_t they point at. */
  class MappedAgent {
    /** Whether agent->uuid is set; it is cleared when the agent is destroyed. */
    var alive: bool
    var maps: ZList<Elem>
    var splits: ZList<Elem>
    var json: Option<Text>
    var jsonLegacy: Option<Text>
    var needToSendMappingUpdate: bool

    function Value(): Mapping
      reads this, maps, splits
    {
      Mapping(maps.items, splits.items)
    }

    ghost predicate ListsValid()
      reads this, maps, splits
    {
      maps != splits && maps.Valid() && splits.Valid()
    }

    /** The cached texts are the exports of the current elements. */
    ghost predicate CacheCurrent()
      reads this, maps, splits
    {
      json == Some(Emit(MappingTree(Value()))) && jsonLegacy == Some(Emit(LegacyTree(Value())))
    }

    ghost predicate Valid()
      reads this, maps, splits
    {
      ListsValid() && CacheCurrent()
    }

    /** What every call keeps, and when it asks for the new mapping to be sent. */
    twostate predicate Stepped(op: Op)
      requires Allowed(op)
      reads this, maps, splits
    {
      && Valid()
      && alive == old(alive)
      && Value() == (if old(alive) then Apply(old(Value()), op) else old(Value()))
      && needToSendMappingUpdate == (old(needToSendMappingUpdate) || Value() != old(Value()))
    }

    /** igsagent_new ends with igsagent_clear_mappings. */
    constructor ()
      ensures Valid() && fresh(maps) && fresh(splits) && alive && Value() == Mapping([], [])
    {
      alive := true;
      maps := new ZList();
      splits := new ZList();
      json, jsonLegacy := None, None;
      needToSendMappingUpdate := true;
      new;
      UpdateJson();
    }

    /** mapping_update_json */
    method UpdateJson()
      requires ListsValid()
      modifies this`json, this`jsonLegacy, maps`cursor, splits`cursor
      ensures ListsValid() && CacheCurrent() && maps.cursor == splits.cursor == -1
    {
      var text := ExportMapping(maps, splits);
      var legacy := ExportMappingLegacy(maps, splits.items);
      json, jsonLegacy := Some(text), Some(legacy);
    }

    /** The new element is printed and announced. */
    method AppendElem(e: Elem)
      requires ListsValid()
      modifies this, maps, splits
      ensures maps == old(maps) && splits == old(splits) && alive == old(alive) && needToSendMappingUpdate
      ensures ListsValid() && CacheCurrent()
      ensures Value() == old(Value()).(maps := old(maps.items) + [e])
    {
      maps.Append(e);
      UpdateJson();
      needToSendMappingUpdate := true;
    }

    /** igsagent_mapping_add */
    method MappingAdd(input: string, agent: string, output: string) returns (id: nat)
      requires Valid() && Allowed(Add(input, agent, output))
      modifies this, maps, splits
      ensures maps == old(maps) && splits == old(splits)
      ensures Stepped(Add(input, agent, output))
      ensures id == if alive then Id(input + "." + agent + "." + output) else 0
      ensures Value().splits == old(Value()).splits
      ensures Value().maps ==
              if alive && (forall e :: e in old(Value()).maps ==> e.id != id)
              then old(Value()).maps + [Elem(id, input, agent, output)] else old(Value()).maps
      ensures alive ==> HasId(Value().maps, id)
      ensures alive && MappingOk(old(Value())) ==>
                (MakeElem(input, agent, output) in Value().maps <==>
                 !Taken(old(Value()).maps, MakeElem(input, agent, output)))
    {
      ghost var was := Value();
      if MappingOk(was) {
        AddMapsItIff(was, input, agent, output);
      }
      IdIsThere(was.maps, TripleId(input, agent, output));
      id := 0;
      if alive {
        id := Hash(input + "." + agent + "." + output);
        var known := LookupId(maps, id);
        if known.None? {
          AppendElem(Elem(id, input, agent, output));
          assert maps.items[|maps.items| - 1].id == id;
        }
      }
    }

    /** Unlinks the element under the cursor and prints the rest. */
    method Unlink()
      requires ListsValid() && maps.cursor >= 0
      modifies this, maps, splits
      ensures maps == old(maps) && splits == old(splits) && alive == old(alive) && needToSendMappingUpdate
      ensures ListsValid() && CacheCurrent() && maps.cursor == -1 && splits.items == old(splits.items)
      ensures maps.items == Cut(old(maps.items), old(maps.cursor))
    {
      maps.RemoveCurrent();
      UpdateJson();
      needToSendMappingUpdate := true;
    }

    /** What the two removals have in common: search, unlink, print. */
    method RemoveId(id: nat) returns (ok: bool)
      requires Valid() && MappingOk(Value())
      modifies this, maps, splits
      ensures maps == old(maps) && splits == old(splits)
      ensures Stepped(RemoveWithId(id))
      ensures ok <==> alive && HasId(old(Value().maps), id)
    {
      ok := false;
      if alive {
        var found := LookupId(maps, id);
        ok := found.Some?;
        if ok {
          RemovesOne(Value(), maps.cursor, id);
          Unlink();
        } else {
          DropNothing(maps.items, WithId(id));
        }
      }
    }

    /** igsagent_mapping_remove_with_id */
    method MappingRemoveWithId(id: nat) returns (ok: bool)
      requires Valid() && MappingOk(Value())
      modifies this, maps, splits
      ensures maps == old(maps) && splits == old(splits)
      ensures Stepped(RemoveWithId(id))
      ensures ok <==> alive && HasId(old(Value().maps), id)
      ensures Value().splits == old(Value()).splits
      ensures !alive ==> Value() == old(Value())
      ensures alive ==> forall e :: e in Value().maps <==> e in old(Value()).maps && e.id != id
      ensures alive ==> exists at :: InOrder(old(Value()).maps, Value().maps, at) &&
                                     forall i :: 0 <= i < |old(Value()).maps| ==>
                                       (i in at <==> old(Value()).maps[i].id != id)
    {
      WithoutId(Value().maps, id);
      ok := RemoveId(id);
    }

    method RemoveTriple(input: string, agent: string, output: string) returns (ok: bool)
      requires Valid() && MappingOk(Value())
      modifies this, maps, splits
      ensures maps == old(maps) && splits == old(splits)
      ensures Stepped(RemoveWithName(input, agent, output))
      ensures ok <==> alive && HasId(old(Value().maps), TripleId(input, agent, output))
      ensures ok ==>
                (Dropped(old(Value()).maps, TripleId(input, agent, output)) == MakeElem(input, agent, output) <==>
                 !Taken(old(Value()).maps, MakeElem(input, agent, output)))
    {
      if HasId(Value().maps, TripleId(input, agent, output)) {
        RemoveDropsItIff(Value(), input, agent, output);
      }
      var id := Hash(input + "." + agent + "." + output);
      ok := RemoveId(id);
    }

    /** igsagent_mapping_remove_with_name */
    method MappingRemoveWithName(input: string, agent: string, output: string) returns (ok: bool)
      requires Valid() && MappingOk(Value())
      modifies this, maps, splits
      ensures maps == old(maps) && splits == old(splits)
      ensures Stepped(RemoveWithName(input, agent, output))
      ensures ok <==> alive && HasId(old(Value().maps), TripleId(input, agent, output))
      ensures Value().splits == old(Value()).splits
      ensures !alive ==> Value() == old(Value())
      ensures alive ==> forall e :: e in Value().maps <==> e in old(Value()).maps && e.id != Id(input + "." + agent + "." + output)
      ensures alive ==> exists at :: InOrder(old(Value()).maps, Value().maps, at) &&
                                     forall i :: 0 <= i < |old(Value()).maps| ==>
                                       (i in at <==> old(Value()).maps[i].id != Id(input + "." + agent + "." + output))
      ensures ok ==>
                (Dropped(old(Value()).maps, TripleId(input, agent, output)) == MakeElem(input, agent, output) <==>
                 !Taken(old(Value()).maps, MakeElem(input, agent, output)))
    {
      WithoutTriple(Value().maps, input, agent, output);
      ok := RemoveTriple(input, agent, output);
    }

    /** igsagent_clear_mappings: always asks for an update. */
    method ClearMappings()
      requires Valid()
      modifies this, maps, splits
      ensures Valid() && alive == old(alive)
      ensures alive ==> fresh(maps) && fresh(splits) && needToSendMappingUpdate
      ensures alive ==> Value().maps == [] && Value().splits == []
      ensures !alive ==> maps == old(maps) && splits == old(splits) && Value() == old(Value())
    {
      if alive {
        var newMaps := new ZList();
        var newSplits := new ZList();
        Replace(newMaps, newSplits);
      }
    }

    /** Prints once, after the walk. */
    method ClearToAgent(name: string)
      requires Valid()
      modifies this, maps, splits
      ensures maps == old(maps) && splits == old(splits)
      ensures Stepped(ClearWithAgent(name))
    {
      if alive {
        var removed := RemoveToAgent(maps, name);
        if removed {
          needToSendMappingUpdate := true;
        }
        if needToSendMappingUpdate {
          UpdateJson();
        }
      }
    }

    /** igsagent_clear_mappings_with_agent */
    method ClearMappingsWithAgent(name: string)
      requires Valid()
      modifies this, maps, splits
      ensures maps == old(maps) && splits == old(splits)
      ensures Stepped(ClearWithAgent(name))
      ensures Value().splits == old(Value()).splits
      ensures !alive ==> Value() == old(Value())
      ensures alive ==> forall e :: e in Value().maps <==> e in old(Value()).maps && e.agent != name
      ensures alive ==> exists at :: InOrder(old(Value()).maps, Value().maps, at) &&
                                     forall i :: 0 <= i < |old(Value()).maps| ==>
                                       (i in at <==> old(Value()).maps[i].agent != name)
    {
      WithoutAgent(Value().maps, name);
      ClearToAgent(name);
    }

    /**
     * The loop of igsagent_clear_mappings_for_input: it prints after each removal.
     * Printing walks the same list, so the walk starts again at the head.
     */
    method RemoveFromInput(name: string)
      requires ListsValid() && CacheCurrent()
      modifies this, maps, splits
      ensures maps == old(maps) && splits == old(splits) && alive == old(alive)
      ensures ListsValid() && CacheCurrent() && splits.items == old(splits.items)
      ensures maps.items == Drop(old(maps.items), FromInput(name))
      ensures needToSendMappingUpdate == (old(needToSendMappingUpdate) || maps.items != old(maps.items))
    {
      ghost var es, d := maps.items, FromInput(name);
      var elmt := maps.First();
      while elmt.Some?
        invariant maps == old(maps) && splits == old(splits) && alive == old(alive)
        invariant ListsValid() && CacheCurrent() && splits.items == old(splits.items)
        invariant elmt == maps.Current() && Scanning(maps.items, maps.cursor, es, d)
        invariant needToSendMappingUpdate == (old(needToSendMappingUpdate) || |maps.items| < |es|)
        decreases |maps.items|, if elmt.Some? then |maps.items| - maps.cursor else 0
      {
        ScanStep(maps.items, maps.cursor, -1, es, d);
        if elmt.value.input == name {
          Unlink();
        }
        elmt := maps.Next();
      }
      ScanEnd(maps.items, es, d);
    }

    method ClearFromInput(name: string)
      requires Valid()
      modifies this, maps, splits
      ensures maps == old(maps) && splits == old(splits)
      ensures Stepped(ClearForInput(name))
    {
      if alive {
        RemoveFromInput(name);
        if needToSendMappingUpdate {
          UpdateJson();
        }
      }
    }

    /** igsagent_clear_mappings_for_input */
    method ClearMappingsForInput(name: string)
      requires Valid()
      modifies this, maps, splits
      ensures maps == old(maps) && splits == old(splits)
      ensures Stepped(ClearForInput(name))
      ensures Value().splits == old(Value()).splits
      ensures !alive ==> Value() == old(Value())
      ensures alive ==> forall e :: e in Value().maps <==> e in old(Value()).maps && e.input != name
      ensures alive ==> exists at :: InOrder(old(Value()).maps, Value().maps, at) &&
                                     forall i :: 0 <= i < |old(Value()).maps| ==>
                                       (i in at <==> old(Value()).maps[i].input != name)
    {
      WithoutInput(Value().maps, name);
      ClearFromInput(name);
    }

    /** The parsed lists take the place of the current ones. */
    method Replace(newMaps: ZList<Elem>, newSplits: ZList<Elem>)
      requires newMaps != newSplits && newMaps.Valid() && newSplits.Valid()
      modifies this, newMaps, newSplits
      ensures maps == newMaps && splits == newSplits && alive == old(alive) && needToSendMappingUpdate
      ensures ListsValid() && CacheCurrent()
      ensures Value() == Mapping(old(newMaps.items), old(newSplits.items))
    {
      maps, splits := newMaps, newSplits;
      UpdateJson();
      needToSendMappingUpdate := true;
    }

    /** igsagent_mapping_load_str */
    method MappingLoadStr(t: Text) returns (ok: bool)
      requires Valid() && MappingOk(Value()) && ReadableText(t)
      modifies this, maps, splits
      ensures Valid() && alive == old(alive)
      ensures Value() == if alive then Apply(old(Value()), LoadStr(t)) else old(Value())
      ensures ok <==> alive && Load(t).Some?
      ensures !ok || SameIds(Load(t).value, old(Value())) ==> Value() == old(Value())
      ensures ok && !SameIds(Load(t).value, old(Value())) ==> Value() == Load(t).value
      ensures ok ==> Ids(Value().maps) == Ids(Load(t).value.maps) && Ids(Value().splits) == Ids(Load(t).value.splits)
      ensures needToSendMappingUpdate ==
              (old(needToSendMappingUpdate) || (ok && !SameIds(Load(t).value, old(Value()))))
    {
      ok := false;
      if alive {
        ComparedWithCache(Value(), t);
        var same := IsEqual(Some(t), json);
        if same {
          ok := true;
        } else {
          var tmp := LoadMapping(t);
          if tmp.Some? {
            Replace(tmp.value.0, tmp.value.1);
            ok := true;
          }
        }
      }
    }
  }
}
