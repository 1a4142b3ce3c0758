/**
 * JSON trees, the generator calls that print them and the tree builder that reads
 * them back (src/igs_json_node.c, src/igs_json.c, src/yajl_tree.c).
 *
 * A text is the sequence of its generator calls; spelling of tokens is not modelled.
 */
module Json {
  import opened Options

  datatype Json =
    | JNull
    | JBool(b: bool)
    | JInt(i: int)
    | JDouble(d: real)
    | JString(s: string)
    | JArray(items: seq<Json>)
    | JMap(fields: seq<Field>)

  datatype Field = Field(key: string, value: Json)

  datatype Event =
    | OpenMap
    | CloseMap
    | OpenArray
    | CloseArray
    | AddString(s: string)
    | AddInt(i: int)
    | AddDouble(d: real)
    | AddBool(b: bool)
    | AddNull

  type Text = seq<Event>

  /** s_json_node_iterate */
  function Emit(j: Json): Text {
    match j
    case JNull => [AddNull]
    case JBool(b) => [AddBool(b)]
    case JInt(i) => [AddInt(i)]
    case JDouble(d) => [AddDouble(d)]
    case JString(s) => [AddString(s)]
    case JArray(items) => [OpenArray] + EmitItems(items) + [CloseArray]
    case JMap(fields) => [OpenMap] + EmitFields(fields) + [CloseMap]
  }

  function EmitItems(items: seq<Json>): Text {
    if items == [] then [] else EmitItems(items[..|items| - 1]) + Emit(items[|items| - 1])
  }

  function EmitFields(fields: seq<Field>): Text {
    if fields == [] then []
    else EmitFields(fields[..|fields| - 1]) + EmitField(fields[|fields| - 1])
  }

  function EmitField(f: Field): Text {
    [AddString(f.key)] + Emit(f.value)
  }

  lemma ScalarCalls(s: string, i: int, d: real, b: bool)
    ensures Emit(JNull) == [AddNull] && Emit(JBool(b)) == [AddBool(b)]
    ensures Emit(JInt(i)) == [AddInt(i)] && Emit(JDouble(d)) == [AddDouble(d)] && Emit(JString(s)) == [AddString(s)]
  {
  }

  lemma ArrayCalls(items: seq<Json>, j: Json)
    ensures Emit(JArray(items)) == [OpenArray] + EmitItems(items) + [CloseArray] && EmitItems([]) == []
    ensures EmitItems(items + [j]) == EmitItems(items) + Emit(j)
  {
    assert (items + [j])[..|items|] == items;
  }

  lemma MapCalls(fields: seq<Field>, key: string, j: Json)
    ensures Emit(JMap(fields)) == [OpenMap] + EmitFields(fields) + [CloseMap] && EmitFields([]) == []
    ensures EmitFields(fields + [Field(key, j)]) == EmitFields(fields) + ([AddString(key)] + Emit(j))
  {
    assert (fields + [Field(key, j)])[..|fields|] == fields;
  }

  // ------------------------------------------------------------ the tree builder

  /** An array or map that is still open; a map may have read a key and wait for its value. */
  datatype Frame = InArray(items: seq<Json>) | InMap(fields: seq<Field>, key: Option<string>)

  datatype Builder = Broken | Building(stack: seq<Frame>, root: Option<Json>)

  const START: Builder := Building([], None)

  /** Whether a value may come next. */
  predicate Ready(b: Builder) {
    && b.Building?
    && (if b.stack == [] then b.root.None? else
        var top := b.stack[|b.stack| - 1];
        top.InArray? || top.key.Some?)
  }

  function Push(b: Builder, f: Frame): Builder
    requires b.Building?
  {
    b.(stack := b.stack + [f])
  }

  /** context_add_value */
  function AddValue(b: Builder, j: Json): Builder {
    if !b.Building? then Broken
    else if b.stack == [] then
      if b.root.None? then b.(root := Some(j)) else Broken
    else
      var below, top := b.stack[..|b.stack| - 1], b.stack[|b.stack| - 1];
      match top
      case InArray(items) => b.(stack := below + [InArray(items + [j])])
      case InMap(fields, Some(key)) => b.(stack := below + [InMap(fields + [Field(key, j)], None)])
      case InMap(fields, None) =>
        if j.JString? then b.(stack := below + [InMap(fields, Some(j.s))]) else Broken
  }

  function Close(b: Builder, isMap: bool): Builder {
    if !b.Building? || b.stack == [] then Broken
    else
      var outer, top := b.(stack := b.stack[..|b.stack| - 1]), b.stack[|b.stack| - 1];
      match top
      case InArray(items) => if isMap then Broken else AddValue(outer, JArray(items))
      case InMap(fields, key) => if isMap && key.None? then AddValue(outer, JMap(fields)) else Broken
  }

  function Feed(b: Builder, e: Event): Builder {
    match e
    case OpenMap => if Ready(b) then Push(b, InMap([], None)) else Broken
    case OpenArray => if Ready(b) then Push(b, InArray([])) else Broken
    case CloseMap => Close(b, true)
    case CloseArray => Close(b, false)
    case AddString(s) => AddValue(b, JString(s))
    case AddInt(i) => AddValue(b, JInt(i))
    case AddDouble(d) => AddValue(b, JDouble(d))
    case AddBool(v) => AddValue(b, JBool(v))
    case AddNull => AddValue(b, JNull)
  }

  function Run(b: Builder, t: Text): Builder {
    if t == [] then b else Feed(Run(b, t[..|t| - 1]), t[|t| - 1])
  }

  /** igs_json_node_parse_from_str: a text is accepted when it is exactly one value. */
  function Parse(t: Text): Option<Json> {
    var b := Run(START, t);
    if b.Building? && b.stack == [] then b.root else None
  }

  lemma {:induction false} RunConcat(b: Builder, t: Text, u: Text)
    ensures Run(b, t + u) == Run(Run(b, t), u)
  {
    if u == [] {
      assert t + u == t;
    } else {
      assert (t + u)[..|t + u| - 1] == t + u[..|u| - 1];
      RunConcat(b, t, u[..|u| - 1]);
    }
  }

  lemma RunOne(b: Builder, e: Event)
    ensures Run(b, [e]) == Feed(b, e)
  {
    assert [e][..0] == [];
    assert Run(b, [e][..0]) == b;
  }

  lemma Chain(b: Builder, t: Text, between: Builder, u: Text)
    requires Run(b, t) == between
    ensures Run(b, t + u) == Run(between, u)
  {
    RunConcat(b, t, u);
  }

  lemma AddToArray(b: Builder, items: seq<Json>, j: Json)
    requires b.Building?
    ensures AddValue(Push(b, InArray(items)), j) == Push(b, InArray(items + [j]))
    ensures Close(Push(b, InArray(items)), false) == AddValue(b, JArray(items))
  {
    assert Push(b, InArray(items)).stack[..|b.stack|] == b.stack;
  }

  lemma AddToMap(b: Builder, fields: seq<Field>, key: string, j: Json)
    requires b.Building?
    ensures AddValue(Push(b, InMap(fields, None)), JString(key)) == Push(b, InMap(fields, Some(key)))
    ensures AddValue(Push(b, InMap(fields, Some(key))), j) == Push(b, InMap(fields + [Field(key, j)], None))
    ensures Close(Push(b, InMap(fields, None)), true) == AddValue(b, JMap(fields))
  {
    assert Push(b, InMap(fields, None)).stack[..|b.stack|] == b.stack;
    assert Push(b, InMap(fields, Some(key))).stack[..|b.stack|] == b.stack;
  }

  /** Reading back the calls that print j adds j, whatever surrounds it. */
  lemma {:induction false} RunEmit(b: Builder, j: Json)
    requires Ready(b)
    ensures Run(b, Emit(j)) == AddValue(b, j)
    decreases j
  {
    match j
    case JArray(items) => RunArray(b, items);
    case JMap(fields) => RunMap(b, fields);
    case JNull => RunOne(b, AddNull);
    case JBool(v) => RunOne(b, AddBool(v));
    case JInt(i) => RunOne(b, AddInt(i));
    case JDouble(d) => RunOne(b, AddDouble(d));
    case JString(s) => RunOne(b, AddString(s));
  }

  lemma {:induction false} RunArray(b: Builder, items: seq<Json>)
    requires Ready(b)
    ensures Run(b, [OpenArray] + EmitItems(items) + [CloseArray]) == AddValue(b, JArray(items))
    decreases items, 1
  {
    RunItems(b, items);
    RunBracketed(b, OpenArray, EmitItems(items), Push(b, InArray(items)), CloseArray);
    AddToArray(b, items, JNull);
  }

  lemma {:induction false} RunMap(b: Builder, fields: seq<Field>)
    requires Ready(b)
    ensures Run(b, [OpenMap] + EmitFields(fields) + [CloseMap]) == AddValue(b, JMap(fields))
    decreases fields, 2
  {
    RunFields(b, fields);
    RunBracketed(b, OpenMap, EmitFields(fields), Push(b, InMap(fields, None)), CloseMap);
    AddToMap(b, fields, "", JNull);
  }

  lemma RunBracketed(b: Builder, open: Event, body: Text, inside: Builder, close: Event)
    requires Run(Feed(b, open), body) == inside
    ensures Run(b, [open] + body + [close]) == Feed(inside, close)
  {
    RunOne(b, open);
    Chain(b, [open], Feed(b, open), body);
    Chain(b, [open] + body, inside, [close]);
    RunOne(inside, close);
  }

  lemma {:induction false} RunItems(b: Builder, items: seq<Json>)
    requires Ready(b)
    ensures Run(Push(b, InArray([])), EmitItems(items)) == Push(b, InArray(items))
    decreases items, 0
  {
    if items != [] {
      var init, last := items[..|items| - 1], items[|items| - 1];
      assert init + [last] == items;
      RunItems(b, init);
      RunEmit(Push(b, InArray(init)), last);
      AddToArray(b, init, last);
      Chain(Push(b, InArray([])), EmitItems(init), Push(b, InArray(init)), Emit(last));
    }
  }

  lemma {:induction false} RunFields(b: Builder, fields: seq<Field>)
    requires Ready(b)
    ensures Run(Push(b, InMap([], None)), EmitFields(fields)) == Push(b, InMap(fields, None))
    decreases fields, 1
  {
    if fields != [] {
      var init, last := fields[..|fields| - 1], fields[|fields| - 1];
      assert init + [last] == fields;
      RunFields(b, init);
      RunField(b, init, last);
      Chain(Push(b, InMap([], None)), EmitFields(init), Push(b, InMap(init, None)), EmitField(last));
    }
  }

  lemma {:induction false} RunField(b: Builder, before: seq<Field>, f: Field)
    requires Ready(b)
    ensures Run(Push(b, InMap(before, None)), EmitField(f)) == Push(b, InMap(before + [f], None))
    decreases f, 0
  {
    var at := Push(b, InMap(before, None));
    AddToMap(b, before, f.key, f.value);
    RunConcat(at, [AddString(f.key)], Emit(f.value));
    RunOne(at, AddString(f.key));
    RunEmit(Push(b, InMap(before, Some(f.key))), f.value);
  }

  /** Every printed tree is read back as it was. */
  lemma ParseEmit(j: Json)
    ensures Parse(Emit(j)) == Some(j)
  {
    RunEmit(START, j);
  }

  // ------------------------------------------------------------ nothing else is accepted

  function EmitFrame(f: Frame): Text {
    match f
    case InArray(items) => [OpenArray] + EmitItems(items)
    case InMap(fields, None) => [OpenMap] + EmitFields(fields)
    case InMap(fields, Some(key)) => [OpenMap] + EmitFields(fields) + [AddString(key)]
  }

  function EmitStack(stack: seq<Frame>): Text {
    if stack == [] then [] else EmitStack(stack[..|stack| - 1]) + EmitFrame(stack[|stack| - 1])
  }

  /** What a builder has read so far. */
  function Consumed(b: Builder): Text
    requires b.Building?
  {
    if b.stack != [] then EmitStack(b.stack)
    else if b.root.Some? then Emit(b.root.value)
    else []
  }

  ghost predicate Sane(b: Builder) {
    b.Building? ==> b.stack == [] || b.root.None?
  }

  lemma EmitStackPush(stack: seq<Frame>, f: Frame)
    ensures EmitStack(stack + [f]) == EmitStack(stack) + EmitFrame(f)
  {
    assert (stack + [f])[..|stack|] == stack;
  }

  /** The open frame after a value was added to it. */
  function Grown(top: Frame, j: Json): Option<Frame> {
    match top
    case InArray(items) => Some(InArray(items + [j]))
    case InMap(fields, Some(key)) => Some(InMap(fields + [Field(key, j)], None))
    case InMap(fields, None) => if j.JString? then Some(InMap(fields, Some(j.s))) else None
  }

  lemma EmitGrown(top: Frame, j: Json)
    requires Grown(top, j).Some?
    ensures EmitFrame(Grown(top, j).value) == EmitFrame(top) + Emit(j)
  {
    match top
    case InArray(items) =>
      assert (items + [j])[..|items|] == items;
      assert [OpenArray] + (EmitItems(items) + Emit(j)) == EmitFrame(top) + Emit(j);
    case InMap(fields, Some(key)) =>
      assert (fields + [Field(key, j)])[..|fields|] == fields;
      var k, e := [AddString(key)], EmitFields(fields);
      assert EmitFields(fields + [Field(key, j)]) == e + (k + Emit(j));
      assert [OpenMap] + (e + (k + Emit(j))) == ([OpenMap] + e + k) + Emit(j);
    case InMap(fields, None) =>
  }

  lemma Assoc(a: Text, b: Text, c: Text)
    ensures a + (b + c) == (a + b) + c
  {
  }

  lemma ConsumedAdd(b: Builder, j: Json)
    requires Sane(b) && AddValue(b, j).Building?
    ensures Sane(AddValue(b, j)) && Consumed(AddValue(b, j)) == Consumed(b) + Emit(j)
  {
    if b.stack == [] {
    } else {
      var below, top := b.stack[..|b.stack| - 1], b.stack[|b.stack| - 1];
      var top' := Grown(top, j).value;
      assert AddValue(b, j) == Building(below + [top'], b.root);
      EmitStackPush(below, top');
      EmitGrown(top, j);
      Assoc(EmitStack(below), EmitFrame(top), Emit(j));
    }
  }

  lemma ConsumedPush(b: Builder, f: Frame, open: Event)
    requires Sane(b) && Ready(b) && EmitFrame(f) == [open]
    ensures Sane(Push(b, f)) && Consumed(Push(b, f)) == Consumed(b) + [open]
  {
    EmitStackPush(b.stack, f);
  }

  lemma ConsumedFeed(b: Builder, e: Event)
    requires Sane(b) && Feed(b, e).Building?
    ensures Sane(Feed(b, e)) && Consumed(Feed(b, e)) == Consumed(b) + [e]
  {
    match e
    case OpenMap => ConsumedPush(b, InMap([], None), OpenMap);
    case OpenArray => ConsumedPush(b, InArray([]), OpenArray);
    case CloseMap => ConsumedClose(b, true);
    case CloseArray => ConsumedClose(b, false);
    case AddString(s) => ConsumedAdd(b, JString(s));
    case AddInt(i) => ConsumedAdd(b, JInt(i));
    case AddDouble(d) => ConsumedAdd(b, JDouble(d));
    case AddBool(v) => ConsumedAdd(b, JBool(v));
    case AddNull => ConsumedAdd(b, JNull);
  }

  lemma ConsumedClose(b: Builder, isMap: bool)
    requires Sane(b) && Close(b, isMap).Building?
    ensures Sane(Close(b, isMap))
    ensures Consumed(Close(b, isMap)) == Consumed(b) + [if isMap then CloseMap else CloseArray]
  {
    var below, top := b.stack[..|b.stack| - 1], b.stack[|b.stack| - 1];
    var end := [if isMap then CloseMap else CloseArray];
    var outer := Building(below, None);
    var j := if isMap then JMap(top.fields) else JArray(top.items);
    assert Close(b, isMap) == AddValue(outer, j);
    ConsumedAdd(outer, j);
    assert Emit(j) == EmitFrame(top) + end;
    Assoc(EmitStack(below), EmitFrame(top), end);
  }

  lemma ConsumedStep(b: Builder, e: Event, read: Text)
    requires Sane(b) && (b.Building? ==> Consumed(b) == read)
    ensures Sane(Feed(b, e))
    ensures Feed(b, e).Building? ==> Consumed(Feed(b, e)) == read + [e]
  {
    if Feed(b, e).Building? {
      assert b.Building?;
      ConsumedFeed(b, e);
    }
  }

  lemma {:induction false} ConsumedRun(t: Text)
    ensures Sane(Run(START, t))
    ensures Run(START, t).Building? ==> Consumed(Run(START, t)) == t
  {
    if t != [] {
      var init, e := t[..|t| - 1], t[|t| - 1];
      ConsumedRun(init);
      ConsumedStep(Run(START, init), e, init);
      assert init + [e] == t;
    }
  }

  /** An accepted text is the printed form of the tree it is read as. */
  lemma EmitParse(t: Text)
    requires Parse(t).Some?
    ensures Emit(Parse(t).value) == t
  {
    ConsumedRun(t);
  }

  // ------------------------------------------------------------ queries

  function Lookup(fields: seq<Field>, key: string): Option<Json> {
    if fields == [] then None
    else if fields[0].key == key then Some(fields[0].value)
    else Lookup(fields[1..], key)
  }

  /**
   * igs_json_node_find, for paths of names: the first field with the name is followed;
   * a scalar ignores the path and answers itself; an array has no named child.
   */
  function Find(j: Json, path: seq<string>): Option<Json>
    decreases path
  {
    if path == [] then Some(j)
    else match j
      case JMap(fields) =>
        var next := Lookup(fields, path[0]);
        if next.None? then None else Find(next.value, path[1..])
      case JArray(_) => None
      case _ => Some(j)
  }

  /** The string found at a one-name path, if it is one. */
  function FindString(j: Json, name: string): Option<string> {
    match Find(j, [name])
    case Some(JString(s)) => Some(s)
    case _ => None
  }

  /** Paths step through maps; a scalar ends them early, and an array has no named child. */
  lemma FindLaws(fields: seq<Field>, key: string, rest: seq<string>, j: Json, items: seq<Json>)
    ensures Find(j, []) == Some(j)
    ensures Find(JMap(fields), [key] + rest) ==
            if Lookup(fields, key).Some? then Find(Lookup(fields, key).value, rest) else None
    ensures Find(JArray(items), [key] + rest) == None
    ensures !j.JMap? && !j.JArray? ==> Find(j, [key] + rest) == Some(j)
  {
    assert ([key] + rest)[1..] == rest;
  }

  lemma FindName(fields: seq<Field>, name: string)
    ensures Find(JMap(fields), [name]) == Lookup(fields, name)
  {
    assert [name][1..] == [];
  }

  /** A field added at the end is found when no earlier one has its key. */
  lemma {:induction false} LookupLast(fields: seq<Field>, f: Field, key: string)
    ensures Lookup(fields + [f], key) ==
            if Lookup(fields, key).Some? then Lookup(fields, key)
            else if f.key == key then Some(f.value) else None
  {
    if fields == [] {
      assert [f][1..] == [] && fields + [f] == [f];
      assert Lookup([f][1..], key) == None;
    } else {
      assert (fields + [f])[1..] == fields[1..] + [f];
      LookupLast(fields[1..], f, key);
    }
  }
}
