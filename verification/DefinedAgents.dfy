/**
 * Changing the definition of an agent: src/igs_definition.c.
 */
module DefinedAgents {
  import opened Options
  import opened CStrings
  import opened Json
  import opened Definitions
  import opened DefinitionText
  import DefinitionParsed
  import DefinitionRoundTrip

  datatype IoKind = InputIo | OutputIo | AttributeIo

  function Section(d: Definition, k: IoKind): Table<Io> {
    match k
    case InputIo => d.inputs
    case OutputIo => d.outputs
    case AttributeIo => d.attributes
  }

  function SetSection(d: Definition, k: IoKind, t: Table<Io>): Definition {
    match k
    case InputIo => d.(inputs := t)
    case OutputIo => d.(outputs := t)
    case AttributeIo => d.(attributes := t)
  }

  /** A section can be read back, and setting it leaves the others alone. */
  lemma SectionLaws(d: Definition, k: IoKind, t: Table<Io>, j: IoKind)
    ensures Section(SetSection(d, k, t), k) == t
    ensures j != k ==> Section(SetSection(d, k, t), j) == Section(d, j)
    ensures SetSection(d, k, Section(d, k)) == d
  {
  }

  /** What every change keeps: each name list has no duplicate and lists exactly the keys of its table. */
  ghost predicate SectionsOk(d: Definition) {
    IosOk(d.inputs) && IosOk(d.outputs) && IosOk(d.attributes) && Exportable(d)
  }

  function Without(names: seq<string>, name: string): seq<string> {
    if names == [] then []
    else if names[0] == name then names[1..]
    else [names[0]] + Without(names[1..], name)
  }

  lemma DistinctCons(name: string, rest: seq<string>)
    requires Distinct(rest) && name !in NameSet(rest)
    ensures Distinct([name] + rest) && NameSet([name] + rest) == {name} + NameSet(rest)
  {
    assert forall i :: 0 <= i < |rest| ==> rest[i] in NameSet(rest);
  }

  lemma {:induction false} WithoutOk(names: seq<string>, name: string)
    requires Distinct(names) && name in names
    ensures Distinct(Without(names, name)) && NameSet(Without(names, name)) == NameSet(names) - {name}
    ensures |Without(names, name)| == |names| - 1
  {
    assert names == [names[0]] + names[1..];
    if names[0] == name {
      assert name !in names[1..];
    } else {
      var rest := Without(names[1..], name);
      WithoutOk(names[1..], name);
      assert names[0] !in names[1..];
      assert names[0] !in NameSet(rest);
      DistinctCons(names[0], rest);
    }
  }

  function RemoveFrom(t: Table<Io>, name: string): Table<Io> {
    Table(Without(t.names, name), t.entries - {name})
  }

  lemma RemoveFromOk(t: Table<Io>, name: string)
    requires IosOk(t) && name in t.entries
    ensures IosOk(RemoveFrom(t, name))
  {
    assert name in NameSet(t.names);
    WithoutOk(t.names, name);
  }

  lemma IosOkPrintable(t: Table<Io>)
    requires IosOk(t)
    ensures Printable(t)
  {
    assert forall n :: n in t.names <==> n in NameSet(t.names);
  }

  lemma SetSectionOk(d: Definition, k: IoKind, t: Table<Io>)
    requires SectionsOk(d) && IosOk(t)
    ensures SectionsOk(SetSection(d, k, t))
  {
    IosOkPrintable(t);
  }

  function NewIo(name: string, t: ValueType): Io {
    Io(name, t, None, None, None, None)
  }

  lemma PutIoOk(t: Table<Io>, io: Io)
    requires IosOk(t) && IoOk(io, io.name) && io.name !in t.entries
    ensures IosOk(Put(t, io.name, io))
  {
    DefinitionParsed.PutNewOk(t, io.name, io);
  }

  /** The definition after a successful create. */
  function Created(d: Definition, k: IoKind, name: string, t: ValueType): Definition {
    SetSection(d, k, Put(Section(d, k), name, NewIo(name, t)))
  }

  /** The definition after a successful remove. */
  function Removed(d: Definition, k: IoKind, name: string): Definition {
    SetSection(d, k, RemoveFrom(Section(d, k), name))
  }

  /** Creating and then removing an input, output or attribute leaves the definition as it was. */
  lemma RemoveUndoesCreate(d: Definition, k: IoKind, name: string, t: ValueType)
    requires SectionsOk(d) && name !in Section(d, k).entries
    ensures Removed(Created(d, k, name, t), k, name) == d
  {
    var was := Section(d, k);
    assert name !in NameSet(was.names);
    WithoutLast(was.names, name);
    assert was.entries[name := NewIo(name, t)] - {name} == was.entries;
  }

  /** The value types by their numbers in the API. */
  ghost predicate HasNumber(t: ValueType, n: int) {
    && (t.UnknownT? <==> n == 0) && (t.IntegerT? <==> n == 1) && (t.DoubleT? <==> n == 2) && (t.StringT? <==> n == 3)
    && (t.BoolT? <==> n == 4) && (t.ImpulsionT? <==> n == 5) && (t.DataT? <==> n == 6)
  }

  /** The name is listed last, with a bare entry of the type of that number, and nothing else changes. */
  ghost predicate GainsLast(was: Table<Io>, now: Table<Io>, name: string, n: int) {
    && now.names == was.names + [name]
    && now.entries.Keys == was.entries.Keys + {name}
    && (forall other :: other in was.entries && other != name ==> now.entries[other] == was.entries[other])
    && now.entries[name].name == name && HasNumber(now.entries[name].valueType, n)
    && now.entries[name].constraint == None && now.entries[name].description == None
    && now.entries[name].detailedType == None && now.entries[name].specification == None
  }

  /** The list without the name that stood at this place. */
  ghost predicate CutAt(was: seq<string>, now: seq<string>, name: string, at: nat) {
    at < |was| && was[at] == name && now == was[..at] + was[at + 1..]
  }

  ghost predicate IsCut(was: seq<string>, now: seq<string>, name: string) {
    exists at :: CutAt(was, now, name, at)
  }

  /** The name is cut from the list and its entry is gone, and nothing else changes. */
  ghost predicate Loses(was: Table<Io>, now: Table<Io>, name: string) {
    && IsCut(was.names, now.names, name)
    && now.entries.Keys == was.entries.Keys - {name}
    && (forall other :: other in was.entries && other != name ==> now.entries[other] == was.entries[other])
  }

  lemma CutAtLater(first: string, was: seq<string>, now: seq<string>, name: string, at: nat)
    requires CutAt(was, now, name, at)
    ensures CutAt([first] + was, [first] + now, name, at + 1)
  {
    var more := [first] + was;
    assert more[..at + 1] == [first] + was[..at] && more[at + 2..] == was[at + 1..];
  }

  function PlaceOf(names: seq<string>, name: string): nat {
    if names == [] || names[0] == name then 0 else 1 + PlaceOf(names[1..], name)
  }

  lemma {:induction false} WithoutIsCut(names: seq<string>, name: string)
    requires name in names
    ensures CutAt(names, Without(names, name), name, PlaceOf(names, name))
  {
    if names[0] != name {
      WithoutIsCut(names[1..], name);
      CutAtLater(names[0], names[1..], Without(names[1..], name), name, PlaceOf(names[1..], name));
      assert [names[0]] + names[1..] == names;
    }
  }

  lemma RemoveFromLoses(t: Table<Io>, name: string)
    requires IosOk(t) && name in t.entries
    ensures Loses(t, RemoveFrom(t, name), name)
  {
    assert name in NameSet(t.names);
    WithoutIsCut(t.names, name);
  }

  lemma PutGainsLast(t: Table<Io>, name: string, n: int)
    requires ValueTypeOf(n).Some? && name !in t.entries
    ensures GainsLast(t, Put(t, name, NewIo(name, ValueTypeOf(n).value)), name, n)
  {
  }

  lemma {:induction false} WithoutLast(names: seq<string>, name: string)
    requires name !in names
    ensures Without(names + [name], name) == names
  {
    if names == [] {
      assert [name][1..] == [] && names + [name] == [name];
    } else {
      assert (names + [name])[1..] == names[1..] + [name];
      WithoutLast(names[1..], name);
    }
  }

  /** Value types as the API takes them: IGS_UNKNOWN_T is 0, IGS_DATA_T is 6. */
  function ValueTypeOf(n: int): Option<ValueType> {
    match n
    case 0 => Some(UnknownT)
    case 1 => Some(IntegerT)
    case 2 => Some(DoubleT)
    case 3 => Some(StringT)
    case 4 => Some(BoolT)
    case 5 => Some(ImpulsionT)
    case 6 => Some(DataT)
    case _ => None
  }

  /** A definition with nothing but a name. */
  function Cleared(name: string): Definition {
    Definition(name, None, None, None, None, None, EmptyTable(), EmptyTable(), EmptyTable(), EmptyTable())
  }

  lemma ClearedOk(name: string)
    ensures SectionsOk(Cleared(name))
  {
    IosOkPrintable(EmptyTable());
  }

  lemma CreatedGains(d: Definition, k: IoKind, name: string, n: int)
    requires SectionsOk(d) && Acceptable(name, MAX_NAME) && ValueTypeOf(n).Some? && name !in Section(d, k).entries
    ensures
      var now := Created(d, k, name, ValueTypeOf(n).value);
      && SectionsOk(now)
      && (k == InputIo ==> now == d.(inputs := now.inputs) && GainsLast(d.inputs, now.inputs, name, n))
      && (k == OutputIo ==> now == d.(outputs := now.outputs) && GainsLast(d.outputs, now.outputs, name, n))
      && (k == AttributeIo ==> now == d.(attributes := now.attributes) && GainsLast(d.attributes, now.attributes, name, n))
  {
    var t, io := Section(d, k), NewIo(name, ValueTypeOf(n).value);
    PutIoOk(t, io);
    PutGainsLast(t, name, n);
    SetSectionOk(d, k, Put(t, name, io));
  }

  lemma RemovedLoses(d: Definition, k: IoKind, name: string)
    requires SectionsOk(d) && name in Section(d, k).entries
    ensures
      var now := Removed(d, k, name);
      && SectionsOk(now)
      && (k == InputIo ==> now == d.(inputs := now.inputs) && Loses(d.inputs, now.inputs, name))
      && (k == OutputIo ==> now == d.(outputs := now.outputs) && Loses(d.outputs, now.outputs, name))
      && (k == AttributeIo ==> now == d.(attributes := now.attributes) && Loses(d.attributes, now.attributes, name))
  {
    var t := Section(d, k);
    RemoveFromOk(t, name);
    RemoveFromLoses(t, name);
    SetSectionOk(d, k, RemoveFrom(t, name));
  }

  class DefinedAgent {
    var alive: bool
    var definition: Definition
    var json: Text
    var jsonLegacyV3: Text
    var jsonLegacyV4: Text
    var needToSendDefinitionUpdate: bool

    ghost predicate CacheCurrent()
      requires Exportable(definition)
      reads this
    {
      && json == Emit(DefinitionTree(definition, Current))
      && jsonLegacyV3 == Emit(DefinitionTree(definition, V3))
      && jsonLegacyV4 == Emit(DefinitionTree(definition, V4))
    }

    ghost predicate Valid()
      reads this
    {
      SectionsOk(definition) && CacheCurrent()
    }

    /** igsagent_clear_definition */
    constructor (name: string)
      ensures Valid() && alive && needToSendDefinitionUpdate
      ensures definition == Cleared(name) && definition.name == name
      ensures definition.inputs.names == definition.outputs.names == definition.attributes.names == []
      ensures definition.services.names == []
    {
      ClearedOk(name);
      alive, needToSendDefinitionUpdate := true, true;
      definition := Cleared(name);
      json, jsonLegacyV3, jsonLegacyV4 := [], [], [];
      new;
      UpdateJson();
    }

    /** definition_update_json: the three forms are printed again. */
    method UpdateJson()
      requires Exportable(definition)
      modifies this`json, this`jsonLegacyV3, this`jsonLegacyV4
      ensures CacheCurrent()
    {
      json := ExportDefinition(definition, Current);
      jsonLegacyV3 := ExportDefinition(definition, V3);
      jsonLegacyV4 := ExportDefinition(definition, V4);
    }

    /** A changed definition is printed and announced. */
    method Change(d: Definition)
      requires SectionsOk(d)
      modifies this
      ensures Valid() && definition == d && alive == old(alive) && needToSendDefinitionUpdate
    {
      definition := d;
      UpdateJson();
      needToSendDefinitionUpdate := true;
    }

    /** igsagent_input_create, igsagent_output_create and igsagent_attribute_create. */
    method IoCreate(k: IoKind, name: string, valueType: int) returns (ok: bool)
      requires Valid() && name != "" && Acceptable(name, MAX_NAME)
      modifies this
      ensures Valid() && alive == old(alive)
      ensures ok <==> alive && 0 <= valueType <= 6 && name !in Section(old(definition), k).entries
      ensures !ok ==> definition == old(definition)
      ensures ok ==> definition == Created(old(definition), k, name, ValueTypeOf(valueType).value)
      ensures ok && k == InputIo ==>
                definition == old(definition).(inputs := definition.inputs)
                && GainsLast(old(definition).inputs, definition.inputs, name, valueType)
      ensures ok && k == OutputIo ==>
                definition == old(definition).(outputs := definition.outputs)
                && GainsLast(old(definition).outputs, definition.outputs, name, valueType)
      ensures ok && k == AttributeIo ==>
                definition == old(definition).(attributes := definition.attributes)
                && GainsLast(old(definition).attributes, definition.attributes, name, valueType)
      ensures needToSendDefinitionUpdate == (ok || old(needToSendDefinitionUpdate))
    {
      var t := Section(definition, k);
      ok := alive && ValueTypeOf(valueType).Some? && name !in t.entries;
      if ok {
        CreatedGains(definition, k, name, valueType);
        var io := NewIo(name, ValueTypeOf(valueType).value);
        Change(SetSection(definition, k, Put(t, name, io)));
      }
    }

    /** igsagent_input_remove, igsagent_output_remove and igsagent_attribute_remove. */
    method IoRemove(k: IoKind, name: string) returns (ok: bool)
      requires Valid()
      modifies this
      ensures Valid() && alive == old(alive)
      ensures ok <==> alive && name in Section(old(definition), k).entries
      ensures !ok ==> definition == old(definition)
      ensures ok ==> definition == Removed(old(definition), k, name)
      ensures ok && k == InputIo ==>
                definition == old(definition).(inputs := definition.inputs)
                && Loses(old(definition).inputs, definition.inputs, name)
      ensures ok && k == OutputIo ==>
                definition == old(definition).(outputs := definition.outputs)
                && Loses(old(definition).outputs, definition.outputs, name)
      ensures ok && k == AttributeIo ==>
                definition == old(definition).(attributes := definition.attributes)
                && Loses(old(definition).attributes, definition.attributes, name)
      ensures needToSendDefinitionUpdate == (ok || old(needToSendDefinitionUpdate))
    {
      var t := Section(definition, k);
      ok := alive && name in t.entries;
      if ok {
        RemovedLoses(definition, k, name);
        Change(SetSection(definition, k, RemoveFrom(t, name)));
      }
    }

    /**
     * igsagent_definition_load_str. It ends by setting the agent's name to the one just
     * loaded, which asserts that it is not empty and otherwise changes nothing.
     */
    method LoadStr(t: Text) returns (ok: bool)
      requires Valid() && (LoadedDefinition(t).Some? ==> LoadedDefinition(t).value.name != "")
      modifies this
      ensures Valid() && alive == old(alive)
      ensures ok <==> alive && LoadedDefinition(t).Some?
      ensures definition == if ok then LoadedDefinition(t).value else old(definition)
      ensures needToSendDefinitionUpdate == (ok || old(needToSendDefinitionUpdate))
    {
      ok := false;
      if alive {
        var tmp := LoadDefinition(t);
        if tmp.Some? {
          LoadedSectionsOk(t);
          Change(tmp.value);
          ok := true;
        }
      }
    }
  }

  /** Whatever is parsed can be printed, repeated replies included. */
  lemma ParsedSectionsOk(j: Json)
    requires ReadDefinition(j).Some?
    ensures SectionsOk(ReadDefinition(j).value)
  {
    DefinitionParsed.ParsedOk(j);
    DefinitionRoundTrip.WellFormedIsExportable(ReadDefinition(j).value);
  }

  lemma LoadedSectionsOk(t: Text)
    requires LoadedDefinition(t).Some?
    ensures SectionsOk(LoadedDefinition(t).value)
  {
    ParsedSectionsOk(Parse(t).value);
  }
}
