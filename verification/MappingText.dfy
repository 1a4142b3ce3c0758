/**
 * Mappings and their JSON form: the mapping half of src/igs_parser.c and
 * mapping_is_equal of src/igs_mapping.c.
 */
module MappingText {
  import opened Options
  import opened CStrings
  import opened Djb2
  import opened Json
  import opened ZLists

  const MAX_NAME: nat := 1024

  /** igs_map_t and igs_split_t have the same fields. */
  datatype Elem = Elem(id: nat, input: string, agent: string, output: string)

  datatype Mapping = Mapping(maps: seq<Elem>, splits: seq<Elem>)

  function MakeElem(input: string, agent: string, output: string): Elem {
    Elem(TripleId(input, agent, output), input, agent, output)
  }

  ghost predicate NameOk(s: string) {
    Acceptable(s, MAX_NAME)
  }

  ghost predicate ElemOk(e: Elem) {
    && e == MakeElem(e.input, e.agent, e.output)
    && NameOk(e.input) && NameOk(e.agent) && NameOk(e.output)
  }

  ghost predicate DistinctIds(es: seq<Elem>) {
    forall i, j :: 0 <= i < j < |es| ==> es[i].id != es[j].id
  }

  ghost predicate ListOk(es: seq<Elem>) {
    DistinctIds(es) && forall i :: 0 <= i < |es| ==> ElemOk(es[i])
  }

  ghost predicate MappingOk(m: Mapping) {
    ListOk(m.maps) && ListOk(m.splits)
  }

  function Ids(es: seq<Elem>): set<nat> {
    set i | 0 <= i < |es| :: es[i].id
  }

  // ------------------------------------------------------------ printing

  datatype Names = Names(input: string, agent: string, output: string)

  const CURRENT := Names("fromInput", "toAgent", "toOutput")
  const LEGACY := Names("input_name", "agent_name", "output_name")

  function ElemTree(e: Elem, k: Names): Json {
    JMap([Field(k.input, JString(e.input)), Field(k.agent, JString(e.agent)), Field(k.output, JString(e.output))])
  }

  function ElemTrees(es: seq<Elem>, k: Names): (r: seq<Json>)
    ensures |r| == |es|
  {
    if es == [] then [] else ElemTrees(es[..|es| - 1], k) + [ElemTree(es[|es| - 1], k)]
  }

  function MappingTree(m: Mapping): Json {
    JMap([
      Field("mappings", JArray(ElemTrees(m.maps, CURRENT))),
      Field("splits", JArray(ElemTrees(m.splits, CURRENT)))])
  }

  function LegacyTree(m: Mapping): Json {
    JMap([Field("mapping", JMap([Field("mapping_out", JArray(ElemTrees(m.maps, LEGACY)))]))])
  }

  function ElemCalls(e: Elem, k: Names): Text {
    [OpenMap, AddString(k.input), AddString(e.input), AddString(k.agent), AddString(e.agent),
     AddString(k.output), AddString(e.output), CloseMap]
  }

  lemma EmitOneField(f: Field)
    ensures EmitFields([f]) == EmitField(f)
  {
    assert [f][..0] == [];
  }

  lemma EmitTwoFields(f: Field, g: Field)
    ensures EmitFields([f, g]) == EmitField(f) + EmitField(g)
  {
    assert [f, g][..1] == [f];
    EmitOneField(f);
  }

  lemma EmitElemTree(e: Elem, k: Names)
    ensures Emit(ElemTree(e, k)) == ElemCalls(e, k)
  {
    var f, g, h := Field(k.input, JString(e.input)), Field(k.agent, JString(e.agent)), Field(k.output, JString(e.output));
    assert [f, g, h][..2] == [f, g];
    EmitTwoFields(f, g);
    assert EmitFields([f, g, h]) == EmitField(f) + EmitField(g) + EmitField(h);
  }

  lemma ElemTreesStep(es: seq<Elem>, n: nat, k: Names)
    requires n < |es|
    ensures EmitItems(ElemTrees(es[..n + 1], k)) == EmitItems(ElemTrees(es[..n], k)) + ElemCalls(es[n], k)
  {
    EmitElemTree(es[n], k);
    assert es[..n + 1][..n] == es[..n];
  }

  /** The loop over a list that both exports run; it leaves the shared cursor unset. */
  method ExportElements(list: ZList<Elem>, k: Names) returns (text: Text)
    requires list.Valid()
    modifies list`cursor
    ensures list.Valid() && list.cursor == -1
    ensures text == EmitItems(ElemTrees(list.items, k))
  {
    text := [];
    var elmt := list.First();
    ghost var n, items := 0, list.items;
    while elmt.Some?
      invariant list.Valid() && elmt == list.Current() && list.items == items
      invariant 0 <= n <= |items| && list.cursor == (if n < |items| then n else -1)
      invariant text == EmitItems(ElemTrees(items[..n], k))
      decreases |items| - n
    {
      var e := elmt.value;
      ElemTreesStep(items, n, k);
      text := text + [OpenMap, AddString(k.input), AddString(e.input), AddString(k.agent), AddString(e.agent),
                      AddString(k.output), AddString(e.output), CloseMap];
      n := n + 1;
      elmt := list.Next();
    }
    assert items[..n] == items;
  }

  /** parser_export_mapping */
  method ExportMapping(maps: ZList<Elem>, splits: ZList<Elem>) returns (text: Text)
    requires maps.Valid() && splits.Valid() && maps != splits
    modifies maps`cursor, splits`cursor
    ensures maps.Valid() && splits.Valid() && maps.cursor == splits.cursor == -1
    ensures text == Emit(MappingTree(Mapping(maps.items, splits.items)))
  {
    var first := ExportElements(maps, CURRENT);
    var second := ExportElements(splits, CURRENT);
    var mapPart := [AddString("mappings")] + ([OpenArray] + first + [CloseArray]);
    var splitPart := [AddString("splits")] + ([OpenArray] + second + [CloseArray]);
    text := [OpenMap] + (mapPart + splitPart) + [CloseMap];
    EmitTwoFields(Field("mappings", JArray(ElemTrees(maps.items, CURRENT))),
                  Field("splits", JArray(ElemTrees(splits.items, CURRENT))));
  }

  /** parser_export_mapping_legacy: splits are not printed. */
  method ExportMappingLegacy(maps: ZList<Elem>, ghost splits: seq<Elem>) returns (text: Text)
    requires maps.Valid()
    modifies maps`cursor
    ensures maps.Valid() && maps.cursor == -1
    ensures text == Emit(LegacyTree(Mapping(maps.items, splits)))
  {
    var first := ExportElements(maps, LEGACY);
    var inner := [OpenMap] + ([AddString("mapping_out")] + ([OpenArray] + first + [CloseArray])) + [CloseMap];
    text := [OpenMap] + ([AddString("mapping")] + inner) + [CloseMap];
    var f := Field("mapping_out", JArray(ElemTrees(maps.items, LEGACY)));
    EmitOneField(f);
    EmitOneField(Field("mapping", JMap([f])));
  }

  function ElemsText(es: seq<Elem>, k: Names): Text {
    EmitItems(ElemTrees(es, k))
  }

  /** The names that the current form prints around the two lists. */
  lemma MappingTokens(m: Mapping)
    ensures Emit(MappingTree(m)) ==
            [OpenMap] + (([AddString("mappings")] + ([OpenArray] + ElemsText(m.maps, CURRENT) + [CloseArray]))
            + ([AddString("splits")] + ([OpenArray] + ElemsText(m.splits, CURRENT) + [CloseArray]))) + [CloseMap]
  {
    EmitTwoFields(Field("mappings", JArray(ElemTrees(m.maps, CURRENT))),
                  Field("splits", JArray(ElemTrees(m.splits, CURRENT))));
  }

  /** The names that the legacy form prints around the one list it has. */
  lemma LegacyTokens(m: Mapping)
    ensures Emit(LegacyTree(m)) ==
            [OpenMap] + ([AddString("mapping")] + ([OpenMap] + ([AddString("mapping_out")]
            + ([OpenArray] + ElemsText(m.maps, LEGACY) + [CloseArray])) + [CloseMap])) + [CloseMap]
  {
    var f := Field("mapping_out", JArray(ElemTrees(m.maps, LEGACY)));
    EmitOneField(f);
    EmitOneField(Field("mapping", JMap([f])));
  }

  /** One element more is one map more, with its three texts by name. */
  lemma ElemTokens(es: seq<Elem>, e: Elem)
    ensures ElemsText([], CURRENT) == [] && ElemsText([], LEGACY) == []
    ensures ElemsText(es + [e], CURRENT) ==
            ElemsText(es, CURRENT) +
            [OpenMap, AddString("fromInput"), AddString(e.input), AddString("toAgent"), AddString(e.agent),
             AddString("toOutput"), AddString(e.output), CloseMap]
    ensures ElemsText(es + [e], LEGACY) ==
            ElemsText(es, LEGACY) +
            [OpenMap, AddString("input_name"), AddString(e.input), AddString("agent_name"), AddString(e.agent),
             AddString("output_name"), AddString(e.output), CloseMap]
  {
    assert (es + [e])[..|es| + 1] == es + [e] && (es + [e])[..|es|] == es;
    ElemTreesStep(es + [e], |es|, CURRENT);
    ElemTreesStep(es + [e], |es|, LEGACY);
  }

  // ------------------------------------------------------------ reading

  /** The parser copies at most 1024 characters and cleans the copy. */
  function CleanName(s: string): string {
    Cleaned(Truncate(s, MAX_NAME), MAX_NAME)
  }

  lemma CleanNameOk(s: string)
    ensures NameOk(CleanName(s))
    ensures NameOk(s) ==> CleanName(s) == s
  {
    CleanedIsAcceptable(Truncate(s, MAX_NAME), MAX_NAME);
  }

  function ReadElem(item: Json, k: Names): Option<Elem> {
    if !item.JMap? then None
    else match (FindString(item, k.input), FindString(item, k.agent), FindString(item, k.output))
      case (Some(i), Some(a), Some(o)) => Some(MakeElem(CleanName(i), CleanName(a), CleanName(o)))
      case _ => None
  }

  predicate HasId(es: seq<Elem>, id: nat) {
    exists i :: 0 <= i < |es| && es[i].id == id
  }

  /** An element whose id is already there is not added. */
  function AddElem(es: seq<Elem>, e: Elem): seq<Elem> {
    if HasId(es, e.id) then es else es + [e]
  }

  function ReadElems(items: seq<Json>, k: Names): seq<Elem> {
    if items == [] then []
    else
      var before := ReadElems(items[..|items| - 1], k);
      match ReadElem(items[|items| - 1], k)
      case Some(e) => AddElem(before, e)
      case None => before
  }

  const MAPPINGS_PATH := ["mappings"]
  const SPLITS_PATH := ["splits"]
  const LEGACY_PATH := ["mapping", "mapping_out"]

  /**
   * The parser reads the array fields of the nodes under "mappings" and "splits" without looking
   * at their type. Parsed nodes are zeroed first, and on 64-bit platforms the length lies behind
   * the text of a string, where the double of a number and the values of a map are. So this is an
   * empty array in all other nodes but numbers and maps that have something in them.
   */
  function SeenItems(j: Json): Option<seq<Json>> {
    match j
    case JArray(items) => Some(items)
    case JInt(i) => if i == 0 then Some([]) else None
    case JDouble(d) => if d == 0.0 then Some([]) else None
    case JMap(fields) => if fields == [] then Some([]) else None
    case _ => Some([])
  }

  predicate SeenIfThere(j: Option<Json>) {
    j.Some? ==> SeenItems(j.value).Some?
  }

  /** No node is read as an array of a length that is really a double or an address. */
  predicate Readable(j: Json) {
    && SeenIfThere(Find(j, MAPPINGS_PATH))
    && SeenIfThere(Find(j, SPLITS_PATH))
    && (Find(j, MAPPINGS_PATH).None? && Find(j, SPLITS_PATH).Some? ==> SeenIfThere(Find(j, LEGACY_PATH)))
  }

  function ReadSplits(j: Json): seq<Elem>
    requires Readable(j)
  {
    match Find(j, SPLITS_PATH)
    case Some(node) => ReadElems(SeenItems(node).value, CURRENT)
    case None => []
  }

  /** What parser_parse_mapping_from_node makes of a tree. */
  function ReadMapping(j: Json): Option<Mapping>
    requires Readable(j)
  {
    match Find(j, MAPPINGS_PATH)
    case Some(node) => Some(Mapping(ReadElems(SeenItems(node).value, CURRENT), ReadSplits(j)))
    case None =>
      match Find(j, LEGACY_PATH)
      case Some(JArray(items)) => Some(Mapping(ReadElems(items, LEGACY), ReadSplits(j)))
      case _ => if Find(j, SPLITS_PATH).None? then None else Some(Mapping([], ReadSplits(j)))
  }

  predicate ReadableText(t: Text) {
    Parse(t).Some? && Parse(t).value.JMap? ==> Readable(Parse(t).value)
  }

  /** parser_load_mapping */
  function Load(t: Text): Option<Mapping>
    requires ReadableText(t)
  {
    match Parse(t)
    case Some(JMap(fields)) => ReadMapping(JMap(fields))
    case _ => None
  }

  /** Walks a list for an id and stops at the first element that has it. */
  method LookupId(list: ZList<Elem>, id: nat) returns (found: Option<Elem>)
    requires list.Valid()
    modifies list`cursor
    ensures list.Valid() && found == list.Current()
    ensures found.Some? <==> HasId(list.items, id)
    ensures found.Some? ==> found.value.id == id
  {
    found := list.First();
    while found.Some?
      invariant list.Valid() && found == list.Current()
      invariant found.Some? ==> forall k :: 0 <= k < list.cursor ==> list.items[k].id != id
      invariant found.None? ==> !HasId(list.items, id)
      decreases if found.Some? then |list.items| - list.cursor else 0
    {
      if found.value.id == id {
        return;
      }
      found := list.Next();
    }
  }

  /** One of the two reading loops of parser_parse_mapping_from_node. */
  method ParseElements(items: seq<Json>, k: Names) returns (list: ZList<Elem>)
    ensures fresh(list) && list.Valid() && list.items == ReadElems(items, k)
  {
    list := new ZList();
    for i := 0 to |items|
      invariant fresh(list) && list.Valid() && list.items == ReadElems(items[..i], k)
    {
      assert items[..i + 1][..i] == items[..i];
      if items[i].JMap? {
        var input, agent, output :=
          FindString(items[i], k.input), FindString(items[i], k.agent), FindString(items[i], k.output);
        if input.Some? && agent.Some? && output.Some? {
          var e := MakeElem(CleanName(input.value), CleanName(agent.value), CleanName(output.value));
          var known := LookupId(list, e.id);
          if known.None? {
            list.Append(e);
          }
        }
      }
    }
    assert items[..|items|] == items;
  }

  /** parser_parse_mapping_from_node: new lists, or nothing when there is no mapping in the tree. */
  method ParseMapping(j: Json) returns (lists: Option<(ZList<Elem>, ZList<Elem>)>)
    requires Readable(j)
    ensures lists.Some? <==> ReadMapping(j).Some?
    ensures lists.Some? ==>
      var (maps, splits) := lists.value;
      fresh(maps) && fresh(splits) && maps != splits && maps.Valid() && splits.Valid() &&
      Mapping(maps.items, splits.items) == ReadMapping(j).value
  {
    var useAlternate := false;
    var mappings := Find(j, MAPPINGS_PATH);
    var splitsNode := Find(j, SPLITS_PATH);
    if mappings.None? {
      mappings := Find(j, LEGACY_PATH);
      if mappings.Some? && mappings.value.JArray? {
        useAlternate := true;
      } else if splitsNode.None? {
        return None;
      }
    }
    var maps: ZList<Elem>, splits: ZList<Elem>;
    if mappings.Some? {
      maps := ParseElements(SeenItems(mappings.value).value, if useAlternate then LEGACY else CURRENT);
    } else {
      maps := new ZList();
    }
    if splitsNode.Some? {
      splits := ParseElements(SeenItems(splitsNode.value).value, CURRENT);
    } else {
      splits := new ZList();
    }
    return Some((maps, splits));
  }

  /** parser_load_mapping: only a text whose root is a map is looked at. */
  method LoadMapping(t: Text) returns (lists: Option<(ZList<Elem>, ZList<Elem>)>)
    requires ReadableText(t)
    ensures lists.Some? <==> Load(t).Some?
    ensures lists.Some? ==>
      var (maps, splits) := lists.value;
      fresh(maps) && fresh(splits) && maps != splits && maps.Valid() && splits.Valid() &&
      Mapping(maps.items, splits.items) == Load(t).value
  {
    var j := Parse(t);
    if j.None? || !j.value.JMap? {
      return None;
    }
    lists := ParseMapping(j.value);
  }

  // ------------------------------------------------------------ what reading and printing promise

  lemma ReadElemOk(item: Json, k: Names)
    requires ReadElem(item, k).Some?
    ensures ElemOk(ReadElem(item, k).value)
  {
    CleanNameOk(FindString(item, k.input).value);
    CleanNameOk(FindString(item, k.agent).value);
    CleanNameOk(FindString(item, k.output).value);
  }

  lemma AddElemOk(es: seq<Elem>, e: Elem)
    requires ListOk(es) && ElemOk(e)
    ensures ListOk(AddElem(es, e))
  {
  }

  /** Everything the parser builds is well formed, with ids computed as the API does. */
  lemma {:induction false} ReadElemsOk(items: seq<Json>, k: Names)
    ensures ListOk(ReadElems(items, k))
  {
    if items != [] {
      var init, last := items[..|items| - 1], items[|items| - 1];
      ReadElemsOk(init, k);
      if ReadElem(last, k).Some? {
        ReadElemOk(last, k);
        AddElemOk(ReadElems(init, k), ReadElem(last, k).value);
      }
    }
  }

  lemma ReadMappingOk(j: Json)
    requires Readable(j) && ReadMapping(j).Some?
    ensures MappingOk(ReadMapping(j).value)
  {
    ReadElemsOk([], CURRENT);
    assert ListOk(ReadSplits(j)) by {
      match Find(j, SPLITS_PATH)
      case Some(node) => ReadElemsOk(SeenItems(node).value, CURRENT);
      case None =>
    }
    match Find(j, MAPPINGS_PATH) {
      case Some(node) => ReadElemsOk(SeenItems(node).value, CURRENT);
      case None =>
        match Find(j, LEGACY_PATH)
        case Some(JArray(items)) => ReadElemsOk(items, LEGACY);
        case _ =>
    }
  }

  lemma LoadOk(t: Text)
    requires ReadableText(t) && Load(t).Some?
    ensures MappingOk(Load(t).value)
  {
    ReadMappingOk(Parse(t).value);
  }

  /** An item is read when it is a map with the three texts, in either form. */
  lemma ItemReadIff(item: Json)
    ensures ReadElem(item, CURRENT).Some? <==>
            item.JMap? && FindString(item, "fromInput").Some? && FindString(item, "toAgent").Some?
            && FindString(item, "toOutput").Some?
    ensures ReadElem(item, LEGACY).Some? <==>
            item.JMap? && FindString(item, "input_name").Some? && FindString(item, "agent_name").Some?
            && FindString(item, "output_name").Some?
  {
  }

  ghost predicate ReadsId(item: Json, k: Names, id: nat) {
    ReadElem(item, k).Some? && ReadElem(item, k).value.id == id
  }

  /** Whether some item is read as an element of the id. */
  ghost predicate SomeReadsId(items: seq<Json>, k: Names, id: nat) {
    exists i :: 0 <= i < |items| && ReadsId(items[i], k, id)
  }

  lemma SomeReadsIdLast(items: seq<Json>, last: Json, k: Names, id: nat)
    ensures SomeReadsId(items + [last], k, id) <==> SomeReadsId(items, k, id) || ReadsId(last, k, id)
  {
    assert (items + [last])[|items|] == last;
    if SomeReadsId(items, k, id) {
      var i :| 0 <= i < |items| && ReadsId(items[i], k, id);
      assert (items + [last])[i] == items[i];
    }
  }

  lemma AddElemHasId(es: seq<Elem>, e: Elem, id: nat)
    ensures HasId(AddElem(es, e), id) <==> HasId(es, id) || e.id == id
  {
    if HasId(es, id) {
      var i :| 0 <= i < |es| && es[i].id == id;
      assert (es + [e])[i].id == id;
    }
    assert (es + [e])[|es|] == e;
  }

  lemma {:induction false} IdReadIff(items: seq<Json>, k: Names, id: nat)
    ensures HasId(ReadElems(items, k), id) <==> SomeReadsId(items, k, id)
  {
    if items != [] {
      var init, last := items[..|items| - 1], items[|items| - 1];
      IdReadIff(init, k, id);
      SomeReadsIdLast(init, last, k, id);
      assert init + [last] == items;
      if ReadElem(last, k).Some? {
        AddElemHasId(ReadElems(init, k), ReadElem(last, k).value, id);
      }
    }
  }

  /** The item at i is read as e, and none before it is read with the id of e. */
  ghost predicate FirstOfItsId(items: seq<Json>, k: Names, i: nat, e: Elem) {
    i < |items| && ReadElem(items[i], k) == Some(e) && !SomeReadsId(items[..i], k, e.id)
  }

  ghost predicate IsFirstOfItsId(items: seq<Json>, k: Names, e: Elem) {
    exists i :: FirstOfItsId(items, k, i, e)
  }

  lemma FirstOfItsIdLast(items: seq<Json>, last: Json, k: Names, e: Elem)
    ensures IsFirstOfItsId(items + [last], k, e) <==>
            IsFirstOfItsId(items, k, e) || (ReadElem(last, k) == Some(e) && !SomeReadsId(items, k, e.id))
  {
    var more := items + [last];
    assert more[|items|] == last && more[..|items|] == items;
    forall i: nat | i < |items|
      ensures FirstOfItsId(more, k, i, e) <==> FirstOfItsId(items, k, i, e)
    {
      assert more[i] == items[i] && more[..i] == items[..i];
    }
    assert FirstOfItsId(more, k, |items|, e) <==> ReadElem(last, k) == Some(e) && !SomeReadsId(items, k, e.id);
    if i :| FirstOfItsId(items, k, i, e) {
      assert FirstOfItsId(more, k, i, e);
    }
  }

  lemma AddElemMembers(es: seq<Elem>, added: Elem, e: Elem)
    ensures e in AddElem(es, added) <==> e in es || (e == added && !HasId(es, added.id))
  {
  }

  lemma ReadElemsStep(init: seq<Json>, last: Json, k: Names)
    ensures ReadElems(init + [last], k) ==
            match ReadElem(last, k) { case Some(e) => AddElem(ReadElems(init, k), e) case None => ReadElems(init, k) }
  {
    assert (init + [last])[..|init|] == init;
  }

  /** The elements read are those of the items that are the first to have their id. */
  lemma {:induction false} ElementReadIff(items: seq<Json>, k: Names, e: Elem)
    ensures e in ReadElems(items, k) <==> IsFirstOfItsId(items, k, e)
  {
    if items != [] {
      var init, last := items[..|items| - 1], items[|items| - 1];
      ElementReadIff(init, k, e);
      IdReadIff(init, k, e.id);
      ReadElemsStep(init, last, k);
      FirstOfItsIdLast(init, last, k, e);
      assert init + [last] == items;
      if ReadElem(last, k).Some? {
        AddElemMembers(ReadElems(init, k), ReadElem(last, k).value, e);
      }
    }
  }

  lemma LookupStep(f: Field, rest: seq<Field>, key: string)
    ensures Lookup([f] + rest, key) == if f.key == key then Some(f.value) else Lookup(rest, key)
  {
    assert ([f] + rest)[1..] == rest;
  }

  lemma NamesDiffer(k: Names)
    requires k == CURRENT || k == LEGACY
    ensures k.input != k.agent && k.input != k.output && k.agent != k.output
  {
    assert k.input[|k.input| - 1] == 't' || k.input[0] == 'i';
    assert k.input[0] == 'f' || k.input[0] == 'i';
    assert k.agent[2] == 'A' || k.agent[0] == 'a';
    assert k.output[2] == 'O' || k.output[0] == 'o';
  }

  lemma ReadElemTree(e: Elem, k: Names)
    requires ElemOk(e) && (k == CURRENT || k == LEGACY)
    ensures ReadElem(ElemTree(e, k), k) == Some(e)
  {
    var f, g, h := Field(k.input, JString(e.input)), Field(k.agent, JString(e.agent)), Field(k.output, JString(e.output));
    assert [f, g, h] == [f] + ([g] + [h]);
    NamesDiffer(k);
    FindName([f, g, h], k.input);
    FindName([f, g, h], k.agent);
    FindName([f, g, h], k.output);
    LookupStep(f, [g] + [h], k.input);
    LookupStep(f, [g] + [h], k.agent);
    LookupStep(f, [g] + [h], k.output);
    LookupStep(g, [h], k.agent);
    LookupStep(g, [h], k.output);
    LookupOnly(h, k.output);
    CleanNameOk(e.input);
    CleanNameOk(e.agent);
    CleanNameOk(e.output);
  }

  lemma ReadElemsLast(items: seq<Json>, j: Json, e: Elem, k: Names)
    requires ReadElem(j, k) == Some(e) && !HasId(ReadElems(items, k), e.id)
    ensures ReadElems(items + [j], k) == ReadElems(items, k) + [e]
  {
    assert (items + [j])[..|items|] == items;
  }

  lemma ListOkLast(es: seq<Elem>)
    requires ListOk(es) && es != []
    ensures var init, e := es[..|es| - 1], es[|es| - 1]; ListOk(init) && ElemOk(e) && !HasId(init, e.id)
  {
  }

  lemma {:induction false} ReadElemTrees(es: seq<Elem>, k: Names)
    requires ListOk(es) && (k == CURRENT || k == LEGACY)
    ensures ReadElems(ElemTrees(es, k), k) == es
  {
    if es != [] {
      var init, e := es[..|es| - 1], es[|es| - 1];
      ListOkLast(es);
      ReadElemTrees(init, k);
      ReadElemTree(e, k);
      ReadElemsLast(ElemTrees(init, k), ElemTree(e, k), e, k);
      assert init + [e] == es;
    }
  }

  lemma MappingTreeReadable(m: Mapping)
    ensures Readable(MappingTree(m))
    ensures Find(MappingTree(m), MAPPINGS_PATH) == Some(JArray(ElemTrees(m.maps, CURRENT)))
    ensures Find(MappingTree(m), SPLITS_PATH) == Some(JArray(ElemTrees(m.splits, CURRENT)))
  {
    assert "mappings"[0] != "splits"[0];
    var g := Field("splits", JArray(ElemTrees(m.splits, CURRENT)));
    assert MappingTree(m).fields == [MappingTree(m).fields[0]] + [g];
    LookupStep(MappingTree(m).fields[0], [g], "splits");
  }

  lemma TwoArraysRead(j: Json, maps: seq<Json>, splits: seq<Json>)
    requires Find(j, MAPPINGS_PATH) == Some(JArray(maps)) && Find(j, SPLITS_PATH) == Some(JArray(splits))
    ensures Readable(j) && ReadMapping(j) == Some(Mapping(ReadElems(maps, CURRENT), ReadElems(splits, CURRENT)))
  {
  }

  /** Reading the export of a well-formed mapping gives it back, elements in order. */
  lemma ExportLoad(m: Mapping)
    requires MappingOk(m)
    ensures ReadableText(Emit(MappingTree(m))) && Load(Emit(MappingTree(m))) == Some(m)
  {
    MappingTreeReadable(m);
    TwoArraysRead(MappingTree(m), ElemTrees(m.maps, CURRENT), ElemTrees(m.splits, CURRENT));
    ReadElemTrees(m.maps, CURRENT);
    ReadElemTrees(m.splits, CURRENT);
    ParseEmit(MappingTree(m));
  }

  lemma LookupOnly(f: Field, key: string)
    ensures Lookup([f], key) == if f.key == key then Some(f.value) else None
  {
    LookupLast([], f, key);
    assert [] + [f] == [f];
  }

  lemma LegacyTreeReadable(m: Mapping)
    ensures Readable(LegacyTree(m))
    ensures Find(LegacyTree(m), MAPPINGS_PATH).None? && Find(LegacyTree(m), SPLITS_PATH).None?
    ensures Find(LegacyTree(m), LEGACY_PATH) == Some(JArray(ElemTrees(m.maps, LEGACY)))
  {
    assert |"mapping"| != |"mappings"| && |"mapping"| != |"splits"|;
    var f := Field("mapping_out", JArray(ElemTrees(m.maps, LEGACY)));
    var top := Field("mapping", JMap([f]));
    LookupOnly(top, "mappings");
    LookupOnly(top, "splits");
    LookupOnly(top, "mapping");
    LookupOnly(f, "mapping_out");
    assert LEGACY_PATH[1..] == ["mapping_out"];
    assert Find(JMap([f]), ["mapping_out"]) == Some(f.value);
  }

  /** The legacy export keeps the mapping elements and loses the splits. */
  lemma LegacyExportLoad(m: Mapping)
    requires MappingOk(m)
    ensures ReadableText(Emit(LegacyTree(m))) && Load(Emit(LegacyTree(m))) == Some(m.(splits := []))
  {
    ParseEmit(LegacyTree(m));
    LegacyTreeReadable(m);
    ReadElemTrees(m.maps, LEGACY);
  }
}
