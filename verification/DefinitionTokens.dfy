/**
 * The texts of the three export forms of a definition, key by key (src/igs_parser.c).
 */
module DefinitionTokens {
  import opened Options
  import opened Json
  import opened Constraints
  import opened Definitions
  import DefinitionText
  import DefinitionRoundTrip

  /** A key and a text. */
  function Shown(key: string, text: string): Text {
    [AddString(key), AddString(text)]
  }

  /** A key and a text when there is one, and nothing otherwise. */
  function ShownIfSome(key: string, text: Option<string>): Text {
    if text.Some? then Shown(key, text.value) else []
  }

  /** A key and an array. */
  function Listed(key: string, items: Text): Text {
    [AddString(key)] + ([OpenArray] + items + [CloseArray])
  }

  lemma TypeNames()
    ensures TypeName(IntegerT) == "INTEGER" && TypeName(DoubleT) == "DOUBLE" && TypeName(StringT) == "STRING"
    ensures TypeName(BoolT) == "BOOL" && TypeName(ImpulsionT) == "IMPULSION" && TypeName(DataT) == "DATA"
    ensures TypeName(UnknownT) == "UNKNOWN"
  {
  }

  lemma ShowText(fields: seq<Field>, key: string, text: string)
    ensures EmitFields(With(fields, key, JString(text))) == EmitFields(fields) + Shown(key, text)
  {
    DefinitionText.EmitWith(fields, key, JString(text));
    assert [AddString(key)] + [AddString(text)] == Shown(key, text);
  }

  lemma ShowOption(fields: seq<Field>, key: string, text: Option<string>)
    ensures EmitFields(WithText(fields, key, text)) == EmitFields(fields) + ShownIfSome(key, text)
  {
    if text.Some? {
      ShowText(fields, key, text.value);
    }
  }

  lemma ShowName(name: string)
    ensures EmitFields(With([], "name", JString(name))) == Shown("name", name)
  {
    ShowText([], "name", name);
  }

  function ConstraintShown(io: Io): Text {
    if io.constraint.Some? && io.valueType.IntegerT?
    then [AddString("constraint"), AddString(PrintConstraint(io.constraint.value))] else []
  }

  /** An input, output or attribute; the third form prints name and type alone. */
  lemma IoTokens(io: Io, v: Version)
    ensures Emit(JMap(IoFields(io, v))) == [OpenMap] + (
              if v == V3 then Shown("name", io.name) + Shown("type", TypeName(io.valueType))
              else Shown("name", io.name) + Shown("type", TypeName(io.valueType)) + ConstraintShown(io)
                   + ShownIfSome("description", io.description) + ShownIfSome("detailed_type", io.detailedType)
                   + ShownIfSome("specification", io.specification)) + [CloseMap]
  {
    var f0 := With([], "name", JString(io.name));
    ShowName(io.name);
    ShowText(f0, "type", TypeName(io.valueType));
    if v != V3 {
      var f1 := WithText(IoBase(io), "constraint", ConstraintText(io));
      var f2 := WithText(f1, "description", io.description);
      ShowOption(IoBase(io), "constraint", ConstraintText(io));
      ShowOption(f1, "description", io.description);
      ShowOption(f2, "detailed_type", io.detailedType);
      ShowOption(WithText(f2, "detailed_type", io.detailedType), "specification", io.specification);
    }
  }

  /** An argument; only the current form prints its description. */
  lemma ArgTokens(a: Arg, v: Version)
    ensures Emit(JMap(ArgFields(a, v))) == [OpenMap] + (
              Shown("name", a.name) + (if v == Current then ShownIfSome("description", a.description) else [])
              + Shown("type", TypeName(a.valueType))) + [CloseMap]
  {
    var f0, shown := With([], "name", JString(a.name)), if v.Current? then a.description else None;
    ShowName(a.name);
    ShowOption(f0, "description", shown);
    ShowText(WithText(f0, "description", shown), "type", TypeName(a.valueType));
  }

  function ArgsShown(args: seq<Arg>, v: Version): Text {
    if args == [] then [] else Listed("arguments", EmitItems(ArgTrees(args, v)))
  }

  lemma ShowArgs(fields: seq<Field>, args: seq<Arg>, v: Version)
    ensures EmitFields(WithArgs(fields, args, v)) == EmitFields(fields) + ArgsShown(args, v)
  {
    if args != [] {
      DefinitionText.EmitWith(fields, "arguments", JArray(ArgTrees(args, v)));
    }
  }

  lemma ReplyTokens(r: Reply, v: Version)
    ensures Emit(JMap(ReplyFields(r, v))) ==
            [OpenMap] + (Shown("name", r.name) + ShownIfSome("description", r.description) + ArgsShown(r.args, v))
            + [CloseMap]
  {
    var f0 := With([], "name", JString(r.name));
    ShowName(r.name);
    ShowOption(f0, "description", r.description);
    ShowArgs(WithText(f0, "description", r.description), r.args, v);
  }

  lemma ServiceTokens(s: Service, v: Version)
    requires Printable(s.replies)
    ensures Emit(JMap(ServiceFields(s, v))) ==
            [OpenMap] + (Shown("name", s.name) + ShownIfSome("description", s.description) + ArgsShown(s.args, v)
            + Listed("replies", EmitItems(ReplyTrees(s.replies.names, s.replies.entries, v)))) + [CloseMap]
  {
    var f0 := With([], "name", JString(s.name));
    var f1 := WithText(f0, "description", s.description);
    ShowName(s.name);
    ShowOption(f0, "description", s.description);
    ShowArgs(f1, s.args, v);
    DefinitionText.EmitWith(WithArgs(f1, s.args, v), "replies",
                            JArray(ReplyTrees(s.replies.names, s.replies.entries, v)));
  }

  /** What the current form prints of the definition itself. */
  function HeaderShown(d: Definition): Text {
    Shown("name", d.name) + ShownIfSome("class", d.cls) + ShownIfSome("package", d.package)
    + ShownIfSome("family", d.family) + ShownIfSome("description", d.description) + ShownIfSome("version", d.version)
  }

  /** The third form has no class and no package. */
  function ShortHeaderShown(d: Definition): Text {
    Shown("name", d.name)
    + ShownIfSome("family", d.family) + ShownIfSome("description", d.description) + ShownIfSome("version", d.version)
  }

  lemma HeaderTokens(d: Definition, v: Version)
    ensures EmitFields(HeaderFields(d, v)) == if v == V3 then ShortHeaderShown(d) else HeaderShown(d)
  {
    var cls, package := if v.V3? then None else d.cls, if v.V3? then None else d.package;
    var f0 := With([], "name", JString(d.name));
    var f1 := WithText(f0, "class", cls);
    var f2 := WithText(f1, "package", package);
    var f3 := WithText(f2, "family", d.family);
    ShowName(d.name);
    ShowOption(f0, "class", cls);
    ShowOption(f1, "package", package);
    ShowOption(f2, "family", d.family);
    ShowOption(f3, "description", d.description);
    ShowOption(WithText(f3, "description", d.description), "version", d.version);
  }

  function IosShown(key: string, t: Table<Io>, v: Version): Text
    requires Printable(t)
  {
    Listed(key, EmitItems(IoTrees(t.names, t.entries, v)))
  }

  function ServicesShown(key: string, t: Table<Service>, v: Version): Text
    requires forall n :: n in t.names ==> n in t.entries && Printable(t.entries[n].replies)
  {
    Listed(key, EmitItems(ServiceTrees(t.names, t.entries, v)))
  }

  /** The keys of the three forms and what stands under them. */
  lemma DefinitionKeys(d: Definition, v: Version)
    requires Exportable(d)
    ensures EmitFields(DefinitionFields(d, v)) ==
            match v
            case Current =>
              HeaderShown(d) + IosShown("inputs", d.inputs, v) + IosShown("outputs", d.outputs, v)
              + IosShown("attributes", d.attributes, v) + ServicesShown("services", d.services, v)
            case V4 =>
              HeaderShown(d) + IosShown("inputs", d.inputs, v) + IosShown("outputs", d.outputs, v)
              + IosShown("parameters", d.attributes, v) + ServicesShown("services", d.services, v)
            case V3 =>
              ShortHeaderShown(d) + IosShown("inputs", d.inputs, v) + IosShown("outputs", d.outputs, v)
              + IosShown("parameters", d.attributes, v) + ServicesShown("calls", d.services, v)
  {
    var f0 := HeaderFields(d, v);
    var inputs := JArray(IoTrees(d.inputs.names, d.inputs.entries, v));
    var outputs := JArray(IoTrees(d.outputs.names, d.outputs.entries, v));
    var attributes := JArray(IoTrees(d.attributes.names, d.attributes.entries, v));
    var f1 := With(f0, "inputs", inputs);
    var f2 := With(f1, "outputs", outputs);
    HeaderTokens(d, v);
    DefinitionText.EmitWith(f0, "inputs", inputs);
    DefinitionText.EmitWith(f1, "outputs", outputs);
    DefinitionText.EmitWith(f2, AttributesKey(v), attributes);
    DefinitionText.EmitWith(With(f2, AttributesKey(v), attributes), ServicesKey(v),
                            JArray(ServiceTrees(d.services.names, d.services.entries, v)));
  }

  /** Everything stands under one key. */
  lemma DefinitionTokens(d: Definition, v: Version)
    requires Exportable(d)
    ensures Emit(DefinitionTree(d, v)) ==
            [OpenMap] + ([AddString("definition")] + ([OpenMap] + EmitFields(DefinitionFields(d, v)) + [CloseMap]))
            + [CloseMap]
  {
    var f := Field("definition", JMap(DefinitionFields(d, v)));
    assert [f][..0] == [];
    assert EmitFields([f]) == EmitField(f);
  }

  // ------------------------------------------------------------ reading

  /** The type names that are known; every other text stands for the unknown type. */
  lemma TypeReadIff(name: string)
    ensures TypeOfName(name).IntegerT? <==> name == "INTEGER"
    ensures TypeOfName(name).DoubleT? <==> name == "DOUBLE"
    ensures TypeOfName(name).StringT? <==> name == "STRING"
    ensures TypeOfName(name).BoolT? <==> name == "BOOL"
    ensures TypeOfName(name).ImpulsionT? <==> name == "IMPULSION"
    ensures TypeOfName(name).DataT? <==> name == "DATA"
  {
    TypeNames();
    DefinitionRoundTrip.TypeNameReadBack(IntegerT);
    DefinitionRoundTrip.TypeNameReadBack(DoubleT);
    DefinitionRoundTrip.TypeNameReadBack(StringT);
    DefinitionRoundTrip.TypeNameReadBack(BoolT);
    DefinitionRoundTrip.TypeNameReadBack(ImpulsionT);
    DefinitionRoundTrip.TypeNameReadBack(DataT);
  }

  /** What has a name is read; an argument must be a map besides. */
  lemma ItemReadIff(item: Json)
    ensures ReadIo(item).Some? <==> FindString(item, "name").Some?
    ensures ReadReply(item).Some? <==> FindString(item, "name").Some?
    ensures ReadService(item).Some? <==> FindString(item, "name").Some?
    ensures ReadArg(item).Some? <==> item.JMap? && FindString(item, "name").Some?
    ensures ReadIo(item).Some? ==>
              ReadIo(item).value.valueType ==
              match FindString(item, "type") { case Some(name) => TypeOfName(name) case None => UnknownT }
    ensures ReadArg(item).Some? ==>
              ReadArg(item).value.valueType ==
              match FindString(item, "type") { case Some(name) => TypeOfName(name) case None => UnknownT }
  {
  }

  ghost predicate ReadsIo(item: Json, name: string) {
    ReadIo(item).Some? && ReadIo(item).value.name == name
  }

  lemma NoIoOfName(items: seq<Json>, name: string)
    requires forall i :: 0 <= i < |items| ==> !ReadsIo(items[i], name)
    ensures name !in ReadIos(items).entries
  {
    if items != [] {
      NoIoOfName(items[..|items| - 1], name);
    }
  }

  lemma ReadIosStep(init: seq<Json>, last: Json)
    ensures ReadIos(init + [last]) ==
            match ReadIo(last) { case Some(io) => PutNew(ReadIos(init), io.name, io) case None => ReadIos(init) }
  {
    assert (init + [last])[..|init|] == init;
  }

  lemma IoKept(init: seq<Json>, last: Json, name: string)
    ensures name in ReadIos(init).entries ==>
              name in ReadIos(init + [last]).entries && ReadIos(init + [last]).entries[name] == ReadIos(init).entries[name]
    ensures name !in ReadIos(init).entries && ReadsIo(last, name) ==>
              name in ReadIos(init + [last]).entries && ReadIos(init + [last]).entries[name] == ReadIo(last).value
  {
    ReadIosStep(init, last);
  }

  /** Of several items with one name the first is read, and the others are ignored. */
  lemma {:induction false} FirstIoIsRead(items: seq<Json>, at: nat, name: string)
    requires at < |items| && ReadsIo(items[at], name) && forall i :: 0 <= i < at ==> !ReadsIo(items[i], name)
    ensures name in ReadIos(items).entries && ReadIos(items).entries[name] == ReadIo(items[at]).value
  {
    var init, last := items[..|items| - 1], items[|items| - 1];
    IoKept(init, last, name);
    assert init + [last] == items;
    if at < |init| {
      FirstIoIsRead(init, at, name);
    } else {
      NoIoOfName(init, name);
    }
  }

  ghost predicate ReadsService(item: Json, name: string) {
    ReadService(item).Some? && ReadService(item).value.name == name
  }

  lemma NoServiceOfName(items: seq<Json>, name: string)
    requires forall i :: 0 <= i < |items| ==> !ReadsService(items[i], name)
    ensures name !in ReadServices(items).entries
  {
    if items != [] {
      NoServiceOfName(items[..|items| - 1], name);
    }
  }

  lemma ReadServicesStep(init: seq<Json>, last: Json)
    ensures ReadServices(init + [last]) ==
            match ReadService(last) { case Some(s) => PutNew(ReadServices(init), s.name, s) case None => ReadServices(init) }
  {
    assert (init + [last])[..|init|] == init;
  }

  lemma {:induction false} FirstServiceIsRead(items: seq<Json>, at: nat, name: string)
    requires at < |items| && ReadsService(items[at], name) && forall i :: 0 <= i < at ==> !ReadsService(items[i], name)
    ensures name in ReadServices(items).entries && ReadServices(items).entries[name] == ReadService(items[at]).value
  {
    var init, last := items[..|items| - 1], items[|items| - 1];
    ReadServicesStep(init, last);
    assert init + [last] == items;
    if at < |init| {
      FirstServiceIsRead(init, at, name);
    } else {
      NoServiceOfName(init, name);
    }
  }

  /** The deprecated keys count only when the current ones are absent. */
  lemma CurrentKeysFirst(j: Json, d: Definition)
    requires ReadDefinition(j) == Some(d)
    ensures Part(j, "attributes").Some? ==> d.attributes == IoPart(Part(j, "attributes"))
    ensures Part(j, "attributes").None? ==> d.attributes == IoPart(Part(j, "parameters"))
    ensures Part(j, "services").Some? ==> d.services == ServicePart(Part(j, "services"))
    ensures Part(j, "services").None? ==> d.services == ServicePart(Part(j, "calls"))
  {
  }
}
