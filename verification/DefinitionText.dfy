/**
 * The loops of src/igs_parser.c that print and read definitions.
 */
module DefinitionText {
  import opened Options
  import opened CStrings
  import opened Json
  import opened Definitions
  import opened DefinitionRoundTrip

  // ------------------------------------------------------------ printing

  lemma EmitWith(fields: seq<Field>, key: string, value: Json)
    ensures EmitFields(With(fields, key, value)) == EmitFields(fields) + ([AddString(key)] + Emit(value))
  {
    assert With(fields, key, value)[..|fields|] == fields;
  }

  function TextCalls(key: string, text: Option<string>): Text {
    if text.Some? then [AddString(key)] + [AddString(text.value)] else []
  }

  lemma EmitWithText(fields: seq<Field>, key: string, text: Option<string>)
    ensures EmitFields(WithText(fields, key, text)) == EmitFields(fields) + TextCalls(key, text)
  {
    if text.Some? {
      EmitWith(fields, key, JString(text.value));
    }
  }

  lemma EmitName(name: string)
    ensures EmitFields(With([], "name", JString(name))) == [AddString("name")] + [AddString(name)]
  {
    EmitWith([], "name", JString(name));
  }

  /** One optional key and text. */
  method AddText(calls: Text, key: string, text: Option<string>, ghost fields: seq<Field>) returns (more: Text)
    requires calls == EmitFields(fields)
    ensures more == EmitFields(WithText(fields, key, text))
  {
    EmitWithText(fields, key, text);
    more := calls;
    if text.Some? {
      more := calls + ([AddString(key)] + [AddString(text.value)]);
    }
  }

  method AddName(name: string) returns (calls: Text)
    ensures calls == EmitFields(With([], "name", JString(name)))
  {
    EmitName(name);
    calls := [AddString("name")] + [AddString(name)];
  }

  method AddType(calls: Text, t: ValueType, ghost fields: seq<Field>) returns (more: Text)
    requires calls == EmitFields(fields)
    ensures more == EmitFields(With(fields, "type", JString(TypeName(t))))
  {
    EmitWith(fields, "type", JString(TypeName(t)));
    more := calls + ([AddString("type")] + [AddString(TypeName(t))]);
  }

  method ExportIo(io: Io, v: Version) returns (text: Text)
    ensures text == Emit(JMap(IoFields(io, v)))
  {
    var calls := AddName(io.name);
    calls := AddType(calls, io.valueType, With([], "name", JString(io.name)));
    if !v.V3? {
      var f0 := IoBase(io);
      calls := AddText(calls, "constraint", ConstraintText(io), f0);
      var f1 := WithText(f0, "constraint", ConstraintText(io));
      calls := AddText(calls, "description", io.description, f1);
      var f2 := WithText(f1, "description", io.description);
      calls := AddText(calls, "detailed_type", io.detailedType, f2);
      calls := AddText(calls, "specification", io.specification, WithText(f2, "detailed_type", io.detailedType));
    }
    text := [OpenMap] + calls + [CloseMap];
  }

  lemma EmitItemsLast(items: seq<Json>, j: Json)
    ensures EmitItems(items + [j]) == EmitItems(items) + Emit(j)
  {
    assert (items + [j])[..|items|] == items;
  }

  lemma IoTreesStep(names: seq<string>, i: nat, entries: map<string, Io>, v: Version)
    requires i < |names| && forall n :: n in names ==> n in entries
    ensures EmitItems(IoTrees(names[..i + 1], entries, v)) ==
            EmitItems(IoTrees(names[..i], entries, v)) + Emit(JMap(IoFields(entries[names[i]], v)))
  {
    assert names[..i + 1][..i] == names[..i];
    EmitItemsLast(IoTrees(names[..i], entries, v), JMap(IoFields(entries[names[i]], v)));
  }

  /** The loop over an ordered name list; the table is asked for every name. */
  method ExportIos(t: Table<Io>, v: Version) returns (text: Text)
    requires Printable(t)
    ensures text == EmitItems(IoTrees(t.names, t.entries, v))
  {
    text := [];
    for i := 0 to |t.names|
      invariant text == EmitItems(IoTrees(t.names[..i], t.entries, v))
    {
      var one := ExportIo(t.entries[t.names[i]], v);
      IoTreesStep(t.names, i, t.entries, v);
      text := text + one;
    }
    assert t.names[..|t.names|] == t.names;
  }

  method ExportArg(a: Arg, v: Version) returns (text: Text)
    ensures text == Emit(JMap(ArgFields(a, v)))
  {
    var f0 := With([], "name", JString(a.name));
    var shown := if v.Current? then a.description else None;
    var calls := AddName(a.name);
    calls := AddText(calls, "description", shown, f0);
    calls := AddType(calls, a.valueType, WithText(f0, "description", shown));
    text := [OpenMap] + calls + [CloseMap];
  }

  method ExportArgs(args: seq<Arg>, v: Version) returns (text: Text)
    ensures text == EmitItems(ArgTrees(args, v))
  {
    text := [];
    for i := 0 to |args|
      invariant text == EmitItems(ArgTrees(args[..i], v))
    {
      assert args[..i + 1][..i] == args[..i];
      var one := ExportArg(args[i], v);
      EmitItemsLast(ArgTrees(args[..i], v), JMap(ArgFields(args[i], v)));
      text := text + one;
    }
    assert args[..|args|] == args;
  }

  /** The argument array is printed only when there are arguments. */
  method AddArgs(calls: Text, args: seq<Arg>, v: Version, ghost fields: seq<Field>) returns (more: Text)
    requires calls == EmitFields(fields)
    ensures more == EmitFields(WithArgs(fields, args, v))
  {
    more := calls;
    if args != [] {
      var list := ExportArgs(args, v);
      EmitWith(fields, "arguments", JArray(ArgTrees(args, v)));
      more := calls + ([AddString("arguments")] + ([OpenArray] + list + [CloseArray]));
    }
  }

  method ExportReply(r: Reply, v: Version) returns (text: Text)
    ensures text == Emit(JMap(ReplyFields(r, v)))
  {
    var f0 := With([], "name", JString(r.name));
    var calls := AddName(r.name);
    calls := AddText(calls, "description", r.description, f0);
    calls := AddArgs(calls, r.args, v, WithText(f0, "description", r.description));
    text := [OpenMap] + calls + [CloseMap];
  }

  lemma ReplyTreesStep(names: seq<string>, i: nat, entries: map<string, Reply>, v: Version)
    requires i < |names| && forall n :: n in names ==> n in entries
    ensures EmitItems(ReplyTrees(names[..i + 1], entries, v)) ==
            EmitItems(ReplyTrees(names[..i], entries, v)) + Emit(JMap(ReplyFields(entries[names[i]], v)))
  {
    assert names[..i + 1][..i] == names[..i];
    EmitItemsLast(ReplyTrees(names[..i], entries, v), JMap(ReplyFields(entries[names[i]], v)));
  }

  method ExportReplies(t: Table<Reply>, v: Version) returns (text: Text)
    requires Printable(t)
    ensures text == EmitItems(ReplyTrees(t.names, t.entries, v))
  {
    text := [];
    for i := 0 to |t.names|
      invariant text == EmitItems(ReplyTrees(t.names[..i], t.entries, v))
    {
      var one := ExportReply(t.entries[t.names[i]], v);
      ReplyTreesStep(t.names, i, t.entries, v);
      text := text + one;
    }
    assert t.names[..|t.names|] == t.names;
  }

  method ExportService(s: Service, v: Version) returns (text: Text)
    requires Printable(s.replies)
    ensures text == Emit(JMap(ServiceFields(s, v)))
  {
    var f0 := With([], "name", JString(s.name));
    var f1 := WithText(f0, "description", s.description);
    var calls := AddName(s.name);
    calls := AddText(calls, "description", s.description, f0);
    calls := AddArgs(calls, s.args, v, f1);
    var list := ExportReplies(s.replies, v);
    var replies := JArray(ReplyTrees(s.replies.names, s.replies.entries, v));
    EmitWith(WithArgs(f1, s.args, v), "replies", replies);
    calls := calls + ([AddString("replies")] + ([OpenArray] + list + [CloseArray]));
    text := [OpenMap] + calls + [CloseMap];
  }

  lemma ServiceTreesStep(names: seq<string>, i: nat, entries: map<string, Service>, v: Version)
    requires i < |names| && forall n :: n in names ==> n in entries && Printable(entries[n].replies)
    ensures EmitItems(ServiceTrees(names[..i + 1], entries, v)) ==
            EmitItems(ServiceTrees(names[..i], entries, v)) + Emit(JMap(ServiceFields(entries[names[i]], v)))
  {
    assert names[..i + 1][..i] == names[..i];
    EmitItemsLast(ServiceTrees(names[..i], entries, v), JMap(ServiceFields(entries[names[i]], v)));
  }

  method ExportServices(t: Table<Service>, v: Version) returns (text: Text)
    requires Printable(t) && forall n :: n in t.names ==> Printable(t.entries[n].replies)
    ensures text == EmitItems(ServiceTrees(t.names, t.entries, v))
  {
    text := [];
    for i := 0 to |t.names|
      invariant text == EmitItems(ServiceTrees(t.names[..i], t.entries, v))
    {
      var one := ExportService(t.entries[t.names[i]], v);
      ServiceTreesStep(t.names, i, t.entries, v);
      text := text + one;
    }
    assert t.names[..|t.names|] == t.names;
  }

  method ExportHeader(d: Definition, v: Version) returns (calls: Text)
    ensures calls == EmitFields(HeaderFields(d, v))
  {
    var cls := if v.V3? then None else d.cls;
    var package := if v.V3? then None else d.package;
    var f0 := With([], "name", JString(d.name));
    var f1 := WithText(f0, "class", cls);
    var f2 := WithText(f1, "package", package);
    var f3 := WithText(f2, "family", d.family);
    calls := AddName(d.name);
    calls := AddText(calls, "class", cls, f0);
    calls := AddText(calls, "package", package, f1);
    calls := AddText(calls, "family", d.family, f2);
    calls := AddText(calls, "description", d.description, f3);
    calls := AddText(calls, "version", d.version, WithText(f3, "description", d.description));
  }

  /** One section: a key and the array printed under it. */
  method AddSection(calls: Text, key: string, list: Text, ghost items: seq<Json>, ghost fields: seq<Field>)
    returns (more: Text)
    requires calls == EmitFields(fields) && list == EmitItems(items)
    ensures more == EmitFields(With(fields, key, JArray(items)))
  {
    EmitWith(fields, key, JArray(items));
    more := calls + ([AddString(key)] + ([OpenArray] + list + [CloseArray]));
  }

  /** parser_export_definition and its two legacy forms. */
  method ExportDefinition(d: Definition, v: Version) returns (text: Text)
    requires Exportable(d)
    ensures text == Emit(DefinitionTree(d, v))
  {
    var calls := ExportHeader(d, v);
    ghost var f0 := HeaderFields(d, v);
    var list := ExportIos(d.inputs, v);
    ghost var inputs := IoTrees(d.inputs.names, d.inputs.entries, v);
    calls := AddSection(calls, "inputs", list, inputs, f0);
    ghost var f1 := With(f0, "inputs", JArray(inputs));
    list := ExportIos(d.outputs, v);
    ghost var outputs := IoTrees(d.outputs.names, d.outputs.entries, v);
    calls := AddSection(calls, "outputs", list, outputs, f1);
    ghost var f2 := With(f1, "outputs", JArray(outputs));
    list := ExportIos(d.attributes, v);
    ghost var attributes := IoTrees(d.attributes.names, d.attributes.entries, v);
    calls := AddSection(calls, AttributesKey(v), list, attributes, f2);
    ghost var f3 := With(f2, AttributesKey(v), JArray(attributes));
    list := ExportServices(d.services, v);
    calls := AddSection(calls, ServicesKey(v), list, ServiceTrees(d.services.names, d.services.entries, v), f3);
    text := WrapDefinition(calls, DefinitionFields(d, v));
  }

  method WrapDefinition(calls: Text, ghost fields: seq<Field>) returns (text: Text)
    requires calls == EmitFields(fields)
    ensures text == Emit(JMap([Field("definition", JMap(fields))]))
  {
    EmitWith([], "definition", JMap(fields));
    assert With([], "definition", JMap(fields)) == [Field("definition", JMap(fields))];
    text := [OpenMap] + ([AddString("definition")] + ([OpenMap] + calls + [CloseMap])) + [CloseMap];
  }

  // ------------------------------------------------------------ reading

  /** The loop over one array of inputs, outputs or attributes; anything but an array is ignored. */
  method ParseIos(part: Option<Json>) returns (t: Table<Io>)
    ensures t == IoPart(part)
  {
    var names: seq<string>, entries: map<string, Io> := [], map[];
    if part.Some? && part.value.JArray? {
      var items := part.value.items;
      for i := 0 to |items|
        invariant Table(names, entries) == ReadIos(items[..i])
      {
        assert items[..i + 1][..i] == items[..i];
        var io := ReadIo(items[i]);
        if io.Some? && io.value.name !in entries {
          names := names + [io.value.name];
          entries := entries[io.value.name := io.value];
        }
      }
      assert items[..|items|] == items;
    }
    t := Table(names, entries);
  }

  /** The loop that appends to the chain of arguments. */
  method ParseArgs(j: Json) returns (args: seq<Arg>)
    ensures args == ReadArgs(j)
  {
    args := [];
    var part := Find(j, ["arguments"]);
    if part.Some? && part.value.JArray? {
      var items := part.value.items;
      for i := 0 to |items|
        invariant args == ReadArgItems(items[..i])
      {
        assert items[..i + 1][..i] == items[..i];
        var a := ReadArg(items[i]);
        if a.Some? {
          args := args + [a.value];
        }
      }
      assert items[..|items|] == items;
    }
  }

  method ParseReplies(j: Json) returns (t: Table<Reply>)
    ensures t == ReadReplies(j)
  {
    var names: seq<string>, entries: map<string, Reply> := [], map[];
    var part := Find(j, ["replies"]);
    if part.Some? && part.value.JArray? {
      var items := part.value.items;
      for i := 0 to |items|
        invariant Table(names, entries) == ReadReplyItems(items[..i])
      {
        assert items[..i + 1][..i] == items[..i];
        var name := FindString(items[i], "name");
        if name.Some? {
          var args := ParseArgs(items[i]);
          var r := Reply(CleanText(name.value, MAX_NAME), LongOption(FindString(items[i], "description")), args);
          names := names + [r.name];
          if r.name !in entries {
            entries := entries[r.name := r];
          }
        }
      }
      assert items[..|items|] == items;
    }
    t := Table(names, entries);
  }

  method ParseService(j: Json, name: string) returns (s: Service)
    requires FindString(j, "name") == Some(name)
    ensures ReadService(j) == Some(s)
  {
    var args := ParseArgs(j);
    var replies := ParseReplies(j);
    s := Service(CleanText(name, MAX_NAME), LongOption(FindString(j, "description")), args, replies);
  }

  lemma ServicesStep(items: seq<Json>, i: nat)
    requires i < |items|
    ensures ReadServices(items[..i + 1]) ==
            match ReadService(items[i])
            case Some(s) => PutNew(ReadServices(items[..i]), s.name, s)
            case None => ReadServices(items[..i])
  {
    assert items[..i + 1][..i] == items[..i];
  }

  lemma ServiceName(j: Json)
    ensures ReadService(j).Some? <==> FindString(j, "name").Some?
    ensures ReadService(j).Some? ==> ReadService(j).value.name == CleanText(FindString(j, "name").value, MAX_NAME)
  {
  }

  method ParseServices(part: Option<Json>) returns (t: Table<Service>)
    ensures t == ServicePart(part)
  {
    var names: seq<string>, entries: map<string, Service> := [], map[];
    if part.Some? && part.value.JArray? {
      var items := part.value.items;
      for i := 0 to |items|
        invariant Table(names, entries) == ReadServices(items[..i])
      {
        ServicesStep(items, i);
        ServiceName(items[i]);
        var name := FindString(items[i], "name");
        if name.Some? && CleanText(name.value, MAX_NAME) !in entries {
          var s := ParseService(items[i], name.value);
          names := names + [s.name];
          entries := entries[s.name := s];
        }
      }
      assert items[..|items|] == items;
    }
    t := Table(names, entries);
  }

  function OptionCleaned(o: Option<string>, max: nat): Option<string> {
    if o.Some? then Some(Cleaned(o.value, max)) else None
  }

  /** parser_parse_definition_from_node */
  method ParseDefinition(j: Json) returns (d: Option<Definition>)
    ensures d == ReadDefinition(j)
  {
    var name := TextPart(j, "name");
    if name.None? {
      return None;
    }
    var inputs := ParseIos(Part(j, "inputs"));
    var outputs := ParseIos(Part(j, "outputs"));
    var attributesNode := Part(j, "attributes");
    if attributesNode.None? {
      attributesNode := Part(j, "parameters");
    }
    var attributes := ParseIos(attributesNode);
    var servicesNode := Part(j, "services");
    if servicesNode.None? {
      servicesNode := Part(j, "calls");
    }
    var services := ParseServices(servicesNode);
    return Some(Definition(
      CleanText(name.value, MAX_NAME),
      OptionCleaned(TextPart(j, "class"), MAX_NAME),
      OptionCleaned(TextPart(j, "package"), MAX_PACKAGE),
      CleanOption(TextPart(j, "family"), MAX_SHORT),
      LongOption(TextPart(j, "description")),
      CleanOption(TextPart(j, "version"), MAX_SHORT),
      inputs, outputs, attributes, services));
  }

  /** parser_load_definition: the root must be a map. */
  function LoadedDefinition(t: Text): Option<Definition> {
    match Parse(t)
    case Some(JMap(fields)) => ReadDefinition(JMap(fields))
    case _ => None
  }

  method LoadDefinition(t: Text) returns (d: Option<Definition>)
    ensures d == LoadedDefinition(t)
  {
    var j := Parse(t);
    if j.None? || !j.value.JMap? {
      return None;
    }
    d := ParseDefinition(j.value);
  }

  /** From text to text: whatever form a well-formed definition is printed in, loading keeps what the form keeps. */
  lemma LoadExported(d: Definition, v: Version)
    requires DefinitionOk(d)
    ensures Exportable(d) && LoadedDefinition(Emit(DefinitionTree(d, v))) == Some(Keep(d, v))
  {
    ReadExported(d, v);
    ParseEmit(DefinitionTree(d, v));
  }
}
