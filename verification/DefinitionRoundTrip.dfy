/**
 * Reading what the three export forms print.
 */
module DefinitionRoundTrip {
  import opened Options
  import opened CStrings
  import opened Json
  import opened Constraints
  import opened Definitions

  /** Tells the keys of the forms apart by length and first two characters. */
  function Code(s: string): int {
    if |s| < 2 then 0 else |s| * 0x100_0000 + s[0] as int * 0x1000 + s[1] as int
  }

  lemma IoCodes()
    ensures Code("name") == 0x400_0000 + 0x6e000 + 0x61
    ensures Code("type") == 0x400_0000 + 0x74000 + 0x79
    ensures Code("constraint") == 0xa00_0000 + 0x63000 + 0x6f
    ensures Code("description") == 0xb00_0000 + 0x64000 + 0x65
    ensures Code("detailed_type") == 0xd00_0000 + 0x64000 + 0x65
    ensures Code("specification") == 0xd00_0000 + 0x73000 + 0x70
  {
  }

  lemma ServiceCodes()
    ensures Code("arguments") == 0x900_0000 + 0x61000 + 0x72
    ensures Code("replies") == 0x700_0000 + 0x72000 + 0x65
  {
  }

  lemma DefinitionCodes()
    ensures Code("class") == 0x500_0000 + 0x63000 + 0x6c
    ensures Code("package") == 0x700_0000 + 0x70000 + 0x61
    ensures Code("family") == 0x600_0000 + 0x66000 + 0x61
    ensures Code("version") == 0x700_0000 + 0x76000 + 0x65
    ensures Code("inputs") == 0x600_0000 + 0x69000 + 0x6e
    ensures Code("outputs") == 0x700_0000 + 0x6f000 + 0x75
    ensures Code("attributes") == 0xa00_0000 + 0x61000 + 0x74
    ensures Code("parameters") == 0xa00_0000 + 0x70000 + 0x61
    ensures Code("services") == 0x800_0000 + 0x73000 + 0x65
    ensures Code("calls") == 0x500_0000 + 0x63000 + 0x61
  {
  }

  lemma TypeNameReadBack(t: ValueType)
    ensures TypeOfName(TypeName(t)) == t
  {
    assert Code("INTEGER") == 0x700_0000 + 0x49000 + 0x4e;
    assert Code("DOUBLE") == 0x600_0000 + 0x44000 + 0x4f;
    assert Code("STRING") == 0x600_0000 + 0x53000 + 0x54;
    assert Code("BOOL") == 0x400_0000 + 0x42000 + 0x4f;
    assert Code("IMPULSION") == 0x900_0000 + 0x49000 + 0x4d;
    assert Code("DATA") == 0x400_0000 + 0x44000 + 0x41;
    assert Code("UNKNOWN") == 0x700_0000 + 0x55000 + 0x4e;
  }

  function OrElse(first: Option<Json>, second: Option<Json>): Option<Json> {
    if first.Some? then first else second
  }

  /** What a field says when it is asked for under a key. */
  function Answer(asked: string, key: string, value: Json): Option<Json> {
    if asked == key then Some(value) else None
  }

  function TextAnswer(asked: string, key: string, text: Option<string>): Option<Json> {
    if text.Some? then Answer(asked, key, JString(text.value)) else None
  }

  lemma LookupWith(fields: seq<Field>, key: string, value: Json, asked: string)
    ensures Lookup(With(fields, key, value), asked) == OrElse(Lookup(fields, asked), Answer(asked, key, value))
  {
    LookupLast(fields, Field(key, value), asked);
  }

  lemma LookupWithText(fields: seq<Field>, key: string, text: Option<string>, asked: string)
    ensures Lookup(WithText(fields, key, text), asked) == OrElse(Lookup(fields, asked), TextAnswer(asked, key, text))
  {
    if text.Some? {
      LookupWith(fields, key, JString(text.value), asked);
    }
  }

  lemma CleanTextFixed(s: string, max: nat)
    requires max > 0 && Acceptable(s, max)
    ensures CleanText(s, max) == s && Cleaned(s, max) == s
  {
    CleanedIsAcceptable(s, max);
  }

  // ------------------------------------------------------------ inputs, outputs, attributes

  lemma LookupBase(io: Io, asked: string)
    ensures Lookup(IoBase(io), asked) ==
            OrElse(Answer(asked, "name", JString(io.name)), Answer(asked, "type", JString(TypeName(io.valueType))))
  {
    var name := With([], "name", JString(io.name));
    LookupWith([], "name", JString(io.name), asked);
    LookupWith(name, "type", JString(TypeName(io.valueType)), asked);
  }

  lemma LookupDetails(io: Io, asked: string, v: Version)
    requires !v.V3?
    ensures Lookup(IoFields(io, v), asked) ==
            OrElse(OrElse(OrElse(OrElse(Lookup(IoBase(io), asked),
              TextAnswer(asked, "constraint", ConstraintText(io))),
              TextAnswer(asked, "description", io.description)),
              TextAnswer(asked, "detailed_type", io.detailedType)),
              TextAnswer(asked, "specification", io.specification))
  {
    var f0 := IoBase(io);
    var f1 := WithText(f0, "constraint", ConstraintText(io));
    var f2 := WithText(f1, "description", io.description);
    var f3 := WithText(f2, "detailed_type", io.detailedType);
    LookupWithText(f0, "constraint", ConstraintText(io), asked);
    LookupWithText(f1, "description", io.description, asked);
    LookupWithText(f2, "detailed_type", io.detailedType, asked);
    LookupWithText(f3, "specification", io.specification, asked);
  }

  function TextOf(j: Option<Json>): Option<string> {
    match j
    case Some(JString(s)) => Some(s)
    case _ => None
  }

  lemma FindText(fields: seq<Field>, key: string)
    ensures FindString(JMap(fields), key) == TextOf(Lookup(fields, key))
  {
    FindName(fields, key);
  }

  /** The six texts of a printed input, output or attribute. */
  lemma IoTexts(io: Io, v: Version)
    ensures
      var j := JMap(IoFields(io, v));
      && FindString(j, "name") == Some(io.name)
      && FindString(j, "type") == Some(TypeName(io.valueType))
      && FindString(j, "constraint") == (if v.V3? then None else ConstraintText(io))
      && FindString(j, "description") == (if v.V3? then None else io.description)
      && FindString(j, "detailed_type") == (if v.V3? then None else io.detailedType)
      && FindString(j, "specification") == (if v.V3? then None else io.specification)
  {
    IoText(io, v, "name");
    IoText(io, v, "type");
    IoText(io, v, "constraint");
    IoText(io, v, "description");
    IoText(io, v, "detailed_type");
    IoText(io, v, "specification");
    IoCodes();
  }

  function ExpectedIoText(io: Io, v: Version, key: string): Option<string> {
    if key == "name" then Some(io.name)
    else if key == "type" then Some(TypeName(io.valueType))
    else if v.V3? then None
    else if key == "constraint" then ConstraintText(io)
    else if key == "description" then io.description
    else if key == "detailed_type" then io.detailedType
    else if key == "specification" then io.specification
    else None
  }

  lemma IoText(io: Io, v: Version, key: string)
    ensures FindString(JMap(IoFields(io, v)), key) == ExpectedIoText(io, v, key)
  {
    IoCodes();
    FindText(IoFields(io, v), key);
    LookupBase(io, key);
    if !v.V3? {
      LookupDetails(io, key, v);
    }
  }

  lemma ReadIoTree(io: Io, v: Version)
    requires IoOk(io, io.name)
    ensures ReadIo(JMap(IoFields(io, v))) == Some(KeepIo(io, v))
  {
    IoTexts(io, v);
    TypeNameReadBack(io.valueType);
    CleanTextFixed(io.name, MAX_NAME);
    if io.detailedType.Some? {
      CleanTextFixed(io.detailedType.value, MAX_NAME);
    }
    if io.constraint.Some? {
      ParsePrinted(io.constraint.value);
    }
  }

  /** The part of a table under some of its names, as a form keeps it. */
  function IosUnder(names: seq<string>, entries: map<string, Io>, v: Version): Table<Io>
    requires forall n :: n in names ==> n in entries
  {
    Table(names, map n | n in names :: KeepIo(entries[n], v))
  }

  lemma ReadIosLast(items: seq<Json>, j: Json)
    requires ReadIo(j).Some?
    ensures ReadIos(items + [j]) == PutNew(ReadIos(items), ReadIo(j).value.name, ReadIo(j).value)
  {
    assert (items + [j])[..|items|] == items;
  }

  lemma IosUnderLast(names: seq<string>, name: string, entries: map<string, Io>, v: Version)
    requires name !in names && forall n :: n in names + [name] ==> n in entries
    ensures IosUnder(names + [name], entries, v) == Put(IosUnder(names, entries, v), name, KeepIo(entries[name], v))
  {
    assert IosUnder(names + [name], entries, v).entries == IosUnder(names, entries, v).entries[name := KeepIo(entries[name], v)];
  }

  lemma {:induction false} ReadIoTrees(names: seq<string>, entries: map<string, Io>, v: Version)
    requires Distinct(names) && forall n :: n in names ==> n in entries && IoOk(entries[n], n)
    ensures ReadIos(IoTrees(names, entries, v)) == IosUnder(names, entries, v)
  {
    if names != [] {
      var init, last := names[..|names| - 1], names[|names| - 1];
      assert names == init + [last] && last !in init;
      ReadIoTrees(init, entries, v);
      ReadIoTree(entries[last], v);
      ReadIosLast(IoTrees(init, entries, v), JMap(IoFields(entries[last], v)));
      IosUnderLast(init, last, entries, v);
    }
  }

  lemma ReadIosOf(t: Table<Io>, v: Version)
    requires IosOk(t)
    ensures Printable(t) && ReadIos(IoTrees(t.names, t.entries, v)) == KeepIos(t, v)
  {
    assert forall n :: n in t.names <==> n in NameSet(t.names);
    ReadIoTrees(t.names, t.entries, v);
    assert IosUnder(t.names, t.entries, v).entries == KeepIos(t, v).entries;
  }

  // ------------------------------------------------------------ arguments

  lemma ReadArgTree(a: Arg, v: Version)
    requires ArgOk(a)
    ensures ReadArg(JMap(ArgFields(a, v))) == Some(KeepArg(a, v))
  {
    var shown := if v.Current? then a.description else None;
    var f1 := With([], "name", JString(a.name));
    var f2 := WithText(f1, "description", shown);
    ArgText(a, v, shown, "name");
    ArgText(a, v, shown, "type");
    ArgText(a, v, shown, "description");
    IoCodes();
    TypeNameReadBack(a.valueType);
    CleanTextFixed(a.name, MAX_NAME);
  }

  lemma ArgText(a: Arg, v: Version, shown: Option<string>, key: string)
    requires shown == if v.Current? then a.description else None
    ensures FindString(JMap(ArgFields(a, v)), key) ==
            TextOf(OrElse(OrElse(Answer(key, "name", JString(a.name)), TextAnswer(key, "description", shown)),
                          Answer(key, "type", JString(TypeName(a.valueType)))))
  {
    var f1 := With([], "name", JString(a.name));
    var f2 := WithText(f1, "description", shown);
    FindText(ArgFields(a, v), key);
    LookupWith([], "name", JString(a.name), key);
    LookupWithText(f1, "description", shown, key);
    LookupWith(f2, "type", JString(TypeName(a.valueType)), key);
  }

  lemma ReadArgItemsLast(items: seq<Json>, j: Json)
    requires ReadArg(j).Some?
    ensures ReadArgItems(items + [j]) == ReadArgItems(items) + [ReadArg(j).value]
  {
    assert (items + [j])[..|items|] == items;
  }

  lemma KeepArgsLast(args: seq<Arg>, a: Arg, v: Version)
    ensures KeepArgs(args + [a], v) == KeepArgs(args, v) + [KeepArg(a, v)]
  {
  }

  lemma {:induction false} ReadArgTrees(args: seq<Arg>, v: Version)
    requires ArgsOk(args)
    ensures ReadArgItems(ArgTrees(args, v)) == KeepArgs(args, v)
  {
    if args != [] {
      var init, last := args[..|args| - 1], args[|args| - 1];
      assert args == init + [last];
      ReadArgTrees(init, v);
      ReadArgTree(last, v);
      ReadArgItemsLast(ArgTrees(init, v), JMap(ArgFields(last, v)));
      KeepArgsLast(init, last, v);
    }
  }

  /** Name, description and arguments of a reply or service, whatever follows them. */
  function Common(name: string, description: Option<string>, args: seq<Arg>, v: Version): seq<Field> {
    WithArgs(WithText(With([], "name", JString(name)), "description", description), args, v)
  }

  function ArgsAnswer(asked: string, args: seq<Arg>, v: Version): Option<Json> {
    if args == [] then None else Answer(asked, "arguments", JArray(ArgTrees(args, v)))
  }

  lemma LookupCommon(name: string, description: Option<string>, args: seq<Arg>, v: Version, key: string)
    ensures Lookup(Common(name, description, args, v), key) ==
            OrElse(OrElse(Answer(key, "name", JString(name)), TextAnswer(key, "description", description)),
                   ArgsAnswer(key, args, v))
  {
    var f1 := With([], "name", JString(name));
    var f2 := WithText(f1, "description", description);
    LookupWith([], "name", JString(name), key);
    LookupWithText(f1, "description", description, key);
    if args != [] {
      LookupWith(f2, "arguments", JArray(ArgTrees(args, v)), key);
    }
  }

  lemma CommonParts(name: string, description: Option<string>, args: seq<Arg>, v: Version)
    ensures
      var f := Common(name, description, args, v);
      && TextOf(Lookup(f, "name")) == Some(name)
      && TextOf(Lookup(f, "description")) == description
      && Lookup(f, "arguments") == (if args == [] then None else Some(JArray(ArgTrees(args, v))))
      && Lookup(f, "replies") == None
  {
    LookupCommon(name, description, args, v, "name");
    LookupCommon(name, description, args, v, "description");
    LookupCommon(name, description, args, v, "arguments");
    LookupCommon(name, description, args, v, "replies");
    IoCodes();
    ServiceCodes();
  }

  lemma ReadArgsOf(fields: seq<Field>, args: seq<Arg>, v: Version)
    requires ArgsOk(args)
    requires Lookup(fields, "arguments") == if args == [] then None else Some(JArray(ArgTrees(args, v)))
    ensures ReadArgs(JMap(fields)) == KeepArgs(args, v)
  {
    FindName(fields, "arguments");
    ReadArgTrees(args, v);
  }

  // ------------------------------------------------------------ replies and services

  lemma ReadReplyTree(r: Reply, v: Version)
    requires ReplyOk(r, r.name)
    ensures ReadReply(JMap(ReplyFields(r, v))) == Some(KeepReply(r, v))
  {
    var fields := ReplyFields(r, v);
    CommonParts(r.name, r.description, r.args, v);
    FindText(fields, "name");
    FindText(fields, "description");
    ReadArgsOf(fields, r.args, v);
    CleanTextFixed(r.name, MAX_NAME);
  }

  function RepliesUnder(names: seq<string>, entries: map<string, Reply>, v: Version): Table<Reply>
    requires forall n :: n in names ==> n in entries
  {
    Table(names, map n | n in names :: KeepReply(entries[n], v))
  }

  lemma ReadReplyItemsLast(items: seq<Json>, j: Json)
    requires ReadReply(j).Some?
    ensures ReadReplyItems(items + [j]) == Put(ReadReplyItems(items), ReadReply(j).value.name, ReadReply(j).value)
  {
    assert (items + [j])[..|items|] == items;
  }

  lemma RepliesUnderLast(names: seq<string>, name: string, entries: map<string, Reply>, v: Version)
    requires forall n :: n in names + [name] ==> n in entries
    ensures RepliesUnder(names + [name], entries, v) == Put(RepliesUnder(names, entries, v), name, KeepReply(entries[name], v))
  {
    assert RepliesUnder(names + [name], entries, v).entries == RepliesUnder(names, entries, v).entries[name := KeepReply(entries[name], v)];
  }

  lemma {:induction false} ReadReplyTrees(names: seq<string>, entries: map<string, Reply>, v: Version)
    requires forall n :: n in names ==> n in entries && ReplyOk(entries[n], n)
    ensures ReadReplyItems(ReplyTrees(names, entries, v)) == RepliesUnder(names, entries, v)
  {
    if names != [] {
      var init, last := names[..|names| - 1], names[|names| - 1];
      assert names == init + [last];
      ReadReplyTrees(init, entries, v);
      ReadReplyTree(entries[last], v);
      ReadReplyItemsLast(ReplyTrees(init, entries, v), JMap(ReplyFields(entries[last], v)));
      RepliesUnderLast(init, last, entries, v);
    }
  }

  lemma ReadRepliesOf(s: Service, v: Version)
    requires ServiceOk(s, s.name)
    ensures Printable(s.replies)
    ensures ReadReplyItems(ReplyTrees(s.replies.names, s.replies.entries, v)) == KeepService(s, v).replies
  {
    assert forall n :: n in s.replies.names <==> n in NameSet(s.replies.names);
    ReadReplyTrees(s.replies.names, s.replies.entries, v);
    assert RepliesUnder(s.replies.names, s.replies.entries, v).entries == KeepService(s, v).replies.entries;
  }

  lemma ServiceLookup(s: Service, v: Version, key: string)
    requires Printable(s.replies)
    ensures Lookup(ServiceFields(s, v), key) ==
            OrElse(Lookup(Common(s.name, s.description, s.args, v), key),
                   Answer(key, "replies", JArray(ReplyTrees(s.replies.names, s.replies.entries, v))))
  {
    LookupWith(Common(s.name, s.description, s.args, v), "replies",
      JArray(ReplyTrees(s.replies.names, s.replies.entries, v)), key);
  }

  lemma ReadServiceTree(s: Service, v: Version)
    requires ServiceOk(s, s.name) && Printable(s.replies)
    ensures ReadService(JMap(ServiceFields(s, v))) == Some(KeepService(s, v))
  {
    var fields := ServiceFields(s, v);
    CommonParts(s.name, s.description, s.args, v);
    ServiceLookup(s, v, "name");
    ServiceLookup(s, v, "description");
    ServiceLookup(s, v, "arguments");
    ServiceLookup(s, v, "replies");
    IoCodes();
    ServiceCodes();
    FindText(fields, "name");
    FindText(fields, "description");
    FindName(fields, "replies");
    ReadArgsOf(fields, s.args, v);
    ReadRepliesOf(s, v);
    CleanTextFixed(s.name, MAX_NAME);
  }

  function ServicesUnder(names: seq<string>, entries: map<string, Service>, v: Version): Table<Service>
    requires forall n :: n in names ==> n in entries
  {
    Table(names, map n | n in names :: KeepService(entries[n], v))
  }

  lemma ReadServicesLast(items: seq<Json>, j: Json)
    requires ReadService(j).Some?
    ensures ReadServices(items + [j]) == PutNew(ReadServices(items), ReadService(j).value.name, ReadService(j).value)
  {
    assert (items + [j])[..|items|] == items;
  }

  lemma ServicesUnderLast(names: seq<string>, name: string, entries: map<string, Service>, v: Version)
    requires name !in names && forall n :: n in names + [name] ==> n in entries
    ensures ServicesUnder(names + [name], entries, v) == Put(ServicesUnder(names, entries, v), name, KeepService(entries[name], v))
  {
    assert ServicesUnder(names + [name], entries, v).entries == ServicesUnder(names, entries, v).entries[name := KeepService(entries[name], v)];
  }

  lemma {:induction false} ReadServiceTrees(names: seq<string>, entries: map<string, Service>, v: Version)
    requires Distinct(names)
    requires forall n :: n in names ==> n in entries && ServiceOk(entries[n], n) && Printable(entries[n].replies)
    ensures ReadServices(ServiceTrees(names, entries, v)) == ServicesUnder(names, entries, v)
  {
    if names != [] {
      var init, last := names[..|names| - 1], names[|names| - 1];
      assert names == init + [last] && last !in init;
      ReadServiceTrees(init, entries, v);
      ReadServiceTree(entries[last], v);
      ReadServicesLast(ServiceTrees(init, entries, v), JMap(ServiceFields(entries[last], v)));
      ServicesUnderLast(init, last, entries, v);
    }
  }

  lemma ServicesPrintable(t: Table<Service>)
    requires TableOk(t) && forall n :: n in t.entries ==> ServiceOk(t.entries[n], n)
    ensures Printable(t) && forall n :: n in t.names ==> Printable(t.entries[n].replies)
  {
    assert forall n :: n in t.names <==> n in NameSet(t.names);
    forall n | n in t.names ensures Printable(t.entries[n].replies) {
      ReadRepliesOf(t.entries[n], Current);
    }
  }

  lemma ReadServicesOf(t: Table<Service>, v: Version)
    requires TableOk(t) && forall n :: n in t.entries ==> ServiceOk(t.entries[n], n)
    requires Printable(t) && forall n :: n in t.names ==> Printable(t.entries[n].replies)
    ensures ReadServices(ServiceTrees(t.names, t.entries, v)) == KeepServices(t, v)
  {
    assert forall n :: n in t.names <==> n in NameSet(t.names);
    ReadServiceTrees(t.names, t.entries, v);
    assert ServicesUnder(t.names, t.entries, v).entries == KeepServices(t, v).entries;
  }

  // ------------------------------------------------------------ definitions

  lemma WellFormedIsExportable(d: Definition)
    requires DefinitionOk(d)
    ensures Exportable(d)
  {
    ReadIosOf(d.inputs, Current);
    ReadIosOf(d.outputs, Current);
    ReadIosOf(d.attributes, Current);
    ServicesPrintable(d.services);
  }

  lemma LookupHeader(d: Definition, v: Version, key: string)
    ensures Lookup(HeaderFields(d, v), key) ==
            OrElse(OrElse(OrElse(OrElse(OrElse(
              Answer(key, "name", JString(d.name)),
              TextAnswer(key, "class", if v.V3? then None else d.cls)),
              TextAnswer(key, "package", if v.V3? then None else d.package)),
              TextAnswer(key, "family", d.family)),
              TextAnswer(key, "description", d.description)),
              TextAnswer(key, "version", d.version))
  {
    var f0 := With([], "name", JString(d.name));
    var f1 := WithText(f0, "class", if v.V3? then None else d.cls);
    var f2 := WithText(f1, "package", if v.V3? then None else d.package);
    var f3 := WithText(f2, "family", d.family);
    var f4 := WithText(f3, "description", d.description);
    LookupWith([], "name", JString(d.name), key);
    LookupWithText(f0, "class", if v.V3? then None else d.cls, key);
    LookupWithText(f1, "package", if v.V3? then None else d.package, key);
    LookupWithText(f2, "family", d.family, key);
    LookupWithText(f3, "description", d.description, key);
    LookupWithText(f4, "version", d.version, key);
  }

  lemma LookupDefinition(d: Definition, v: Version, key: string)
    requires Exportable(d)
    ensures Lookup(DefinitionFields(d, v), key) ==
            OrElse(OrElse(OrElse(OrElse(Lookup(HeaderFields(d, v), key),
              Answer(key, "inputs", JArray(IoTrees(d.inputs.names, d.inputs.entries, v)))),
              Answer(key, "outputs", JArray(IoTrees(d.outputs.names, d.outputs.entries, v)))),
              Answer(key, AttributesKey(v), JArray(IoTrees(d.attributes.names, d.attributes.entries, v)))),
              Answer(key, ServicesKey(v), JArray(ServiceTrees(d.services.names, d.services.entries, v))))
  {
    var f0 := HeaderFields(d, v);
    var j1 := JArray(IoTrees(d.inputs.names, d.inputs.entries, v));
    var f1 := With(f0, "inputs", j1);
    var j2 := JArray(IoTrees(d.outputs.names, d.outputs.entries, v));
    var f2 := With(f1, "outputs", j2);
    var j3 := JArray(IoTrees(d.attributes.names, d.attributes.entries, v));
    var f3 := With(f2, AttributesKey(v), j3);
    LookupWith(f0, "inputs", j1, key);
    LookupWith(f1, "outputs", j2, key);
    LookupWith(f2, AttributesKey(v), j3, key);
    LookupWith(f3, ServicesKey(v), JArray(ServiceTrees(d.services.names, d.services.entries, v)), key);
  }

  lemma PartOfTree(d: Definition, v: Version, key: string)
    requires Exportable(d)
    ensures Part(DefinitionTree(d, v), key) == Lookup(DefinitionFields(d, v), key)
  {
    var inner := JMap(DefinitionFields(d, v));
    LookupLast([], Field("definition", inner), "definition");
    assert [] + [Field("definition", inner)] == [Field("definition", inner)];
    assert ["definition", key][1..] == [key];
    FindName(DefinitionFields(d, v), key);
  }

  lemma HeaderParts(d: Definition, v: Version)
    requires Exportable(d)
    ensures
      var j := DefinitionTree(d, v);
      && TextPart(j, "name") == Some(d.name)
      && TextPart(j, "class") == (if v.V3? then None else d.cls)
      && TextPart(j, "package") == (if v.V3? then None else d.package)
  {
    HeaderPart(d, v, "name");
    HeaderPart(d, v, "class");
    HeaderPart(d, v, "package");
    IoCodes();
    DefinitionCodes();
  }

  lemma FamilyPart(d: Definition, v: Version)
    requires Exportable(d)
    ensures TextPart(DefinitionTree(d, v), "family") == d.family
  {
    HeaderPart(d, v, "family");
    DefinitionCodes();
  }

  lemma DescriptionPart(d: Definition, v: Version)
    requires Exportable(d)
    ensures TextPart(DefinitionTree(d, v), "description") == d.description
  {
    HeaderPart(d, v, "description");
    IoCodes();
    DefinitionCodes();
  }

  lemma VersionPart(d: Definition, v: Version)
    requires Exportable(d)
    ensures TextPart(DefinitionTree(d, v), "version") == d.version
  {
    HeaderPart(d, v, "version");
    DefinitionCodes();
  }

  lemma MoreHeaderParts(d: Definition, v: Version)
    requires Exportable(d)
    ensures
      var j := DefinitionTree(d, v);
      && TextPart(j, "family") == d.family
      && TextPart(j, "description") == d.description
      && TextPart(j, "version") == d.version
  {
    FamilyPart(d, v);
    DescriptionPart(d, v);
    VersionPart(d, v);
  }

  function ExpectedHeader(d: Definition, v: Version, key: string): Option<string> {
    if key == "name" then Some(d.name)
    else if key == "class" then (if v.V3? then None else d.cls)
    else if key == "package" then (if v.V3? then None else d.package)
    else if key == "family" then d.family
    else if key == "description" then d.description
    else if key == "version" then d.version
    else None
  }

  lemma HeaderPart(d: Definition, v: Version, key: string)
    requires Exportable(d)
    requires key in ["name", "class", "package", "family", "description", "version"]
    ensures TextPart(DefinitionTree(d, v), key) == ExpectedHeader(d, v, key)
  {
    PartOfTree(d, v, key);
    LookupDefinition(d, v, key);
    LookupHeader(d, v, key);
    IoCodes();
    ServiceCodes();
    DefinitionCodes();
  }

  lemma NotInHeader(d: Definition, v: Version, key: string)
    requires key in ["inputs", "outputs", "attributes", "parameters", "services", "calls"]
    ensures Lookup(HeaderFields(d, v), key) == None
  {
    LookupHeader(d, v, key);
    IoCodes();
    DefinitionCodes();
  }

  lemma TableParts(d: Definition, v: Version)
    requires Exportable(d)
    ensures
      var j := DefinitionTree(d, v);
      && Part(j, "inputs") == Some(JArray(IoTrees(d.inputs.names, d.inputs.entries, v)))
      && Part(j, "outputs") == Some(JArray(IoTrees(d.outputs.names, d.outputs.entries, v)))
      && EitherPart(j, "attributes", "parameters") ==
           Some(JArray(IoTrees(d.attributes.names, d.attributes.entries, v)))
      && EitherPart(j, "services", "calls") ==
           Some(JArray(ServiceTrees(d.services.names, d.services.entries, v)))
  {
    TablePart(d, v, "inputs");
    TablePart(d, v, "outputs");
    TablePart(d, v, "attributes");
    TablePart(d, v, "parameters");
    TablePart(d, v, "services");
    TablePart(d, v, "calls");
    DefinitionCodes();
  }

  lemma TablePart(d: Definition, v: Version, key: string)
    requires Exportable(d)
    requires key in ["inputs", "outputs", "attributes", "parameters", "services", "calls"]
    ensures Part(DefinitionTree(d, v), key) ==
            if key == "inputs" then Some(JArray(IoTrees(d.inputs.names, d.inputs.entries, v)))
            else if key == "outputs" then Some(JArray(IoTrees(d.outputs.names, d.outputs.entries, v)))
            else if key == AttributesKey(v) then Some(JArray(IoTrees(d.attributes.names, d.attributes.entries, v)))
            else if key == ServicesKey(v) then Some(JArray(ServiceTrees(d.services.names, d.services.entries, v)))
            else None
  {
    PartOfTree(d, v, key);
    LookupDefinition(d, v, key);
    NotInHeader(d, v, key);
  }

  lemma HeaderReadBack(d: Definition)
    requires DefinitionOk(d)
    ensures CleanText(d.name, MAX_NAME) == d.name
    ensures d.cls.Some? ==> Cleaned(d.cls.value, MAX_NAME) == d.cls.value
    ensures d.package.Some? ==> Cleaned(d.package.value, MAX_PACKAGE) == d.package.value
    ensures CleanOption(d.family, MAX_SHORT) == d.family
    ensures LongOption(d.description) == d.description
    ensures CleanOption(d.version, MAX_SHORT) == d.version
  {
    CleanTextFixed(d.name, MAX_NAME);
    if d.cls.Some? { CleanTextFixed(d.cls.value, MAX_NAME); }
    if d.package.Some? { CleanTextFixed(d.package.value, MAX_PACKAGE); }
    if d.family.Some? { CleanTextFixed(d.family.value, MAX_SHORT); }
    if d.version.Some? { CleanTextFixed(d.version.value, MAX_SHORT); }
  }

  /**
   * Reading any of the three forms of a well-formed definition gives the definition
   * without exactly what the form does not print.
   */
  lemma ReadExported(d: Definition, v: Version)
    requires DefinitionOk(d)
    ensures Exportable(d) && ReadDefinition(DefinitionTree(d, v)) == Some(Keep(d, v))
  {
    WellFormedIsExportable(d);
    HeaderParts(d, v);
    MoreHeaderParts(d, v);
    TableParts(d, v);
    HeaderReadBack(d);
    ReadIosOf(d.inputs, v);
    ReadIosOf(d.outputs, v);
    ReadIosOf(d.attributes, v);
    ReadServicesOf(d.services, v);
  }

  lemma {:induction false} KeepArgsCurrent(args: seq<Arg>)
    ensures KeepArgs(args, Current) == args
  {
  }

  /** The current form loses nothing. */
  lemma CurrentKeepsAll(d: Definition)
    ensures Keep(d, Current) == d
  {
    forall s: Service
      ensures KeepService(s, Current) == s
    {
      assert forall r: Reply :: KeepReply(r, Current) == r by {
        forall r: Reply ensures KeepReply(r, Current) == r {
          KeepArgsCurrent(r.args);
        }
      }
      KeepArgsCurrent(s.args);
      assert (map n | n in s.replies.entries :: KeepReply(s.replies.entries[n], Current)) == s.replies.entries;
    }
    assert KeepServices(d.services, Current).entries == d.services.entries;
    assert KeepIos(d.inputs, Current).entries == d.inputs.entries;
    assert KeepIos(d.outputs, Current).entries == d.outputs.entries;
    assert KeepIos(d.attributes, Current).entries == d.attributes.entries;
  }

  lemma RoundTrip(d: Definition)
    requires DefinitionOk(d)
    ensures Exportable(d) && ReadDefinition(DefinitionTree(d, Current)) == Some(d)
  {
    ReadExported(d, Current);
    CurrentKeepsAll(d);
  }
}
