/**
 * Agent definitions and the trees they are printed as and read from
 * (src/igs_parser.c): one current form, two legacy forms, one reader for all three.
 */
module Definitions {
  import opened Options
  import opened CStrings
  import opened Json
  import opened Constraints

  const MAX_NAME: nat := 1024
  const MAX_PACKAGE: nat := 4096
  const MAX_SHORT: nat := 64          // family and version
  const MAX_LONG: nat := 4096 * 4096  // descriptions and specifications

  datatype ValueType = UnknownT | IntegerT | DoubleT | StringT | BoolT | ImpulsionT | DataT

  /** An ordered list of names beside a hash table, as igs_definition_t keeps them. */
  datatype Table<T> = Table(names: seq<string>, entries: map<string, T>)

  datatype Io = Io(
    name: string,
    valueType: ValueType,
    constraint: Option<Constraint>,
    description: Option<string>,
    detailedType: Option<string>,
    specification: Option<string>)

  datatype Arg = Arg(name: string, valueType: ValueType, description: Option<string>)

  datatype Reply = Reply(name: string, description: Option<string>, args: seq<Arg>)

  datatype Service = Service(name: string, description: Option<string>, args: seq<Arg>, replies: Table<Reply>)

  datatype Definition = Definition(
    name: string,
    cls: Option<string>,
    package: Option<string>,
    family: Option<string>,
    description: Option<string>,
    version: Option<string>,
    inputs: Table<Io>,
    outputs: Table<Io>,
    attributes: Table<Io>,
    services: Table<Service>)

  // ------------------------------------------------------------ well-formed definitions

  ghost predicate Distinct(names: seq<string>) {
    forall i, j :: 0 <= i < j < |names| ==> names[i] != names[j]
  }

  function NameSet(names: seq<string>): set<string> {
    set n | n in names
  }

  /** The list has no duplicate and lists exactly the keys of the table. */
  ghost predicate TableOk<T>(t: Table<T>) {
    Distinct(t.names) && NameSet(t.names) == t.entries.Keys
  }

  ghost predicate TextOk(o: Option<string>, max: nat) {
    o.Some? ==> Acceptable(o.value, max)
  }

  ghost predicate LongOk(o: Option<string>) {
    o.Some? ==> |o.value| <= MAX_LONG
  }

  ghost predicate IoOk(io: Io, name: string) {
    && io.name == name && Acceptable(name, MAX_NAME)
    && (io.constraint.Some? ==> io.valueType.IntegerT? && Ordered(io.constraint.value))
    && LongOk(io.description) && TextOk(io.detailedType, MAX_NAME) && LongOk(io.specification)
  }

  ghost predicate IosOk(t: Table<Io>) {
    TableOk(t) && forall n :: n in t.entries ==> IoOk(t.entries[n], n)
  }

  ghost predicate ArgOk(a: Arg) {
    Acceptable(a.name, MAX_NAME) && LongOk(a.description)
  }

  ghost predicate ArgsOk(args: seq<Arg>) {
    forall i :: 0 <= i < |args| ==> ArgOk(args[i])
  }

  ghost predicate ReplyOk(r: Reply, name: string) {
    r.name == name && Acceptable(name, MAX_NAME) && LongOk(r.description) && ArgsOk(r.args)
  }

  /** Every listed name has its reply; a name may be listed more than once. */
  ghost predicate RepliesOk(t: Table<Reply>) {
    NameSet(t.names) == t.entries.Keys && forall n :: n in t.entries ==> ReplyOk(t.entries[n], n)
  }

  ghost predicate ServiceOk(s: Service, name: string) {
    && s.name == name && Acceptable(name, MAX_NAME) && LongOk(s.description) && ArgsOk(s.args)
    && RepliesOk(s.replies)
  }

  /**
   * What the parser and the operations make: names of inputs, outputs, attributes and
   * services are listed once, and texts have been cleaned.
   */
  ghost predicate DefinitionOk(d: Definition) {
    && Acceptable(d.name, MAX_NAME) && TextOk(d.cls, MAX_NAME) && TextOk(d.package, MAX_PACKAGE)
    && TextOk(d.family, MAX_SHORT) && LongOk(d.description) && TextOk(d.version, MAX_SHORT)
    && IosOk(d.inputs) && IosOk(d.outputs) && IosOk(d.attributes)
    && TableOk(d.services) && forall n :: n in d.services.entries ==> ServiceOk(d.services.entries[n], n)
  }

  // ------------------------------------------------------------ printing

  datatype Version = Current | V4 | V3

  function TypeName(t: ValueType): string {
    match t
    case IntegerT => "INTEGER"
    case DoubleT => "DOUBLE"
    case StringT => "STRING"
    case BoolT => "BOOL"
    case ImpulsionT => "IMPULSION"
    case DataT => "DATA"
    case UnknownT => "UNKNOWN"
  }

  function TypeOfName(s: string): ValueType {
    if s == "INTEGER" then IntegerT
    else if s == "DOUBLE" then DoubleT
    else if s == "STRING" then StringT
    else if s == "BOOL" then BoolT
    else if s == "IMPULSION" then ImpulsionT
    else if s == "DATA" then DataT
    else UnknownT
  }

  function With(fields: seq<Field>, key: string, value: Json): seq<Field> {
    fields + [Field(key, value)]
  }

  function WithText(fields: seq<Field>, key: string, text: Option<string>): seq<Field> {
    if text.Some? then With(fields, key, JString(text.value)) else fields
  }

  function ConstraintText(io: Io): Option<string> {
    if io.constraint.Some? && io.valueType.IntegerT? then Some(PrintConstraint(io.constraint.value)) else None
  }

  function IoBase(io: Io): seq<Field> {
    With(With([], "name", JString(io.name)), "type", JString(TypeName(io.valueType)))
  }

  /** The third form prints name and type only. */
  function IoFields(io: Io, v: Version): seq<Field> {
    if v.V3? then IoBase(io)
    else
      WithText(WithText(WithText(WithText(IoBase(io),
        "constraint", ConstraintText(io)),
        "description", io.description),
        "detailed_type", io.detailedType),
        "specification", io.specification)
  }

  function IoTrees(names: seq<string>, entries: map<string, Io>, v: Version): seq<Json>
    requires forall n :: n in names ==> n in entries
  {
    if names == [] then []
    else IoTrees(names[..|names| - 1], entries, v) + [JMap(IoFields(entries[names[|names| - 1]], v))]
  }

  /** Only the current form prints argument descriptions. */
  function ArgFields(a: Arg, v: Version): seq<Field> {
    With(WithText(With([], "name", JString(a.name)),
      "description", if v.Current? then a.description else None),
      "type", JString(TypeName(a.valueType)))
  }

  function ArgTrees(args: seq<Arg>, v: Version): seq<Json> {
    if args == [] then [] else ArgTrees(args[..|args| - 1], v) + [JMap(ArgFields(args[|args| - 1], v))]
  }

  function WithArgs(fields: seq<Field>, args: seq<Arg>, v: Version): seq<Field> {
    if args == [] then fields else With(fields, "arguments", JArray(ArgTrees(args, v)))
  }

  function ReplyFields(r: Reply, v: Version): seq<Field> {
    WithArgs(WithText(With([], "name", JString(r.name)), "description", r.description), r.args, v)
  }

  function ReplyTrees(names: seq<string>, entries: map<string, Reply>, v: Version): seq<Json>
    requires forall n :: n in names ==> n in entries
  {
    if names == [] then []
    else ReplyTrees(names[..|names| - 1], entries, v) + [JMap(ReplyFields(entries[names[|names| - 1]], v))]
  }

  ghost predicate Printable<T>(t: Table<T>) {
    forall n :: n in t.names ==> n in t.entries
  }

  function ServiceFields(s: Service, v: Version): seq<Field>
    requires Printable(s.replies)
  {
    With(WithArgs(WithText(With([], "name", JString(s.name)), "description", s.description), s.args, v),
      "replies", JArray(ReplyTrees(s.replies.names, s.replies.entries, v)))
  }

  function ServiceTrees(names: seq<string>, entries: map<string, Service>, v: Version): seq<Json>
    requires forall n :: n in names ==> n in entries && Printable(entries[n].replies)
  {
    if names == [] then []
    else ServiceTrees(names[..|names| - 1], entries, v) + [JMap(ServiceFields(entries[names[|names| - 1]], v))]
  }

  function AttributesKey(v: Version): string {
    if v.Current? then "attributes" else "parameters"
  }

  function ServicesKey(v: Version): string {
    if v.V3? then "calls" else "services"
  }

  /** What the exports need: they assert that every listed name is in its table. */
  ghost predicate Exportable(d: Definition) {
    && Printable(d.inputs) && Printable(d.outputs) && Printable(d.attributes) && Printable(d.services)
    && forall n :: n in d.services.names ==> Printable(d.services.entries[n].replies)
  }

  function HeaderFields(d: Definition, v: Version): seq<Field> {
    WithText(WithText(WithText(WithText(WithText(
      With([], "name", JString(d.name)),
      "class", if v.V3? then None else d.cls),
      "package", if v.V3? then None else d.package),
      "family", d.family),
      "description", d.description),
      "version", d.version)
  }

  function DefinitionFields(d: Definition, v: Version): seq<Field>
    requires Exportable(d)
  {
    With(With(With(With(HeaderFields(d, v),
      "inputs", JArray(IoTrees(d.inputs.names, d.inputs.entries, v))),
      "outputs", JArray(IoTrees(d.outputs.names, d.outputs.entries, v))),
      AttributesKey(v), JArray(IoTrees(d.attributes.names, d.attributes.entries, v))),
      ServicesKey(v), JArray(ServiceTrees(d.services.names, d.services.entries, v)))
  }

  function DefinitionTree(d: Definition, v: Version): Json
    requires Exportable(d)
  {
    JMap([Field("definition", JMap(DefinitionFields(d, v)))])
  }

  // ------------------------------------------------------------ reading

  /** s_strndup followed by model_clean_string. */
  function CleanText(s: string, max: nat): string {
    Cleaned(Truncate(s, max), max)
  }

  function CleanOption(o: Option<string>, max: nat): Option<string> {
    if o.Some? then Some(CleanText(o.value, max)) else None
  }

  function LongOption(o: Option<string>): Option<string> {
    if o.Some? then Some(Truncate(o.value, MAX_LONG)) else None
  }

  function ReadType(o: Option<string>): ValueType {
    if o.Some? then TypeOfName(o.value) else UnknownT
  }

  function ReadConstraint(t: ValueType, o: Option<string>): Option<Constraint> {
    if o.Some? && t.IntegerT? then ParseConstraint(o.value) else None
  }

  function ReadIo(j: Json): Option<Io> {
    match FindString(j, "name")
    case None => None
    case Some(name) =>
      var t := ReadType(FindString(j, "type"));
      Some(Io(CleanText(name, MAX_NAME), t,
        ReadConstraint(t, FindString(j, "constraint")),
        LongOption(FindString(j, "description")),
        CleanOption(FindString(j, "detailed_type"), MAX_NAME),
        LongOption(FindString(j, "specification"))))
  }

  function EmptyTable<T>(): Table<T> {
    Table([], map[])
  }

  /** zlist_append and zhashx_insert; the table keeps what it has under a known key. */
  function Put<T>(t: Table<T>, name: string, value: T): Table<T> {
    Table(t.names + [name], if name in t.entries then t.entries else t.entries[name := value])
  }

  /** A name that is already there is ignored. */
  function PutNew<T>(t: Table<T>, name: string, value: T): Table<T> {
    if name in t.entries then t else Put(t, name, value)
  }

  function ReadIos(items: seq<Json>): Table<Io> {
    if items == [] then EmptyTable()
    else
      var before := ReadIos(items[..|items| - 1]);
      match ReadIo(items[|items| - 1])
      case Some(io) => PutNew(before, io.name, io)
      case None => before
  }

  function ReadArg(j: Json): Option<Arg> {
    if !j.JMap? then None
    else match FindString(j, "name")
      case None => None
      case Some(name) =>
        Some(Arg(CleanText(name, MAX_NAME), ReadType(FindString(j, "type")), LongOption(FindString(j, "description"))))
  }

  function ReadArgItems(items: seq<Json>): seq<Arg> {
    if items == [] then []
    else
      var before := ReadArgItems(items[..|items| - 1]);
      match ReadArg(items[|items| - 1])
      case Some(a) => before + [a]
      case None => before
  }

  function ReadArgs(j: Json): seq<Arg> {
    match Find(j, ["arguments"])
    case Some(JArray(items)) => ReadArgItems(items)
    case _ => []
  }

  function ReadReply(j: Json): Option<Reply> {
    match FindString(j, "name")
    case None => None
    case Some(name) =>
      Some(Reply(CleanText(name, MAX_NAME), LongOption(FindString(j, "description")), ReadArgs(j)))
  }

  /** Replies are listed even when their name is already there. */
  function ReadReplyItems(items: seq<Json>): Table<Reply> {
    if items == [] then EmptyTable()
    else
      var before := ReadReplyItems(items[..|items| - 1]);
      match ReadReply(items[|items| - 1])
      case Some(r) => Put(before, r.name, r)
      case None => before
  }

  function ReadReplies(j: Json): Table<Reply> {
    match Find(j, ["replies"])
    case Some(JArray(items)) => ReadReplyItems(items)
    case _ => EmptyTable()
  }

  function ReadService(j: Json): Option<Service> {
    match FindString(j, "name")
    case None => None
    case Some(name) =>
      Some(Service(CleanText(name, MAX_NAME), LongOption(FindString(j, "description")), ReadArgs(j), ReadReplies(j)))
  }

  function ReadServices(items: seq<Json>): Table<Service> {
    if items == [] then EmptyTable()
    else
      var before := ReadServices(items[..|items| - 1]);
      match ReadService(items[|items| - 1])
      case Some(s) => PutNew(before, s.name, s)
      case None => before
  }

  function Part(j: Json, key: string): Option<Json> {
    Find(j, ["definition", key])
  }

  function TextPart(j: Json, key: string): Option<string> {
    match Part(j, key)
    case Some(JString(s)) => Some(s)
    case _ => None
  }

  function IoPart(part: Option<Json>): Table<Io> {
    match part
    case Some(JArray(items)) => ReadIos(items)
    case _ => EmptyTable()
  }

  function ServicePart(part: Option<Json>): Table<Service> {
    match part
    case Some(JArray(items)) => ReadServices(items)
    case _ => EmptyTable()
  }

  /** The deprecated key is looked up when the current one is absent. */
  function EitherPart(j: Json, key: string, deprecated: string): Option<Json> {
    if Part(j, key).Some? then Part(j, key) else Part(j, deprecated)
  }

  /** What parser_parse_definition_from_node makes of a tree; the name is mandatory. */
  function ReadDefinition(j: Json): Option<Definition> {
    match TextPart(j, "name")
    case None => None
    case Some(name) =>
      Some(Definition(
        CleanText(name, MAX_NAME),
        if TextPart(j, "class").Some? then Some(Cleaned(TextPart(j, "class").value, MAX_NAME)) else None,
        if TextPart(j, "package").Some? then Some(Cleaned(TextPart(j, "package").value, MAX_PACKAGE)) else None,
        CleanOption(TextPart(j, "family"), MAX_SHORT),
        LongOption(TextPart(j, "description")),
        CleanOption(TextPart(j, "version"), MAX_SHORT),
        IoPart(Part(j, "inputs")),
        IoPart(Part(j, "outputs")),
        IoPart(EitherPart(j, "attributes", "parameters")),
        ServicePart(EitherPart(j, "services", "calls"))))
  }

  // ------------------------------------------------------------ what each form keeps

  function KeepIo(io: Io, v: Version): Io {
    if v.V3? then Io(io.name, io.valueType, None, None, None, None) else io
  }

  function KeepArg(a: Arg, v: Version): Arg {
    if v.Current? then a else a.(description := None)
  }

  function KeepArgs(args: seq<Arg>, v: Version): seq<Arg> {
    seq(|args|, i requires 0 <= i < |args| => KeepArg(args[i], v))
  }

  function KeepReply(r: Reply, v: Version): Reply {
    r.(args := KeepArgs(r.args, v))
  }

  function KeepService(s: Service, v: Version): Service {
    s.(args := KeepArgs(s.args, v),
       replies := Table(s.replies.names, map n | n in s.replies.entries :: KeepReply(s.replies.entries[n], v)))
  }

  function KeepIos(t: Table<Io>, v: Version): Table<Io> {
    Table(t.names, map n | n in t.entries :: KeepIo(t.entries[n], v))
  }

  function KeepServices(t: Table<Service>, v: Version): Table<Service> {
    Table(t.names, map n | n in t.entries :: KeepService(t.entries[n], v))
  }

  /**
   * The definition without what the form does not print: the fourth form loses argument
   * descriptions; the third also loses class, package, and all but name and type of
   * inputs, outputs and attributes.
   */
  function Keep(d: Definition, v: Version): Definition {
    Definition(d.name, if v.V3? then None else d.cls, if v.V3? then None else d.package,
      d.family, d.description, d.version,
      KeepIos(d.inputs, v), KeepIos(d.outputs, v), KeepIos(d.attributes, v), KeepServices(d.services, v))
  }
}
