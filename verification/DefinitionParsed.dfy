/**
 * What the definition parser builds out of any tree.
 */
module DefinitionParsed {
  import opened Options
  import opened CStrings
  import opened Json
  import opened Definitions
  import opened DefinitionRoundTrip

  lemma CleanTextOk(s: string, max: nat)
    requires max > 0
    ensures Acceptable(CleanText(s, max), max) && Acceptable(Cleaned(s, max), max)
  {
    CleanedIsAcceptable(Truncate(s, max), max);
    CleanedIsAcceptable(s, max);
  }

  lemma ReadIoOk(j: Json)
    requires ReadIo(j).Some?
    ensures IoOk(ReadIo(j).value, ReadIo(j).value.name)
  {
    CleanTextOk(FindString(j, "name").value, MAX_NAME);
    if FindString(j, "detailed_type").Some? {
      CleanTextOk(FindString(j, "detailed_type").value, MAX_NAME);
    }
  }

  lemma PutNewOk<T>(t: Table<T>, name: string, value: T)
    requires TableOk(t)
    ensures TableOk(PutNew(t, name, value))
  {
    assert forall n :: n in t.names <==> n in NameSet(t.names);
    if name !in t.entries {
      assert NameSet(t.names + [name]) == NameSet(t.names) + {name};
    }
  }

  lemma {:induction false} ReadIosOk(items: seq<Json>)
    ensures IosOk(ReadIos(items))
  {
    if items != [] {
      var last := items[|items| - 1];
      ReadIosOk(items[..|items| - 1]);
      if ReadIo(last).Some? {
        ReadIoOk(last);
        PutNewOk(ReadIos(items[..|items| - 1]), ReadIo(last).value.name, ReadIo(last).value);
      }
    }
  }

  lemma {:induction false} ReadArgItemsOk(items: seq<Json>)
    ensures ArgsOk(ReadArgItems(items))
  {
    if items != [] {
      var last := items[|items| - 1];
      ReadArgItemsOk(items[..|items| - 1]);
      if ReadArg(last).Some? {
        CleanTextOk(FindString(last, "name").value, MAX_NAME);
      }
    }
  }

  lemma ReadArgsOk(j: Json)
    ensures ArgsOk(ReadArgs(j))
  {
    match Find(j, ["arguments"])
    case Some(JArray(items)) => ReadArgItemsOk(items);
    case _ =>
  }

  lemma PutReplyOk(t: Table<Reply>, r: Reply)
    requires RepliesOk(t) && ReplyOk(r, r.name)
    ensures RepliesOk(Put(t, r.name, r))
  {
    assert NameSet(t.names + [r.name]) == NameSet(t.names) + {r.name};
  }

  lemma {:induction false} ReadReplyItemsOk(items: seq<Json>)
    ensures RepliesOk(ReadReplyItems(items))
  {
    if items != [] {
      var last := items[|items| - 1];
      ReadReplyItemsOk(items[..|items| - 1]);
      if ReadReply(last).Some? {
        CleanTextOk(FindString(last, "name").value, MAX_NAME);
        ReadArgsOk(last);
        PutReplyOk(ReadReplyItems(items[..|items| - 1]), ReadReply(last).value);
      }
    }
  }

  lemma ReadServiceOk(j: Json)
    requires ReadService(j).Some?
    ensures ServiceOk(ReadService(j).value, ReadService(j).value.name)
  {
    CleanTextOk(FindString(j, "name").value, MAX_NAME);
    ReadArgsOk(j);
    match Find(j, ["replies"])
    case Some(JArray(items)) => ReadReplyItemsOk(items);
    case _ =>
  }

  ghost predicate ServicesOk(t: Table<Service>) {
    TableOk(t) && forall n :: n in t.entries ==> ServiceOk(t.entries[n], n)
  }

  lemma {:induction false} ReadServicesOk(items: seq<Json>)
    ensures ServicesOk(ReadServices(items))
  {
    if items != [] {
      var last := items[|items| - 1];
      var before := ReadServices(items[..|items| - 1]);
      ReadServicesOk(items[..|items| - 1]);
      if ReadService(last).Some? {
        ReadServiceOk(last);
        PutNewOk(before, ReadService(last).value.name, ReadService(last).value);
      }
    }
  }

  lemma HeaderOk(j: Json, d: Definition)
    requires ReadDefinition(j) == Some(d)
    ensures Acceptable(d.name, MAX_NAME) && TextOk(d.cls, MAX_NAME) && TextOk(d.package, MAX_PACKAGE)
    ensures TextOk(d.family, MAX_SHORT) && LongOk(d.description) && TextOk(d.version, MAX_SHORT)
  {
    CleanTextOk(TextPart(j, "name").value, MAX_NAME);
    if TextPart(j, "class").Some? { CleanTextOk(TextPart(j, "class").value, MAX_NAME); }
    if TextPart(j, "package").Some? { CleanTextOk(TextPart(j, "package").value, MAX_PACKAGE); }
    if TextPart(j, "family").Some? { CleanTextOk(TextPart(j, "family").value, MAX_SHORT); }
    if TextPart(j, "version").Some? { CleanTextOk(TextPart(j, "version").value, MAX_SHORT); }
  }

  lemma IoPartOk(part: Option<Json>)
    ensures IosOk(IoPart(part))
  {
    match part
    case Some(JArray(items)) => ReadIosOk(items);
    case _ =>
  }

  lemma ServicePartOk(part: Option<Json>)
    ensures ServicesOk(ServicePart(part))
  {
    match part
    case Some(JArray(items)) => ReadServicesOk(items);
    case _ =>
  }

  /** Whatever is parsed is a definition that the exports and the parser agree on. */
  lemma ParsedOk(j: Json)
    requires ReadDefinition(j).Some?
    ensures DefinitionOk(ReadDefinition(j).value)
  {
    HeaderOk(j, ReadDefinition(j).value);
    IoPartOk(Part(j, "inputs"));
    IoPartOk(Part(j, "outputs"));
    IoPartOk(EitherPart(j, "attributes", "parameters"));
    ServicePartOk(EitherPart(j, "services", "calls"));
  }

  /** Printing what was parsed in any form and parsing it again keeps what the form keeps. */
  lemma ParsePrintParse(j: Json, v: Version)
    requires ReadDefinition(j).Some?
    ensures Exportable(ReadDefinition(j).value)
    ensures ReadDefinition(DefinitionTree(ReadDefinition(j).value, v)) == Some(Keep(ReadDefinition(j).value, v))
    ensures Keep(ReadDefinition(j).value, Current) == ReadDefinition(j).value
  {
    ParsedOk(j);
    ReadExported(ReadDefinition(j).value, v);
    CurrentKeepsAll(ReadDefinition(j).value);
  }

  // ------------------------------------------------------------ repeated reply names

  ghost predicate RepliesOnce(t: Table<Service>) {
    forall n :: n in t.entries ==> Distinct(t.entries[n].replies.names)
  }

  /** The cleaned names of the items that have one. */
  function ItemNames(items: seq<Json>): seq<string> {
    if items == [] then []
    else
      ItemNames(items[..|items| - 1]) +
      match FindString(items[|items| - 1], "name")
      case Some(name) => [CleanText(name, MAX_NAME)]
      case None => []
  }

  function ReplyNames(service: Json): seq<string> {
    match Find(service, ["replies"])
    case Some(JArray(items)) => ItemNames(items)
    case _ => []
  }

  predicate Named(item: Json, name: string) {
    FindString(item, "name").Some? && CleanText(FindString(item, "name").value, MAX_NAME) == name
  }

  /** The service item that is kept for a name: the first one. */
  function KeptFor(items: seq<Json>, name: string): (at: Option<nat>)
    ensures at.Some? ==> at.value < |items| && Named(items[at.value], name)
    ensures forall k :: 0 <= k < (if at.Some? then at.value else |items|) ==> !Named(items[k], name)
  {
    if items == [] then None
    else
      var before := KeptFor(items[..|items| - 1], name);
      if before.None? && Named(items[|items| - 1], name) then Some(|items| - 1) else before
  }

  /** Within every service item that is kept, the names of the replies that have one are different. */
  ghost predicate KeptRepliesOnce(items: seq<Json>) {
    forall name :: KeptFor(items, name).Some? ==> Distinct(ReplyNames(items[KeptFor(items, name).value]))
  }

  lemma {:induction false} ListedReplyNames(items: seq<Json>)
    ensures ReadReplyItems(items).names == ItemNames(items)
  {
    if items != [] {
      ListedReplyNames(items[..|items| - 1]);
    }
  }

  lemma ServiceReplyNames(j: Json)
    ensures ReadReplies(j).names == ReplyNames(j)
  {
    match Find(j, ["replies"])
    case Some(JArray(items)) => ListedReplyNames(items);
    case _ =>
  }

  /** A service is read from the item that is kept for its name, and every such item is read. */
  lemma {:induction false} ServiceIsKept(items: seq<Json>, name: string)
    ensures name in ReadServices(items).entries <==> KeptFor(items, name).Some?
    ensures KeptFor(items, name).Some? ==>
              Some(ReadServices(items).entries[name]) == ReadService(items[KeptFor(items, name).value])
  {
    if items != [] {
      ServiceIsKept(items[..|items| - 1], name);
    }
  }

  /**
   * Every reply is listed once exactly when it is named once in the service item that is kept:
   * repeated inputs, outputs, attributes and services are dropped, repeated replies are not.
   */
  lemma RepliesOnceIff(items: seq<Json>)
    ensures RepliesOnce(ReadServices(items)) <==> KeptRepliesOnce(items)
  {
    var t := ReadServices(items);
    forall name
      ensures name in t.entries <==> KeptFor(items, name).Some?
      ensures name in t.entries ==> t.entries[name].replies.names == ReplyNames(items[KeptFor(items, name).value])
    {
      ServiceIsKept(items, name);
      if name in t.entries {
        ServiceReplyNames(items[KeptFor(items, name).value]);
      }
    }
  }

  /** The same for a whole tree, by its services or the older calls. */
  lemma ParsedRepliesOnceIff(j: Json)
    requires ReadDefinition(j).Some?
    ensures RepliesOnce(ReadDefinition(j).value.services) <==>
            match EitherPart(j, "services", "calls")
            case Some(JArray(items)) => KeptRepliesOnce(items)
            case _ => true
  {
    match EitherPart(j, "services", "calls")
    case Some(JArray(items)) => RepliesOnceIff(items);
    case _ =>
  }

  /** Of two replies with one name the second is lost, and the name is listed twice. */
  lemma RepeatedReplyLost(first: Json, second: Json)
    requires ReadReply(first).Some? && ReadReply(second).Some?
    requires ReadReply(first).value.name == ReadReply(second).value.name
    ensures
      var r, t := ReadReply(first).value, ReadReplyItems([first] + [second]);
      t == Table([r.name] + [r.name], map[r.name := r]) && !TableOk(t)
  {
    var r := ReadReply(first).value;
    assert [] + [first] == [first];
    ReadReplyItemsLast([], first);
    ReadReplyItemsLast([first], second);
    var t := ReadReplyItems([first] + [second]);
    assert [] + [r.name] == [r.name];
    assert t.names[0] == t.names[1];
  }
}
