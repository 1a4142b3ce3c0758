/**
 * JSON trees in memory: copying, printing and insertion (src/igs_json_node.c).
 */
module JsonNodes {
  import opened Options
  import opened Json

  datatype Kind = KString | KNumber | KMap | KArray | KTrue | KFalse | KNull

  /** igs_json_node_t; `keys` is used by maps only, `values` by maps and arrays. */
  class Node {
    var kind: Kind
    var str: string
    var isInteger: bool
    var i: int
    var d: real
    var keys: seq<string>
    var values: seq<Node>

    /** The nodes of the tree, this one included. */
    ghost var repr: set<Node>
    /** What the tree says; the double of an integer number is not part of it. */
    ghost var model: Json

    ghost predicate Matches()
      reads this, values
    {
      match kind
      case KString => model == JString(str)
      case KNumber => model == if isInteger then JInt(i) else JDouble(d)
      case KTrue => model == JBool(true)
      case KFalse => model == JBool(false)
      case KNull => model == JNull
      case KArray =>
        && model.JArray? && |model.items| == |values|
        && forall k :: 0 <= k < |values| ==> model.items[k] == values[k].model
      case KMap =>
        && model.JMap? && |model.fields| == |values| == |keys|
        && forall k :: 0 <= k < |values| ==> model.fields[k] == Field(keys[k], values[k].model)
    }

    ghost predicate Valid()
      reads this, repr
      decreases repr
    {
      && this in repr
      && (forall k :: 0 <= k < |values| ==>
            values[k] in repr && values[k].repr < repr && this !in values[k].repr && values[k].Valid())
      && (forall k, l :: 0 <= k < l < |values| ==> values[k].repr !! values[l].repr)
      && Matches()
    }

    /** igs_json_node_new */
    constructor ()
      ensures Valid() && fresh(repr) && model == JNull && kind == KNull
    {
      kind, str, isInteger, i, d, keys, values := KNull, "", false, 0, 0.0, [], [];
      repr, model := {this}, JNull;
    }

    /**
     * A copy of the node itself over copied children; the double is copied only when the
     * number is not an integer.
     */
    constructor Over(root: Node, values: seq<Node>, ghost made: set<Node>)
      requires root.Matches() && Separate(values, made) && |values| == |root.values|
      requires forall k :: 0 <= k < |values| ==> values[k].model == root.values[k].model
      ensures Valid() && repr == {this} + made && model == root.model
    {
      kind, str, isInteger, keys := root.kind, root.str, root.isInteger, root.keys;
      i := if root.isInteger then root.i else 0;
      d := if root.isInteger then 0.0 else root.d;
      this.values, model, repr := values, root.model, {this} + made;
    }
  }

  /** Valid trees inside `within`, no two of which share a node. */
  ghost predicate Separate(nodes: seq<Node>, within: set<Node>)
    reads nodes, within
  {
    && (forall k :: 0 <= k < |nodes| ==> nodes[k].repr <= within && nodes[k].Valid())
    && (forall k, l :: 0 <= k < l < |nodes| ==> nodes[k].repr !! nodes[l].repr)
  }

  /** The loop of igs_json_node_dup over the children. */
  method DupAll(nodes: seq<Node>, ghost within: set<Node>) returns (copies: seq<Node>, ghost made: set<Node>)
    requires Separate(nodes, within)
    ensures Separate(copies, made) && fresh(made) && |copies| == |nodes|
    ensures forall k :: 0 <= k < |nodes| ==> copies[k].model == nodes[k].model
    decreases within, 1
  {
    copies, made := [], {};
    for n := 0 to |nodes|
      invariant Separate(copies, made) && fresh(made) && |copies| == n
      invariant forall k :: 0 <= k < n ==> copies[k].model == nodes[k].model
    {
      var copy := Dup(nodes[n], within);
      copies, made := copies + [copy], made + copy.repr;
    }
  }

  /** igs_json_node_dup: a new tree that shares no node with the old one and says the same. */
  method Dup(root: Node, ghost within: set<Node>) returns (result: Node)
    requires root.Valid() && root.repr <= within
    ensures result.Valid() && fresh(result.repr) && result.model == root.model
    decreases within, 0
  {
    assert Separate(root.values, within - {root});
    var values;
    ghost var made;
    values, made := DupAll(root.values, within - {root});
    result := new Node.Over(root, values, made);
  }

  /** The one call for a node without children. */
  method IterateScalar(value: Node) returns (text: Text)
    requires value.Valid() && value.kind != KMap && value.kind != KArray
    ensures text == Emit(value.model)
    ensures value.kind == KString ==> text == [AddString(value.str)]
    ensures value.kind == KNumber ==> text == if value.isInteger then [AddInt(value.i)] else [AddDouble(value.d)]
    ensures value.kind == KTrue ==> text == [AddBool(true)]
    ensures value.kind == KFalse ==> text == [AddBool(false)]
    ensures value.kind == KNull ==> text == [AddNull]
  {
    match value.kind
    case KString => text := [AddString(value.str)];
    case KNumber => text := if value.isInteger then [AddInt(value.i)] else [AddDouble(value.d)];
    case KTrue => text := [AddBool(true)];
    case KFalse => text := [AddBool(false)];
    case _ => text := [AddNull];
  }

  /** s_json_node_iterate: the generator calls for a tree. */
  method Iterate(value: Node) returns (text: Text)
    requires value.Valid()
    ensures text == Emit(value.model)
    decreases value.repr, 1
  {
    match value.kind
    case KMap => text := IterateMap(value);
    case KArray => text := IterateArray(value);
    case _ => text := IterateScalar(value);
  }

  /** Each key and the calls for its value. */
  method IterateMap(value: Node) returns (text: Text)
    requires value.Valid() && value.kind == KMap
    ensures text == Emit(value.model)
    decreases value.repr, 0
  {
    var body: Text := [];
    ghost var fields := value.model.fields;
    for n := 0 to |value.values|
      invariant body == EmitFields(fields[..n])
    {
      var one := Iterate(value.values[n]);
      body := body + ([AddString(value.keys[n])] + one);
      assert fields[..n + 1][..n] == fields[..n];
    }
    assert fields[..|value.values|] == fields;
    text := [OpenMap] + body + [CloseMap];
  }

  method IterateArray(value: Node) returns (text: Text)
    requires value.Valid() && value.kind == KArray
    ensures text == Emit(value.model)
    decreases value.repr, 0
  {
    var body: Text := [];
    ghost var items := value.model.items;
    for n := 0 to |value.values|
      invariant body == EmitItems(items[..n])
    {
      var one := Iterate(value.values[n]);
      body := body + one;
      assert items[..n + 1][..n] == items[..n];
    }
    assert items[..|value.values|] == items;
    text := [OpenArray] + body + [CloseArray];
  }

  // ------------------------------------------------------------ insertion

  function IndexOf(keys: seq<string>, key: string): (at: nat)
    ensures at <= |keys| && (at < |keys| ==> keys[at] == key)
    ensures forall k :: 0 <= k < at ==> keys[k] != key
  {
    if keys == [] then 0 else if keys[0] == key then 0 else 1 + IndexOf(keys[1..], key)
  }

  function KeysOf(fields: seq<Field>): seq<string> {
    seq(|fields|, k requires 0 <= k < |fields| => fields[k].key)
  }

  /** A map with one key set: the value is replaced where the key stands, or added at the end. */
  function SetField(fields: seq<Field>, key: string, value: Json): seq<Field> {
    if fields == [] then [Field(key, value)]
    else if fields[0].key == key then [Field(key, value)] + fields[1..]
    else [fields[0]] + SetField(fields[1..], key, value)
  }

  lemma {:induction false} SetFieldAt(fields: seq<Field>, key: string, value: Json)
    ensures
      var at := IndexOf(KeysOf(fields), key);
      SetField(fields, key, value) ==
        if at < |fields| then fields[at := Field(key, value)] else fields + [Field(key, value)]
  {
    if fields != [] && fields[0].key != key {
      assert KeysOf(fields)[1..] == KeysOf(fields[1..]);
      SetFieldAt(fields[1..], key, value);
      assert fields == [fields[0]] + fields[1..];
    } else if fields != [] {
      assert KeysOf(fields)[0] == key;
    }
  }

  /** igs_json_node_insert on a map: the key then finds the new value, every other key finds its own. */
  lemma {:induction false} LookupSetField(fields: seq<Field>, key: string, value: Json, other: string)
    ensures Lookup(SetField(fields, key, value), other) ==
            if other == key then Some(value) else Lookup(fields, other)
  {
    if fields != [] {
      LookupSetField(fields[1..], key, value, other);
      assert ([Field(key, value)] + fields[1..])[1..] == fields[1..];
      assert ([fields[0]] + SetField(fields[1..], key, value))[1..] == SetField(fields[1..], key, value);
    } else {
      assert [Field(key, value)][1..] == [];
      assert Lookup([Field(key, value)][1..], other) == None;
    }
  }

  ghost predicate DistinctKeys(fields: seq<Field>) {
    forall k, l :: 0 <= k < l < |fields| ==> fields[k].key != fields[l].key
  }

  /** Keys stay distinct, and the keys that were there keep their order. */
  lemma SetFieldKeys(fields: seq<Field>, key: string, value: Json)
    requires DistinctKeys(fields)
    ensures DistinctKeys(SetField(fields, key, value))
    ensures KeysOf(SetField(fields, key, value)) ==
            KeysOf(fields) + if key in KeysOf(fields) then [] else [key]
  {
    SetFieldAt(fields, key, value);
    var at, keys, after := IndexOf(KeysOf(fields), key), KeysOf(fields), SetField(fields, key, value);
    if at < |fields| {
      assert keys[at] in keys;
      assert KeysOf(after) == keys;
      SameKeysDistinct(fields, after);
    } else {
      assert KeysOf(after) == keys + [key];
    }
  }

  lemma SameKeysDistinct(fields: seq<Field>, after: seq<Field>)
    requires DistinctKeys(fields) && KeysOf(after) == KeysOf(fields)
    ensures DistinctKeys(after)
  {
    assert |KeysOf(after)| == |KeysOf(fields)|;
    assert forall k :: 0 <= k < |fields| ==> after[k].key == KeysOf(after)[k] && fields[k].key == KeysOf(fields)[k];
  }

  lemma {:induction false} LookupAt(fields: seq<Field>, at: nat)
    requires DistinctKeys(fields) && at < |fields|
    ensures Lookup(fields, fields[at].key) == Some(fields[at].value)
  {
    if at > 0 {
      assert fields[0].key != fields[at].key;
      LookupAt(fields[1..], at - 1);
    }
  }

  /** Two lists of fields with the same distinct keys in order that answer every lookup alike are equal. */
  lemma LookupsDecide(fields: seq<Field>, others: seq<Field>)
    requires DistinctKeys(fields) && KeysOf(others) == KeysOf(fields)
    requires forall key :: key in KeysOf(fields) ==> Lookup(others, key) == Lookup(fields, key)
    ensures others == fields
  {
    SameKeysDistinct(fields, others);
    assert |KeysOf(others)| == |KeysOf(fields)|;
    forall k | 0 <= k < |fields|
      ensures others[k] == fields[k]
    {
      assert KeysOf(fields)[k] in KeysOf(fields) && KeysOf(others)[k] == KeysOf(fields)[k];
      LookupAt(fields, k);
      LookupAt(others, k);
    }
  }

  /** An insert is the only change that sets the key, keeps all other answers and adds no other key. */
  lemma InsertIsUnique(fields: seq<Field>, key: string, value: Json, after: seq<Field>)
    requires DistinctKeys(fields)
    requires KeysOf(after) == KeysOf(fields) + if key in KeysOf(fields) then [] else [key]
    requires forall other :: Lookup(after, other) == if other == key then Some(value) else Lookup(fields, other)
    ensures after == SetField(fields, key, value)
  {
    var inserted := SetField(fields, key, value);
    SetFieldKeys(fields, key, value);
    forall other
      ensures Lookup(inserted, other) == Lookup(after, other)
    {
      LookupSetField(fields, key, value, other);
    }
    LookupsDecide(inserted, after);
  }

  /** What igs_json_node_insert makes of a tree; a scalar is left alone. */
  function Inserted(parent: Json, key: string, value: Json): Json {
    match parent
    case JArray(items) => JArray(items + [value])
    case JMap(fields) => JMap(SetField(fields, key, value))
    case _ => parent
  }

  lemma LookupsAfterInsert(parent: Json, key: string, value: Json)
    requires parent.JMap?
    ensures Inserted(parent, key, value).JMap?
    ensures forall other :: Lookup(Inserted(parent, key, value).fields, other) ==
                            if other == key then Some(value) else Lookup(parent.fields, other)
  {
    forall other
      ensures Lookup(Inserted(parent, key, value).fields, other) ==
              if other == key then Some(value) else Lookup(parent.fields, other)
    {
      LookupSetField(parent.fields, key, value, other);
    }
  }

  /** What the C code needs of its arguments: it destroys and grows before it copies. */
  ghost predicate InsertAllowed(parent: Node, key: string, node: Node)
    reads parent, parent.values, node
  {
    parent.kind == KMap ==>
      && parent !in node.repr
      && forall k :: 0 <= k < |parent.values| && k < |parent.keys| && parent.keys[k] == key ==>
                       parent.values[k].repr !! node.repr
  }

  method AddItem(parent: Node, copy: Node)
    requires parent.Valid() && parent.kind == KArray && copy.Valid() && copy.repr !! parent.repr
    modifies parent
    ensures parent.Valid() && parent.kind == KArray && parent.repr == old(parent.repr) + copy.repr
    ensures parent.model == JArray(old(parent.model).items + [copy.model])
    ensures parent.values == old(parent.values) + [copy]
  {
    parent.values := parent.values + [copy];
    parent.model := JArray(parent.model.items + [copy.model]);
    parent.repr := parent.repr + copy.repr;
  }

  method ReplaceValue(parent: Node, index: nat, copy: Node)
    requires parent.Valid() && parent.kind == KMap && index < |parent.values|
    requires copy.Valid() && copy.repr !! parent.repr
    modifies parent
    ensures parent.Valid() && parent.kind == KMap && parent.repr == old(parent.repr) + copy.repr
    ensures parent.model == JMap(old(parent.model).fields[index := Field(old(parent.keys)[index], copy.model)])
    ensures parent.values == old(parent.values)[index := copy]
  {
    parent.values := parent.values[index := copy];
    parent.model := JMap(parent.model.fields[index := Field(parent.keys[index], copy.model)]);
    parent.repr := parent.repr + copy.repr;
  }

  method AddEntry(parent: Node, key: string, copy: Node)
    requires parent.Valid() && parent.kind == KMap && copy.Valid() && copy.repr !! parent.repr
    modifies parent
    ensures parent.Valid() && parent.kind == KMap && parent.repr == old(parent.repr) + copy.repr
    ensures parent.model == JMap(old(parent.model).fields + [Field(key, copy.model)])
    ensures parent.values == old(parent.values) + [copy]
  {
    parent.keys := parent.keys + [key];
    parent.values := parent.values + [copy];
    parent.model := JMap(parent.model.fields + [Field(key, copy.model)]);
    parent.repr := parent.repr + copy.repr;
    assert parent.Matches();
  }

  /** The map branch: the loop looks for the key, and its value is replaced or an entry is added. */
  method SetEntry(parent: Node, key: string, copy: Node)
    requires parent.Valid() && parent.kind == KMap && copy.Valid() && copy.repr !! parent.repr
    modifies parent
    ensures parent.Valid() && parent.kind == KMap && parent.repr == old(parent.repr) + copy.repr
    ensures parent.model == JMap(SetField(old(parent.model).fields, key, copy.model))
    ensures var at := IndexOf(old(parent.keys), key);
            parent.values == if at < |old(parent.values)| then old(parent.values)[at := copy] else old(parent.values) + [copy]
  {
    var index := 0;
    while index < |parent.keys| && parent.keys[index] != key
      invariant 0 <= index <= |parent.keys|
      invariant forall k :: 0 <= k < index ==> parent.keys[k] != key
    {
      index := index + 1;
    }
    SetFieldAt(parent.model.fields, key, copy.model);
    assert KeysOf(parent.model.fields) == parent.keys;
    if index < |parent.keys| {
      ReplaceValue(parent, index, copy);
    } else {
      AddEntry(parent, key, copy);
    }
  }

  /** igs_json_node_insert: all children stay in place but the one that has the key of a map. */
  method Insert(parent: Node, key: string, node: Node)
    requires parent.Valid() && node.Valid() && InsertAllowed(parent, key, node)
    modifies parent
    ensures parent.Valid() && fresh(parent.repr - old(parent.repr))
    ensures parent.model == Inserted(old(parent.model), key, old(node.model))
    ensures old(parent.model).JArray? ==> parent.model == JArray(old(parent.model).items + [old(node.model)])
    ensures old(parent.model).JMap? ==>
              parent.model.JMap? && forall other :: Lookup(parent.model.fields, other) ==
                                                    if other == key then Some(old(node.model))
                                                    else Lookup(old(parent.model).fields, other)
    ensures !old(parent.model).JArray? && !old(parent.model).JMap? ==> parent.model == old(parent.model)
    ensures |old(parent.values)| <= |parent.values|
    ensures forall k :: 0 <= k < |old(parent.values)| && !(parent.kind == KMap && k == IndexOf(old(parent.keys), key)) ==>
                          parent.values[k] == old(parent.values)[k]
  {
    if parent.kind == KMap {
      LookupsAfterInsert(parent.model, key, node.model);
    }
    var copy := Dup(node, node.repr);
    if parent.kind == KArray {
      AddItem(parent, copy);
    } else if parent.kind == KMap {
      SetEntry(parent, key, copy);
    }
  }
}
