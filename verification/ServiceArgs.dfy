/**
 * The linked lists of service arguments of src/igs_service.c, for calls and for definitions.
 */
module ServiceArgs {
  import opened Options
  import opened ZLists
  import opened Wire
  import opened Definitions
  import opened ModelWrite

  /** The content of an argument; its type is that of its value. */
  datatype CallArg = CallArg(name: Option<string>, description: Option<string>, value: Value, size: nat)

  /** An argument for a call: it has no name. */
  function NewArg(v: Value): CallArg {
    CallArg(None, None, v, SizeOf(v))
  }

  /** The memory of a new argument is zero. */
  function Blank(t: ValueType): Value {
    match t
    case IntegerT => IntV(0)
    case DoubleT => DoubleV(LittleEndian(0, DOUBLE_SIZE))
    case BoolT => BoolV(false)
    case StringT => StringV([])
    case ImpulsionT => ImpulsionV
    case DataT => DataV([])
    case UnknownT => UnknownV
  }

  /** How many bytes a type takes in an argument. */
  lemma SizesOfTypes(v: Value)
    ensures match v
            case BoolV(_) => SizeOf(v) == 1
            case IntV(_) => SizeOf(v) == 4
            case DoubleV(_) => SizeOf(v) == 8
            case StringV(mem) => SizeOf(v) == |mem|
            case DataV(data) => SizeOf(v) == |data|
            case ImpulsionV => SizeOf(v) == 0
            case UnknownV => SizeOf(v) == 0
  {
  }

  /** An argument of a definition. */
  function DefinedArg(name: string, t: ValueType): CallArg {
    CallArg(Some(name), None, Blank(t), SizeOf(Blank(t)))
  }

  /** It has its name and type, the size of that type, and no value yet. */
  ghost predicate IsDefined(a: CallArg, name: string, t: ValueType) {
    && a.name == Some(name) && a.description == None
    && (t.IntegerT? ==> a.value == IntV(0) && a.size == 4)
    && (t.DoubleT? ==> a.value.DoubleV? && (forall k :: 0 <= k < 8 ==> a.value.d[k] == 0 as char) && a.size == 8)
    && (t.BoolT? ==> a.value == BoolV(false) && a.size == 1)
    && (t.StringT? ==> a.value == StringV([]) && a.size == 0)
    && (t.DataT? ==> a.value == DataV([]) && a.size == 0)
  }

  lemma {:induction false} ZeroBytes(size: nat)
    ensures forall k :: 0 <= k < size ==> LittleEndian(0, size)[k] == 0 as char
  {
    if size > 0 {
      ZeroBytes(size - 1);
    }
  }

  lemma DefinedArgIs(name: string, t: ValueType)
    ensures IsDefined(DefinedArg(name, t), name, t)
  {
    ZeroBytes(DOUBLE_SIZE);
  }

  /** The list without its first argument of that name. */
  function WithoutArg(args: seq<CallArg>, name: string): seq<CallArg> {
    if args == [] then []
    else if args[0].name == Some(name) then args[1..]
    else [args[0]] + WithoutArg(args[1..], name)
  }

  /** A clone owns a copy of its string or data, and has no description. */
  function ClonedArg(a: CallArg): CallArg {
    CallArg(a.name, None, Duplicate(a.value), a.size)
  }

  /** Same name, size and value, but a string ends at its first NUL; the description is not copied. */
  ghost predicate IsClone(copy: CallArg, a: CallArg) {
    && copy.name == a.name && copy.size == a.size && copy.description == None
    && copy.value == if a.value.StringV? && a.value.mem != [] then StringV(CString(a.value.mem) + [0 as char]) else a.value
  }

  function Cloned(args: seq<CallArg>): seq<CallArg> {
    seq(|args|, i requires 0 <= i < |args| => ClonedArg(args[i]))
  }

  class ArgNode {
    var arg: CallArg
    var next: ArgNode?

    constructor (arg: CallArg)
      ensures this.arg == arg && next == null
    {
      this.arg, next := arg, null;
    }
  }

  /** The node at an index, or null behind the end. */
  function NodeAt(nodes: seq<ArgNode>, i: nat): ArgNode? {
    if i < |nodes| then nodes[i] else null
  }

  ghost predicate LeadsOn(nodes: seq<ArgNode>, i: nat)
    requires i < |nodes|
    reads nodes
  {
    nodes[i].next == NodeAt(nodes, i + 1)
  }

  /** The node before `at` leads to the one behind it. */
  ghost predicate LeadsPast(nodes: seq<ArgNode>, i: nat, at: nat)
    requires i < |nodes|
    reads nodes
  {
    nodes[i].next == NodeAt(nodes, if i + 1 == at then i + 2 else i + 1)
  }

  ghost predicate Linked(nodes: seq<ArgNode>)
    reads nodes
  {
    (forall i :: 0 <= i < |nodes| ==> LeadsOn(nodes, i)) && NoneTwice(nodes)
  }

  ghost predicate NoneTwice(nodes: seq<ArgNode>) {
    forall i, j :: 0 <= i < j < |nodes| ==> nodes[i] != nodes[j]
  }

  lemma CutNoneTwice(nodes: seq<ArgNode>, at: nat)
    requires at < |nodes| && NoneTwice(nodes)
    ensures NoneTwice(Cut(nodes, at))
  {
    var rest := Cut(nodes, at);
    assert forall k :: 0 <= k < |rest| ==> rest[k] == nodes[if k < at then k else k + 1];
  }

  ghost predicate Bypassed(nodes: seq<ArgNode>, at: nat)
    reads nodes
  {
    forall i :: 0 <= i < |nodes| ==> LeadsPast(nodes, i, at)
  }

  lemma CutLinkedAt(nodes: seq<ArgNode>, at: nat, k: nat)
    requires at < |nodes| && Bypassed(nodes, at) && k < |nodes| - 1
    ensures LeadsOn(Cut(nodes, at), k)
  {
    var rest := Cut(nodes, at);
    if k < at {
      assert LeadsPast(nodes, k, at);
      assert rest[k] == nodes[k];
    } else {
      assert LeadsPast(nodes, k + 1, at);
      assert rest[k] == nodes[k + 1];
    }
    assert NodeAt(rest, k + 1) == NodeAt(nodes, if k + 1 < at then k + 1 else k + 2);
  }

  lemma CutLinked(nodes: seq<ArgNode>, at: nat)
    requires at < |nodes| && NoneTwice(nodes) && Bypassed(nodes, at)
    ensures Linked(Cut(nodes, at))
  {
    CutNoneTwice(nodes, at);
    forall k | 0 <= k < |nodes| - 1
      ensures LeadsOn(Cut(nodes, at), k)
    {
      CutLinkedAt(nodes, at, k);
    }
  }

  lemma ArgsOfCut(nodes: seq<ArgNode>, at: nat, args: seq<CallArg>)
    requires at < |nodes| && ArgsOf(nodes) == args
    ensures ArgsOf(Cut(nodes, at)) == Cut(args, at)
  {
  }

  function ArgsOf(nodes: seq<ArgNode>): (args: seq<CallArg>)
    reads nodes
    ensures |args| == |nodes| && forall i :: 0 <= i < |nodes| ==> args[i] == nodes[i].arg
  {
    seq(|nodes|, i requires 0 <= i < |nodes| reads nodes => nodes[i].arg)
  }

  class ArgList {
    var first: ArgNode?
    ghost var nodes: seq<ArgNode>

    ghost predicate Valid()
      reads this, nodes
    {
      first == NodeAt(nodes, 0) && Linked(nodes)
    }

    ghost function Contents(): seq<CallArg>
      reads this, nodes
    {
      ArgsOf(nodes)
    }

    constructor ()
      ensures Valid() && nodes == []
    {
      first, nodes := null, [];
    }

    /** The walk to the end and the new node behind it. */
    method Append(arg: CallArg) returns (ghost added: ArgNode)
      requires Valid()
      modifies this, nodes
      ensures Valid() && Contents() == old(Contents()) + [arg]
      ensures fresh(added) && nodes == old(nodes) + [added]
    {
      var node := new ArgNode(arg);
      if first == null {
        first := node;
      } else {
        var last := first;
        ghost var i := 0;
        while last.next != null
          invariant 0 <= i < |nodes| && last == nodes[i] && LeadsOn(nodes, i)
          decreases |nodes| - i
        {
          last := last.next;
          i := i + 1;
        }
        last.next := node;
      }
      added := node;
      nodes := nodes + [node];
      forall k | 0 <= k < |nodes|
        ensures LeadsOn(nodes, k)
      {
        if k < |old(nodes)| {
          assert old(LeadsOn(nodes, k)) && nodes[k] == old(nodes)[k];
        }
      }
      assert Contents() == old(Contents()) + [arg];
    }

    /** igs_service_args_add_int, _bool, _double, _string and _data. */
    method AddValue(v: Value)
      requires Valid() && (v.IntV? || v.BoolV? || v.DoubleV? || v.StringV? || v.DataV?)
      modifies this, nodes
      ensures Valid() && Contents() == old(Contents()) + [NewArg(v)]
      ensures Contents() == old(Contents()) + [CallArg(None, None, v, SizeOf(v))]
    {
      ghost var added := Append(NewArg(v));
    }

    /** igsagent_service_arg_add: an impulsion and an unknown type are refused. */
    method DefineArg(name: string, t: ValueType) returns (ok: bool)
      requires Valid()
      modifies this, nodes
      ensures Valid() && (ok <==> !t.ImpulsionT? && !t.UnknownT?)
      ensures Contents() == old(Contents()) + if ok then [DefinedArg(name, t)] else []
      ensures ok ==> IsDefined(Contents()[|old(Contents())|], name, t)
    {
      ok := !t.ImpulsionT? && !t.UnknownT?;
      DefinedArgIs(name, t);
      if ok {
        ghost var added := Append(DefinedArg(name, t));
      }
    }

    /** The walk that stops at the first argument of that name. */
    method FindNamed(name: string) returns (arg: ArgNode?, previous: ArgNode?, ghost i: nat)
      requires Valid()
      ensures i <= |nodes| && arg == NodeAt(nodes, i)
      ensures previous == if i == 0 then null else nodes[i - 1]
      ensures forall k :: 0 <= k < i ==> nodes[k].arg.name != Some(name)
      ensures arg != null ==> arg.arg.name == Some(name)
    {
      arg, previous := first, null;
      i := 0;
      while arg != null && arg.arg.name != Some(name)
        invariant 0 <= i <= |nodes| && arg == NodeAt(nodes, i)
        invariant previous == if i == 0 then null else nodes[i - 1]
        invariant forall k :: 0 <= k < i ==> nodes[k].arg.name != Some(name)
        decreases |nodes| - i
      {
        assert LeadsOn(nodes, i);
        previous := arg;
        arg := arg.next;
        i := i + 1;
      }
    }

    /** The node at i is bypassed. */
    method Bypass(previous: ArgNode, arg: ArgNode, ghost i: nat)
      requires Valid() && 0 < i < |nodes| && arg == nodes[i] && previous == nodes[i - 1]
      modifies previous
      ensures first == old(first) && nodes == old(nodes) && Bypassed(nodes, i) && Contents() == old(Contents())
    {
      assert LeadsOn(nodes, i);
      previous.next := arg.next;
      forall k | 0 <= k < |nodes|
        ensures LeadsPast(nodes, k, i)
      {
        assert old(LeadsOn(nodes, k));
      }
    }

    method UnlinkAfter(previous: ArgNode, arg: ArgNode, ghost i: nat)
      requires Valid() && 0 < i < |nodes| && arg == nodes[i] && previous == nodes[i - 1]
      modifies this, nodes
      ensures Valid() && Contents() == Cut(old(Contents()), i)
    {
      ghost var args := Contents();
      Bypass(previous, arg, i);
      CutLinked(nodes, i);
      ArgsOfCut(nodes, i, args);
      assert NodeAt(nodes, 0) == NodeAt(Cut(nodes, i), 0);
      nodes := Cut(nodes, i);
    }

    method UnlinkFirst()
      requires Valid() && first != null
      modifies this
      ensures Valid() && Contents() == Cut(old(Contents()), 0)
    {
      ghost var args := Contents();
      assert LeadsOn(nodes, 0);
      first := first.next;
      forall k | 0 <= k < |nodes|
        ensures LeadsPast(nodes, k, 0)
      {
        assert LeadsOn(nodes, k);
      }
      CutLinked(nodes, 0);
      ArgsOfCut(nodes, 0, args);
      nodes := Cut(nodes, 0);
    }

    /** igsagent_service_arg_remove: the first argument of that name is unlinked. */
    method RemoveNamed(name: string) returns (found: bool)
      requires Valid()
      modifies this, nodes
      ensures Valid() && Contents() == WithoutArg(old(Contents()), name)
      ensures found <==> exists a :: a in old(Contents()) && a.name == Some(name)
    {
      var arg, previous, i := FindNamed(name);
      WithoutArgAt(Contents(), i, name);
      found := arg != null;
      if arg != null {
        if previous != null {
          UnlinkAfter(previous, arg, i);
        } else {
          UnlinkFirst();
        }
      }
    }

    /** igs_service_args_clone */
    method Clone() returns (copy: ArgList)
      requires Valid() && first != null
      ensures Valid() && copy.Valid() && fresh(copy) && fresh(copy.nodes)
      ensures copy.Contents() == Cloned(Contents())
      ensures |copy.Contents()| == |Contents()|
      ensures forall k :: 0 <= k < |Contents()| ==> IsClone(copy.Contents()[k], Contents()[k])
    {
      copy := new ArgList();
      var arg := first;
      ghost var i, args := 0, Contents();
      while arg != null
        invariant 0 <= i <= |nodes| && arg == NodeAt(nodes, i)
        invariant copy.Valid() && fresh(copy) && fresh(copy.nodes)
        invariant copy.Contents() == Cloned(args[..i])
        decreases |nodes| - i
      {
        ClonedStep(args, i);
        assert arg == nodes[i] && arg.arg == args[i] && LeadsOn(nodes, i);
        ghost var added := copy.Append(ClonedArg(arg.arg));
        arg := arg.next;
        i := i + 1;
      }
      assert args[..i] == args;
    }
  }

  lemma ClonedStep(args: seq<CallArg>, i: nat)
    requires i < |args|
    ensures Cloned(args[..i + 1]) == Cloned(args[..i]) + [ClonedArg(args[i])]
  {
  }

  lemma {:induction false} WithoutArgAt(args: seq<CallArg>, i: nat, name: string)
    requires i <= |args| && forall k :: 0 <= k < i ==> args[k].name != Some(name)
    requires i < |args| ==> args[i].name == Some(name)
    ensures WithoutArg(args, name) == if i < |args| then Cut(args, i) else args
    ensures i < |args| <==> exists a :: a in args && a.name == Some(name)
  {
    if i < |args| {
      assert args[i] in args;
    }
    if args == [] {
    } else if i == 0 {
      assert Cut(args, 0) == args[1..];
    } else {
      WithoutArgAt(args[1..], i - 1, name);
      CutCons(args, i);
    }
  }

  lemma CutCons(args: seq<CallArg>, i: nat)
    requires 0 < i <= |args|
    ensures [args[0]] + args[1..] == args
    ensures i < |args| ==> args[1..][i - 1] == args[i]
    ensures i < |args| ==> [args[0]] + Cut(args[1..], i - 1) == Cut(args, i)
  {
  }

  /** Adding an argument with a new name and removing that name leaves the list as it was. */
  lemma RemoveUndoesAdd(args: seq<CallArg>, name: string, t: ValueType)
    requires forall a :: a in args ==> a.name != Some(name)
    ensures WithoutArg(args + [DefinedArg(name, t)], name) == args
  {
    var all := args + [DefinedArg(name, t)];
    assert forall k :: 0 <= k < |args| ==> all[k] in args;
    WithoutArgAt(all, |args|, name);
    assert Cut(all, |args|) == args;
  }
}
