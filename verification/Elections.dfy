/**
 * Elections between agents: igsagent_election_join and igsagent_election_leave, and the
 * groups a node joins when it starts (src/igs_network.c).
 *
 * The same facts are kept three times: who takes part in each election, which elections
 * each agent takes part in, and which groups the live node has joined.
 */
module Elections {
  import opened Options
  import opened ZLists
  import opened Definitions
  import opened DefinedAgents

  const PRIVATE_CHANNEL := "INGESCAPE_PRIVATE"
  const PREFIX := "\\o/ "
  const MAX_ELECTION_NAME: nat := 255

  type Lists = map<string, seq<string>>

  datatype State = State(
    /** The agents of each election, from context->elections. */
    attendees: Lists,
    /** The elections of each agent, from agent->elections. */
    joined: Lists,
    /** The groups of the node while it is live. */
    groups: Option<set<string>>)

  datatype Op =
    | Join(agent: string, name: string)
    | Leave(agent: string, name: string)
    | Start
    | Stop

  predicate Fits(name: string) {
    |name| + |PREFIX| <= MAX_ELECTION_NAME
  }

  predicate Has(lists: Lists, key: string, x: string) {
    key in lists && x in lists[key]
  }

  function Add(lists: Lists, key: string, x: string): Lists {
    lists[key := (if key in lists then lists[key] else []) + [x]]
  }

  /** Lists do not stay when they become empty. */
  function Drop(lists: Lists, key: string, x: string): Lists {
    if key !in lists then lists
    else
      var rest := Without(lists[key], x);
      if rest == [] then lists - {key} else lists[key := rest]
  }

  function WithGroup(groups: Option<set<string>>, group: string): Option<set<string>> {
    match groups
    case None => None
    case Some(all) => Some(all + {group})
  }

  function WithoutGroup(groups: Option<set<string>>, group: string): Option<set<string>> {
    match groups
    case None => None
    case Some(all) => Some(all - {group})
  }

  /** The last one in a list, or the only one in a new list; nothing else changes. */
  ghost predicate Joins(was: Lists, now: Lists, key: string, x: string) {
    && now.Keys == was.Keys + {key}
    && now[key] == (if key in was then was[key] + [x] else [x])
    && forall k :: k in was && k != key ==> now[k] == was[k]
  }

  lemma AddJoins(lists: Lists, key: string, x: string)
    ensures Joins(lists, Add(lists, key, x), key, x)
  {
  }

  predicate JoinWorks(s: State, agent: string, name: string) {
    name != PRIVATE_CHANNEL && Fits(name) && !Has(s.attendees, PREFIX + name, agent)
  }

  /** Leaving succeeds for an agent without elections, and else when somebody takes part in that one. */
  predicate LeaveWorks(s: State, agent: string, name: string) {
    agent in s.joined ==> Fits(name) && PREFIX + name in s.attendees
  }

  function Step(s: State, op: Op): State {
    match op
    case Join(agent, name) =>
      if !JoinWorks(s, agent, name) then s
      else
        var e := PREFIX + name;
        State(Add(s.attendees, e, agent), Add(s.joined, agent, e),
              if e in s.attendees then s.groups else WithGroup(s.groups, e))
    case Leave(agent, name) =>
      if agent !in s.joined || !LeaveWorks(s, agent, name) then s
      else
        var e := PREFIX + name;
        var attendees := Drop(s.attendees, e, agent);
        State(attendees, Drop(s.joined, agent, e),
              if e in attendees then s.groups else WithoutGroup(s.groups, e))
    case Start => s.(groups := Some({PRIVATE_CHANNEL} + s.attendees.Keys))
    case Stop => s.(groups := None)
  }

  const INITIAL := State(map[], map[], None)

  function Run(ops: seq<Op>): State {
    if ops == [] then INITIAL else Step(Run(ops[..|ops| - 1]), ops[|ops| - 1])
  }

  // ------------------------------------------------------------ what every step keeps

  ghost predicate ListsOk(lists: Lists) {
    forall k :: k in lists ==> lists[k] != [] && Distinct(lists[k])
  }

  ghost predicate Agree(attendees: Lists, joined: Lists) {
    forall e, u :: Has(attendees, e, u) <==> Has(joined, u, e)
  }

  ghost predicate NamesOk(attendees: Lists) {
    forall e :: e in attendees ==> PREFIX <= e && |e| <= MAX_ELECTION_NAME && e != PREFIX + PRIVATE_CHANNEL
  }

  ghost predicate Inv(s: State) {
    && ListsOk(s.attendees)
    && ListsOk(s.joined)
    && Agree(s.attendees, s.joined)
    && NamesOk(s.attendees)
    && (s.groups.Some? ==> s.groups.value == {PRIVATE_CHANNEL} + s.attendees.Keys)
  }

  lemma {:induction false} WithoutMembers(names: seq<string>, name: string)
    requires Distinct(names)
    ensures Distinct(Without(names, name))
    ensures forall x :: x in Without(names, name) <==> x in names && x != name
  {
    if name in names {
      WithoutOk(names, name);
      assert forall x :: x in Without(names, name) <==> x in NameSet(Without(names, name));
    } else {
      WithoutAbsent(names, name);
    }
  }

  lemma {:induction false} WithoutAbsent(names: seq<string>, name: string)
    requires name !in names
    ensures Without(names, name) == names
  {
    if names != [] {
      WithoutAbsent(names[1..], name);
    }
  }

  lemma AddKeeps(lists: Lists, key: string, x: string)
    requires ListsOk(lists) && !Has(lists, key, x)
    ensures ListsOk(Add(lists, key, x))
    ensures forall k, y :: Has(Add(lists, key, x), k, y) <==> Has(lists, k, y) || (k == key && y == x)
  {
    var was := if key in lists then lists[key] else [];
    var now := was + [x];
    assert forall i :: 0 <= i < |was| ==> was[i] in was;
    assert forall y :: y in now <==> y in was || y == x;
  }

  lemma DropKeeps(lists: Lists, key: string, x: string)
    requires ListsOk(lists)
    ensures ListsOk(Drop(lists, key, x))
    ensures forall k, y :: Has(Drop(lists, key, x), k, y) <==> Has(lists, k, y) && !(k == key && y == x)
    ensures forall k :: k in Drop(lists, key, x) ==> k in lists
  {
    if key in lists {
      WithoutMembers(lists[key], x);
    }
  }

  lemma JoinKeeps(s: State, agent: string, name: string)
    requires Inv(s) && JoinWorks(s, agent, name)
    ensures Inv(Step(s, Join(agent, name)))
  {
    var e := PREFIX + name;
    SamePrefix(name, PRIVATE_CHANNEL);
    AddKeeps(s.attendees, e, agent);
    assert !Has(s.joined, agent, e);
    AddKeeps(s.joined, agent, e);
    var now := Step(s, Join(agent, name));
    assert now.attendees.Keys == s.attendees.Keys + {e};
  }

  lemma DropKeys(lists: Lists, key: string, x: string)
    ensures Drop(lists, key, x).Keys == if key in Drop(lists, key, x) then lists.Keys else lists.Keys - {key}
  {
  }

  lemma LeaveKeeps(s: State, agent: string, name: string)
    requires Inv(s) && agent in s.joined && LeaveWorks(s, agent, name)
    ensures Inv(Step(s, Leave(agent, name)))
  {
    var e := PREFIX + name;
    DropKeeps(s.attendees, e, agent);
    DropKeeps(s.joined, agent, e);
    DropKeys(s.attendees, e, agent);
    assert e != PRIVATE_CHANNEL by { assert e[0] != PRIVATE_CHANNEL[0]; }
  }

  /**
   * Agents and elections list each other, no list is empty or has a duplicate, and the groups
   * of a live node are the private channel and the elections that somebody takes part in.
   */
  lemma StepKeeps(s: State, op: Op)
    requires Inv(s)
    ensures Inv(Step(s, op))
  {
    match op
    case Join(agent, name) => if JoinWorks(s, agent, name) { JoinKeeps(s, agent, name); }
    case Leave(agent, name) =>
      if agent in s.joined && LeaveWorks(s, agent, name) { LeaveKeeps(s, agent, name); }
    case Start =>
    case Stop =>
  }

  lemma {:induction false} EveryRun(ops: seq<Op>)
    ensures Inv(Run(ops))
  {
    if ops != [] {
      EveryRun(ops[..|ops| - 1]);
      StepKeeps(Run(ops[..|ops| - 1]), ops[|ops| - 1]);
    }
  }

  // ------------------------------------------------------------ what a run amounts to

  /** The last word about an agent and an election. */
  predicate TakesPart(ops: seq<Op>, agent: string, name: string) {
    if ops == [] then false
    else
      var last := ops[|ops| - 1];
      if last == Join(agent, name) then name != "INGESCAPE_PRIVATE" && |name| + 4 <= 255
      else if last == Leave(agent, name) then false
      else TakesPart(ops[..|ops| - 1], agent, name)
  }

  /** The last word about the node. */
  predicate Live(ops: seq<Op>) {
    ops != [] && (ops[|ops| - 1].Start? || (!ops[|ops| - 1].Stop? && Live(ops[..|ops| - 1])))
  }

  lemma StepMembers(s: State, op: Op, agent: string, name: string)
    requires Inv(s)
    ensures Has(Step(s, op).attendees, PREFIX + name, agent) <==>
            if op == Join(agent, name) then name != PRIVATE_CHANNEL && Fits(name)
            else if op == Leave(agent, name) then false
            else Has(s.attendees, PREFIX + name, agent)
  {
    var e := PREFIX + name;
    assert !Fits(name) ==> e !in s.attendees;
    match op
    case Join(a, n) =>
      SamePrefix(n, name);
      if JoinWorks(s, a, n) { AddKeeps(s.attendees, PREFIX + n, a); }
    case Leave(a, n) =>
      SamePrefix(n, name);
      assert Has(s.attendees, e, agent) <==> Has(s.joined, agent, e);
      if a in s.joined && LeaveWorks(s, a, n) { DropKeeps(s.attendees, PREFIX + n, a); }
    case Start =>
    case Stop =>
  }

  lemma SamePrefix(n: string, name: string)
    ensures PREFIX + n == PREFIX + name <==> n == name
  {
    assert (PREFIX + n)[|PREFIX|..] == n;
    assert (PREFIX + name)[|PREFIX|..] == name;
  }

  /** An agent takes part in an election exactly when its last word about it was to join. */
  lemma {:induction false} RunMembers(ops: seq<Op>, agent: string, name: string)
    ensures Has(Run(ops).attendees, PREFIX + name, agent) <==> TakesPart(ops, agent, name)
  {
    if ops != [] {
      var init := ops[..|ops| - 1];
      RunMembers(init, agent, name);
      EveryRun(init);
      StepMembers(Run(init), ops[|ops| - 1], agent, name);
    }
  }

  /** Joining fails just for a bad name or an agent that takes part already. */
  lemma JoinWorksIff(ops: seq<Op>, agent: string, name: string)
    ensures JoinWorks(Run(ops), agent, name) <==>
            name != "INGESCAPE_PRIVATE" && |name| + 4 <= 255 && !TakesPart(ops, agent, name)
  {
    RunMembers(ops, agent, name);
  }

  /** Leaving fails just for an agent that takes part somewhere, when nobody takes part in that election. */
  lemma LeaveWorksIff(ops: seq<Op>, agent: string, name: string)
    ensures LeaveWorks(Run(ops), agent, name) <==>
            ((exists other :: TakesPart(ops, agent, other)) ==> exists a :: TakesPart(ops, a, name))
  {
    SomeElectionIff(ops, agent);
    SomeAttendeeIff(ops, name);
    EveryRun(ops);
    if PREFIX + name in Run(ops).attendees {
      assert Fits(name);
    }
  }

  lemma SomeAttendeeIff(ops: seq<Op>, name: string)
    ensures PREFIX + name in Run(ops).attendees <==> exists agent :: TakesPart(ops, agent, name)
  {
    var s, e := Run(ops), PREFIX + name;
    EveryRun(ops);
    if e in s.attendees {
      var first := s.attendees[e][0];
      assert Has(s.attendees, e, first);
      RunMembers(ops, first, name);
    } else {
      forall agent
        ensures !TakesPart(ops, agent, name)
      {
        RunMembers(ops, agent, name);
      }
    }
  }

  lemma SomeElectionIff(ops: seq<Op>, agent: string)
    ensures agent in Run(ops).joined <==> exists name :: TakesPart(ops, agent, name)
  {
    var s := Run(ops);
    EveryRun(ops);
    if agent in s.joined {
      var e := s.joined[agent][0];
      assert Has(s.joined, agent, e);
      assert Has(s.attendees, e, agent);
      var name := e[|PREFIX|..];
      assert e == PREFIX + name;
      RunMembers(ops, agent, name);
    } else {
      forall name
        ensures !TakesPart(ops, agent, name)
      {
        RunMembers(ops, agent, name);
        assert !Has(s.joined, agent, PREFIX + name);
      }
    }
  }

  lemma {:induction false} RunLive(ops: seq<Op>)
    ensures Run(ops).groups.Some? <==> Live(ops)
  {
    if ops != [] {
      RunLive(ops[..|ops| - 1]);
    }
  }

  /** The node is in the group of an election exactly when it is live and some agent takes part. */
  lemma GroupJoinedIff(ops: seq<Op>, name: string)
    ensures Run(ops).groups.Some? <==> Live(ops)
    ensures Live(ops) ==>
              && "INGESCAPE_PRIVATE" in Run(ops).groups.value
              && ("\\o/ " + name in Run(ops).groups.value <==> exists agent :: TakesPart(ops, agent, name))
  {
    var e := PREFIX + name;
    EveryRun(ops);
    RunLive(ops);
    SomeAttendeeIff(ops, name);
    assert e != PRIVATE_CHANNEL by { assert e[0] != PRIVATE_CHANNEL[0]; }
  }

  /** And in no other group but the private channel. */
  lemma OnlyElectionGroups(ops: seq<Op>, group: string)
    requires Live(ops) && Run(ops).groups.Some? && group in Run(ops).groups.value && group != "INGESCAPE_PRIVATE"
    ensures exists name :: group == "\\o/ " + name
  {
    EveryRun(ops);
    assert group == "\\o/ " + group[4..];
  }

  lemma DropUndoesAdd(lists: Lists, key: string, x: string)
    requires ListsOk(lists) && !Has(lists, key, x)
    ensures Drop(Add(lists, key, x), key, x) == lists
  {
    var was := if key in lists then lists[key] else [];
    WithoutLast(was, x);
  }

  /** An agent that joins and leaves at once leaves no trace. */
  lemma LeaveUndoesJoin(s: State, agent: string, name: string)
    requires Inv(s) && JoinWorks(s, agent, name)
    ensures LeaveWorks(Step(s, Join(agent, name)), agent, name)
    ensures Step(Step(s, Join(agent, name)), Leave(agent, name)) == s
  {
    var e := PREFIX + name;
    assert !Has(s.joined, agent, e);
    DropUndoesAdd(s.attendees, e, agent);
    DropUndoesAdd(s.joined, agent, e);
    assert e != PRIVATE_CHANNEL by { assert e[0] != PRIVATE_CHANNEL[0]; }
    if s.groups.Some? && e !in s.attendees {
      assert s.groups.value + {e} - {e} == s.groups.value;
    }
  }

  /** The elections of the context, with the walks over the lists. */
  class ElectionContext {
    var attendees: Lists
    var joined: Lists
    var groups: Option<set<string>>

    function Value(): State
      reads this
    {
      State(attendees, joined, groups)
    }

    constructor ()
      ensures Value() == INITIAL && Inv(Value())
    {
      attendees, joined, groups := map[], map[], None;
    }

    /** s_init_loop: a node that starts joins the private channel and the groups of all elections. */
    method Start(keys: seq<string>)
      requires Inv(Value()) && NameSet(keys) == attendees.Keys
      modifies this
      ensures Value() == Step(old(Value()), Op.Start) && Inv(Value())
    {
      StepKeeps(Value(), Op.Start);
      var live := {PRIVATE_CHANNEL};
      var i := 0;
      while i < |keys|
        invariant 0 <= i <= |keys|
        invariant live == {PRIVATE_CHANNEL} + NameSet(keys[..i])
      {
        assert keys[..i + 1] == keys[..i] + [keys[i]];
        live := live + {keys[i]};
        i := i + 1;
      }
      assert keys[..i] == keys;
      groups := Some(live);
    }

    method Stop()
      requires Inv(Value())
      modifies this
      ensures Value() == Step(old(Value()), Op.Stop) && Inv(Value())
    {
      groups := None;
    }

    method ElectionJoin(agent: string, name: string) returns (ok: bool)
      requires Inv(Value())
      modifies this
      ensures Value() == Step(old(Value()), Join(agent, name)) && Inv(Value())
      ensures ok == JoinWorks(old(Value()), agent, name)
      ensures ok ==> Joins(old(attendees), attendees, PREFIX + name, agent)
      ensures ok ==> Joins(old(joined), joined, agent, PREFIX + name)
    {
      AddJoins(attendees, PREFIX + name, agent);
      AddJoins(joined, agent, PREFIX + name);
      ok := JoinElection(agent, name);
    }

    method JoinElection(agent: string, name: string) returns (ok: bool)
      requires Inv(Value())
      modifies this
      ensures Value() == Step(old(Value()), Join(agent, name)) && Inv(Value())
      ensures ok == JoinWorks(old(Value()), agent, name)
    {
      StepKeeps(Value(), Join(agent, name));
      ok := name != PRIVATE_CHANNEL && |name| + |PREFIX| <= MAX_ELECTION_NAME;
      if ok {
        var e := PREFIX + name;
        var election: seq<string> := [];
        if e !in attendees {
          groups := WithGroup(groups, e);
        } else {
          election := attendees[e];
          var found := IsListed(election, agent);
          ok := !found;
        }
        if ok {
          var others := if agent in joined then joined[agent] else [];
          attendees := attendees[e := election + [agent]];
          joined := joined[agent := others + [e]];
        }
      }
    }

    method ElectionLeave(agent: string, name: string) returns (ok: bool)
      requires Inv(Value())
      modifies this
      ensures Value() == Step(old(Value()), Leave(agent, name)) && Inv(Value())
      ensures ok == LeaveWorks(old(Value()), agent, name)
      ensures agent !in old(joined) || !ok ==> Value() == old(Value())
    {
      StepKeeps(Value(), Leave(agent, name));
      ok := true;
      if agent in joined {
        var e := PREFIX + name;
        ok := |name| + |PREFIX| <= MAX_ELECTION_NAME && e in attendees;
        if ok {
          var rest := RemoveOne(attendees[e], agent);
          if rest == [] {
            attendees := attendees - {e};
            groups := WithoutGroup(groups, e);
          } else {
            attendees := attendees[e := rest];
          }
          var others := RemoveOne(joined[agent], e);
          joined := if others == [] then joined - {agent} else joined[agent := others];
        }
      }
    }
  }

  /** The walk that looks for an agent among the attendees. */
  method IsListed(items: seq<string>, name: string) returns (found: bool)
    ensures found <==> name in items
  {
    found := false;
    var i := 0;
    while i < |items| && !found
      invariant 0 <= i <= |items|
      invariant found <==> name in items[..i]
    {
      found := items[i] == name;
      i := i + 1;
    }
  }

  /** The walk that removes the first item equal to a name and stops. */
  method RemoveOne(items: seq<string>, name: string) returns (rest: seq<string>)
    ensures rest == Without(items, name)
  {
    var i := 0;
    while i < |items| && items[i] != name
      invariant 0 <= i <= |items|
      invariant items[..i] + Without(items[i..], name) == Without(items, name)
    {
      WithoutStep(items[..i], items[i..], name);
      i := i + 1;
    }
    rest := if i < |items| then Cut(items, i) else items;
  }

  lemma WithoutStep(front: seq<string>, items: seq<string>, name: string)
    requires items != [] && items[0] != name
    ensures front + Without(items, name) == (front + [items[0]]) + Without(items[1..], name)
  {
  }
}
