/**
 * What a run leaves in the tables, told by the steps of the run alone: the definition of a
 * remote agent, the mapping and inputs of a local one, and the reason of every filter.
 */
module NetworkHistory {
  import opened Options
  import opened NetworkState
  import opened NetworkProofs

  // ------------------------------------------------------------ which filters there are

  /** The filter of an output: the id of its publications, cut at 1056 characters. */
  ghost predicate IsFilterOf(f: string, u: string, output: string) {
    var id := u + "-" + output;
    f == if |id| <= 1056 then id else id[..1056]
  }

  /** A link from an input of l to a named output of the remote agent, which it names or maps with "*". */
  ghost predicate Reaches(link: Link, l: Local, name: string, outputs: set<string>) {
    && (link.agent == name || link.agent == "*")
    && link.output in outputs && link.output != "" && link.input in l.inputs
  }

  ghost predicate LinkFor(l: Local, i: nat, u: string, name: string, outputs: set<string>, f: string) {
    i < |l.mapping| && Reaches(l.mapping[i], l, name, outputs) && IsFilterOf(f, u, l.mapping[i].output)
  }

  /** Some link of l asks for this filter of a remote agent. */
  ghost predicate Asks(l: Local, u: string, name: string, outputs: set<string>, f: string) {
    exists i: nat :: LinkFor(l, i, u, name, outputs, f)
  }

  lemma {:induction false} ConfiguredFilters(l: Local, u: string, r: Remote, n: nat, f: string)
    requires n <= |l.mapping|
    ensures f in Configured(l, u, r, n).filters <==>
            f in r.filters || exists i: nat :: i < n && LinkFor(l, i, u, r.name, r.outputs, f)
  {
    if n > 0 {
      ConfiguredFilters(l, u, r, n - 1, f);
      ConfiguredGrows(l, u, r, n - 1);
      var before, output := Configured(l, u, r, n - 1), l.mapping[n - 1].output;
      assert f in Configured(l, u, r, n).filters <==> f in before.filters || LinkFor(l, n - 1, u, r.name, r.outputs, f);
    }
  }

  /** Configuring a pair adds the filters that its links ask for, and no others. */
  lemma ConfigureFilters(l: Local, u: string, r: Remote, f: string)
    ensures f in Configure(l, u, r).filters <==> f in r.filters || Asks(l, u, r.name, r.outputs, f)
  {
    ConfiguredFilters(l, u, r, |l.mapping|, f);
  }

  /** A covered pair has every filter that is asked for. */
  lemma CoveredIff(l: Local, u: string, r: Remote)
    ensures Covered(l, u, r) <==> forall f :: Asks(l, u, r.name, r.outputs, f) ==> f in r.filters
  {
    if Covered(l, u, r) {
      forall f | Asks(l, u, r.name, r.outputs, f)
        ensures f in r.filters
      {
        var i: nat :| LinkFor(l, i, u, r.name, r.outputs, f);
        assert f == Filter(u, l.mapping[i].output);
      }
    }
    if forall f :: Asks(l, u, r.name, r.outputs, f) ==> f in r.filters {
      forall i | 0 <= i < |l.mapping| && Matches(l.mapping[i], l, r) && l.mapping[i].output != ""
        ensures Filter(u, l.mapping[i].output) in r.filters
      {
        assert LinkFor(l, i, u, r.name, r.outputs, Filter(u, l.mapping[i].output));
      }
    }
  }

  /** Some local agent of the list asks for this filter. */
  ghost predicate AnyAsks(locals: map<string, Local>, order: seq<string>, u: string, name: string, outputs: set<string>,
                          f: string) {
    exists k :: 0 <= k < |order| && order[k] in locals && Asks(locals[order[k]], u, name, outputs, f)
  }

  lemma AnyAsksLast(locals: map<string, Local>, order: seq<string>, a: string, u: string, name: string,
                    outputs: set<string>, f: string)
    requires a in locals
    ensures AnyAsks(locals, order + [a], u, name, outputs, f) <==>
            AnyAsks(locals, order, u, name, outputs, f) || Asks(locals[a], u, name, outputs, f)
  {
    var more := order + [a];
    assert more[|order|] == a;
    if AnyAsks(locals, order, u, name, outputs, f) {
      var k :| 0 <= k < |order| && order[k] in locals && Asks(locals[order[k]], u, name, outputs, f);
      assert more[k] == order[k];
    }
  }

  lemma {:induction false} ConfigureForFilters(locals: map<string, Local>, order: seq<string>, u: string, r: Remote,
                                               f: string)
    requires forall a :: a in order ==> a in locals
    ensures f in ConfigureFor(locals, order, u, r).filters <==>
            f in r.filters || AnyAsks(locals, order, u, r.name, r.outputs, f)
  {
    if order != [] {
      var init, last := order[..|order| - 1], order[|order| - 1];
      ConfigureForFilters(locals, init, u, r, f);
      ConfigureForCovers(locals, init, u, r);
      ConfigureFilters(locals[last], u, ConfigureFor(locals, init, u, r), f);
      AnyAsksLast(locals, init, last, u, r.name, r.outputs, f);
      assert init + [last] == order;
    }
  }

  // ------------------------------------------------------------ what the handlers change, field by field

  /** Same agent, and its filters are those it had and those that l asks for. */
  ghost predicate Follows(was: Remote, now: Remote, l: Local, u: string) {
    && now == was.(filters := now.filters)
    && was.filters <= now.filters
    && forall f :: f in now.filters <==> f in was.filters || Asks(l, u, was.name, was.outputs, f)
  }

  lemma ConfigureFollows(l: Local, u: string, r: Remote)
    ensures Follows(r, Configure(l, u, r), l, u)
  {
    ConfigureCovers(l, u, r);
    forall f
      ensures f in Configure(l, u, r).filters <==> f in r.filters || Asks(l, u, r.name, r.outputs, f)
    {
      ConfigureFilters(l, u, r, f);
    }
  }

  /** All remote agents follow l. */
  ghost predicate AllFollow(was: map<string, Remote>, now: map<string, Remote>, l: Local) {
    now.Keys == was.Keys && forall u :: u in was ==> Follows(was[u], now[u], l, u)
  }

  lemma ConfigureRemotesFollow(l: Local, remotes: map<string, Remote>)
    ensures AllFollow(remotes, ConfigureRemotes(l, remotes), l)
  {
    forall u | u in remotes
      ensures Follows(remotes[u], ConfigureRemotes(l, remotes)[u], l, u)
    {
      ConfigureFollows(l, u, remotes[u]);
    }
  }

  lemma MappingLoaded(s: Net, a: string, links: Option<seq<Link>>)
    ensures var t := Next(s, LoadMapping(a, links));
            if a !in s.locals || links.None? then t == s
            else
              && t.peers == s.peers && t.log == s.log
              && t.locals == s.locals[a := s.locals[a].(mapping := links.value, mappingDirty := true)]
              && AllFollow(s.remotes, t.remotes, t.locals[a])
  {
    if a in s.locals && links.Some? {
      ConfigureRemotesFollow(s.locals[a].(mapping := links.value, mappingDirty := true), s.remotes);
    }
  }

  /** A mapping that is to be announced is configured with every remote agent, and its flag is cleared. */
  lemma MappingSent(s: Net, a: string)
    ensures var t := Next(s, AnnounceMapping(a));
            if a !in s.locals || !s.locals[a].mappingDirty then t == s
            else
              && t.peers == s.peers && t.log == s.log
              && t.locals == s.locals[a := s.locals[a].(mappingDirty := false)]
              && AllFollow(s.remotes, t.remotes, s.locals[a])
  {
    if a in s.locals {
      ConfigureRemotesFollow(s.locals[a], s.remotes);
    }
  }

  lemma DefinitionLoaded(s: Net, a: string, inputs: Option<set<string>>)
    ensures var t := Next(s, LoadDefinition(a, inputs));
            if a !in s.locals || inputs.None? then t == s
            else
              && t.peers == s.peers && t.log == s.log
              && t.locals == s.locals[a := s.locals[a].(inputs := inputs.value, definitionDirty := true)]
              && AllFollow(s.remotes, t.remotes, t.locals[a])
  {
    if a in s.locals && inputs.Some? {
      ConfigureRemotesFollow(s.locals[a].(inputs := inputs.value, definitionDirty := true), s.remotes);
    }
  }

  /** Some local agent asks for this filter. */
  ghost predicate Asked(locals: map<string, Local>, u: string, name: string, outputs: set<string>, f: string) {
    exists a :: a in locals && Asks(locals[a], u, name, outputs, f)
  }

  lemma AnyAsksIff(locals: map<string, Local>, order: seq<string>, u: string, name: string, outputs: set<string>,
                   f: string)
    requires Lists(order, locals.Keys)
    ensures AnyAsks(locals, order, u, name, outputs, f) <==> Asked(locals, u, name, outputs, f)
  {
    ListedIn(order, locals.Keys);
    if Asked(locals, u, name, outputs, f) {
      var a :| a in locals && Asks(locals[a], u, name, outputs, f);
      assert a in order;
      var k :| 0 <= k < |order| && order[k] == a;
      assert order[k] in locals && Asks(locals[order[k]], u, name, outputs, f);
    }
  }

  /**
   * A definition is stored: name and outputs are the new ones, the peer and whether there is a
   * mapping are kept, or those of a new agent, and just the filters that are asked for are added.
   */
  ghost predicate Stores(s: Net, t: Net, p: string, u: string, name: string, outputs: set<string>) {
    && t.peers == s.peers && t.locals == s.locals
    && t.remotes.Keys == s.remotes.Keys + {u}
    && (forall v :: v in s.remotes && v != u ==> t.remotes[v] == s.remotes[v])
    && t.remotes[u].name == name && t.remotes[u].outputs == outputs
    && t.remotes[u].peer == (if u in s.remotes then s.remotes[u].peer else p)
    && t.remotes[u].hasMapping == (u in s.remotes && s.remotes[u].hasMapping)
    && forall f :: f in t.remotes[u].filters <==>
                     (u in s.remotes && f in s.remotes[u].filters) || Asked(s.locals, u, name, outputs, f)
  }

  lemma DefinitionStored(s: Net, p: string, u: string, name: string, outputs: set<string>, notified: bool,
                         order: seq<string>)
    requires Enabled(s, ExternalDefinition(p, u, Some((name, outputs)), notified, order))
    ensures Stores(s, Next(s, ExternalDefinition(p, u, Some((name, outputs)), notified, order)), p, u, name, outputs)
  {
    ListedIn(order, s.locals.Keys);
    var t := Next(s, ExternalDefinition(p, u, Some((name, outputs)), notified, order));
    var r := if u !in s.remotes then Remote(p, name, outputs, false, [])
             else s.remotes[u].(name := name, outputs := outputs);
    assert t.remotes[u] == ConfigureFor(s.locals, order, u, r);
    ConfigureForCovers(s.locals, order, u, r);
    forall f
      ensures f in t.remotes[u].filters <==> f in r.filters || Asked(s.locals, u, name, outputs, f)
    {
      ConfigureForFilters(s.locals, order, u, r, f);
      AnyAsksIff(s.locals, order, u, name, outputs, f);
    }
  }

  // ------------------------------------------------------------ remote agents

  /** The definition that a step brings for an agent. */
  function NewDefinition(e: Step, u: string): Option<(string, set<string>)> {
    if e.ExternalDefinition? && e.u == u then e.def else None
  }

  /** A definition has come and no exit since. */
  ghost predicate Known(steps: seq<Step>, u: string) {
    exists j :: 0 <= j < |steps| && NewDefinition(steps[j], u).Some?
                && forall k :: j < k < |steps| ==> steps[k] != AgentExit(u)
  }

  lemma KnownLast(steps: seq<Step>, e: Step, u: string)
    ensures Known(steps + [e], u) <==> NewDefinition(e, u).Some? || (Known(steps, u) && e != AgentExit(u))
  {
    var all := steps + [e];
    assert all[|steps|] == e;
    assert forall k :: 0 <= k < |steps| ==> all[k] == steps[k];
    if Known(steps, u) && e != AgentExit(u) {
      var j :| 0 <= j < |steps| && NewDefinition(steps[j], u).Some?
               && forall k :: j < k < |steps| ==> steps[k] != AgentExit(u);
      assert NewDefinition(all[j], u).Some?;
    }
  }

  lemma RemoteThereStep(s: Net, e: Step, u: string)
    requires Enabled(s, e)
    ensures u in Next(s, e).remotes <==> NewDefinition(e, u).Some? || (u in s.remotes && e != AgentExit(u))
  {
  }

  /** The remote agents are those with a definition and no exit since. */
  lemma {:induction false} RemoteThereIff(s: Net, steps: seq<Step>, t: Net, u: string)
    requires Started(s) && RunOf(s, steps, t)
    ensures u in t.remotes <==> Known(steps, u)
    decreases |steps|
  {
    if steps != [] {
      var init, last := steps[..|steps| - 1], steps[|steps| - 1];
      var m :| RunOf(s, init, m) && StepTo(m, last, t);
      RemoteThereIff(s, init, m, u);
      RemoteThereStep(m, last, u);
      KnownLast(init, last, u);
      assert init + [last] == steps;
    }
  }

  lemma DefinitionOfStep(s: Net, e: Step, u: string)
    requires Enabled(s, e) && u in Next(s, e).remotes
    ensures var r := Next(s, e).remotes[u];
            match NewDefinition(e, u)
            case Some((name, outputs)) =>
              r.name == name && r.outputs == outputs &&
              (if u in s.remotes then r.peer == s.remotes[u].peer else r.peer == e.p && !r.hasMapping)
            case None =>
              u in s.remotes && r.name == s.remotes[u].name && r.outputs == s.remotes[u].outputs
              && r.peer == s.remotes[u].peer
  {
    match e
    case ExternalDefinition(p, v, Some((name, outputs)), notified, order) =>
      DefinitionStored(s, p, v, name, outputs, notified, order);
    case LoadMapping(a, Some(links)) =>
      if a in s.locals { ConfigureRemotesGrows(s.locals[a].(mapping := links, mappingDirty := true), s.remotes); }
    case LoadDefinition(a, Some(inputs)) =>
      if a in s.locals { ConfigureRemotesGrows(s.locals[a].(inputs := inputs, definitionDirty := true), s.remotes); }
    case AnnounceMapping(a) => if a in s.locals { ConfigureRemotesGrows(s.locals[a], s.remotes); }
    case _ =>
  }

  /** Name and outputs of a remote agent are those of the last definition that came for it. */
  lemma {:induction false} RemoteIsLast(s: Net, steps: seq<Step>, t: Net, u: string, i: nat)
    requires Started(s) && RunOf(s, steps, t) && u in t.remotes
    requires i < |steps| && NewDefinition(steps[i], u).Some?
    requires forall k :: i < k < |steps| ==> NewDefinition(steps[k], u).None?
    ensures (t.remotes[u].name, t.remotes[u].outputs) == NewDefinition(steps[i], u).value
    decreases |steps|
  {
    var init, last := steps[..|steps| - 1], steps[|steps| - 1];
    var m :| RunOf(s, init, m) && StepTo(m, last, t);
    DefinitionOfStep(m, last, u);
    if i < |init| {
      RemoteIsLast(s, init, m, u, i);
    }
  }

  /** Its peer is the sender of the first definition since it was last unknown. */
  lemma {:induction false} RemotePeerIsFirst(s: Net, steps: seq<Step>, t: Net, u: string, i: nat)
    requires Started(s) && RunOf(s, steps, t)
    requires i < |steps| && NewDefinition(steps[i], u).Some? && !Known(steps[..i], u)
    requires forall k :: i < k < |steps| ==> steps[k] != AgentExit(u)
    ensures u in t.remotes && t.remotes[u].peer == steps[i].p
    decreases |steps|
  {
    var init, last := steps[..|steps| - 1], steps[|steps| - 1];
    var m :| RunOf(s, init, m) && StepTo(m, last, t);
    RemoteThereIff(s, steps, t, u);
    DefinitionOfStep(m, last, u);
    if i < |init| {
      assert steps[..i] == init[..i];
      RemotePeerIsFirst(s, init, m, u, i);
    } else {
      assert steps[..i] == init;
      RemoteThereIff(s, init, m, u);
    }
  }

  /** What a step says about the mapping of an agent. */
  function NewHasMapping(e: Step, u: string, there: bool): Option<bool> {
    match e
    case ExternalMapping(v, empty, parsed) =>
      if v == u && there && (empty || parsed) then Some(!empty) else None
    case ExternalDefinition(_, v, def, _, _) => if v == u && def.Some? && !there then Some(false) else None
    case _ => None
  }

  /** What the k-th step says. */
  ghost function HasMappingAt(steps: seq<Step>, u: string, k: nat): Option<bool>
    requires k < |steps|
  {
    NewHasMapping(steps[k], u, Known(steps[..k], u))
  }

  lemma HasMappingAtPrefix(init: seq<Step>, last: Step, u: string)
    ensures forall k :: 0 <= k < |init| ==> HasMappingAt(init + [last], u, k) == HasMappingAt(init, u, k)
    ensures HasMappingAt(init + [last], u, |init|) == NewHasMapping(last, u, Known(init, u))
  {
    assert (init + [last])[..|init|] == init;
    forall k | 0 <= k < |init|
      ensures HasMappingAt(init + [last], u, k) == HasMappingAt(init, u, k)
    {
      assert (init + [last])[..k] == init[..k];
    }
  }

  lemma HasMappingOfStep(s: Net, e: Step, u: string)
    requires Enabled(s, e) && u in Next(s, e).remotes
    ensures match NewHasMapping(e, u, u in s.remotes)
            case Some(h) => Next(s, e).remotes[u].hasMapping == h
            case None => u in s.remotes && Next(s, e).remotes[u].hasMapping == s.remotes[u].hasMapping
  {
    match e
    case ExternalDefinition(p, v, Some((name, outputs)), notified, order) =>
      DefinitionStored(s, p, v, name, outputs, notified, order);
    case LoadMapping(a, Some(links)) =>
      if a in s.locals { ConfigureRemotesGrows(s.locals[a].(mapping := links, mappingDirty := true), s.remotes); }
    case LoadDefinition(a, Some(inputs)) =>
      if a in s.locals { ConfigureRemotesGrows(s.locals[a].(inputs := inputs, definitionDirty := true), s.remotes); }
    case AnnounceMapping(a) => if a in s.locals { ConfigureRemotesGrows(s.locals[a], s.remotes); }
    case _ =>
  }

  /** Whether it has a mapping is what the last mapping message said while it was known. */
  lemma {:induction false} HasMappingIsLast(s: Net, steps: seq<Step>, t: Net, u: string, i: nat)
    requires Started(s) && RunOf(s, steps, t) && u in t.remotes
    requires i < |steps| && HasMappingAt(steps, u, i).Some?
    requires forall k :: i < k < |steps| ==> HasMappingAt(steps, u, k).None?
    ensures Some(t.remotes[u].hasMapping) == HasMappingAt(steps, u, i)
    decreases |steps|
  {
    var init, last := steps[..|steps| - 1], steps[|steps| - 1];
    var m :| RunOf(s, init, m) && StepTo(m, last, t);
    RemoteThereIff(s, init, m, u);
    HasMappingOfStep(m, last, u);
    assert init + [last] == steps;
    HasMappingAtPrefix(init, last, u);
    if i < |init| {
      HasMappingIsLast(s, init, m, u, i);
    }
  }

  // ------------------------------------------------------------ local agents

  /** The agent was there at the start or has been activated, and has not been deactivated since. */
  ghost predicate Lives(s: Net, steps: seq<Step>, a: string) {
    || (a in s.locals && forall k :: 0 <= k < |steps| ==> steps[k] != Deactivate(a))
    || exists j :: 0 <= j < |steps| && steps[j].Activate? && steps[j].a == a
                   && forall k :: j < k < |steps| ==> steps[k] != Deactivate(a)
  }

  lemma LivesLast(s: Net, steps: seq<Step>, e: Step, a: string)
    ensures Lives(s, steps + [e], a) <==>
            (e.Activate? && e.a == a) || (Lives(s, steps, a) && e != Deactivate(a))
  {
    var all := steps + [e];
    assert all[|steps|] == e;
    assert forall k :: 0 <= k < |steps| ==> all[k] == steps[k];
    if j :| 0 <= j < |steps| && steps[j].Activate? && steps[j].a == a
            && (forall k :: j < k < |steps| ==> steps[k] != Deactivate(a)) && e != Deactivate(a) {
      assert all[j].Activate?;
    }
  }

  lemma LocalThereStep(s: Net, e: Step, a: string)
    requires Enabled(s, e)
    ensures a in Next(s, e).locals <==> (e.Activate? && e.a == a) || (a in s.locals && e != Deactivate(a))
  {
  }

  lemma {:induction false} LocalThereIff(s: Net, steps: seq<Step>, t: Net, a: string)
    requires RunOf(s, steps, t)
    ensures a in t.locals <==> Lives(s, steps, a)
    decreases |steps|
  {
    if steps != [] {
      var init, last := steps[..|steps| - 1], steps[|steps| - 1];
      var m :| RunOf(s, init, m) && StepTo(m, last, t);
      LocalThereIff(s, init, m, a);
      LocalThereStep(m, last, a);
      LivesLast(s, init, last, a);
      assert init + [last] == steps;
    }
  }

  /** The mapping that a step gives to an agent, which must be there, or is only now activated. */
  function NewMapping(e: Step, a: string, there: bool): Option<seq<Link>> {
    match e
    case LoadMapping(b, links) => if b == a && there then links else None
    case ChangeMapping(b, links) => if b == a && there then Some(links) else None
    case Activate(b, l) => if b == a && !there then Some(l.mapping) else None
    case _ => None
  }

  function NewInputs(e: Step, a: string, there: bool): Option<set<string>> {
    match e
    case LoadDefinition(b, inputs) => if b == a && there then inputs else None
    case ChangeDefinition(b, inputs) => if b == a && there then Some(inputs) else None
    case Activate(b, l) => if b == a && !there then Some(l.inputs) else None
    case _ => None
  }

  ghost function MappingAt(s: Net, steps: seq<Step>, a: string, k: nat): Option<seq<Link>>
    requires k < |steps|
  {
    NewMapping(steps[k], a, Lives(s, steps[..k], a))
  }

  ghost function InputsAt(s: Net, steps: seq<Step>, a: string, k: nat): Option<set<string>>
    requires k < |steps|
  {
    NewInputs(steps[k], a, Lives(s, steps[..k], a))
  }

  lemma LocalAtPrefix(s: Net, init: seq<Step>, last: Step, a: string)
    ensures forall k :: 0 <= k < |init| ==> MappingAt(s, init + [last], a, k) == MappingAt(s, init, a, k)
    ensures forall k :: 0 <= k < |init| ==> InputsAt(s, init + [last], a, k) == InputsAt(s, init, a, k)
    ensures MappingAt(s, init + [last], a, |init|) == NewMapping(last, a, Lives(s, init, a))
    ensures InputsAt(s, init + [last], a, |init|) == NewInputs(last, a, Lives(s, init, a))
  {
    assert (init + [last])[..|init|] == init;
    forall k | 0 <= k < |init|
      ensures MappingAt(s, init + [last], a, k) == MappingAt(s, init, a, k)
      ensures InputsAt(s, init + [last], a, k) == InputsAt(s, init, a, k)
    {
      assert (init + [last])[..k] == init[..k];
    }
  }

  lemma LocalOfStep(s: Net, e: Step, a: string)
    requires Enabled(s, e) && a in Next(s, e).locals
    ensures match NewMapping(e, a, a in s.locals)
            case Some(links) => Next(s, e).locals[a].mapping == links
            case None => a in s.locals && Next(s, e).locals[a].mapping == s.locals[a].mapping
    ensures match NewInputs(e, a, a in s.locals)
            case Some(inputs) => Next(s, e).locals[a].inputs == inputs
            case None => a in s.locals && Next(s, e).locals[a].inputs == s.locals[a].inputs
  {
  }

  /** The mapping of a local agent is the last one that was loaded, set or activated for it. */
  lemma {:induction false} MappingIsLast(s: Net, steps: seq<Step>, t: Net, a: string, i: nat)
    requires RunOf(s, steps, t) && a in t.locals
    requires i < |steps| && MappingAt(s, steps, a, i).Some?
    requires forall k :: i < k < |steps| ==> MappingAt(s, steps, a, k).None?
    ensures Some(t.locals[a].mapping) == MappingAt(s, steps, a, i)
    decreases |steps|
  {
    var init, last := steps[..|steps| - 1], steps[|steps| - 1];
    var m :| RunOf(s, init, m) && StepTo(m, last, t);
    LocalThereIff(s, init, m, a);
    LocalOfStep(m, last, a);
    assert init + [last] == steps;
    LocalAtPrefix(s, init, last, a);
    if i < |init| {
      MappingIsLast(s, init, m, a, i);
    }
  }

  /** So are its inputs. */
  lemma {:induction false} InputsAreLast(s: Net, steps: seq<Step>, t: Net, a: string, i: nat)
    requires RunOf(s, steps, t) && a in t.locals
    requires i < |steps| && InputsAt(s, steps, a, i).Some?
    requires forall k :: i < k < |steps| ==> InputsAt(s, steps, a, k).None?
    ensures Some(t.locals[a].inputs) == InputsAt(s, steps, a, i)
    decreases |steps|
  {
    var init, last := steps[..|steps| - 1], steps[|steps| - 1];
    var m :| RunOf(s, init, m) && StepTo(m, last, t);
    LocalThereIff(s, init, m, a);
    LocalOfStep(m, last, a);
    assert init + [last] == steps;
    LocalAtPrefix(s, init, last, a);
    if i < |init| {
      InputsAreLast(s, init, m, a, i);
    }
  }

  /** Without any such step they are those of the start. */
  lemma {:induction false} UntouchedIsThatOfTheStart(s: Net, steps: seq<Step>, t: Net, a: string)
    requires RunOf(s, steps, t) && a in t.locals
    ensures (forall k :: 0 <= k < |steps| ==> MappingAt(s, steps, a, k).None?) ==>
              a in s.locals && t.locals[a].mapping == s.locals[a].mapping
    ensures (forall k :: 0 <= k < |steps| ==> InputsAt(s, steps, a, k).None?) ==>
              a in s.locals && t.locals[a].inputs == s.locals[a].inputs
    decreases |steps|
  {
    if steps != [] {
      var init, last := steps[..|steps| - 1], steps[|steps| - 1];
      var m :| RunOf(s, init, m) && StepTo(m, last, t);
      LocalThereIff(s, init, m, a);
      LocalOfStep(m, last, a);
      assert init + [last] == steps;
      LocalAtPrefix(s, init, last, a);
      if a in m.locals {
        UntouchedIsThatOfTheStart(s, init, m, a);
      }
    }
  }

  // ------------------------------------------------------------ no filter without a reason

  /** A local agent asks for the filter as the tables are. */
  ghost predicate Reason(t: Net, u: string, f: string) {
    u in t.remotes && Asked(t.locals, u, t.remotes[u].name, t.remotes[u].outputs, f)
  }

  lemma AsksSame(l: Local, l': Local, u: string, name: string, outputs: set<string>, f: string)
    requires l.inputs == l'.inputs && l.mapping == l'.mapping
    ensures Asks(l, u, name, outputs, f) <==> Asks(l', u, name, outputs, f)
  {
    forall i: nat
      ensures LinkFor(l, i, u, name, outputs, f) <==> LinkFor(l', i, u, name, outputs, f)
    {
    }
  }

  /** After all remote agents have followed a local agent, each filter is an old one or has a reason. */
  lemma FollowedHasReason(s: Net, t: Net, l: Local, a: string, u: string, f: string)
    requires t.remotes == ConfigureRemotes(l, s.remotes)
    requires a in t.locals && t.locals[a].inputs == l.inputs && t.locals[a].mapping == l.mapping
    requires u in t.remotes && f in t.remotes[u].filters
    ensures f in s.remotes[u].filters || Reason(t, u, f)
  {
    ConfigureFollows(l, u, s.remotes[u]);
    if f !in s.remotes[u].filters {
      AsksSame(l, t.locals[a], u, t.remotes[u].name, t.remotes[u].outputs, f);
    }
  }

  lemma FilterOfStep(s: Net, e: Step, u: string, f: string)
    requires Enabled(s, e) && u in Next(s, e).remotes && f in Next(s, e).remotes[u].filters
    ensures (u in s.remotes && f in s.remotes[u].filters) || Reason(Next(s, e), u, f)
  {
    var t := Next(s, e);
    match e
    case ExternalDefinition(p, v, Some((name, outputs)), notified, order) =>
      DefinitionStored(s, p, v, name, outputs, notified, order);
    case LoadMapping(a, Some(links)) => if a in s.locals { FollowedHasReason(s, t, t.locals[a], a, u, f); }
    case LoadDefinition(a, Some(inputs)) => if a in s.locals { FollowedHasReason(s, t, t.locals[a], a, u, f); }
    case AnnounceMapping(a) =>
      if a in s.locals && s.locals[a].mappingDirty { FollowedHasReason(s, t, s.locals[a], a, u, f); }
    case _ =>
  }

  /** The k-th state of the run is m. */
  ghost predicate Passed(s: Net, steps: seq<Step>, k: nat, m: Net) {
    k <= |steps| && RunOf(s, steps[..k], m)
  }

  /** Every filter was asked for by a local agent in some state of the run. */
  lemma {:induction false} EveryFilterHasReason(s: Net, steps: seq<Step>, t: Net, u: string, f: string)
    requires Started(s) && RunOf(s, steps, t) && u in t.remotes && f in t.remotes[u].filters
    ensures exists k: nat, m :: Passed(s, steps, k, m) && Reason(m, u, f)
    decreases |steps|
  {
    if steps != [] {
      var init, last := steps[..|steps| - 1], steps[|steps| - 1];
      var m :| RunOf(s, init, m) && StepTo(m, last, t);
      FilterOfStep(m, last, u, f);
      if Reason(t, u, f) {
        assert steps[..|steps|] == steps;
        assert Passed(s, steps, |steps|, t);
      } else {
        EveryFilterHasReason(s, init, m, u, f);
        var k: nat, n :| Passed(s, init, k, n) && Reason(n, u, f);
        assert steps[..k] == init[..k];
        assert Passed(s, steps, k, n);
      }
    }
  }
}
