/**
 * What holds in every reachable state of a running loop.
 */
module NetworkProofs {
  import opened Options
  import opened NetworkState

  // ------------------------------------------------------------ filters only grow

  /** Same agent, with at least the filters it had. */
  ghost predicate Grown(r: Remote, r': Remote) {
    && r'.peer == r.peer && r'.name == r.name && r'.outputs == r.outputs && r'.hasMapping == r.hasMapping
    && r.filters <= r'.filters
    && (DistinctFilters(r) ==> DistinctFilters(r'))
  }

  lemma {:induction false} ConfiguredGrows(l: Local, u: string, r: Remote, n: nat)
    requires n <= |l.mapping|
    ensures Grown(r, Configured(l, u, r, n))
  {
    if n > 0 {
      ConfiguredGrows(l, u, r, n - 1);
    }
  }

  lemma {:induction false} ConfiguredCovers(l: Local, u: string, r: Remote, n: nat, i: nat)
    requires i < n <= |l.mapping| && Matches(l.mapping[i], l, r) && l.mapping[i].output != ""
    ensures Filter(u, l.mapping[i].output) in Configured(l, u, r, n).filters
  {
    ConfiguredGrows(l, u, r, n - 1);
    if i < n - 1 {
      ConfiguredCovers(l, u, r, n - 1, i);
    } else {
      var before := Configured(l, u, r, n - 1);
      var f := Filter(u, l.mapping[i].output);
      assert Subscribed(before, u, l.mapping[i].output).filters == AddFilter(before.filters, f);
    }
  }

  /** Configuring a pair covers it. */
  lemma ConfigureCovers(l: Local, u: string, r: Remote)
    ensures Grown(r, Configure(l, u, r)) && Covered(l, u, Configure(l, u, r))
  {
    ConfiguredGrows(l, u, r, |l.mapping|);
    forall i | 0 <= i < |l.mapping| && Matches(l.mapping[i], l, r) && l.mapping[i].output != ""
      ensures Filter(u, l.mapping[i].output) in Configure(l, u, r).filters
    {
      ConfiguredCovers(l, u, r, |l.mapping|, i);
    }
  }

  lemma CoveredStays(l: Local, u: string, r: Remote, r': Remote)
    requires Grown(r, r') && Covered(l, u, r)
    ensures Covered(l, u, r')
  {
  }

  lemma {:induction false} ConfigureForCovers(locals: map<string, Local>, order: seq<string>, u: string, r: Remote)
    requires forall a :: a in order ==> a in locals
    ensures Grown(r, ConfigureFor(locals, order, u, r))
    ensures forall a :: a in order ==> Covered(locals[a], u, ConfigureFor(locals, order, u, r))
  {
    if order != [] {
      var init, last := order[..|order| - 1], order[|order| - 1];
      var before := ConfigureFor(locals, init, u, r);
      ConfigureForCovers(locals, init, u, r);
      ConfigureCovers(locals[last], u, before);
      forall a | a in order ensures Covered(locals[a], u, ConfigureFor(locals, order, u, r)) {
        if a in init {
          CoveredStays(locals[a], u, before, ConfigureFor(locals, order, u, r));
        }
      }
    }
  }

  /** Each agent of the second table is the one of the first with more filters. */
  ghost predicate AllGrown(remotes: map<string, Remote>, remotes': map<string, Remote>) {
    remotes'.Keys == remotes.Keys && forall u :: u in remotes ==> Grown(remotes[u], remotes'[u])
  }

  lemma ConfigureRemotesGrows(l: Local, remotes: map<string, Remote>)
    ensures AllGrown(remotes, ConfigureRemotes(l, remotes))
    ensures forall u :: u in remotes ==> Covered(l, u, ConfigureRemotes(l, remotes)[u])
  {
    forall u | u in remotes
      ensures Grown(remotes[u], ConfigureRemotes(l, remotes)[u]) && Covered(l, u, ConfigureRemotes(l, remotes)[u])
    {
      ConfigureCovers(l, u, remotes[u]);
    }
  }

  // ------------------------------------------------------------ the three parts of the invariant

  ghost predicate LogOk(s: Net) {
    Replay(s.log) == Some(ViewOf(s))
  }

  ghost predicate PeersOk(s: Net) {
    forall u :: u in s.remotes ==> s.remotes[u].peer in s.peers && DistinctFilters(s.remotes[u])
  }

  ghost predicate TrackedFor(l: Local, remotes: map<string, Remote>) {
    forall u :: u in remotes ==> Tracked(l, u, remotes[u])
  }

  ghost predicate AllTracked(s: Net) {
    forall a :: a in s.locals ==> TrackedFor(s.locals[a], s.remotes)
  }

  lemma InvParts(s: Net)
    ensures Inv(s) <==> LogOk(s) && PeersOk(s) && AllTracked(s)
  {
    if LogOk(s) && PeersOk(s) && AllTracked(s) {
      forall a, u | a in s.locals && u in s.remotes ensures Tracked(s.locals[a], u, s.remotes[u]) {
        assert TrackedFor(s.locals[a], s.remotes);
      }
    }
  }

  lemma TrackedStays(l: Local, remotes: map<string, Remote>, remotes': map<string, Remote>)
    requires TrackedFor(l, remotes) && AllGrown(remotes, remotes')
    ensures TrackedFor(l, remotes')
  {
    forall u | u in remotes' ensures Tracked(l, u, remotes'[u]) {
      if Covered(l, u, remotes[u]) {
        CoveredStays(l, u, remotes[u], remotes'[u]);
      }
    }
  }

  /** A table of remote agents that only grew, and one local agent that is tracked in it. */
  lemma OneLocalChanged(s: Net, remotes': map<string, Remote>, a: string, l: Local)
    requires Inv(s) && AllGrown(s.remotes, remotes') && TrackedFor(l, remotes')
    ensures Inv(s.(remotes := remotes', locals := s.locals[a := l]))
  {
    var s' := s.(remotes := remotes', locals := s.locals[a := l]);
    InvParts(s);
    GrownKeepsLog(s, s');
    forall b | b in s'.locals ensures TrackedFor(s'.locals[b], s'.remotes) {
      if b != a {
        TrackedStays(s.locals[b], s.remotes, remotes');
      }
    }
    InvParts(s');
  }

  lemma GrownKeepsLog(s: Net, s': Net)
    requires LogOk(s) && PeersOk(s) && AllGrown(s.remotes, s'.remotes)
    requires s'.peers.Keys == s.peers.Keys && s'.log == s.log
    ensures LogOk(s') && PeersOk(s')
  {
    assert ViewOf(s').agents == ViewOf(s).agents;
  }

  lemma GrownRefl(remotes: map<string, Remote>)
    ensures AllGrown(remotes, remotes)
  {
  }

  lemma ReplayAppend(log: seq<Notice>, n: Notice)
    ensures Replay(log + [n]) == match Replay(log) case Some(v) => Told(v, n) case None => None
  {
    assert (log + [n])[..|log|] == log;
  }

  // ------------------------------------------------------------ agents that leave

  lemma AgentLeaves(s: Net, u: string)
    requires Inv(s) && u in s.remotes
    ensures Inv(s.(remotes := s.remotes - {u}, log := s.log + [AgentExited(u)]))
  {
    var s' := s.(remotes := s.remotes - {u}, log := s.log + [AgentExited(u)]);
    ReplayAppend(s.log, AgentExited(u));
    assert ViewOf(s').agents == ViewOf(s).agents - {u};
    InvParts(s);
    forall a | a in s'.locals ensures TrackedFor(s'.locals[a], s'.remotes) {
      assert TrackedFor(s.locals[a], s.remotes);
    }
    InvParts(s');
  }

  lemma PeerLeaves(s: Net, p: string)
    requires Inv(s) && p in s.peers && forall u :: u in s.remotes ==> s.remotes[u].peer != p
    ensures Inv(s.(peers := s.peers - {p}, log := s.log + [PeerExited(p)]))
  {
    var s' := s.(peers := s.peers - {p}, log := s.log + [PeerExited(p)]);
    ReplayAppend(s.log, PeerExited(p));
    assert ViewOf(s').agents == ViewOf(s).agents;
    assert ViewOf(s').peers == ViewOf(s).peers - {p};
    InvParts(s);
    InvParts(s');
  }

  lemma PeerCounts(s: Net, p: string, peer: Peer)
    requires Inv(s) && p in s.peers
    ensures Inv(s.(peers := s.peers[p := peer]))
  {
    var s' := s.(peers := s.peers[p := peer]);
    InvParts(s);
    GrownRefl(s.remotes);
    assert s'.peers.Keys == s.peers.Keys;
    GrownKeepsLog(s, s');
    InvParts(s');
  }

  lemma EnterKeeps(s: Net, p: string)
    requires Inv(s)
    ensures Inv(Next(s, Enter(p)))
  {
    if p in s.peers {
      PeerCounts(s, p, s.peers[p].(reconnected := s.peers[p].reconnected + 1));
    } else {
      var s' := Next(s, Enter(p));
      ReplayAppend(s.log, PeerEntered(p));
      assert ViewOf(s').agents == ViewOf(s).agents;
      assert ViewOf(s').peers == ViewOf(s).peers + {p};
      InvParts(s);
      InvParts(s');
    }
  }

  // ------------------------------------------------------------ agents that register or change

  lemma PlacedIsTracked(s: Net, u: string, r: Remote)
    requires AllTracked(s) && forall a :: a in s.locals ==> Tracked(s.locals[a], u, r)
    ensures forall a :: a in s.locals ==> TrackedFor(s.locals[a], s.remotes[u := r])
  {
    forall a | a in s.locals ensures TrackedFor(s.locals[a], s.remotes[u := r]) {
      assert TrackedFor(s.locals[a], s.remotes);
    }
  }

  lemma RemotePlaced(s: Net, u: string, r: Remote, log: seq<Notice>)
    requires Inv(s) && r.peer in s.peers && DistinctFilters(r)
    requires Replay(log) == Some(ViewOf(s).(agents := ViewOf(s).agents[u := r.peer]))
    requires forall a :: a in s.locals ==> Tracked(s.locals[a], u, r)
    ensures Inv(s.(remotes := s.remotes[u := r], log := log))
  {
    var s' := s.(remotes := s.remotes[u := r], log := log);
    assert ViewOf(s').agents == ViewOf(s).agents[u := r.peer];
    InvParts(s);
    PlacedIsTracked(s, u, r);
    InvParts(s');
  }

  lemma ExternalDefinitionKeeps(s: Net, e: Step)
    requires Inv(s) && Enabled(s, e) && e.ExternalDefinition?
    ensures Inv(Next(s, e))
  {
    var ExternalDefinition(p, u, def, notified, order) := e;
    if def.Some? {
      ListedIn(order, s.locals.Keys);
      var (name, outputs) := def.value;
      var isNew := u !in s.remotes;
      var r := if isNew then Remote(p, name, outputs, false, []) else s.remotes[u].(name := name, outputs := outputs);
      ConfigureForCovers(s.locals, order, u, r);
      var r' := ConfigureFor(s.locals, order, u, r);
      if !isNew {
        ReplayAppend(s.log, AgentUpdated(u));
        assert ViewOf(s).agents[u := r.peer] == ViewOf(s).agents;
        RemotePlaced(s, u, r', s.log + [AgentUpdated(u)]);
      } else {
        ReplayAppend(s.log, AgentEntered(u, p));
        ReplayAppend(s.log + [AgentEntered(u, p)], AgentUpdated(u));
        assert s.log + [AgentEntered(u, p)] + [AgentUpdated(u)] == s.log + [AgentEntered(u, p), AgentUpdated(u)];
        RemotePlaced(s, u, r', s.log + if notified then [AgentEntered(u, p), AgentUpdated(u)] else [AgentEntered(u, p)]);
      }
    }
  }

  lemma ExternalMappingKeeps(s: Net, u: string, hasMapping: bool)
    requires Inv(s) && u in s.remotes
    ensures Inv(s.(remotes := s.remotes[u := s.remotes[u].(hasMapping := hasMapping)], log := s.log + [AgentUpdated(u)]))
  {
    var r := s.remotes[u].(hasMapping := hasMapping);
    ReplayAppend(s.log, AgentUpdated(u));
    assert ViewOf(s).agents[u := r.peer] == ViewOf(s).agents;
    forall a | a in s.locals ensures Tracked(s.locals[a], u, r) {
      assert Tracked(s.locals[a], u, s.remotes[u]);
    }
    RemotePlaced(s, u, r, s.log + [AgentUpdated(u)]);
  }

  // ------------------------------------------------------------ local changes and ticks

  lemma LocalRechecked(s: Net, a: string, l: Local)
    requires Inv(s)
    ensures Inv(s.(remotes := ConfigureRemotes(l, s.remotes), locals := s.locals[a := l]))
  {
    ConfigureRemotesGrows(l, s.remotes);
    OneLocalChanged(s, ConfigureRemotes(l, s.remotes), a, l);
  }

  lemma LocalMarked(s: Net, a: string, l: Local)
    requires Inv(s) && (l.definitionDirty || l.mappingDirty)
    ensures Inv(s.(locals := s.locals[a := l]))
  {
    GrownRefl(s.remotes);
    OneLocalChanged(s, s.remotes, a, l);
  }

  lemma MappingAnnounced(s: Net, a: string)
    requires Inv(s) && a in s.locals
    ensures Inv(s.(remotes := ConfigureRemotes(s.locals[a], s.remotes),
                   locals := s.locals[a := s.locals[a].(mappingDirty := false)]))
  {
    var l := s.locals[a].(mappingDirty := false);
    ConfigureRemotesGrows(l, s.remotes);
    ConfigureSame(s.locals[a], l, s.remotes);
    OneLocalChanged(s, ConfigureRemotes(l, s.remotes), a, l);
  }

  /** The flags of a local agent do not matter for its filters. */
  lemma ConfigureSame(l: Local, l': Local, remotes: map<string, Remote>)
    requires l.inputs == l'.inputs && l.mapping == l'.mapping
    ensures ConfigureRemotes(l, remotes) == ConfigureRemotes(l', remotes)
  {
    forall u | u in remotes ensures Configure(l, u, remotes[u]) == Configure(l', u, remotes[u]) {
      ConfiguredSame(l, l', u, remotes[u], |l.mapping|);
    }
  }

  lemma {:induction false} ConfiguredSame(l: Local, l': Local, u: string, r: Remote, n: nat)
    requires l.inputs == l'.inputs && l.mapping == l'.mapping && n <= |l.mapping|
    ensures Configured(l, u, r, n) == Configured(l', u, r, n)
  {
    if n > 0 {
      ConfiguredSame(l, l', u, r, n - 1);
    }
  }

  // ------------------------------------------------------------ every step, every run

  lemma NextKeeps(s: Net, e: Step)
    requires Inv(s) && Enabled(s, e)
    ensures Inv(Next(s, e))
  {
    match e
    case Enter(p) => EnterKeeps(s, p);
    case Join(p) => PeerCounts(s, p, s.peers[p].(joinedPrivateChannel := true));
    case Exit(p) => if p in s.peers { PeerCounts(s, p, s.peers[p].(reconnected := s.peers[p].reconnected - 1)); }
    case PeerGone(p) => PeerLeaves(s, p);
    case AgentExit(u) => if u in s.remotes { AgentLeaves(s, u); }
    case ExternalDefinition(_, _, _, _, _) => ExternalDefinitionKeeps(s, e);
    case ExternalMapping(u, empty, _) => if u in s.remotes { ExternalMappingKeeps(s, u, !empty); }
    case LoadMapping(a, links) =>
      if a in s.locals && links.Some? {
        LocalRechecked(s, a, s.locals[a].(mapping := links.value, mappingDirty := true));
      }
    case LoadDefinition(a, inputs) =>
      if a in s.locals && inputs.Some? {
        LocalRechecked(s, a, s.locals[a].(inputs := inputs.value, definitionDirty := true));
      }
    case ChangeMapping(a, links) =>
      if a in s.locals { LocalMarked(s, a, s.locals[a].(mapping := links, mappingDirty := true)); }
    case ChangeDefinition(a, inputs) =>
      if a in s.locals { LocalMarked(s, a, s.locals[a].(inputs := inputs, definitionDirty := true)); }
    case Activate(a, l) => if a !in s.locals { LocalMarked(s, a, l.(definitionDirty := true)); }
    case Deactivate(a) => LocalGone(s, a);
    case AnnounceDefinition(a) =>
      if a in s.locals {
        if s.locals[a].definitionDirty {
          LocalMarked(s, a, TickDefinition(s.locals[a]));
        } else {
          assert s.locals[a := TickDefinition(s.locals[a])] == s.locals;
        }
      }
    case AnnounceMapping(a) => if a in s.locals && s.locals[a].mappingDirty { MappingAnnounced(s, a); }
  }

  lemma LocalGone(s: Net, a: string)
    requires Inv(s)
    ensures Inv(s.(locals := s.locals - {a}))
  {
  }

  /** A loop starts with no peer and no remote agent; the local agents and their flags may be any. */
  ghost predicate Started(s: Net) {
    s.peers == map[] && s.remotes == map[] && s.log == []
  }

  ghost predicate StepTo(s: Net, e: Step, t: Net) {
    Enabled(s, e) && t == Next(s, e)
  }

  ghost predicate RunOf(s: Net, steps: seq<Step>, t: Net)
    decreases |steps|
  {
    if steps == [] then t == s
    else
      var init, last := steps[..|steps| - 1], steps[|steps| - 1];
      exists m :: RunOf(s, init, m) && StepTo(m, last, t)
  }

  /** In every reachable state the log replays to the tables and every pair is tracked. */
  lemma {:induction false} EveryRun(s: Net, steps: seq<Step>, t: Net)
    requires Started(s) && RunOf(s, steps, t)
    ensures Inv(t)
    decreases |steps|
  {
    if steps == [] {
      assert ViewOf(s) == View({}, map[]);
    } else {
      var init, last := steps[..|steps| - 1], steps[|steps| - 1];
      var m :| RunOf(s, init, m) && StepTo(m, last, t);
      EveryRun(s, init, m);
      NextKeeps(m, last);
    }
  }

  lemma RunStep(s: Net, steps: seq<Step>, t: Net, e: Step)
    requires RunOf(s, steps, t) && Enabled(t, e)
    ensures RunOf(s, steps + [e], Next(t, e))
  {
    assert (steps + [e])[..|steps + [e]| - 1] == steps;
    assert StepTo(t, e, Next(t, e));
  }

  // ------------------------------------------------------------ coverage after two ticks

  /** The steps that change the mapping or the inputs of a local agent. */
  predicate Changes(e: Step, a: string) {
    match e
    case LoadMapping(b, _) => b == a
    case LoadDefinition(b, _) => b == a
    case ChangeMapping(b, _) => b == a
    case ChangeDefinition(b, _) => b == a
    case Activate(b, _) => b == a
    case _ => false
  }

  ghost predicate QuietAfter(steps: seq<Step>, i: nat, a: string) {
    forall k :: i < k < |steps| ==> !Changes(steps[k], a)
  }

  lemma FlagsStay(s: Net, e: Step, a: string)
    requires Enabled(s, e) && !Changes(e, a) && a in Next(s, e).locals
    ensures a in s.locals
    ensures Next(s, e).locals[a].definitionDirty ==> s.locals[a].definitionDirty
    ensures Next(s, e).locals[a].mappingDirty ==> s.locals[a].mappingDirty || s.locals[a].definitionDirty
  {
  }

  lemma {:induction false} DefinitionClean(s: Net, steps: seq<Step>, t: Net, a: string, i: nat)
    requires RunOf(s, steps, t) && a in t.locals
    requires i < |steps| && steps[i] == AnnounceDefinition(a) && QuietAfter(steps, i, a)
    ensures !t.locals[a].definitionDirty
    decreases |steps|
  {
    var init, last := steps[..|steps| - 1], steps[|steps| - 1];
    var m :| RunOf(s, init, m) && StepTo(m, last, t);
    if i < |init| {
      FlagsStay(m, last, a);
      DefinitionClean(s, init, m, a, i);
    }
  }

  lemma {:induction false} MappingClean(s: Net, steps: seq<Step>, t: Net, a: string, i: nat, j: nat)
    requires RunOf(s, steps, t) && a in t.locals
    requires i < j < |steps| && steps[i] == AnnounceDefinition(a) && steps[j] == AnnounceMapping(a)
    requires QuietAfter(steps, i, a)
    ensures !t.locals[a].mappingDirty
    decreases |steps|
  {
    var init, last := steps[..|steps| - 1], steps[|steps| - 1];
    var m :| RunOf(s, init, m) && StepTo(m, last, t);
    if j < |init| {
      FlagsStay(m, last, a);
      DefinitionClean(s, init, m, a, i);
      MappingClean(s, init, m, a, i, j);
    }
  }

  ghost predicate CoveredEverywhere(t: Net, a: string) {
    a in t.locals ==> forall u :: u in t.remotes ==> Covered(t.locals[a], u, t.remotes[u])
  }

  /**
   * Once the definition and then the mapping of a local agent have been announced, and until
   * they change again, the agent is covered for every remote agent, whatever else happens.
   */
  lemma QuietAgentIsCovered(s: Net, steps: seq<Step>, t: Net, a: string, i: nat, j: nat)
    requires Started(s) && RunOf(s, steps, t)
    requires i < j < |steps| && steps[i] == AnnounceDefinition(a) && steps[j] == AnnounceMapping(a)
    requires QuietAfter(steps, i, a)
    ensures CoveredEverywhere(t, a)
  {
    EveryRun(s, steps, t);
    if a in t.locals {
      DefinitionClean(s, steps, t, a, i);
      MappingClean(s, steps, t, a, i, j);
      forall u | u in t.remotes ensures Covered(t.locals[a], u, t.remotes[u]) {
        assert Tracked(t.locals[a], u, t.remotes[u]);
      }
    }
  }

  function DefinitionTick(order: seq<string>): seq<Step> {
    seq(|order|, i requires 0 <= i < |order| => AnnounceDefinition(order[i]))
  }

  function MappingTick(order: seq<string>): seq<Step> {
    seq(|order|, i requires 0 <= i < |order| => AnnounceMapping(order[i]))
  }

  /** A definition tick and then a mapping tick with no change between them cover every pair, each filter once. */
  lemma TwoTicksCover(s: Net, steps: seq<Step>, first: seq<string>, second: seq<string>, t: Net)
    requires Started(s) && RunOf(s, steps + DefinitionTick(first) + MappingTick(second), t)
    requires forall a :: a in t.locals ==> a in first && a in second
    ensures forall a :: a in t.locals ==> CoveredEverywhere(t, a)
    ensures forall u :: u in t.remotes ==> DistinctFilters(t.remotes[u])
  {
    var all := steps + DefinitionTick(first) + MappingTick(second);
    EveryRun(s, all, t);
    forall a | a in t.locals
      ensures CoveredEverywhere(t, a)
    {
      var k :| 0 <= k < |first| && first[k] == a;
      var l :| 0 <= l < |second| && second[l] == a;
      TicksAt(steps, first, second, a, k, l);
      QuietAgentIsCovered(s, all, t, a, |steps| + k, |steps| + |first| + l);
    }
  }

  lemma TicksAt(steps: seq<Step>, first: seq<string>, second: seq<string>, a: string, k: nat, l: nat)
    requires k < |first| && first[k] == a && l < |second| && second[l] == a
    ensures var all := steps + DefinitionTick(first) + MappingTick(second);
            && all[|steps| + k] == AnnounceDefinition(a)
            && all[|steps| + |first| + l] == AnnounceMapping(a)
            && QuietAfter(all, |steps| + k, a)
  {
    var all := steps + DefinitionTick(first) + MappingTick(second);
    forall n | |steps| + k < n < |all|
      ensures !Changes(all[n], a)
    {
      assert all[n].AnnounceDefinition? || all[n].AnnounceMapping?;
    }
  }

  // ------------------------------------------------------------ the reconnection counter

  /** An enter of the peer adds one, an exit takes one away. */
  function Weight(e: Step, p: string): int {
    match e
    case Enter(q) => if q == p then 1 else 0
    case Exit(q) => if q == p then -1 else 0
    case PeerGone(q) => if q == p then -1 else 0
    case _ => 0
  }

  /** Enters minus exits from step i on. */
  function Sum(steps: seq<Step>, i: nat, p: string): int
    requires i <= |steps|
    decreases |steps| - i
  {
    if i == |steps| then 0 else Weight(steps[i], p) + Sum(steps, i + 1, p)
  }

  /** n is the largest of these sums; the empty one from the end on is 0. */
  ghost predicate LargestSum(steps: seq<Step>, p: string, n: int) {
    && (exists i: nat :: i <= |steps| && Sum(steps, i, p) == n)
    && (forall i: nat :: i <= |steps| ==> Sum(steps, i, p) <= n)
  }

  ghost predicate Counts(s: Net, p: string, n: int) {
    if n <= 0 then p !in s.peers else p in s.peers && s.peers[p].reconnected == n - 1
  }

  lemma {:induction false} SumLast(steps: seq<Step>, e: Step, i: nat, p: string)
    requires i <= |steps|
    ensures Sum(steps + [e], i, p) == Sum(steps, i, p) + Weight(e, p)
    decreases |steps| - i
  {
    if i < |steps| {
      SumLast(steps, e, i + 1, p);
    } else {
      assert Sum(steps + [e], i + 1, p) == 0;
    }
  }

  /** One more step adds its weight, but no exit takes the count below zero. */
  lemma LargestSumStep(steps: seq<Step>, e: Step, p: string, n: nat)
    requires LargestSum(steps, p, n)
    ensures LargestSum(steps + [e], p, if n + Weight(e, p) < 0 then 0 else n + Weight(e, p))
  {
    var all, m := steps + [e], if n + Weight(e, p) < 0 then 0 else n + Weight(e, p);
    assert Sum(all, |all|, p) == 0;
    forall i: nat | i <= |all|
      ensures Sum(all, i, p) <= m
    {
      if i <= |steps| {
        SumLast(steps, e, i, p);
      }
    }
    var at: nat :| at <= |steps| && Sum(steps, at, p) == n;
    SumLast(steps, e, at, p);
  }

  lemma NextCounts(s: Net, e: Step, p: string, n: nat)
    requires Enabled(s, e) && Counts(s, p, n)
    ensures Counts(Next(s, e), p, n + Weight(e, p))
  {
  }

  /**
   * A peer is present with reconnected == k exactly when k + 1 is the largest number of its
   * enters minus exits over all ends of the run: exits before the first enter do not count.
   */
  lemma {:induction false} PresentIffLargestSum(s: Net, steps: seq<Step>, t: Net, p: string)
    requires Started(s) && RunOf(s, steps, t)
    ensures exists n: nat :: LargestSum(steps, p, n)
    ensures forall n: nat :: LargestSum(steps, p, n) ==> Counts(t, p, n)
    decreases |steps|
  {
    if steps == [] {
      assert Sum(steps, 0, p) == 0;
      assert LargestSum(steps, p, 0);
    } else {
      var init, last := steps[..|steps| - 1], steps[|steps| - 1];
      var m :| RunOf(s, init, m) && StepTo(m, last, t);
      PresentIffLargestSum(s, init, m, p);
      var before: nat :| LargestSum(init, p, before);
      NextCounts(m, last, p, before);
      LargestSumStep(init, last, p, before);
      assert init + [last] == steps;
    }
  }

  // ------------------------------------------------------------ where filters stop short

  /** An output name of the maximal length loses its last character in its filter. */
  lemma LongestOutputIsCut(uuid: string, output: string)
    requires |uuid| == 32 && |output| == 1024
    ensures Filter(uuid, output) != uuid + "-" + output
    ensures Filter(uuid, output) == uuid + "-" + output[..1023]
  {
    var whole := uuid + "-" + output;
    assert whole[..MAX_FILTER] == uuid + "-" + output[..1023];
  }

  /** An output without a name is never subscribed to, although a definition may contain one. */
  lemma {:induction false} NamelessOutputSkipped(l: Local, uuid: string, r: Remote, n: nat)
    requires n <= |l.mapping| && |uuid| + 1 < MAX_FILTER
    ensures Filter(uuid, "") in Configured(l, uuid, r, n).filters <==> Filter(uuid, "") in r.filters
  {
    if n > 0 {
      NamelessOutputSkipped(l, uuid, r, n - 1);
      var output := l.mapping[n - 1].output;
      if output != "" {
        assert |Filter(uuid, output)| > |Filter(uuid, "")|;
      }
    }
  }

  /** A filter always begins what the publisher sends, which is what ZeroMQ matches on. */
  lemma FilterIsPrefix(uuid: string, output: string)
    ensures Filter(uuid, output) <= uuid + "-" + output
    ensures Filter(uuid, output) == uuid + "-" + output <==> |uuid| + |output| < MAX_FILTER
  {
  }
}
