/**
 * The network layer as a step machine (src/igs_network.c): peers that enter and leave,
 * remote agents that register and exit, and subscription filters that follow mappings
 * and definitions through two dirty flags and two timers.
 *
 * A locked region of the C code that changes a table is one step: a peer that exits is one
 * step for each of its agents and one for itself, and a timer is one step for each local
 * agent. Where a region walks a hash table, the order of the walk is an argument of the step.
 */
module NetworkState {
  import opened Options
  import opened CStrings

  /** Size of the buffer a filter is printed into, without its terminator. */
  const MAX_FILTER: nat := 1024 + 32

  datatype Peer = Peer(reconnected: nat, joinedPrivateChannel: bool)

  datatype Remote = Remote(
    peer: string,
    name: string,
    outputs: set<string>,
    hasMapping: bool,
    filters: seq<string>)

  datatype Link = Link(input: string, agent: string, output: string)

  datatype Local = Local(inputs: set<string>, mapping: seq<Link>, definitionDirty: bool, mappingDirty: bool)

  /** Events given to the agents of this process about remote peers and agents. */
  datatype Notice =
    | PeerEntered(peer: string)
    | PeerExited(peer: string)
    | AgentEntered(agent: string, peer: string)
    | AgentUpdated(agent: string)
    | AgentExited(agent: string)

  datatype Net = Net(
    peers: map<string, Peer>,
    remotes: map<string, Remote>,
    locals: map<string, Local>,
    log: seq<Notice>)

  // ------------------------------------------------------------ filters

  /** snprintf "%s-%s" into the filter buffer. */
  function Filter(uuid: string, output: string): string {
    Truncate(uuid + "-" + output, MAX_FILTER)
  }

  function AddFilter(filters: seq<string>, f: string): seq<string> {
    if f in filters then filters else filters + [f]
  }

  /** s_subscribe_to_remote_agent_output; an output without a name is skipped. */
  function Subscribed(r: Remote, uuid: string, output: string): Remote {
    if output == "" then r else r.(filters := AddFilter(r.filters, Filter(uuid, output)))
  }

  predicate Matches(link: Link, l: Local, r: Remote) {
    (link.agent == r.name || link.agent == "*") && link.output in r.outputs && link.input in l.inputs
  }

  /** s_network_configure_mapping_to_remote_agent, for the first n links. */
  function Configured(l: Local, uuid: string, r: Remote, n: nat): Remote
    requires n <= |l.mapping|
  {
    if n == 0 then r
    else
      var before := Configured(l, uuid, r, n - 1);
      if Matches(l.mapping[n - 1], l, before) then Subscribed(before, uuid, l.mapping[n - 1].output) else before
  }

  function Configure(l: Local, uuid: string, r: Remote): Remote {
    Configured(l, uuid, r, |l.mapping|)
  }

  // ------------------------------------------------------------ the steps

  ghost predicate Lists(order: seq<string>, keys: set<string>) {
    && (forall i, j :: 0 <= i < j < |order| ==> order[i] != order[j])
    && (set a | a in order) == keys
  }

  datatype Step =
    | Enter(p: string)
    | Join(p: string)
    /** The exit of a peer that is not known, or that has entered again in between. */
    | Exit(p: string)
    /** The end of any other exit, when the agents of the peer have left. */
    | PeerGone(p: string)
    | AgentExit(u: string)
    | ExternalDefinition(p: string, u: string, def: Option<(string, set<string>)>, notified: bool, locals: seq<string>)
    | ExternalMapping(u: string, empty: bool, parsed: bool)
    | LoadMapping(a: string, links: Option<seq<Link>>)
    | LoadDefinition(a: string, inputs: Option<set<string>>)
    | ChangeMapping(a: string, newLinks: seq<Link>)
    | ChangeDefinition(a: string, newInputs: set<string>)
    | Activate(a: string, l: Local)
    | Deactivate(a: string)
    /** The part of s_trigger_definition_update for one local agent. */
    | AnnounceDefinition(a: string)
    /** The part of s_trigger_mapping_update for one local agent. */
    | AnnounceMapping(a: string)

  /** What zyre and the caller guarantee; the code asserts the two facts about known peers. */
  ghost predicate Enabled(s: Net, e: Step) {
    match e
    case Join(p) => p in s.peers
    case Exit(p) => p in s.peers ==> s.peers[p].reconnected > 0
    case PeerGone(p) =>
      p in s.peers && s.peers[p].reconnected == 0 && forall u :: u in s.remotes ==> s.remotes[u].peer != p
    case ExternalDefinition(p, u, def, _, order) =>
      (def.Some? && u !in s.remotes ==> p in s.peers) && Lists(order, s.locals.Keys)
    case _ => true
  }

  function ConfigureFor(locals: map<string, Local>, order: seq<string>, u: string, r: Remote): Remote
    requires forall a :: a in order ==> a in locals
  {
    if order == [] then r
    else Configure(locals[order[|order| - 1]], u, ConfigureFor(locals, order[..|order| - 1], u, r))
  }

  function ConfigureRemotes(l: Local, remotes: map<string, Remote>): map<string, Remote> {
    map u | u in remotes :: Configure(l, u, remotes[u])
  }

  function TickDefinition(l: Local): Local {
    if l.definitionDirty then l.(definitionDirty := false, mappingDirty := true) else l
  }

  lemma ListedIn(order: seq<string>, keys: set<string>)
    requires Lists(order, keys)
    ensures forall a :: a in order <==> a in keys
  {
    assert forall a :: a in order <==> a in (set x | x in order);
  }

  ghost function Next(s: Net, e: Step): Net
    requires Enabled(s, e)
  {
    match e
    case Enter(p) =>
      if p in s.peers then s.(peers := s.peers[p := s.peers[p].(reconnected := s.peers[p].reconnected + 1)])
      else s.(peers := s.peers[p := Peer(0, false)], log := s.log + [PeerEntered(p)])
    case Join(p) => s.(peers := s.peers[p := s.peers[p].(joinedPrivateChannel := true)])
    case Exit(p) =>
      if p in s.peers then s.(peers := s.peers[p := s.peers[p].(reconnected := s.peers[p].reconnected - 1)]) else s
    case PeerGone(p) => s.(peers := s.peers - {p}, log := s.log + [PeerExited(p)])
    case AgentExit(u) =>
      if u in s.remotes then s.(remotes := s.remotes - {u}, log := s.log + [AgentExited(u)]) else s
    case ExternalDefinition(p, u, def, notified, order) =>
      if def.None? then s
      else
        ListedIn(order, s.locals.Keys);
        var (name, outputs) := def.value;
        var isNew := u !in s.remotes;
        var r := if isNew then Remote(p, name, outputs, false, []) else s.remotes[u].(name := name, outputs := outputs);
        var notices :=
          if !isNew then [AgentUpdated(u)]
          else if notified then [AgentEntered(u, p), AgentUpdated(u)]
          else [AgentEntered(u, p)];
        s.(remotes := s.remotes[u := ConfigureFor(s.locals, order, u, r)], log := s.log + notices)
    case ExternalMapping(u, empty, parsed) =>
      if u !in s.remotes then s
      else if empty then
        if s.remotes[u].hasMapping then
          s.(remotes := s.remotes[u := s.remotes[u].(hasMapping := false)], log := s.log + [AgentUpdated(u)])
        else s
      else if parsed then
        s.(remotes := s.remotes[u := s.remotes[u].(hasMapping := true)], log := s.log + [AgentUpdated(u)])
      else s
    case LoadMapping(a, links) =>
      if a !in s.locals || links.None? then s
      else
        var l := s.locals[a].(mapping := links.value, mappingDirty := true);
        s.(remotes := ConfigureRemotes(l, s.remotes), locals := s.locals[a := l])
    case LoadDefinition(a, inputs) =>
      if a !in s.locals || inputs.None? then s
      else
        var l := s.locals[a].(inputs := inputs.value, definitionDirty := true);
        s.(remotes := ConfigureRemotes(l, s.remotes), locals := s.locals[a := l])
    case ChangeMapping(a, links) =>
      if a !in s.locals then s else s.(locals := s.locals[a := s.locals[a].(mapping := links, mappingDirty := true)])
    case ChangeDefinition(a, inputs) =>
      if a !in s.locals then s
      else s.(locals := s.locals[a := s.locals[a].(inputs := inputs, definitionDirty := true)])
    case Activate(a, l) =>
      if a in s.locals then s else s.(locals := s.locals[a := l.(definitionDirty := true)])
    case Deactivate(a) => s.(locals := s.locals - {a})
    case AnnounceDefinition(a) =>
      if a !in s.locals then s else s.(locals := s.locals[a := TickDefinition(s.locals[a])])
    case AnnounceMapping(a) =>
      if a !in s.locals || !s.locals[a].mappingDirty then s
      else
        s.(remotes := ConfigureRemotes(s.locals[a], s.remotes),
           locals := s.locals[a := s.locals[a].(mappingDirty := false)])
  }

  // ------------------------------------------------------------ what every step keeps

  /** What the notices alone say about who is there. */
  datatype View = View(peers: set<string>, agents: map<string, string>)

  function Told(v: View, n: Notice): Option<View> {
    match n
    case PeerEntered(p) => if p in v.peers then None else Some(v.(peers := v.peers + {p}))
    case PeerExited(p) =>
      if p in v.peers && (forall u :: u in v.agents ==> v.agents[u] != p) then Some(v.(peers := v.peers - {p}))
      else None
    case AgentEntered(u, p) =>
      if u !in v.agents && p in v.peers then Some(v.(agents := v.agents[u := p])) else None
    case AgentUpdated(u) => if u in v.agents then Some(v) else None
    case AgentExited(u) => if u in v.agents then Some(v.(agents := v.agents - {u})) else None
  }

  /** Follows a log; None when some notice makes no sense where it stands. */
  function Replay(log: seq<Notice>): Option<View> {
    if log == [] then Some(View({}, map[]))
    else
      match Replay(log[..|log| - 1])
      case Some(v) => Told(v, log[|log| - 1])
      case None => None
  }

  function ViewOf(s: Net): View {
    View(s.peers.Keys, map u | u in s.remotes :: s.remotes[u].peer)
  }

  ghost predicate DistinctFilters(r: Remote) {
    forall i, j :: 0 <= i < j < |r.filters| ==> r.filters[i] != r.filters[j]
  }

  /** Every link of l that reaches a named output of r has its filter. */
  ghost predicate Covered(l: Local, u: string, r: Remote) {
    forall i :: 0 <= i < |l.mapping| && Matches(l.mapping[i], l, r) && l.mapping[i].output != "" ==>
                  Filter(u, l.mapping[i].output) in r.filters
  }

  ghost predicate Tracked(l: Local, u: string, r: Remote) {
    l.definitionDirty || l.mappingDirty || Covered(l, u, r)
  }

  ghost predicate Inv(s: Net) {
    && Replay(s.log) == Some(ViewOf(s))
    && (forall u :: u in s.remotes ==> s.remotes[u].peer in s.peers && DistinctFilters(s.remotes[u]))
    && (forall a, u :: a in s.locals && u in s.remotes ==> Tracked(s.locals[a], u, s.remotes[u]))
  }
}
