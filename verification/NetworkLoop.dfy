/**
 * The handlers of src/igs_network.c over the tables of the core context. Each of them is one
 * step of the machine in NetworkState, or several with callbacks between them.
 */
module NetworkLoop {
  import opened Options
  import opened NetworkState
  import opened NetworkProofs
  import opened NetworkHistory

  /** What the application may do from a callback or another thread. */
  predicate IsCallback(e: Step) {
    e.ChangeMapping? || e.ChangeDefinition? || e.Activate? || e.Deactivate?
  }

  type Callback = e: Step | IsCallback(e) witness Deactivate("")

  /** The agents of a peer in a table. */
  function WithoutPeer(remotes: map<string, Remote>, p: string): map<string, Remote> {
    map u | u in remotes && remotes[u].peer != p :: remotes[u]
  }

  /** What is told when the peer leaves with its agents. */
  function ExitNotices(remotes: map<string, Remote>, p: string, order: seq<string>): seq<Notice> {
    if order == [] then []
    else
      var u := order[|order| - 1];
      ExitNotices(remotes, p, order[..|order| - 1]) +
      if u in remotes && remotes[u].peer == p then [AgentExited(u)] else []
  }

  class Context {
    var peers: map<string, Peer>
    var remotes: map<string, Remote>
    var locals: map<string, Local>
    /** How often the lock has been released to run callbacks. */
    var releases: nat
    /** What the callbacks do during each release. */
    const callbacks: nat -> seq<Callback>
    /** What the agents of this process have been told. */
    ghost var log: seq<Notice>
    /** The steps since the start. */
    ghost var trace: seq<Step>
    ghost const start: Net

    ghost function State(): Net
      reads this
    {
      Net(peers, remotes, locals, log)
    }

    /** The state is reached by a run. */
    ghost predicate Valid()
      reads this
    {
      Started(start) && RunOf(start, trace, State())
    }

    /** So it keeps what every run keeps. */
    lemma Holds()
      requires Valid()
      ensures Inv(State())
    {
      EveryRun(start, trace, State());
    }

    constructor (locals: map<string, Local>, callbacks: nat -> seq<Callback>)
      ensures Valid() && peers == map[] && remotes == map[] && this.locals == locals
      ensures this.callbacks == callbacks && trace == []
    {
      peers, remotes, this.locals, log, trace := map[], map[], locals, [], [];
      releases, this.callbacks := 0, callbacks;
      start := Net(map[], map[], locals, []);
    }

    /** The one step that has just been made. */
    lemma Reached(before: Net, steps: seq<Step>, e: Step)
      requires RunOf(start, steps, before) && Enabled(before, e)
      ensures RunOf(start, steps + [e], Next(before, e))
    {
      RunStep(start, steps, before, e);
    }

    // ------------------------------------------------------------ callbacks

    /** igsagent_mapping_add and the like, the calls that change a definition, activation and deactivation. */
    method Call(e: Callback)
      requires Valid()
      modifies this`locals, this`trace
      ensures Valid() && State() == Next(old(State()), e) && trace == old(trace) + [e]
    {
      Reached(State(), trace, e);
      match e {
        case ChangeMapping(a, links) =>
          if a in locals { locals := locals[a := locals[a].(mapping := links, mappingDirty := true)]; }
        case ChangeDefinition(a, inputs) =>
          if a in locals { locals := locals[a := locals[a].(inputs := inputs, definitionDirty := true)]; }
        case Activate(a, l) =>
          if a !in locals { locals := locals[a := l.(definitionDirty := true)]; }
        case Deactivate(a) => locals := locals - {a};
      }
      trace := trace + [e];
    }

    /** Unlock, let others run, lock again. */
    method Release()
      requires Valid()
      modifies this`locals, this`trace, this`releases
      ensures Valid() && trace == old(trace) + callbacks(old(releases)) && releases == old(releases) + 1
    {
      var calls := callbacks(releases);
      for i := 0 to |calls|
        invariant Valid() && releases == old(releases) && trace == old(trace) + calls[..i]
      {
        Call(calls[i]);
      }
      assert calls[..|calls|] == calls;
      releases := releases + 1;
    }

    // ------------------------------------------------------------ peers

    /** The ENTER branch of s_manage_zyre_incoming. */
    method OnEnter(p: string)
      requires Valid()
      modifies this`peers, this`log, this`trace
      ensures Inv(State())
      ensures Valid() && trace == old(trace) + [Enter(p)]
      ensures State() == Next(old(State()), Enter(p))
      ensures p !in old(peers) ==> peers == old(peers)[p := Peer(0, false)] && log == old(log) + [PeerEntered(p)]
      ensures p in old(peers) ==>
                log == old(log) &&
                peers == old(peers)[p := Peer(old(peers)[p].reconnected + 1, old(peers)[p].joinedPrivateChannel)]
    {
      PeerEnters(p);
      Holds();
    }

    method PeerEnters(p: string)
      requires Valid()
      modifies this`peers, this`log, this`trace
      ensures Valid() && trace == old(trace) + [Enter(p)]
      ensures State() == Next(old(State()), Enter(p))
    {
      Reached(State(), trace, Enter(p));
      StorePeer(p);
      trace := trace + [Enter(p)];
    }

    method StorePeer(p: string)
      modifies this`peers, this`log
      ensures State() == Next(old(State()), Enter(p))
    {
      if p !in peers {
        peers := peers[p := Peer(0, false)];
        log := log + [PeerEntered(p)];
      } else {
        peers := peers[p := peers[p].(reconnected := peers[p].reconnected + 1)];
      }
    }

    /** One agent of a peer that exits. */
    method AgentLeaves(u: string)
      requires Valid() && u in remotes
      modifies this`remotes, this`log, this`trace
      ensures Valid() && remotes == old(remotes) - {u}
      ensures log == old(log) + [AgentExited(u)] && trace == old(trace) + [AgentExit(u)]
    {
      Reached(State(), trace, AgentExit(u));
      remotes := remotes - {u};
      log := log + [AgentExited(u)];
      trace := trace + [AgentExit(u)];
    }

    /**
     * The EXIT branch, with callbacks after each agent. An exit after a reconnection only counts
     * down; any other removes the peer with all of its agents and none else, and tells of the
     * agents in the order of the walk and then of the peer.
     */
    method OnExit(p: string, order: seq<string>)
      requires Valid() && Lists(order, remotes.Keys)
      modifies this
      ensures Inv(State())
      ensures Valid() && old(trace) <= trace
      ensures p !in old(peers) ==> State() == old(State())
      ensures p in old(peers) && old(peers)[p].reconnected > 0 ==>
                && State() == Next(old(State()), Exit(p)) && remotes == old(remotes) && log == old(log)
                && peers == old(peers)[p := Peer(old(peers)[p].reconnected - 1, old(peers)[p].joinedPrivateChannel)]
      ensures p in old(peers) && old(peers)[p].reconnected == 0 ==>
                && peers == old(peers) - {p} && remotes == WithoutPeer(old(remotes), p)
                && log == old(log) + ExitNotices(old(remotes), p, order) + [PeerExited(p)]
    {
      if p !in peers || peers[p].reconnected > 0 {
        CountDown(p);
      } else {
        AgentsLeave(p, order);
        PeerLeaves(p);
        Release();
      }
      Holds();
    }

    /** The exit of a peer that is not known, or that has entered again in between. */
    method CountDown(p: string)
      requires Valid() && Enabled(State(), Exit(p))
      modifies this`peers, this`trace
      ensures Valid() && State() == Next(old(State()), Exit(p)) && trace == old(trace) + [Exit(p)]
    {
      Reached(State(), trace, Exit(p));
      if p in peers {
        peers := peers[p := peers[p].(reconnected := peers[p].reconnected - 1)];
      }
      trace := trace + [Exit(p)];
    }

    method PeerLeaves(p: string)
      requires Valid() && Enabled(State(), PeerGone(p))
      modifies this`peers, this`log, this`trace
      ensures Valid() && peers == old(peers) - {p}
      ensures log == old(log) + [PeerExited(p)] && trace == old(trace) + [PeerGone(p)]
    {
      Reached(State(), trace, PeerGone(p));
      peers := peers - {p};
      log := log + [PeerExited(p)];
      trace := trace + [PeerGone(p)];
    }

    /** The walk over all remote agents. */
    method AgentsLeave(p: string, order: seq<string>)
      requires Valid() && Lists(order, remotes.Keys)
      modifies this`remotes, this`locals, this`log, this`trace, this`releases
      ensures Valid() && old(trace) <= trace
      ensures remotes == WithoutPeer(old(remotes), p) && log == old(log) + ExitNotices(old(remotes), p, order)
    {
      ghost var before := remotes;
      ListedIn(order, remotes.Keys);
      for i := 0 to |order|
        invariant Valid() && old(trace) <= trace
        invariant remotes == Remaining(before, p, order[..i])
        invariant log == old(log) + ExitNotices(before, p, order[..i])
      {
        RemainingStep(before, p, order, i);
        NoticesStep(old(log), before, p, order, i);
        LeaveIfOf(p, order[i]);
      }
      assert order[..|order|] == order;
      RemainingAll(before, p, order);
    }

    method LeaveIfOf(p: string, u: string)
      requires Valid() && u in remotes
      modifies this`remotes, this`locals, this`log, this`trace, this`releases
      ensures Valid() && old(trace) <= trace
      ensures remotes == if old(remotes)[u].peer == p then old(remotes) - {u} else old(remotes)
      ensures log == old(log) + if old(remotes)[u].peer == p then [AgentExited(u)] else []
    {
      if remotes[u].peer == p {
        AgentLeaves(u);
        Release();
      }
    }

    /** REMOTE_AGENT_EXIT shouted on the private channel. */
    method OnAgentExit(u: string)
      requires Valid()
      modifies this`remotes, this`log, this`trace
      ensures Inv(State())
      ensures Valid() && trace == old(trace) + [AgentExit(u)]
      ensures State() == Next(old(State()), AgentExit(u))
      ensures remotes == old(remotes) - {u}
      ensures log == if u in old(remotes) then old(log) + [AgentExited(u)] else old(log)
    {
      if u in remotes {
        AgentLeaves(u);
      } else {
        Reached(State(), trace, AgentExit(u));
        trace := trace + [AgentExit(u)];
      }
      Holds();
    }

    // ------------------------------------------------------------ filters

    /** s_subscribe_to_remote_agent_output */
    method Subscribe(u: string, output: string)
      requires u in remotes
      modifies this`remotes
      ensures remotes == old(remotes)[u := Subscribed(old(remotes)[u], u, output)]
    {
      if |output| > 0 {
        var filterValue := Filter(u, output);
        var filters := remotes[u].filters;
        var i := 0;
        while i < |filters| && filters[i] != filterValue
          invariant 0 <= i <= |filters| && filterValue !in filters[..i]
        {
          i := i + 1;
        }
        if i == |filters| {
          assert filters[..i] == filters;
          remotes := remotes[u := remotes[u].(filters := filters + [filterValue])];
        }
      }
    }

    /** s_network_configure_mapping_to_remote_agent */
    method ConfigureMapping(l: Local, u: string)
      requires u in remotes
      modifies this`remotes
      ensures remotes == old(remotes)[u := Configure(l, u, old(remotes)[u])]
      ensures Follows(old(remotes)[u], remotes[u], l, u)
    {
      ConfigureFollows(l, u, remotes[u]);
      for n := 0 to |l.mapping|
        invariant u in remotes && remotes == old(remotes)[u := Configured(l, u, old(remotes)[u], n)]
      {
        if Matches(l.mapping[n], l, remotes[u]) {
          Subscribe(u, l.mapping[n].output);
        }
      }
    }

    /** The loop over all remote agents for one local agent. */
    method ConfigureMappings(l: Local, order: seq<string>)
      requires Lists(order, remotes.Keys)
      modifies this`remotes
      ensures remotes == ConfigureRemotes(l, old(remotes))
    {
      ghost var before := remotes;
      ListedIn(order, remotes.Keys);
      for i := 0 to |order|
        invariant remotes.Keys == before.Keys
        invariant forall k :: 0 <= k < i ==> remotes[order[k]] == Configure(l, order[k], before[order[k]])
        invariant forall k :: i <= k < |order| ==> remotes[order[k]] == before[order[k]]
      {
        ConfigureMapping(l, order[i]);
      }
      forall u | u in before ensures remotes[u] == Configure(l, u, before[u]) {
        assert u in order;
      }
    }

    /** The loop over all local agents for one remote agent. */
    method ConfigureWithAll(u: string, order: seq<string>)
      requires u in remotes && Lists(order, locals.Keys)
      modifies this`remotes
      ensures forall a :: a in order ==> a in locals
      ensures remotes == old(remotes)[u := ConfigureFor(locals, order, u, old(remotes)[u])]
    {
      ghost var before := remotes;
      ListedIn(order, locals.Keys);
      for i := 0 to |order|
        invariant u in remotes && forall a :: a in order[..i] ==> a in locals
        invariant remotes == before[u := ConfigureFor(locals, order[..i], u, before[u])]
      {
        assert order[..i + 1][..i] == order[..i];
        ConfigureMapping(locals[order[i]], u);
      }
      assert order[..|order|] == order;
    }

    // ------------------------------------------------------------ messages

    /** EXTERNAL_DEFINITION: registers or updates an agent, then looks at every local mapping. */
    method OnExternalDefinition(p: string, u: string, def: Option<(string, set<string>)>, notified: bool, order: seq<string>)
      requires Valid() && Enabled(State(), ExternalDefinition(p, u, def, notified, order))
      modifies this`remotes, this`log, this`trace
      ensures Inv(State())
      ensures Valid() && State() == Next(old(State()), ExternalDefinition(p, u, def, notified, order))
      ensures trace == old(trace) + [ExternalDefinition(p, u, def, notified, order)]
      ensures def.None? ==> State() == old(State())
      ensures def.Some? ==> Stores(old(State()), State(), p, u, def.value.0, def.value.1)
      ensures def.Some? ==> u in remotes && remotes[u].name == def.value.0 && remotes[u].outputs == def.value.1
      ensures def.Some? ==> remotes[u].peer == if u in old(remotes) then old(remotes)[u].peer else p
      ensures def.Some? ==>
                log == old(log) + if u in old(remotes) then [AgentUpdated(u)]
                                  else if notified then [AgentEntered(u, p), AgentUpdated(u)] else [AgentEntered(u, p)]
    {
      ghost var before := State();
      Reached(State(), trace, ExternalDefinition(p, u, def, notified, order));
      StoreDefinition(p, u, def, notified, order);
      trace := trace + [ExternalDefinition(p, u, def, notified, order)];
      Holds();
      if def.Some? {
        DefinitionStored(before, p, u, def.value.0, def.value.1, notified, order);
      }
    }

    method StoreDefinition(p: string, u: string, def: Option<(string, set<string>)>, notified: bool, order: seq<string>)
      requires Enabled(State(), ExternalDefinition(p, u, def, notified, order))
      modifies this`remotes, this`log
      ensures State() == Next(old(State()), ExternalDefinition(p, u, def, notified, order))
    {
      if def.Some? {
        var (name, outputs) := def.value;
        var isNew := u !in remotes;
        if isNew {
          remotes := remotes[u := Remote(p, name, outputs, false, [])];
        } else {
          remotes := remotes[u := remotes[u].(name := name, outputs := outputs)];
        }
        ConfigureWithAll(u, order);
        if isNew {
          log := log + if notified then [AgentEntered(u, p), AgentUpdated(u)] else [AgentEntered(u, p)];
        } else {
          log := log + [AgentUpdated(u)];
        }
      }
    }

    /** EXTERNAL_MAPPING */
    method OnExternalMapping(u: string, empty: bool, parsed: bool)
      requires Valid()
      modifies this`remotes, this`log, this`trace
      ensures Inv(State())
      ensures Valid() && trace == old(trace) + [ExternalMapping(u, empty, parsed)]
      ensures State() == Next(old(State()), ExternalMapping(u, empty, parsed))
      ensures var told := u in old(remotes) && if empty then old(remotes)[u].hasMapping else parsed;
              && remotes == (if told then old(remotes)[u := old(remotes)[u].(hasMapping := !empty)] else old(remotes))
              && log == if told then old(log) + [AgentUpdated(u)] else old(log)
    {
      MappingComes(u, empty, parsed);
      Holds();
    }

    method MappingComes(u: string, empty: bool, parsed: bool)
      requires Valid()
      modifies this`remotes, this`log, this`trace
      ensures Valid() && trace == old(trace) + [ExternalMapping(u, empty, parsed)]
      ensures State() == Next(old(State()), ExternalMapping(u, empty, parsed))
    {
      Reached(State(), trace, ExternalMapping(u, empty, parsed));
      if u in remotes {
        if empty {
          if remotes[u].hasMapping {
            remotes := remotes[u := remotes[u].(hasMapping := false)];
            log := log + [AgentUpdated(u)];
          }
        } else if parsed {
          remotes := remotes[u := remotes[u].(hasMapping := true)];
          log := log + [AgentUpdated(u)];
        }
      }
      trace := trace + [ExternalMapping(u, empty, parsed)];
    }

    /** LOAD_MAPPING: the new mapping is put to use at once and announced by the next tick. */
    method OnLoadMapping(a: string, links: Option<seq<Link>>, order: seq<string>)
      requires Valid() && Lists(order, remotes.Keys)
      modifies this`remotes, this`locals, this`trace
      ensures Inv(State())
      ensures Valid() && trace == old(trace) + [LoadMapping(a, links)]
      ensures State() == Next(old(State()), LoadMapping(a, links))
      ensures a !in old(locals) || links.None? ==> State() == old(State())
      ensures a in old(locals) && links.Some? ==>
                && locals == old(locals)[a := old(locals)[a].(mapping := links.value, mappingDirty := true)]
                && AllFollow(old(remotes), remotes, locals[a])
    {
      ghost var before := State();
      MappingLoads(a, links, order);
      Holds();
      MappingLoaded(before, a, links);
    }

    method MappingLoads(a: string, links: Option<seq<Link>>, order: seq<string>)
      requires Valid() && Lists(order, remotes.Keys)
      modifies this`remotes, this`locals, this`trace
      ensures Valid() && trace == old(trace) + [LoadMapping(a, links)]
      ensures State() == Next(old(State()), LoadMapping(a, links))
    {
      Reached(State(), trace, LoadMapping(a, links));
      if a in locals && links.Some? {
        var l := locals[a].(mapping := links.value, mappingDirty := true);
        ConfigureMappings(l, order);
        locals := locals[a := l];
      }
      trace := trace + [LoadMapping(a, links)];
    }

    /** LOAD_DEFINITION */
    method OnLoadDefinition(a: string, inputs: Option<set<string>>, order: seq<string>)
      requires Valid() && Lists(order, remotes.Keys)
      modifies this`remotes, this`locals, this`trace
      ensures Inv(State())
      ensures Valid() && trace == old(trace) + [LoadDefinition(a, inputs)]
      ensures State() == Next(old(State()), LoadDefinition(a, inputs))
      ensures a !in old(locals) || inputs.None? ==> State() == old(State())
      ensures a in old(locals) && inputs.Some? ==>
                && locals == old(locals)[a := old(locals)[a].(inputs := inputs.value, definitionDirty := true)]
                && AllFollow(old(remotes), remotes, locals[a])
    {
      ghost var before := State();
      DefinitionLoads(a, inputs, order);
      Holds();
      DefinitionLoaded(before, a, inputs);
    }

    method DefinitionLoads(a: string, inputs: Option<set<string>>, order: seq<string>)
      requires Valid() && Lists(order, remotes.Keys)
      modifies this`remotes, this`locals, this`trace
      ensures Valid() && trace == old(trace) + [LoadDefinition(a, inputs)]
      ensures State() == Next(old(State()), LoadDefinition(a, inputs))
    {
      Reached(State(), trace, LoadDefinition(a, inputs));
      if a in locals && inputs.Some? {
        var l := locals[a].(inputs := inputs.value, definitionDirty := true);
        locals := locals[a := l];
        ConfigureMappings(l, order);
      }
      trace := trace + [LoadDefinition(a, inputs)];
    }

    // ------------------------------------------------------------ timers

    /** The part of a definition tick for one agent. */
    method Announce(a: string)
      requires Valid() && a in locals
      modifies this`locals, this`trace, this`releases
      ensures Valid() && old(trace) + [AnnounceDefinition(a)] <= trace
    {
      var dirty := PassFlagOn(a);
      if dirty {
        Release();
      }
    }

    /** A definition that is sent may need a new mapping; without the flag nothing is sent. */
    method PassFlagOn(a: string) returns (dirty: bool)
      requires Valid() && a in locals
      modifies this`locals, this`trace
      ensures Valid() && trace == old(trace) + [AnnounceDefinition(a)]
      ensures dirty == old(locals)[a].definitionDirty
      ensures locals == if dirty then old(locals)[a := old(locals)[a].(definitionDirty := false, mappingDirty := true)]
                        else old(locals)
    {
      Reached(State(), trace, AnnounceDefinition(a));
      var l := locals[a];
      dirty := l.definitionDirty;
      if dirty {
        locals := locals[a := l.(definitionDirty := false, mappingDirty := true)];
      } else {
        assert locals[a := l] == locals;
      }
      trace := trace + [AnnounceDefinition(a)];
    }

    /**
     * s_trigger_definition_update, with callbacks after each agent. The walk goes on to the end
     * unless it meets an agent that a callback has taken away.
     */
    method OnDefinitionTick(order: seq<string>) returns (all: bool)
      requires Valid() && Lists(order, locals.Keys)
      modifies this`locals, this`trace, this`releases
      ensures Inv(State())
      ensures Valid() && old(trace) <= trace
      ensures all ==> forall a :: a in order ==> AnnounceDefinition(a) in trace[|old(trace)|..]
      ensures !all ==> exists a :: a in order && a !in locals
    {
      var i := 0;
      while i < |order| && order[i] in locals
        invariant 0 <= i <= |order| && Valid() && old(trace) <= trace
        invariant forall k :: 0 <= k < i ==> AnnounceDefinition(order[k]) in trace[|old(trace)|..]
      {
        ghost var before := trace;
        Announce(order[i]);
        TraceGrows(|old(trace)|, before, AnnounceDefinition(order[i]), trace);
        i := i + 1;
      }
      all := i == |order|;
      Holds();
    }

    /** The part of a mapping tick for one agent; one that is gone is not configured. */
    method AnnounceMappingOf(a: string, remoteOrder: seq<string>)
      requires Valid() && Lists(remoteOrder, remotes.Keys)
      modifies this`remotes, this`locals, this`trace, this`releases
      ensures Valid() && remotes.Keys == old(remotes).Keys
      ensures old(trace) + [AnnounceMapping(a)] <= trace
    {
      Reached(State(), trace, AnnounceMapping(a));
      var dirty := ConfigureIfDirty(a, remoteOrder);
      trace := trace + [AnnounceMapping(a)];
      if dirty {
        Release();
      }
    }

    method ConfigureIfDirty(a: string, remoteOrder: seq<string>) returns (dirty: bool)
      requires Lists(remoteOrder, remotes.Keys)
      modifies this`remotes, this`locals
      ensures State() == Next(old(State()), AnnounceMapping(a))
    {
      dirty := a in locals && locals[a].mappingDirty;
      if dirty {
        ConfigureMappings(locals[a], remoteOrder);
        locals := locals[a := locals[a].(mappingDirty := false)];
      }
    }

    /** s_trigger_mapping_update, with callbacks after each agent. */
    method OnMappingTick(order: seq<string>, remoteOrder: seq<string>)
      requires Valid() && Lists(remoteOrder, remotes.Keys)
      modifies this`remotes, this`locals, this`trace, this`releases
      ensures Inv(State())
      ensures Valid() && old(trace) <= trace
      ensures forall a :: a in order ==> AnnounceMapping(a) in trace[|old(trace)|..]
    {
      for i := 0 to |order|
        invariant Valid() && old(trace) <= trace && remotes.Keys == old(remotes).Keys
        invariant forall k :: 0 <= k < i ==> AnnounceMapping(order[k]) in trace[|old(trace)|..]
      {
        ghost var before := trace;
        AnnounceMappingOf(order[i], remoteOrder);
        TraceGrows(|old(trace)|, before, AnnounceMapping(order[i]), trace);
      }
      Holds();
    }
  }

  /** What later steps add keeps the earlier ones. */
  lemma TraceGrows(from: nat, before: seq<Step>, e: Step, after: seq<Step>)
    requires from <= |before| && before + [e] <= after
    ensures e in after[from..]
    ensures forall f :: f in before[from..] ==> f in after[from..]
  {
    assert after[from..][|before| - from] == e;
    assert before[from..] <= after[from..];
  }

  /** The agents that are left after a part of the walk. */
  function Remaining(remotes: map<string, Remote>, p: string, order: seq<string>): map<string, Remote> {
    map u | u in remotes && !(u in order && remotes[u].peer == p) :: remotes[u]
  }

  lemma RemainingAll(remotes: map<string, Remote>, p: string, order: seq<string>)
    requires Lists(order, remotes.Keys)
    ensures Remaining(remotes, p, order) == WithoutPeer(remotes, p)
  {
    ListedIn(order, remotes.Keys);
  }

  lemma RemainingStep(remotes: map<string, Remote>, p: string, order: seq<string>, i: nat)
    requires i < |order| && Lists(order, remotes.Keys)
    ensures order[i] in Remaining(remotes, p, order[..i])
    ensures Remaining(remotes, p, order[..i + 1]) ==
            if remotes[order[i]].peer == p then Remaining(remotes, p, order[..i]) - {order[i]}
            else Remaining(remotes, p, order[..i])
  {
    ListedIn(order, remotes.Keys);
    assert order[..i + 1] == order[..i] + [order[i]];
  }

  lemma NoticesStep(log: seq<Notice>, remotes: map<string, Remote>, p: string, order: seq<string>, i: nat)
    requires i < |order| && Lists(order, remotes.Keys)
    ensures order[i] in remotes
    ensures log + ExitNotices(remotes, p, order[..i + 1]) ==
            log + ExitNotices(remotes, p, order[..i]) + if remotes[order[i]].peer == p then [AgentExited(order[i])] else []
  {
    ListedIn(order, remotes.Keys);
    assert order[..i + 1][..i] == order[..i];
    assert order[i] in order;
  }
}
