/**
 * From a published output to a mapped input: subscription, wire and write taken together.
 */
module MappedInputs {
  import opened Options
  import opened ModelWrite
  import opened Publication
  import Delivery
  import NetworkState
  import NetworkProofs

  /** A link of a local agent that reaches an output of a remote agent by its name. */
  ghost predicate Reaches(link: NetworkState.Link, l: NetworkState.Local, r: NetworkState.Remote, o: Output) {
    link in l.mapping && NetworkState.Matches(link, l, r) && link.agent == r.name && link.output == o.name && o.name != ""
  }

  /** An input as model_write finds it. */
  datatype Input = Input(was: Value, constraint: Option<IoConstraint>, enforce: bool)

  ghost predicate TakesFrom(i: Input, o: Output) {
    TypeOf(i.was) == TypeOf(o.value) && (i.constraint.Some? ==> Fits(i.constraint.value, TypeOf(i.was)))
  }

  /**
   * A publication passes a filter of the remote agent and arrives with its uuid and the name
   * and timestamp that were sent, and the loop over the mapping writes the linked input. An
   * input of the same type becomes equal to the output, up to a NUL inside a string; only when
   * its constraint is enforced and not met it stays as it was.
   */
  ghost predicate InputFollows(
      l: NetworkState.Local, uuid: string, r: NetworkState.Remote, link: NetworkState.Link,
      o: Output, timestamp: int, p: Packing, i: Input, libc: Libc)
    requires SentOk(uuid, o, timestamp, p) && TakesFrom(i, o)
  {
    var msg := Published(uuid, o, timestamp, p);
    && (exists f :: f in r.filters && f <= msg[0])
    && var arrival := Arrived(msg, p);
       && arrival.From? && arrival.uuid == uuid && |arrival.reading.all| == 1
       && var got := arrival.reading.all[0];
          && got.timestamp == timestamp
          && link.input in Delivery.AllTargets(l.mapping, r.name, got.name, l.inputs)
          && InBytes(got, i.constraint)
          && WrittenInput(i.was, i.constraint, i.enforce, got, libc) ==
             if Refused(i.constraint, i.enforce, o.value, libc) then i.was else Duplicate(o.value)
  }

  /** A covered pair of agents is all it takes. */
  lemma CoveredInputFollows(
      l: NetworkState.Local, uuid: string, r: NetworkState.Remote, link: NetworkState.Link,
      o: Output, timestamp: int, p: Packing, i: Input, libc: Libc)
    requires NetworkState.Covered(l, uuid, r) && Reaches(link, l, r, o)
    requires SentOk(uuid, o, timestamp, p) && TakesFrom(i, o)
    ensures InputFollows(l, uuid, r, link, o, timestamp, p, i, libc)
  {
    var f := NetworkState.Filter(uuid, o.name);
    NetworkProofs.FilterIsPrefix(uuid, o.name);
    assert f in r.filters && f <= Published(uuid, o, timestamp, p)[0];
    PublicationRoundTrip(uuid, o, timestamp, p);
    InputEndsEqual(uuid, o, timestamp, p, i.was, i.constraint, i.enforce, libc);
    assert l.mapping[..|l.mapping|] == l.mapping;
    Delivery.TargetsAreTheWanted(l.mapping, |l.mapping|, r.name, o.name, l.inputs, link.input);
  }

  /**
   * In every run, once the definition and then the mapping of an agent have been announced, all
   * links of the agent work until it is changed again, whatever happens in between.
   */
  lemma EveryLinkWorks(
      start: NetworkState.Net, steps: seq<NetworkState.Step>, t: NetworkState.Net, a: string, k: nat, n: nat,
      uuid: string, link: NetworkState.Link, o: Output, timestamp: int, p: Packing, i: Input, libc: Libc)
    requires NetworkProofs.Started(start) && NetworkProofs.RunOf(start, steps, t)
    requires k < n < |steps| && NetworkProofs.QuietAfter(steps, k, a)
    requires steps[k] == NetworkState.AnnounceDefinition(a) && steps[n] == NetworkState.AnnounceMapping(a)
    requires a in t.locals && uuid in t.remotes && Reaches(link, t.locals[a], t.remotes[uuid], o)
    requires SentOk(uuid, o, timestamp, p) && TakesFrom(i, o)
    ensures InputFollows(t.locals[a], uuid, t.remotes[uuid], link, o, timestamp, p, i, libc)
  {
    NetworkProofs.QuietAgentIsCovered(start, steps, t, a, k, n);
    CoveredInputFollows(t.locals[a], uuid, t.remotes[uuid], link, o, timestamp, p, i, libc);
  }
}
