/**
 * Delivering one published output to the agents of this process: the loop of
 * s_handle_publication (src/igs_network.c) that releases the model lock around callbacks.
 *
 * While the lock is released, other code may create and destroy agents, change their mappings
 * and inputs, and move the cursor of the mapping list that is being walked, which every search
 * in that list does. `env` gives what is there after the n-th release.
 */
module Delivery {
  import opened Options
  import opened ZLists
  import opened NetworkState

  datatype World = World(
    /** The agents in table order. */
    agents: seq<string>,
    links: string -> seq<Link>,
    inputs: string -> set<string>,
    /** Where the cursor of the list that is walked has been moved, if it has. */
    moved: Option<int>)

  predicate Wanted(link: Link, remoteName: string, output: string, inputs: set<string>) {
    link.agent == remoteName && link.output == output && link.input in inputs
  }

  /** The inputs that the first n links write, in order. */
  function Targets(links: seq<Link>, n: nat, remoteName: string, output: string, inputs: set<string>): seq<string>
    requires n <= |links|
  {
    if n == 0 then []
    else
      var before := Targets(links, n - 1, remoteName, output, inputs);
      if Wanted(links[n - 1], remoteName, output, inputs) then before + [links[n - 1].input] else before
  }

  /** The inputs written are those that the mapping links to the output and the definition has. */
  lemma {:induction false} TargetsAreTheWanted(links: seq<Link>, n: nat, remoteName: string, output: string,
                                               inputs: set<string>, input: string)
    requires n <= |links|
    ensures input in Targets(links, n, remoteName, output, inputs) <==>
            input in inputs && Link(input, remoteName, output) in links[..n]
  {
    if n > 0 {
      TargetsAreTheWanted(links, n - 1, remoteName, output, inputs, input);
      assert links[..n] == links[..n - 1] + [links[n - 1]];
    }
  }

  function AllTargets(links: seq<Link>, remoteName: string, output: string, inputs: set<string>): seq<string> {
    Targets(links, |links|, remoteName, output, inputs)
  }

  /** Inputs are written in the order of the mapping. */
  lemma {:induction false} TargetsInOrder(a: seq<Link>, b: seq<Link>, remoteName: string, output: string, inputs: set<string>)
    ensures AllTargets(a + b, remoteName, output, inputs) ==
            AllTargets(a, remoteName, output, inputs) + AllTargets(b, remoteName, output, inputs)
  {
    if b == [] {
      assert a + b == a;
    } else {
      var init, last := b[..|b| - 1], b[|b| - 1];
      TargetsInOrder(a, init, remoteName, output, inputs);
      assert a + b == (a + init) + [last] && b == init + [last];
      LastTarget(a + init, last, remoteName, output, inputs);
      LastTarget(init, last, remoteName, output, inputs);
    }
  }

  lemma LastTarget(links: seq<Link>, last: Link, remoteName: string, output: string, inputs: set<string>)
    ensures AllTargets(links + [last], remoteName, output, inputs) ==
            AllTargets(links, remoteName, output, inputs) + if Wanted(last, remoteName, output, inputs) then [last.input] else []
  {
    SameTargets(links, [last], |links|, remoteName, output, inputs);
  }

  lemma {:induction false} SameTargets(links: seq<Link>, more: seq<Link>, n: nat, remoteName: string, output: string, inputs: set<string>)
    requires n <= |links|
    ensures Targets(links + more, n, remoteName, output, inputs) == Targets(links, n, remoteName, output, inputs)
  {
    if n > 0 {
      SameTargets(links, more, n - 1, remoteName, output, inputs);
    }
  }

  /** No input is written twice for one output when the mapping holds no triple twice. */
  lemma {:induction false} NoTargetTwice(links: seq<Link>, n: nat, remoteName: string, output: string, inputs: set<string>)
    requires n <= |links|
    requires forall i, j :: 0 <= i < j < |links| ==> links[i] != links[j]
    ensures var all := Targets(links, n, remoteName, output, inputs);
            forall i, j :: 0 <= i < j < |all| ==> all[i] != all[j]
  {
    if n > 0 {
      NoTargetTwice(links, n - 1, remoteName, output, inputs);
      TargetsAreTheWanted(links, n - 1, remoteName, output, inputs, links[n - 1].input);
      var before := Targets(links, n - 1, remoteName, output, inputs);
      assert forall i :: 0 <= i < |before| ==> before[i] in before;
    }
  }

  // ------------------------------------------------------------ the walk over one mapping

  /** What a walk depends on. */
  datatype Setting = Setting(
    agent: string,
    remoteName: string,
    output: string,
    /** Whether model_write accepts the value for an input. */
    accepts: string -> bool,
    env: nat -> World)

  /** The list as it is now, the element to be looked at next, and what has been done. */
  datatype Walk = Walk(items: seq<Link>, next: nat, inputs: set<string>, releases: nat, written: seq<string>)

  predicate Over(w: Walk) {
    w.next >= |w.items|
  }

  function Ahead(w: Walk): seq<Link> {
    if Over(w) then [] else w.items[w.next..]
  }

  /** The inputs that a walk would still write if callbacks did nothing. */
  function Todo(s: Setting, w: Walk): seq<string> {
    AllTargets(Ahead(w), s.remoteName, s.output, w.inputs)
  }

  predicate IsTurn(s: Setting, w: Walk) {
    !Over(w) && Wanted(w.items[w.next], s.remoteName, s.output, w.inputs)
  }

  /** Where a cursor stands after a release; anything outside the list stands for no cursor. */
  function Landed(at: int, moved: Option<int>, size: nat): int {
    var cursor := if moved.Some? then moved.value else at;
    if 0 <= cursor < size then cursor else -1
  }

  function Begin(s: Setting, world: World, releases: nat): Walk {
    Walk(world.links(s.agent), 0, world.inputs(s.agent), releases, [])
  }

  /** After the callbacks, zlist_next goes on from wherever the cursor is, unless the agent is gone. */
  function Released(s: Setting, at: nat, releases: nat, written: seq<string>): Walk {
    var world := s.env(releases);
    var items := world.links(s.agent);
    Walk(items, if s.agent in world.agents then Landed(at, world.moved, |items|) + 1 else |items|,
         world.inputs(s.agent), releases + 1, written)
  }

  /** One round of the loop. */
  function Look(s: Setting, w: Walk): Walk
    requires !Over(w)
  {
    var input := w.items[w.next].input;
    if !IsTurn(s, w) then w.(next := w.next + 1)
    else if s.accepts(input) then Released(s, w.next, w.releases, w.written + [input])
    else w.(next := w.next + 1, written := w.written + [input])
  }

  /** A walk begins at the head of the mapping that the agent has then. */
  lemma BeginsAtHead(s: Setting, world: World, releases: nat)
    ensures Begin(s, world, releases).written == [] && Begin(s, world, releases).releases == releases
    ensures Todo(s, Begin(s, world, releases)) ==
            AllTargets(world.links(s.agent), s.remoteName, s.output, world.inputs(s.agent))
  {
  }

  /**
   * One round: a linked input is written; when the write is accepted, callbacks run, and the walk
   * goes on behind wherever they left the cursor, at the head when they left none, and nowhere
   * when the agent is gone.
   */
  lemma RoundIs(s: Setting, w: Walk)
    requires !Over(w)
    ensures
      var link, now, world := w.items[w.next], Look(s, w), s.env(w.releases);
      var linked := link.agent == s.remoteName && link.output == s.output && link.input in w.inputs;
      && now.written == (if linked then w.written + [link.input] else w.written)
      && (if linked && s.accepts(link.input) then
            && now.items == world.links(s.agent) && now.inputs == world.inputs(s.agent)
            && now.releases == w.releases + 1
            && (s.agent !in world.agents ==> now.next >= |now.items|)
            && (s.agent in world.agents ==>
                  var cursor := if world.moved.Some? then world.moved.value else w.next;
                  now.next == if 0 <= cursor < |now.items| then cursor + 1 else 0)
          else now == w.(next := w.next + 1, written := now.written))
  {
  }

  /** The states of a walk so far, round by round. */
  ghost predicate IsTrace(s: Setting, tr: seq<Walk>) {
    tr != [] && forall k :: 0 <= k < |tr| - 1 ==> RoundAt(s, tr, k)
  }

  predicate RoundAt(s: Setting, tr: seq<Walk>, k: nat)
    requires k < |tr| - 1
  {
    !Over(tr[k]) && tr[k + 1] == Look(s, tr[k])
  }

  function Last(tr: seq<Walk>): Walk
    requires tr != []
  {
    tr[|tr| - 1]
  }

  ghost predicate IsWalk(s: Setting, w: Walk, tr: seq<Walk>) {
    IsTrace(s, tr) && tr[0] == w && Over(Last(tr))
  }

  /** A walk that is over, with these inputs written and this many releases. */
  ghost predicate Walked(s: Setting, w: Walk, upTo: nat, written: seq<string>) {
    exists tr :: IsWalk(s, w, tr) && Last(tr).releases == upTo && Last(tr).written == written
  }

  lemma TraceGoesOn(s: Setting, tr: seq<Walk>)
    requires IsTrace(s, tr) && !Over(Last(tr))
    ensures IsTrace(s, tr + [Look(s, Last(tr))])
  {
    var all := tr + [Look(s, Last(tr))];
    forall k | 0 <= k < |all| - 1
      ensures RoundAt(s, all, k)
    {
      assert k < |tr| - 1 ==> RoundAt(s, tr, k);
    }
  }

  lemma {:induction false} GrowsOnly(s: Setting, tr: seq<Walk>, i: nat, j: nat)
    requires IsTrace(s, tr) && i <= j < |tr|
    ensures tr[i].written <= tr[j].written && tr[i].releases <= tr[j].releases
    decreases j - i
  {
    if i < j {
      GrowsOnly(s, tr, i, j - 1);
      assert RoundAt(s, tr, j - 1);
    }
  }

  // ------------------------------------------------------------ when a walk is exact

  /** What is to be done is the next element's input, if it is linked, and what is behind it. */
  lemma TodoStep(s: Setting, w: Walk)
    requires !Over(w)
    ensures Todo(s, w) == (if IsTurn(s, w) then [w.items[w.next].input] else []) + TodoBehind(s, w)
  {
    var link, rest := w.items[w.next], Ahead(w.(next := w.next + 1));
    assert Ahead(w) == [link] + rest;
    TargetsInOrder([link], rest, s.remoteName, s.output, w.inputs);
    LastTarget([], link, s.remoteName, s.output, w.inputs);
    assert [] + [link] == [link];
  }

  /** The i-th of some inputs, if there are so many. */
  function Nth(inputs: seq<string>, i: nat): Option<string> {
    if i < |inputs| then Some(inputs[i]) else None
  }

  /** What would still be to be done behind the next element if callbacks did nothing. */
  function TodoBehind(s: Setting, w: Walk): seq<string> {
    Todo(s, w.(next := w.next + 1))
  }

  lemma NothingAhead(s: Setting, w: Walk)
    requires Over(w)
    ensures Todo(s, w) == []
  {
  }

  lemma SkipRound(s: Setting, w: Walk)
    requires !Over(w) && !IsTurn(s, w)
    ensures Look(s, w).written == w.written && Todo(s, Look(s, w)) == Todo(s, w)
  {
    TodoStep(s, w);
    assert [] + TodoBehind(s, w) == TodoBehind(s, w);
  }

  lemma WriteRound(s: Setting, w: Walk)
    requires IsTurn(s, w)
    ensures var input := w.items[w.next].input;
            Look(s, w).written == w.written + [input] && Todo(s, w) == [input] + TodoBehind(s, w)
  {
    TodoStep(s, w);
  }

  /** The next input to be written is the next one that will have been written. */
  lemma {:induction false} NextIsWritten(s: Setting, tr: seq<Walk>, k: nat)
    requires IsTrace(s, tr) && Over(Last(tr)) && k < |tr|
    ensures Nth(Last(tr).written, |tr[k].written|) == Nth(Todo(s, tr[k]), 0)
    decreases |tr| - k
  {
    if k == |tr| - 1 {
      NothingAhead(s, tr[k]);
    } else {
      assert RoundAt(s, tr, k);
      if IsTurn(s, tr[k]) {
        WriteRound(s, tr[k]);
        GrowsOnly(s, tr, k + 1, |tr| - 1);
      } else {
        SkipRound(s, tr[k]);
        NextIsWritten(s, tr, k + 1);
      }
    }
  }

  /** All that a walk is expected to have written in the end. */
  function Expected(s: Setting, w: Walk): seq<string> {
    w.written + Todo(s, w)
  }

  /** A write after which something else comes than the expected inputs have there. */
  predicate LosesPlaceAt(s: Setting, tr: seq<Walk>, k: nat)
    requires k < |tr| - 1
  {
    IsTurn(s, tr[k]) && Nth(Todo(s, tr[k + 1]), 0) != Nth(Expected(s, tr[0]), |tr[k + 1].written|)
  }

  ghost predicate NeverLosesPlace(s: Setting, tr: seq<Walk>) {
    forall k :: 0 <= k < |tr| - 1 ==> !LosesPlaceAt(s, tr, k)
  }

  /** What is written is what was expected so far, and the next input is the next one expected. */
  predicate OnTrack(s: Setting, expected: seq<string>, v: Walk) {
    v.written <= expected && Nth(Todo(s, v), 0) == Nth(expected, |v.written|)
  }

  lemma OneMore(expected: seq<string>, written: seq<string>, input: string)
    requires written <= expected && Nth(expected, |written|) == Some(input)
    ensures written + [input] <= expected
  {
  }

  lemma TrackKept(s: Setting, tr: seq<Walk>, k: nat)
    requires k < |tr| - 1 && RoundAt(s, tr, k) && !LosesPlaceAt(s, tr, k) && OnTrack(s, Expected(s, tr[0]), tr[k])
    ensures OnTrack(s, Expected(s, tr[0]), tr[k + 1])
  {
    if IsTurn(s, tr[k]) {
      WriteRound(s, tr[k]);
      OneMore(Expected(s, tr[0]), tr[k].written, tr[k].items[tr[k].next].input);
    } else {
      SkipRound(s, tr[k]);
    }
  }

  lemma {:induction false} TrackIsKept(s: Setting, tr: seq<Walk>, expected: seq<string>, k: nat)
    requires IsTrace(s, tr) && NeverLosesPlace(s, tr) && expected == Expected(s, tr[0]) && k < |tr|
    ensures OnTrack(s, expected, tr[k])
  {
    if k == 0 {
      assert tr[0].written <= expected && Nth(Todo(s, tr[0]), 0) == Nth(expected, |tr[0].written|);
    } else {
      var j := k - 1;
      TrackIsKept(s, tr, expected, j);
      assert RoundAt(s, tr, j) && !LosesPlaceAt(s, tr, j);
      TrackKept(s, tr, j);
    }
  }

  /**
   * Whatever callbacks do: a walk that ends has written exactly the inputs linked at its start,
   * in order, if and only if after every write the next linked element is the next one expected.
   */
  lemma ExactIff(s: Setting, w: Walk, tr: seq<Walk>)
    requires IsWalk(s, w, tr)
    ensures Last(tr).written == Expected(s, w) <==> NeverLosesPlace(s, tr)
  {
    if NeverLosesPlace(s, tr) {
      TrackIsKept(s, tr, Expected(s, w), |tr| - 1);
      NothingAhead(s, Last(tr));
    } else {
      var k :| 0 <= k < |tr| - 1 && LosesPlaceAt(s, tr, k);
      NextIsWritten(s, tr, k + 1);
    }
  }

  /** A write after which other inputs are to be done than before. */
  predicate ChangesTodoAt(s: Setting, tr: seq<Walk>, k: nat)
    requires k < |tr| - 1
  {
    IsTurn(s, tr[k]) && Todo(s, tr[k + 1]) != TodoBehind(s, tr[k])
  }

  ghost predicate NeverChangesTodo(s: Setting, tr: seq<Walk>, n: nat) {
    forall k :: 0 <= k < n && k < |tr| - 1 ==> !ChangesTodoAt(s, tr, k)
  }

  lemma MoveOver(written: seq<string>, input: string, behind: seq<string>)
    ensures (written + [input]) + behind == written + ([input] + behind)
  {
  }

  lemma SumKept(s: Setting, tr: seq<Walk>, k: nat)
    requires k < |tr| - 1 && RoundAt(s, tr, k) && !ChangesTodoAt(s, tr, k)
    ensures Expected(s, tr[k + 1]) == Expected(s, tr[k])
  {
    if IsTurn(s, tr[k]) {
      WriteRound(s, tr[k]);
      MoveOver(tr[k].written, tr[k].items[tr[k].next].input, TodoBehind(s, tr[k]));
    } else {
      SkipRound(s, tr[k]);
    }
  }

  lemma {:induction false} SumIsKept(s: Setting, tr: seq<Walk>, n: nat)
    requires IsTrace(s, tr) && n < |tr| && NeverChangesTodo(s, tr, n)
    ensures Expected(s, tr[n]) == Expected(s, tr[0])
  {
    if n > 0 {
      SumIsKept(s, tr, n - 1);
      assert RoundAt(s, tr, n - 1) && !ChangesTodoAt(s, tr, n - 1);
      SumKept(s, tr, n - 1);
    }
  }

  /** A walk is exact when no callback changes what is still to be done. */
  lemma UnchangedTodoIsExact(s: Setting, w: Walk, tr: seq<Walk>)
    requires IsWalk(s, w, tr) && NeverChangesTodo(s, tr, |tr|)
    ensures Last(tr).written == Expected(s, w)
  {
    SumIsKept(s, tr, |tr| - 1);
    NothingAhead(s, Last(tr));
    assert Last(tr).written + [] == Last(tr).written;
  }

  // ------------------------------------------------------------ when only the cursor moves

  ghost predicate NoTripleTwice(links: seq<Link>) {
    forall i, j :: 0 <= i < j < |links| ==> links[i] != links[j]
  }

  /** The list and the inputs stay as they are. */
  ghost predicate ListStays(tr: seq<Walk>) {
    forall k :: 0 <= k < |tr| ==> tr[k].items == tr[0].items && tr[k].inputs == tr[0].inputs
  }

  /** A write after which the walk goes on with another input than it would without callbacks. */
  predicate MovesAwayAt(s: Setting, tr: seq<Walk>, k: nat)
    requires k < |tr| - 1
  {
    IsTurn(s, tr[k]) && Nth(Todo(s, tr[k + 1]), 0) != Nth(TodoBehind(s, tr[k]), 0)
  }

  ghost predicate NeverMovesAway(s: Setting, tr: seq<Walk>, n: nat) {
    forall k :: 0 <= k < n && k < |tr| - 1 ==> !MovesAwayAt(s, tr, k)
  }

  /** The place of the next element to be written. */
  function NextTurn(s: Setting, w: Walk): (at: nat)
    decreases |w.items| - w.next
  {
    if Over(w) || IsTurn(s, w) then w.next else NextTurn(s, w.(next := w.next + 1))
  }

  lemma {:induction false} TodoFromNextTurn(s: Setting, w: Walk)
    requires Todo(s, w) != []
    ensures NextTurn(s, w) < |w.items| && IsTurn(s, w.(next := NextTurn(s, w)))
    ensures w.items[NextTurn(s, w)].input == Todo(s, w)[0] && Todo(s, w) == Todo(s, w.(next := NextTurn(s, w)))
    decreases |w.items| - w.next
  {
    if Over(w) {
      NothingAhead(s, w);
    } else {
      TodoStep(s, w);
      if !IsTurn(s, w) {
        TodoFromNextTurn(s, w.(next := w.next + 1));
      }
    }
  }

  /** In one list without repeated triples, what comes first decides what comes. */
  lemma FirstDecides(s: Setting, v: Walk, w: Walk)
    requires v.items == w.items && v.inputs == w.inputs && NoTripleTwice(w.items)
    requires Nth(Todo(s, v), 0) == Nth(Todo(s, w), 0)
    ensures Todo(s, v) == Todo(s, w)
  {
    if Todo(s, w) != [] {
      TodoFromNextTurn(s, v);
      TodoFromNextTurn(s, w);
      var i, j := NextTurn(s, v), NextTurn(s, w);
      assert w.items[i] == w.items[j];
      assert Ahead(v.(next := i)) == Ahead(w.(next := j));
    }
  }

  lemma MovesAwayChanges(s: Setting, tr: seq<Walk>, k: nat)
    requires k < |tr| - 1 && ListStays(tr) && NoTripleTwice(tr[0].items)
    ensures MovesAwayAt(s, tr, k) <==> ChangesTodoAt(s, tr, k)
  {
    if IsTurn(s, tr[k]) && !MovesAwayAt(s, tr, k) {
      FirstDecides(s, tr[k + 1], tr[k].(next := tr[k].next + 1));
    }
  }

  lemma NeverMovesNeverChanges(s: Setting, tr: seq<Walk>, n: nat)
    requires ListStays(tr) && tr != [] && NoTripleTwice(tr[0].items) && NeverMovesAway(s, tr, n)
    ensures NeverChangesTodo(s, tr, n)
  {
    forall k | 0 <= k < n && k < |tr| - 1
      ensures !ChangesTodoAt(s, tr, k)
    {
      assert !MovesAwayAt(s, tr, k);
      MovesAwayChanges(s, tr, k);
    }
  }

  lemma {:induction false} FirstMove(s: Setting, tr: seq<Walk>, k: nat)
    requires k < |tr| - 1 && MovesAwayAt(s, tr, k)
    ensures exists first: nat :: first < |tr| - 1 && NeverMovesAway(s, tr, first) && MovesAwayAt(s, tr, first)
  {
    if !NeverMovesAway(s, tr, k) {
      var j :| 0 <= j < k && MovesAwayAt(s, tr, j);
      FirstMove(s, tr, j);
    }
  }

  /** The first move away from the place loses it. */
  lemma FirstMoveLoses(s: Setting, tr: seq<Walk>, k: nat)
    requires IsTrace(s, tr) && k < |tr| - 1 && MovesAwayAt(s, tr, k) && NeverChangesTodo(s, tr, k)
    ensures LosesPlaceAt(s, tr, k)
  {
    assert RoundAt(s, tr, k);
    SumIsKept(s, tr, k);
    WriteRound(s, tr[k]);
    NthBehind(tr[k].written, tr[k].items[tr[k].next].input, TodoBehind(s, tr[k]));
  }

  lemma NthBehind(written: seq<string>, input: string, behind: seq<string>)
    ensures Nth(written + ([input] + behind), |written + [input]|) == Nth(behind, 0)
  {
  }

  /**
   * When callbacks leave the mapping and the inputs alone, a walk that ends is exact if and only
   * if each of them leaves the cursor at a place from which the walk goes on as without it.
   */
  lemma ExactIffNeverMovedAway(s: Setting, w: Walk, tr: seq<Walk>)
    requires IsWalk(s, w, tr) && ListStays(tr) && NoTripleTwice(w.items)
    ensures Last(tr).written == Expected(s, w) <==> NeverMovesAway(s, tr, |tr|)
  {
    if NeverMovesAway(s, tr, |tr|) {
      NeverMovesNeverChanges(s, tr, |tr|);
      UnchangedTodoIsExact(s, w, tr);
    } else {
      var k :| 0 <= k < |tr| && k < |tr| - 1 && MovesAwayAt(s, tr, k);
      FirstMove(s, tr, k);
      var first: nat :| first < |tr| - 1 && NeverMovesAway(s, tr, first) && MovesAwayAt(s, tr, first);
      NeverMovesNeverChanges(s, tr, first);
      FirstMoveLoses(s, tr, first);
      ExactIff(s, w, tr);
    }
  }

  /** After this release, the agent is there with the same mapping and inputs and the cursor where it was. */
  predicate LeavesAlone(s: Setting, w: Walk, release: nat) {
    var world := s.env(release);
    && s.agent in world.agents && world.moved.None?
    && world.links(s.agent) == w.items && world.inputs(s.agent) == w.inputs
  }

  ghost predicate Undisturbed(s: Setting, w: Walk, upTo: nat) {
    forall k: nat :: w.releases <= k < upTo ==> LeavesAlone(s, w, k)
  }

  lemma QuietRound(s: Setting, v: Walk)
    requires !Over(v) && (Look(s, v).releases > v.releases ==> LeavesAlone(s, v, v.releases))
    ensures Look(s, v).items == v.items && Look(s, v).inputs == v.inputs
    ensures Todo(s, Look(s, v)) == TodoBehind(s, v)
  {
    assert Look(s, v).next == v.next + 1;
    assert Ahead(Look(s, v)) == Ahead(v.(next := v.next + 1));
  }

  lemma {:induction false} QuietRounds(s: Setting, tr: seq<Walk>, n: nat)
    requires IsTrace(s, tr) && n < |tr| && Undisturbed(s, tr[0], Last(tr).releases)
    ensures tr[n].items == tr[0].items && tr[n].inputs == tr[0].inputs
  {
    if n > 0 {
      QuietRounds(s, tr, n - 1);
      QuietRoundAt(s, tr, n - 1);
    }
  }

  lemma QuietRoundAt(s: Setting, tr: seq<Walk>, k: nat)
    requires IsTrace(s, tr) && k < |tr| - 1 && Undisturbed(s, tr[0], Last(tr).releases)
    requires tr[k].items == tr[0].items && tr[k].inputs == tr[0].inputs
    ensures tr[k + 1].items == tr[0].items && tr[k + 1].inputs == tr[0].inputs && !ChangesTodoAt(s, tr, k)
  {
    assert RoundAt(s, tr, k);
    GrowsOnly(s, tr, 0, k);
    GrowsOnly(s, tr, k + 1, |tr| - 1);
    if tr[k + 1].releases > tr[k].releases {
      assert LeavesAlone(s, tr[0], tr[k].releases);
    }
    QuietRound(s, tr[k]);
  }

  /** A walk that nobody disturbs is exact. */
  lemma UndisturbedIsExact(s: Setting, w: Walk, upTo: nat, written: seq<string>)
    requires Walked(s, w, upTo, written) && Undisturbed(s, w, upTo)
    ensures written == Expected(s, w)
  {
    var tr :| IsWalk(s, w, tr) && Last(tr).releases == upTo && Last(tr).written == written;
    forall k | 0 <= k < |tr| - 1
      ensures !ChangesTodoAt(s, tr, k)
    {
      QuietRounds(s, tr, k);
      QuietRoundAt(s, tr, k);
    }
    UnchangedTodoIsExact(s, w, tr);
  }

  // ------------------------------------------------------------ one element of a mapping that changes

  predicate HeadIs(w: Walk, x: Link) {
    !Over(w) && w.items[w.next] == x
  }

  /** How often it has been the turn of an element. */
  function Turns(tr: seq<Walk>, n: nat, x: Link): nat
    requires n <= |tr|
  {
    if n == 0 then 0 else Turns(tr, n - 1, x) + if HeadIs(tr[n - 1], x) then 1 else 0
  }

  /** After the round, the element is ahead exactly if it was before and has not had its turn. */
  predicate StaysPutAt(tr: seq<Walk>, k: nat, x: Link)
    requires k < |tr| - 1
  {
    x in Ahead(tr[k + 1]) <==> x in Ahead(tr[k]) && !HeadIs(tr[k], x)
  }

  ghost predicate AlwaysPut(tr: seq<Walk>, x: Link) {
    forall k :: 0 <= k < |tr| - 1 ==> StaysPutAt(tr, k, x)
  }

  /** Whether the element is still to have its turn. */
  predicate Waits(v: Walk, x: Link) {
    x in Ahead(v)
  }

  lemma HeadIsAhead(v: Walk, x: Link)
    requires HeadIs(v, x)
    ensures x in Ahead(v)
  {
    assert Ahead(v)[0] == x;
  }

  lemma TurnsRound(tr: seq<Walk>, n: nat, x: Link)
    requires n < |tr| - 1 && StaysPutAt(tr, n, x)
    ensures Turns(tr, n + 1, x) + (if Waits(tr[n + 1], x) then 1 else 0) ==
            Turns(tr, n, x) + (if Waits(tr[n], x) then 1 else 0)
  {
    if HeadIs(tr[n], x) {
      HeadIsAhead(tr[n], x);
    }
  }

  lemma {:induction false} TurnsSoFar(tr: seq<Walk>, n: nat, x: Link)
    requires n < |tr| && AlwaysPut(tr, x)
    ensures Turns(tr, n, x) + (if Waits(tr[n], x) then 1 else 0) == if Waits(tr[0], x) then 1 else 0
  {
    if n > 0 {
      var k := n - 1;
      TurnsSoFar(tr, k, x);
      assert StaysPutAt(tr, k, x);
      TurnsRound(tr, k, x);
    }
  }

  /**
   * However the mapping around it is changed: an element that callbacks neither take away before
   * its turn nor put ahead again afterwards has its turn exactly once in a walk that ends.
   */
  lemma ElementHasOneTurn(s: Setting, w: Walk, tr: seq<Walk>, x: Link)
    requires IsWalk(s, w, tr) && x in Ahead(w) && AlwaysPut(tr, x)
    ensures Turns(tr, |tr|, x) == 1
  {
    var k := |tr| - 1;
    TurnsSoFar(tr, k, x);
    assert Turns(tr, k + 1, x) == Turns(tr, k, x);
  }

  /** In its turn, its input is written exactly if it is linked to the output. */
  lemma TurnWrites(s: Setting, tr: seq<Walk>, k: nat, x: Link)
    requires IsTrace(s, tr) && k < |tr| - 1 && HeadIs(tr[k], x)
    ensures tr[k + 1].written ==
            tr[k].written + if Wanted(x, s.remoteName, s.output, tr[k].inputs) then [x.input] else []
  {
    assert RoundAt(s, tr, k);
  }

  // ------------------------------------------------------------ a walk that never ends

  /** The releases leave the agent with its mapping and inputs, but without a cursor. */
  ghost predicate CursorUnset(s: Setting, w: Walk) {
    forall k :: UnsetAt(s, w, k)
  }

  predicate UnsetAt(s: Setting, w: Walk, release: nat) {
    var world := s.env(release);
    && s.agent in world.agents && world.moved == Some(-1)
    && world.links(s.agent) == w.items && world.inputs(s.agent) == w.inputs
  }

  /** Nothing before the first element to be written is written. */
  ghost predicate FirstTurnAt(s: Setting, w: Walk, at: nat) {
    && w.next <= at < |w.items| && IsTurn(s, w.(next := at)) && s.accepts(w.items[at].input)
    && forall k :: w.next <= k < at ==> !IsTurn(s, w.(next := k))
  }

  /** The same input, n times. */
  function Copies(input: string, n: nat): (all: seq<string>)
    ensures |all| == n
  {
    if n == 0 then [] else Copies(input, n - 1) + [input]
  }

  /**
   * When every callback leaves the list without a cursor, the walk starts again at the head, only
   * the first linked input is written, once for each release, and no walk ends.
   */
  lemma {:induction false} UnsetCursorNeverEnds(s: Setting, w: Walk, at: nat, tr: seq<Walk>, k: nat)
    requires IsTrace(s, tr) && tr[0] == w && w.next == 0 && CursorUnset(s, w) && FirstTurnAt(s, w, at) && k < |tr|
    ensures !Over(tr[k]) && tr[k].next <= at && tr[k].items == w.items && tr[k].inputs == w.inputs
    ensures w.releases <= tr[k].releases
    ensures tr[k].written == w.written + Copies(w.items[at].input, tr[k].releases - w.releases)
  {
    if k > 0 {
      UnsetCursorNeverEnds(s, w, at, tr, k - 1);
      assert RoundAt(s, tr, k - 1) && UnsetAt(s, w, tr[k - 1].releases);
      GrowsOnly(s, tr, 0, k - 1);
      UnsetRound(s, w, at, tr[k - 1]);
    }
  }

  lemma UnsetRound(s: Setting, w: Walk, at: nat, v: Walk)
    requires w.next == 0 && FirstTurnAt(s, w, at) && UnsetAt(s, w, v.releases)
    requires v.next <= at && v.items == w.items && v.inputs == w.inputs && w.releases <= v.releases
    requires v.written == w.written + Copies(w.items[at].input, v.releases - w.releases)
    ensures var next := Look(s, v);
            && next.next <= at && next.items == w.items && next.inputs == w.inputs && v.releases <= next.releases
            && next.written == w.written + Copies(w.items[at].input, next.releases - w.releases)
  {
    assert IsTurn(s, v) <==> IsTurn(s, w.(next := v.next));
  }

  /** One agent with one link, whose callbacks search the list for an element that is not there. */
  function OneLinkWorld(): World {
    World(["me"], _ => [Link("in", "remote", "out")], _ => {"in"}, Some(-1))
  }

  function OneLinkSetting(): Setting {
    Setting("me", "remote", "out", _ => true, _ => OneLinkWorld())
  }

  /** Every round of the walk over it writes, and none is the last. */
  lemma OneLinkNeverEnds(tr: seq<Walk>)
    requires IsTrace(OneLinkSetting(), tr) && tr[0] == Begin(OneLinkSetting(), OneLinkWorld(), 0)
    ensures !Over(Last(tr)) && |Last(tr).written| == Last(tr).releases == |tr| - 1
    decreases |tr|
  {
    var s := OneLinkSetting();
    if |tr| > 1 {
      var init := tr[..|tr| - 1];
      forall k | 0 <= k < |init| - 1
        ensures RoundAt(s, init, k)
      {
        assert RoundAt(s, tr, k);
      }
      OneLinkNeverEnds(init);
      assert RoundAt(s, tr, |tr| - 2);
    }
    UnsetCursorNeverEnds(s, Begin(s, OneLinkWorld(), 0), 0, tr, |tr| - 1);
  }

  // ------------------------------------------------------------ all agents

  /** What has been written to one agent, and the releases between which that was. */
  datatype Visit = Visit(agent: string, written: seq<string>, from: nat, upTo: nat)

  ghost predicate Distinct(visits: seq<Visit>) {
    forall i, j :: 0 <= i < j < |visits| ==> visits[i].agent != visits[j].agent
  }

  /** The uuids kept in the list of contacted agents. */
  function Contacted(visits: seq<Visit>): set<string> {
    set v | v in visits :: v.agent
  }

  /** What is there after the releases from the first one on. */
  function Now(env: nat -> World, world: World, first: nat, releases: nat): World
    requires first <= releases
  {
    if releases == first then world else env(releases - 1)
  }

  lemma NowTwice(env: nat -> World, world: World, first: nat, start: nat, releases: nat)
    requires first <= start <= releases
    ensures Now(env, Now(env, world, first, start), start, releases) == Now(env, world, first, releases)
  {
  }

  /** Nobody but the agents of the universe is there. */
  ghost predicate Within(world: World, universe: set<string>) {
    forall i :: 0 <= i < |world.agents| ==> world.agents[i] in universe
  }

  ghost predicate AlwaysWithin(env: nat -> World, universe: set<string>) {
    forall k :: Within(env(k), universe)
  }

  lemma NowWithin(env: nat -> World, world: World, first: nat, releases: nat, universe: set<string>)
    requires first <= releases && Within(world, universe) && AlwaysWithin(env, universe)
    ensures forall a :: a in Now(env, world, first, releases).agents ==> a in universe
  {
  }

  /** From some release on, mappings and cursors are left alone. */
  ghost predicate CalmFrom(env: nat -> World, calm: nat) {
    forall k: nat :: k >= calm ==> env(k).moved.None? && env(k).links == env(calm).links
  }

  /** After one of these releases, the agent was not there. */
  ghost predicate Missed(env: nat -> World, agent: string, first: nat, upTo: nat) {
    exists k: nat :: first <= k < upTo && agent !in env(k).agents
  }

  lemma AddVisit(visits: seq<Visit>, v: Visit)
    ensures Contacted(visits + [v]) == Contacted(visits) + {v.agent}
    ensures Distinct(visits) && v.agent !in Contacted(visits) ==> Distinct(visits + [v])
  {
    assert forall w :: w in visits + [v] <==> w in visits || w == v;
    assert forall i :: 0 <= i < |visits| ==> visits[i] in visits;
  }

  lemma SmallerRest(universe: set<string>, contacted: set<string>, agent: string)
    requires agent in universe && agent !in contacted
    ensures |universe - (contacted + {agent})| < |universe - contacted|
  {
    assert universe - contacted == (universe - (contacted + {agent})) + {agent};
  }

  /** All agents before it have been contacted. */
  ghost predicate IsFirstLeft(agents: seq<string>, contacted: set<string>, agent: string) {
    exists i :: 0 <= i < |agents| && agents[i] == agent && agent !in contacted
                && forall k :: 0 <= k < i ==> agents[k] in contacted
  }

  /** Each visit begins when the one before it has ended. */
  ghost predicate Chained(visits: seq<Visit>, first: nat, upTo: nat) {
    if visits == [] then first == upTo
    else
      && visits[0].from == first && visits[|visits| - 1].upTo == upTo
      && forall i :: 0 <= i < |visits| - 1 ==> visits[i].upTo == visits[i + 1].from
  }

  lemma ChainGrows(visits: seq<Visit>, v: Visit, first: nat)
    requires Chained(visits, first, v.from)
    ensures Chained(visits + [v], first, v.upTo)
  {
    var all := visits + [v];
    assert forall i :: 0 <= i < |visits| ==> all[i] == visits[i];
  }

  class LocalAgents {
    /** The agents of the context with their mappings and inputs. */
    var world: World
    /** How often the lock has been released. */
    var releases: nat
    const env: nat -> World
    const accepts: (string, string) -> bool

    function SettingOf(agent: string, remoteName: string, output: string): Setting {
      Setting(agent, remoteName, output, x => accepts(agent, x), env)
    }

    /** A setting speaks of these agents. */
    ghost predicate Fits(s: Setting) {
      s.env == env && forall x :: s.accepts(x) == accepts(s.agent, x)
    }

    constructor (world: World, env: nat -> World, accepts: (string, string) -> bool)
      ensures this.world == world && releases == 0 && this.env == env && this.accepts == accepts
    {
      this.world, this.releases, this.env, this.accepts := world, 0, env, accepts;
    }

    /** Unlock, run the callbacks of an input, lock again; the list is that of the agent as it is then. */
    method ReleaseAndRun(list: ZList<Link>, agent: string)
      requires list.Valid()
      modifies this, list
      ensures list.Valid() && releases == old(releases) + 1 && world == env(old(releases))
      ensures list.items == world.links(agent)
      ensures list.cursor == Landed(old(list.cursor), world.moved, |list.items|)
    {
      world := env(releases);
      releases := releases + 1;
      list.items := world.links(agent);
      list.cursor := Landed(list.cursor, world.moved, |list.items|);
    }

    /** The list of mapping elements of an agent; a walk begins by setting its cursor. */
    method MappingOf(agent: string) returns (list: ZList<Link>)
      ensures fresh(list) && list.Valid() && list.items == world.links(agent)
    {
      list := new ZList<Link>();
      list.items := world.links(agent);
    }

    /** Where a walk is, in terms of the list and of this object. */
    function Place(list: ZList<Link>, next: nat, agent: string, written: seq<string>): Walk
      reads this, list
    {
      Walk(list.items, next, world.inputs(agent), releases, written)
    }

    /** One round of the loop up to zlist_next; `here` says whether the loop goes on. */
    method Round(list: ZList<Link>, s: Setting, before: seq<string>) returns (here: bool, written: seq<string>)
      requires list.Valid() && list.cursor >= 0 && Fits(s)
      requires list.items == world.links(s.agent) && s.agent in world.agents
      modifies this, list
      ensures list.Valid() && list.items == world.links(s.agent)
      ensures old(releases) <= releases <= old(releases) + 1
      ensures world == if releases == old(releases) then old(world) else env(old(releases))
      ensures list.cursor == if releases == old(releases) then old(list.cursor)
                             else Landed(old(list.cursor), world.moved, |list.items|)
      ensures here == (s.agent in world.agents)
      ensures Place(list, if here then list.cursor + 1 else |list.items|, s.agent, written) ==
              Look(s, old(Place(list, list.cursor, s.agent, before)))
    {
      var link := list.items[list.cursor];
      written := before;
      if link.agent == s.remoteName && link.output == s.output && link.input in world.inputs(s.agent) {
        written := before + [link.input];
        if accepts(s.agent, link.input) {
          ReleaseAndRun(list, s.agent);
        }
      }
      here := s.agent in world.agents;
    }

    /** A round with zlist_next, and what has become of the time that is left. */
    method Advance(list: ZList<Link>, s: Setting, before: seq<string>, ghost calm: nat)
      returns (here: bool, elmt: Option<Link>, written: seq<string>)
      requires list.Valid() && list.cursor >= 0 && Fits(s) && Settled(calm)
      requires list.items == world.links(s.agent) && s.agent in world.agents
      modifies this, list
      ensures list.Valid() && list.items == world.links(s.agent) && elmt == list.Current() && Settled(calm)
      ensures here ==> s.agent in world.agents
      ensures old(releases) <= releases && world == Now(env, old(world), old(releases), releases)
      ensures Place(list, if here && elmt.Some? then list.cursor else |list.items|, s.agent, written) ==
              Look(s, old(Place(list, list.cursor, s.agent, before)))
      ensures releases == old(releases) || old(releases) > calm ==>
                !here || elmt.None? || (|list.items| == |old(list.items)| && list.cursor > old(list.cursor))
    {
      here, written := Round(list, s, before);
      elmt := list.Current();
      if here {
        elmt := list.Next();
      }
    }

    /** The walk over the mapping of one agent; it stops when the agent is gone after a callback. */
    method WriteInputs(agent: string, remoteName: string, output: string, ghost calm: nat) returns (written: seq<string>)
      requires agent in world.agents && Settled(calm)
      modifies this
      ensures old(releases) <= releases && world == Now(env, old(world), old(releases), releases) && Settled(calm)
      ensures var s := SettingOf(agent, remoteName, output);
              Walked(s, Begin(s, old(world), old(releases)), releases, written)
    {
      var s := SettingOf(agent, remoteName, output);
      ghost var first, was := releases, world;
      ghost var tr := [Begin(s, world, releases)];
      written := [];
      var list := MappingOf(agent);
      var elmt := list.First();
      var here := true;
      while here && elmt.Some?
        invariant fresh(list) && list.Valid() && list.items == world.links(agent) && elmt == list.Current()
        invariant here ==> agent in world.agents
        invariant first <= releases && world == Now(env, was, first, releases) && Settled(calm)
        invariant IsTrace(s, tr) && tr[0] == Begin(s, was, first)
        invariant Last(tr) == Place(list, if here && elmt.Some? then list.cursor else |list.items|, agent, written)
        decreases if releases <= calm then calm + 1 - releases else 0,
                  if here && elmt.Some? then |list.items| - list.cursor else 0
      {
        TraceGoesOn(s, tr);
        ghost var start := releases;
        here, elmt, written := Advance(list, s, written, calm);
        tr := tr + [Look(s, Last(tr))];
        NowTwice(env, was, first, start, releases);
      }
      assert IsWalk(s, Begin(s, was, first), tr);
    }

    /** Callbacks calm down at some time, and what has been there since has not changed. */
    ghost predicate Settled(calm: nat)
      reads this
    {
      CalmFrom(env, calm) && (releases > calm ==> world.links == env(calm).links)
    }

    /** The first agent of the table that has not been contacted yet. */
    method NextAgent(contacted: set<string>) returns (agent: Option<string>)
      ensures agent.Some? ==> agent.value in world.agents && agent.value !in contacted
      ensures agent.None? ==> forall a :: a in world.agents ==> a in contacted
      ensures agent.Some? ==> IsFirstLeft(world.agents, contacted, agent.value)
    {
      var agents, i := world.agents, 0;
      while i < |agents| && agents[i] in contacted
        invariant 0 <= i <= |agents|
        invariant forall k :: 0 <= k < i ==> agents[k] in contacted
      {
        i := i + 1;
      }
      return if i < |agents| then Some(agents[i]) else None;
    }

    /** A visit is one walk over the mapping that the agent had when it began. */
    ghost predicate VisitOk(v: Visit, remoteName: string, output: string, was: World, first: nat, upTo: nat) {
      && first <= v.from <= v.upTo <= upTo
      && Walked(SettingOf(v.agent, remoteName, output), Start(v, remoteName, output, was, first), v.upTo, v.written)
    }

    ghost function Start(v: Visit, remoteName: string, output: string, was: World, first: nat): Walk
      requires first <= v.from
    {
      Begin(SettingOf(v.agent, remoteName, output), Now(env, was, first, v.from), v.from)
    }

    /** One more agent. */
    method VisitAgent(visits: seq<Visit>, agent: string, remoteName: string, output: string,
                      ghost was: World, ghost first: nat, ghost calm: nat) returns (all: seq<Visit>)
      requires first <= releases && world == Now(env, was, first, releases) && Settled(calm)
      requires agent in world.agents && agent !in Contacted(visits) && Distinct(visits)
      requires AllWalked(visits, remoteName, output, was, first, releases) && Chained(visits, first, releases)
      modifies this
      ensures Chained(all, first, releases)
      ensures first <= releases && world == Now(env, was, first, releases) && Settled(calm)
      ensures Distinct(all) && Contacted(all) == Contacted(visits) + {agent}
      ensures AllWalked(all, remoteName, output, was, first, releases)
    {
      var start := releases;
      var written := WriteInputs(agent, remoteName, output, calm);
      NowTwice(env, was, first, start, releases);
      var visit := Visit(agent, written, start, releases);
      all := visits + [visit];
      AddVisit(visits, visit);
      ChainGrows(visits, visit, first);
      AddWalked(visits, visit, remoteName, output, was, first, start, releases);
    }

    /**
     * Every agent is processed at most once, by one walk over the mapping it has when its turn
     * comes; every agent that was there all the time is processed; and the walks that nobody
     * disturbs write exactly the inputs linked then. The loop ends when only finitely many agents
     * ever show up and only finitely many callbacks change a mapping or move a cursor.
     */
    method Deliver(remoteName: string, output: string, ghost universe: set<string>, ghost calm: nat)
      returns (visits: seq<Visit>)
      requires Within(world, universe) && AlwaysWithin(env, universe) && Settled(calm)
      modifies this
      ensures Distinct(visits) && old(releases) <= releases && Chained(visits, old(releases), releases)
      ensures forall v :: v in visits ==> VisitOk(v, remoteName, output, old(world), old(releases), releases)
      ensures forall v :: v in visits && UndisturbedVisit(v, remoteName, output, old(world), old(releases)) ==>
                v.written == LinkedThen(v, remoteName, output, old(world), old(releases))
      ensures forall a :: a in old(world).agents && !Missed(env, a, old(releases), releases) ==> a in Contacted(visits)
      ensures forall a :: a in world.agents ==> a in Contacted(visits)
    {
      ghost var first, was := releases, world;
      visits := [];
      var next := NextAgent({});
      while next.Some?
        invariant first <= releases && world == Now(env, was, first, releases) && Settled(calm)
        invariant Distinct(visits) && Contacted(visits) <= universe
        invariant next.Some? ==> next.value in world.agents && next.value !in Contacted(visits)
        invariant next.None? ==> forall a :: a in world.agents ==> a in Contacted(visits)
        invariant AllWalked(visits, remoteName, output, was, first, releases) && Chained(visits, first, releases)
        decreases |universe - Contacted(visits)|
      {
        NowWithin(env, was, first, releases, universe);
        SmallerRest(universe, Contacted(visits), next.value);
        visits := VisitAgent(visits, next.value, remoteName, output, was, first, calm);
        next := NextAgent(Contacted(visits));
      }
      AllServed(visits, remoteName, output, was, first, releases, world);
    }

    /** The inputs that the mapping of the agent linked to the output when the visit began. */
    ghost function LinkedThen(v: Visit, remoteName: string, output: string, was: World, first: nat): seq<string>
      requires first <= v.from
    {
      var world := Now(env, was, first, v.from);
      AllTargets(world.links(v.agent), remoteName, output, world.inputs(v.agent))
    }

    ghost predicate UndisturbedVisit(v: Visit, remoteName: string, output: string, was: World, first: nat) {
      && first <= v.from
      && Undisturbed(SettingOf(v.agent, remoteName, output), Start(v, remoteName, output, was, first), v.upTo)
    }

    ghost predicate AllWalked(visits: seq<Visit>, remoteName: string, output: string, was: World, first: nat, upTo: nat) {
      forall v :: v in visits ==> VisitOk(v, remoteName, output, was, first, upTo)
    }

    lemma AddWalked(visits: seq<Visit>, v: Visit, remoteName: string, output: string, was: World,
                    first: nat, start: nat, upTo: nat)
      requires first <= start <= upTo
      requires AllWalked(visits, remoteName, output, was, first, start)
      requires VisitOk(v, remoteName, output, was, first, upTo)
      ensures AllWalked(visits + [v], remoteName, output, was, first, upTo)
    {
      forall w | w in visits + [v]
        ensures VisitOk(w, remoteName, output, was, first, upTo)
      {
        if w in visits {
          assert VisitOk(w, remoteName, output, was, first, start);
        }
      }
    }

    lemma AllServed(visits: seq<Visit>, remoteName: string, output: string, was: World, first: nat, upTo: nat, now: World)
      requires first <= upTo && AllWalked(visits, remoteName, output, was, first, upTo)
      requires now == Now(env, was, first, upTo)
      requires forall a :: a in now.agents ==> a in Contacted(visits)
      ensures forall a :: a in was.agents && !Missed(env, a, first, upTo) ==> a in Contacted(visits)
      ensures forall v :: v in visits && UndisturbedVisit(v, remoteName, output, was, first) ==>
                v.written == LinkedThen(v, remoteName, output, was, first)
    {
      forall v | v in visits && UndisturbedVisit(v, remoteName, output, was, first)
        ensures v.written == LinkedThen(v, remoteName, output, was, first)
      {
        BeginsAtHead(SettingOf(v.agent, remoteName, output), Now(env, was, first, v.from), v.from);
        assert VisitOk(v, remoteName, output, was, first, upTo);
        UndisturbedIsExact(SettingOf(v.agent, remoteName, output), Start(v, remoteName, output, was, first), v.upTo, v.written);
      }
    }
  }
}
