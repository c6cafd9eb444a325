/** Missed streams. */
module StoppedStreams {
  // A stopped stream is cleaned up once a lookup finds it, and the lookup asks for a stopped config in it.
  // This module says which steps leave a stopped stream without one, and that it is then missed for ever.

  import opened Wrappers
  import opened Lifecycle
  import opened Activation

  predicate HasStopped(configs: seq<Config>) {
    exists c :: c in configs && c.state == Stop
  }

  /** A stopped stream of the new version with no stopped config. */
  predicate Lost(s: Stream) {
    s.v3 && s.state == Stop && !HasStopped(s.configs)
  }

  function LostIds(streams: seq<Stream>): set<nat> {
    set s | s in streams && Lost(s) :: s.id
  }

  /** A stopped stream is found for cleanup exactly when it is not lost. */
  lemma StoppedIsFoundIff(db: Db, s: Stream)
    requires Valid(db) && s in db.streams && s.state == Stop
    ensures s.id in Stopped(db.streams) <==> s.id !in LostIds(db.streams)
  {
    assert Resolve(Some(s), {Stop}).Some? <==> !Lost(s);
    if s.id in Stopped(db.streams) {
      var t :| t in db.streams && t.state == Stop && Resolve(Some(t), {Stop}).Some? && t.id == s.id;
      OneId(db.streams, s, t);
    }
    if s.id in LostIds(db.streams) {
      var t :| t in db.streams && Lost(t) && t.id == s.id;
      OneId(db.streams, s, t);
    }
  }

  // ----- the steps that lose a stream -----

  /** A first-version stream takes over from a serving stream of the new version that embeds no stopped config. */
  predicate LeavesBehind(db: Db, id: nat, ready: bool, s: Stream) {
    && ready && (var doc := Find(db.streams, id); doc.Some? && !doc.value.v3 && doc.value.state == Processing)
    && s.id != id && s.v3 && Serves(s) && !HasStopped(s.configs)
  }

  /** All stopped configs of a stopped stream are pruned. */
  predicate Strips(s: Stream, id: nat, ids: set<nat>) {
    && MayPrune(s, id, ids) && s.v3 && s.state == Stop && HasStopped(s.configs)
    && forall c :: c in s.configs && c.state == Stop ==> c.id in ids
  }

  predicate Loses(db: Db, step: Step, s: Stream) {
    match step
    case ActivateFirstVersion(id, ready) => LeavesBehind(db, id, ready, s)
    case Prune(id, ids) => Strips(s, id, ids)
    case _ => false
  }

  function LostBy(db: Db, step: Step): set<nat> {
    set s | s in db.streams && Loses(db, step, s) :: s.id
  }

  lemma MapLost(streams: seq<Stream>, f: Stream -> Stream)
    requires forall s :: s in streams ==> f(s).id == s.id
    ensures LostIds(Map(streams, f)) == set s | s in streams && Lost(f(s)) :: s.id
  {
    var mapped := Map(streams, f);
    forall id ensures id in LostIds(mapped) <==> exists s :: s in streams && Lost(f(s)) && s.id == id {
      if id in LostIds(mapped) {
        var t :| t in mapped && Lost(t) && t.id == id;
        var s := MapMembers(streams, f, t);
      }
      if s :| s in streams && Lost(f(s)) && s.id == id {
        MapMember(streams, f, s);
      }
    }
  }

  lemma MapKeepsLost(streams: seq<Stream>, f: Stream -> Stream)
    requires forall s :: s in streams ==> f(s).id == s.id && (Lost(f(s)) <==> Lost(s))
    ensures LostIds(Map(streams, f)) == LostIds(streams)
  {
    MapLost(streams, f);
  }

  lemma StopAllHasStopped(configs: seq<Config>)
    requires configs != []
    ensures HasStopped(StopAll(configs))
  {
    assert StopAll(configs)[0] in StopAll(configs);
  }

  /** A stream of the new version that serves or deploys has a config to stop. */
  lemma LiveHasConfigs(s: Stream)
    requires Shaped(s) && s.v3 && (Serves(s) || s.state == Processing)
    ensures s.configs != []
  {
  }

  lemma StopWorkKeepsLost(streams: seq<Stream>)
    requires forall s :: s in streams ==> Shaped(s)
    ensures LostIds(StopProcessingWork(streams)) == LostIds(streams)
  {
    forall s | s in streams ensures StopWorkOf(s).id == s.id && (Lost(StopWorkOf(s)) <==> Lost(s)) {
      if s.v3 && s.state == Processing {
        LiveHasConfigs(s);
        StopAllHasStopped(s.configs);
      }
    }
    MapKeepsLost(streams, StopWorkOf);
  }

  lemma UpdateKeepsLost(db: Db, v3: bool, forceNew: bool, incremental: bool)
    requires Valid(db)
    ensures LostIds(Update(db, v3, forceNew, incremental).streams) == LostIds(db.streams)
  {
    var stopped := StopProcessingWork(db.streams);
    StopWorkKeepsLost(db.streams);
    var active := FindLast(db.streams, IsActiveV3);
    if v3 && active.Some? && !forceNew && incremental {
      AppendKeepsLost(db, active.value);
    } else {
      var added := NewStream(db.lastStream + 1, v3, db.lastConfig + 1);
      assert DeployNew(db, v3).streams == stopped + [added];
      ExtendKeepsLost(stopped, added);
    }
  }

  lemma ExtendKeepsLost(streams: seq<Stream>, added: Stream)
    requires !Lost(added)
    ensures LostIds(streams + [added]) == LostIds(streams)
  {
    forall id ensures id in LostIds(streams + [added]) <==> id in LostIds(streams) {
      if id in LostIds(streams + [added]) {
        var s :| s in streams + [added] && Lost(s) && s.id == id;
        assert s in streams;
      }
      if id in LostIds(streams) {
        var s :| s in streams && Lost(s) && s.id == id;
        assert s in streams + [added];
      }
    }
  }

  lemma AppendKeepsLost(db: Db, active: Stream)
    requires Valid(db) && active in db.streams && IsActiveV3(active)
    ensures LostIds(Append(db, active.id).streams) == LostIds(db.streams)
  {
    var stopped := StopProcessingWork(db.streams);
    StopWorkKeepsLost(db.streams);
    forall t | t in stopped && t.id == active.id ensures t.state == Active {
      var s := MapMembers(db.streams, StopWorkOf, t);
      OneId(db.streams, s, active);
    }
    MapKeepsLost(stopped, (s: Stream) => Appended(s, active.id, db.lastConfig + 1));
  }

  lemma ErrorKeepsLost(db: Db, active: Resolved)
    ensures ErrorActive(db, active).Some? ==> LostIds(ErrorActive(db, active).value.streams) == LostIds(db.streams)
  {
    MapKeepsLost(db.streams, (s: Stream) => ErrorStream(s, active));
  }

  lemma RestartKeepsLost(db: Db, id: nat, v3: bool)
    requires Valid(db)
    ensures Restart(db, id, v3).Some? ==> LostIds(Restart(db, id, v3).value.streams) == LostIds(db.streams)
  {
    var redone := Update(db, v3, true, false);
    UpdateKeepsLost(db, v3, true, false);
    var next, active := DeployingLookup(db.streams), ActiveLookup(db.streams);
    if active.Some? && active.value.stream == id {
      ErrorKeepsLost(if next.Some? && next.value.stream != id then db else redone, active.value);
    }
  }

  lemma ActivateKeepsLost(db: Db, id: nat, ids: set<nat>, ready: set<nat>)
    requires Valid(db)
    ensures LostIds(Activate(db, id, ids, ready).streams) == LostIds(db.streams)
  {
    FindIs(db, id);
    var doc := Find(db.streams, id);
    if doc.Some? && FirstReady(doc.value, ids, ready) {
      forall s | s in db.streams ensures TakeOver(s, id, ids).id == s.id && (Lost(TakeOver(s, id, ids)) <==> Lost(s)) {
        if s.id == id {
          OneId(db.streams, s, doc.value);
        } else if s.v3 && Serves(s) {
          LiveHasConfigs(s);
          StopAllHasStopped(s.configs);
        }
      }
      MapKeepsLost(db.streams, (s: Stream) => TakeOver(s, id, ids));
    } else if doc.Some? && NextReady(doc.value, ids, ready) {
      forall s | s in db.streams ensures Swap(s, id, ids).id == s.id && (Lost(Swap(s, id, ids)) <==> Lost(s)) {
        if s.id == id {
          OneId(db.streams, s, doc.value);
        }
      }
      MapKeepsLost(db.streams, (s: Stream) => Swap(s, id, ids));
    }
  }

  lemma ActivateV1Loses(db: Db, id: nat, ready: bool)
    requires Valid(db)
    ensures LostIds(ActivateV1(db, id, ready).streams) == LostIds(db.streams) + LostBy(db, ActivateFirstVersion(id, ready))
  {
    FindIs(db, id);
    var doc := Find(db.streams, id);
    if doc.Some? && !doc.value.v3 && doc.value.state == Processing && ready {
      forall s | s in db.streams ensures Lost(TakeOverV1(s, id)) <==> Lost(s) || LeavesBehind(db, id, ready, s) {
        if s.id == id {
          OneId(db.streams, s, doc.value);
        }
      }
      MapLost(db.streams, (s: Stream) => TakeOverV1(s, id));
    }
  }

  lemma TerminateKeepsLost(db: Db, id: nat)
    requires Valid(db) && id in Stopped(db.streams)
    ensures LostIds(Map(db.streams, (s: Stream) => TerminatedStream(s, id))) == LostIds(db.streams)
  {
    forall s | s in db.streams ensures TerminatedStream(s, id).id == s.id && (Lost(TerminatedStream(s, id)) <==> Lost(s)) {
      if s.id == id && s.state == Stop {
        StoppedIsFoundIff(db, s);
      }
    }
    MapKeepsLost(db.streams, (s: Stream) => TerminatedStream(s, id));
  }

  lemma {:induction false} PrunedHasStopped(configs: seq<Config>, ids: set<nat>)
    ensures HasStopped(Pruned(configs, ids)) <==> exists c :: c in configs && c.state == Stop && c.id !in ids
  {
    if configs != [] {
      PrunedHasStopped(configs[1..], ids);
      assert configs == [configs[0]] + configs[1..];
    }
  }

  lemma PruneLoses(db: Db, id: nat, ids: set<nat>)
    ensures LostIds(Map(db.streams, (s: Stream) => PrunedStream(s, id, ids))) == LostIds(db.streams) + LostBy(db, Prune(id, ids))
  {
    forall s | s in db.streams ensures Lost(PrunedStream(s, id, ids)) <==> Lost(s) || Strips(s, id, ids) {
      PrunedHasStopped(s.configs, ids);
    }
    MapLost(db.streams, (s: Stream) => PrunedStream(s, id, ids));
  }

  /** The streams lost by a step, told before it is taken: no other stream is lost, and none is found again. */
  lemma NextLoses(db: Db, step: Step)
    requires Valid(db)
    ensures LostIds(Next(db, step).streams) == LostIds(db.streams) + LostBy(db, step)
  {
    match step
    case Deploy(v3, forceNew, incremental) => UpdateKeepsLost(db, v3, forceNew, incremental);
    case RestartReplication(id, v3) => RestartKeepsLost(db, id, v3);
    case ActivateStream(id, ids, ready) => ActivateKeepsLost(db, id, ids, ready);
    case ActivateFirstVersion(id, ready) => ActivateV1Loses(db, id, ready);
    case Terminate(id) =>
      if id in Stopped(db.streams) {
        TerminateKeepsLost(db, id);
      }
    case Prune(id, ids) => PruneLoses(db, id, ids);
  }

  // ----- runs -----

  /** A lost stream stays lost, whatever is done from then on. */
  lemma {:induction false} LostForEver(steps: seq<Step>, more: seq<Step>)
    ensures LostIds(Run(Start, steps).streams) <= LostIds(Run(Start, steps + more).streams)
    decreases |more|
  {
    if more == [] {
      assert steps + more == steps;
    } else {
      var init, last := more[..|more| - 1], more[|more| - 1];
      LostForEver(steps, init);
      LostStaysLost(steps + init, last);
      assert steps + more == (steps + init) + [last];
    }
  }

  lemma LostStaysLost(steps: seq<Step>, step: Step)
    ensures LostIds(Run(Start, steps).streams) <= LostIds(Run(Start, steps + [step]).streams)
  {
    EveryRunIsValid(steps);
    NextLoses(Run(Start, steps), step);
    assert (steps + [step])[..|steps|] == steps;
  }

  /** No step of the run loses a stream. */
  ghost predicate NeverLoses(steps: seq<Step>) {
    forall k :: 0 <= k < |steps| ==> Harmless(steps, k)
  }

  ghost predicate Harmless(steps: seq<Step>, k: nat) {
    k < |steps| && LostBy(Run(Start, steps[..k]), steps[k]) == {}
  }

  /** In every run: all stopped streams are found for cleanup if and only if no step of the run lost one. */
  lemma AllFoundIff(steps: seq<Step>)
    ensures (forall s :: s in Run(Start, steps).streams && s.state == Stop ==> s.id in Stopped(Run(Start, steps).streams))
            <==> NeverLoses(steps)
  {
    NoneLostIff(steps);
    EveryRunIsValid(steps);
    var db := Run(Start, steps);
    forall s | s in db.streams && s.state == Stop ensures s.id in Stopped(db.streams) <==> s.id !in LostIds(db.streams) {
      StoppedIsFoundIff(db, s);
    }
    if id :| id in LostIds(db.streams) {
      var s :| s in db.streams && Lost(s) && s.id == id;
    }
  }

  lemma {:induction false} NoneLostIff(steps: seq<Step>)
    ensures LostIds(Run(Start, steps).streams) == {} <==> NeverLoses(steps)
  {
    if steps != [] {
      var init := steps[..|steps| - 1];
      NoneLostIff(init);
      EveryRunIsValid(init);
      NextLoses(Run(Start, init), steps[|steps| - 1]);
      NeverLosesBefore(steps);
      EmptyUnion(LostIds(Run(Start, init).streams), LostBy(Run(Start, init), steps[|steps| - 1]));
    }
  }

  lemma EmptyUnion(a: set<nat>, b: set<nat>)
    ensures a + b == {} <==> a == {} && b == {}
  {
    assert a <= a + b && b <= a + b;
  }

  lemma NeverLosesBefore(steps: seq<Step>)
    requires steps != []
    ensures NeverLoses(steps) <==> NeverLoses(steps[..|steps| - 1]) && Harmless(steps, |steps| - 1)
  {
    var n := |steps| - 1;
    forall k: nat | k < n ensures Harmless(steps[..n], k) <==> Harmless(steps, k) {
      assert steps[..n][..k] == steps[..k] && steps[..n][k] == steps[k];
    }
    if NeverLoses(steps[..n]) && Harmless(steps, n) {
      forall k | 0 <= k <= n ensures Harmless(steps, k) {
        assert k < n ==> Harmless(steps[..n], k);
      }
    }
  }

  // ----- the two ways to lose one -----

  /** A first-version stream that replaces a newer one stops the stream but not its config. */
  lemma ReplacedStreamIsLost() returns (steps: seq<Step>)
    ensures LostIds(Run(Start, steps).streams) == {1}
  {
    var s1 := [Deploy(true, false, false)];
    var s2 := s1 + [ActivateStream(1, {1}, {1})];
    var s3 := s2 + [Deploy(false, false, false)];
    steps := s3 + [ActivateFirstVersion(2, true)];
    var d1 := Db([Stream(1, true, Processing, [Config(1, Processing)])], 1, 1);
    var d2 := Db([Stream(1, true, Active, [Config(1, Active)])], 1, 1);
    var d3 := Db([Stream(1, true, Active, [Config(1, Active)]), Stream(2, false, Processing, [])], 2, 2);
    var d4 := Db([Stream(1, true, Stop, [Config(1, Active)]), Stream(2, false, Active, [])], 2, 2);
    assert s1[..0] == [] && s2[..1] == s1 && s3[..2] == s2 && steps[..3] == s3;
    DeployStarts();
    FirstActivatesExample(d1, d2);
    DeployReplaces(d2, d3);
    ActivateV1Example(d3, d4);
    assert Run(Start, []) == Start;
    assert Run(Start, s1) == d1;
    assert Run(Start, s2) == d2;
    assert Run(Start, s3) == d3;
    assert Run(Start, steps) == d4;
    OneIsLost(d4.streams[0], d4.streams[1]);
  }

  /** A stream that is stopped before it has served, and whose stopped config is then pruned. */
  lemma PrunedStreamIsLost() returns (steps: seq<Step>)
    ensures LostIds(Run(Start, steps).streams) == {1}
  {
    var s1 := [Deploy(true, false, false)];
    var s2 := s1 + [Deploy(true, false, false)];
    steps := s2 + [Prune(1, {1})];
    var old1, new2 := Stream(1, true, Processing, [Config(1, Processing)]), Stream(2, true, Processing, [Config(2, Processing)]);
    var d1 := Db([old1], 1, 1);
    var d2 := Db([Stream(1, true, Stop, [Config(1, Stop)]), new2], 2, 2);
    var d3 := Db([Stream(1, true, Stop, []), new2], 2, 2);
    assert s1[..0] == [] && s2[..1] == s1 && steps[..2] == s2;
    DeployStarts();
    assert StopAll(old1.configs) == [Config(1, Stop)];
    assert StopProcessingWork([old1]) == [Stream(1, true, Stop, [Config(1, Stop)])];
    assert Update(d1, true, false, false) == d2;
    assert Pruned([Config(1, Stop)], {1}) == [] by { assert [Config(1, Stop)][1..] == []; }
    assert Next(d2, Prune(1, {1})).streams == d3.streams;
    assert Run(Start, []) == Start;
    assert Run(Start, s1) == d1;
    assert Run(Start, s2) == d2;
    assert Run(Start, steps) == d3;
    OneIsLost(d3.streams[0], d3.streams[1]);
  }

  lemma OneIsLost(lost: Stream, other: Stream)
    requires Lost(lost) && !Lost(other)
    ensures LostIds([lost, other]) == {lost.id}
  {
    assert lost in [lost, other];
  }

  lemma DeployStarts()
    ensures Update(Start, true, false, false) == Db([Stream(1, true, Processing, [Config(1, Processing)])], 1, 1)
  {
  }

  lemma FirstActivatesExample(d1: Db, d2: Db)
    requires d1 == Db([Stream(1, true, Processing, [Config(1, Processing)])], 1, 1)
    requires d2 == Db([Stream(1, true, Active, [Config(1, Active)])], 1, 1)
    ensures Activate(d1, 1, {1}, {1}) == d2
  {
    var s := d1.streams[0];
    assert Find(d1.streams, 1) == Some(s);
    assert s.configs[0] in s.configs && FirstReady(s, {1}, {1});
    var f := (x: Stream) => TakeOver(x, 1, {1});
    assert f(s).configs == [Config(1, Active)];
    assert Map(d1.streams, f) == d2.streams;
  }

  lemma DeployReplaces(d2: Db, d3: Db)
    requires d2 == Db([Stream(1, true, Active, [Config(1, Active)])], 1, 1)
    requires d3 == Db([Stream(1, true, Active, [Config(1, Active)]), Stream(2, false, Processing, [])], 2, 2)
    ensures Update(d2, false, false, false) == d3
  {
    assert StopWorkOf(d2.streams[0]) == d2.streams[0];
    assert StopProcessingWork(d2.streams) == d2.streams;
  }

  lemma ActivateV1Example(d3: Db, d4: Db)
    requires d3 == Db([Stream(1, true, Active, [Config(1, Active)]), Stream(2, false, Processing, [])], 2, 2)
    requires d4 == Db([Stream(1, true, Stop, [Config(1, Active)]), Stream(2, false, Active, [])], 2, 2)
    ensures ActivateV1(d3, 2, true) == d4
  {
    assert Find(d3.streams, 2) == Some(d3.streams[1]);
    assert ActivateV1(d3, 2, true).streams == d4.streams;
  }
}
