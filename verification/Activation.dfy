/** Activation and cleanup. */
module Activation {
  // Every run of the lifecycle keeps its invariant.

  import opened Wrappers
  import opened Lifecycle

  // ----- activation -----

  function ActivateConfig(c: Config, ids: set<nat>): Config {
    if c.id in ids then c.(state := Active) else c
  }

  function SwapConfig(c: Config, ids: set<nat>): Config {
    if c.state == Active then c.(state := Stop)
    else if c.state == Processing && c.id in ids then c.(state := Active)
    else c
  }

  function Find(streams: seq<Stream>, id: nat): Option<Stream> {
    FindLast(streams, (s: Stream) => s.id == id)
  }

  /** A deploying stream whose configs are all ready becomes the one that serves. */
  predicate FirstReady(s: Stream, ids: set<nat>, ready: set<nat>) {
    && s.v3 && s.state == Processing && (exists c :: c in s.configs && c.id in ids)
    && forall c :: c in s.configs && c.id in ids ==> c.state == Processing && c.id in ready
  }

  /** A deploying config of an active stream, once ready, replaces the active one. */
  predicate NextReady(s: Stream, ids: set<nat>, ready: set<nat>) {
    && s.v3 && s.state == Active && (exists c :: c in s.configs && c.id in ids && c.state == Processing)
    && forall c :: c in s.configs && c.id in ids && c.state == Processing ==> c.id in ready
  }

  function TakeOver(s: Stream, id: nat, ids: set<nat>): Stream {
    if s.id == id then s.(state := Active, configs := Map(s.configs, (c: Config) => ActivateConfig(c, ids)))
    else if Serves(s) then StopStream(s)
    else s
  }

  function Swap(s: Stream, id: nat, ids: set<nat>): Stream {
    if s.id == id then s.(configs := Map(s.configs, (c: Config) => SwapConfig(c, ids))) else s
  }

  function TakeOverV1(s: Stream, id: nat): Stream {
    if s.id == id then s.(state := Active) else if Serves(s) then s.(state := Stop) else s
  }

  /** After a checkpoint of a stream: activate its configs if they are ready. */
  function Activate(db: Db, id: nat, ids: set<nat>, ready: set<nat>): Db {
    var doc := Find(db.streams, id);
    if doc.None? then db
    else if FirstReady(doc.value, ids, ready) then
      db.(streams := Map(db.streams, (s: Stream) => TakeOver(s, id, ids)))
    else if NextReady(doc.value, ids, ready) then
      db.(streams := Map(db.streams, (s: Stream) => Swap(s, id, ids)))
    else db
  }

  function ActivateV1(db: Db, id: nat, ready: bool): Db {
    var doc := Find(db.streams, id);
    if doc.Some? && !doc.value.v3 && doc.value.state == Processing && ready
    then db.(streams := Map(db.streams, (s: Stream) => TakeOverV1(s, id)))
    else db
  }

  /** One stream takes over: it alone serves afterwards, and no other stream has work in progress. */
  lemma TakeOverKeepsInv(db: Db, id: nat, f: Stream -> Stream)
    requires Valid(db)
    requires forall s :: s in db.streams ==>
               StreamOk(f(s), db.lastStream, db.lastConfig) && f(s).id == s.id && Pending(f(s)) == 0 && (Serves(f(s)) ==> s.id == id)
    ensures Valid(db.(streams := Map(db.streams, f)))
    ensures forall t :: t in Map(db.streams, f) ==> Pending(t) == 0
  {
    var mapped := Map(db.streams, f);
    forall t | t in mapped ensures StreamOk(t, db.lastStream, db.lastConfig) && Pending(t) == 0 {
      var s := MapMembers(db.streams, f, t);
    }
    forall t, u | t in mapped && u in mapped && Serves(t) && Serves(u) ensures t.id == u.id {
      var s := MapMembers(db.streams, f, t);
      var r := MapMembers(db.streams, f, u);
    }
  }

  lemma MappedIds(configs: seq<Config>, f: Config -> Config, lastConfig: nat)
    requires forall c :: c in configs ==> c.id <= lastConfig
    requires forall c :: c in configs ==> f(c).id == c.id
    ensures forall c :: c in Map(configs, f) ==> c.id <= lastConfig
    ensures DistinctIds(configs) ==> DistinctIds(Map(configs, f))
  {
    var mapped := Map(configs, f);
    forall i | 0 <= i < |mapped| ensures mapped[i].id == configs[i].id <= lastConfig {
      assert configs[i] in configs;
    }
  }

  lemma OthersArePending0(db: Db, doc: Stream, s: Stream)
    requires Valid(db) && doc in db.streams && s in db.streams && Pending(doc) > 0 && s.id != doc.id
    ensures Pending(s) == 0
  {
  }

  lemma StopStreamOk(s: Stream, lastStream: nat, lastConfig: nat)
    requires StreamOk(s, lastStream, lastConfig)
    ensures StreamOk(StopStream(s), lastStream, lastConfig) && Pending(StopStream(s)) == 0
  {
    StopAllCounts(s.configs, Processing);
    forall c | c in StopAll(s.configs) ensures c.id <= lastConfig {
      var i :| 0 <= i < |s.configs| && StopAll(s.configs)[i] == c;
      assert s.configs[i] in s.configs;
    }
  }

  lemma NewActiveOk(s: Stream, ids: set<nat>, ready: set<nat>, lastStream: nat, lastConfig: nat)
    requires StreamOk(s, lastStream, lastConfig) && FirstReady(s, ids, ready)
    ensures var t := TakeOver(s, s.id, ids); StreamOk(t, lastStream, lastConfig) && Pending(t) == 0
    ensures Resolve(Some(TakeOver(s, s.id, ids)), {Active, Errored}) == Resolve(Some(s), {Processing})
  {
    var t := TakeOver(s, s.id, ids);
    assert s.configs == [s.configs[0]] && t.configs == [s.configs[0].(state := Active)];
    assert t.configs[1..] == [] && s.configs[1..] == [];
  }

  /** The stream that deploys becomes the one clients are served from. */
  lemma FirstActivates(db: Db, doc: Stream, ids: set<nat>, ready: set<nat>)
    requires Valid(db) && doc in db.streams && Find(db.streams, doc.id) == Some(doc) && FirstReady(doc, ids, ready)
    ensures var r := Activate(db, doc.id, ids, ready);
            Valid(r) && ActiveLookup(r.streams) == DeployingLookup(db.streams) && DeployingLookup(r.streams).None?
  {
    var id := doc.id;
    var f := (s: Stream) => TakeOver(s, id, ids);
    var r := Activate(db, id, ids, ready);
    assert r.streams == Map(db.streams, f);
    assert Pending(doc) == 1 by { CountOne(doc.configs, Processing, 0); }
    NewActiveOk(doc, ids, ready, db.lastStream, db.lastConfig);
    forall s | s in db.streams
      ensures StreamOk(f(s), db.lastStream, db.lastConfig) && f(s).id == s.id && Pending(f(s)) == 0 && (Serves(f(s)) ==> s.id == id)
    {
      if s.id == id {
        OneId(db.streams, s, doc);
      } else {
        OthersArePending0(db, doc, s);
        StopStreamOk(s, db.lastStream, db.lastConfig);
      }
    }
    TakeOverKeepsInv(db, id, f);
    MapMember(db.streams, f, doc);
    ActiveIs(r, f(doc));
    DeployingIs(db, doc);
    NothingDeploying(r);
  }

  lemma NothingDeploying(db: Db)
    requires Valid(db) && forall s :: s in db.streams ==> Pending(s) == 0
    ensures DeployingLookup(db.streams).None?
  {
    var found := FindLast(db.streams, HasPending);
    if found.Some? {
      PendingIs(found.value);
    }
  }

  lemma SwappedCounts(configs: seq<Config>, ids: set<nat>, i: nat)
    requires DistinctIds(configs) && i < |configs| && configs[i].id in ids
    requires forall j :: 0 <= j < |configs| ==> (configs[j].state == Processing <==> j == i)
    requires forall j :: 0 <= j < |configs| ==> configs[j].state != Errored
    ensures var r := Map(configs, (c: Config) => SwapConfig(c, ids));
            && CountState(r, Active) == 1 && CountState(r, Errored) == 0 && CountState(r, Processing) == 0
            && FirstOf(r, {Active, Errored}) == FirstOf(configs, {Processing})
  {
    var r := Map(configs, (c: Config) => SwapConfig(c, ids));
    forall j | 0 <= j < |r|
      ensures r[j].state == Active <==> j == i
      ensures r[j].state != Errored && r[j].state != Processing && r[j].id == configs[j].id
    {
      assert r[j] == SwapConfig(configs[j], ids);
    }
    SwappedAt(configs, r, i);
  }

  lemma SwappedAt(configs: seq<Config>, r: seq<Config>, i: nat)
    requires |r| == |configs| && i < |r| && r[i].id == configs[i].id
    requires forall j :: 0 <= j < |r| ==>
               (r[j].state == Active <==> j == i) && r[j].state != Errored && r[j].state != Processing
               && (configs[j].state == Processing <==> j == i)
    ensures CountState(r, Active) == 1 && CountState(r, Errored) == 0 && CountState(r, Processing) == 0
    ensures FirstOf(r, {Active, Errored}) == FirstOf(configs, {Processing})
  {
    CountIsOne(r, Active, i);
    CountZero(r, Errored);
    CountZero(r, Processing);
    FirstAt(r, {Active, Errored}, i);
    FirstAt(configs, {Processing}, i);
  }

  lemma {:induction false} FirstAt(configs: seq<Config>, accepted: set<SyncState>, i: nat)
    requires i < |configs| && forall j :: 0 <= j < |configs| ==> (configs[j].state in accepted <==> j == i)
    ensures FirstOf(configs, accepted) == Some(configs[i].id)
  {
    if i > 0 { FirstAt(configs[1..], accepted, i - 1); }
  }

  lemma {:induction false} FindState(configs: seq<Config>, state: SyncState) returns (i: nat)
    requires CountState(configs, state) == 1
    ensures i < |configs| && forall j :: 0 <= j < |configs| ==> (configs[j].state == state <==> j == i)
  {
    if configs[0].state == state {
      CountZero(configs[1..], state);
      i := 0;
      assert forall j :: 1 <= j < |configs| ==> configs[j] in configs[1..];
    } else {
      i := FindState(configs[1..], state);
      i := i + 1;
    }
  }

  lemma NextActiveOk(s: Stream, ids: set<nat>, ready: set<nat>, lastStream: nat, lastConfig: nat)
    requires StreamOk(s, lastStream, lastConfig) && NextReady(s, ids, ready)
    ensures var t := Swap(s, s.id, ids); StreamOk(t, lastStream, lastConfig) && Pending(t) == 0
    ensures Resolve(Some(Swap(s, s.id, ids)), {Active, Errored}) == Resolve(Some(s), {Processing})
    ensures Pending(s) == 1
  {
    CountZero(s.configs, Processing);
    CountZero(s.configs, Errored);
    var i := FindState(s.configs, Processing);
    forall j | 0 <= j < |s.configs| ensures s.configs[j].state != Errored {
      assert s.configs[j] in s.configs;
    }
    assert s.configs[i].id in ids;
    SwappedCounts(s.configs, ids, i);
    MappedIds(s.configs, (c: Config) => SwapConfig(c, ids), lastConfig);
  }

  /** The config appended to the active stream replaces the one it was serving. */
  lemma NextActivates(db: Db, doc: Stream, ids: set<nat>, ready: set<nat>)
    requires Valid(db) && doc in db.streams && Find(db.streams, doc.id) == Some(doc) && NextReady(doc, ids, ready)
    ensures var r := Activate(db, doc.id, ids, ready);
            Valid(r) && ActiveLookup(r.streams) == DeployingLookup(db.streams) && DeployingLookup(r.streams).None?
  {
    var id := doc.id;
    var f := (s: Stream) => Swap(s, id, ids);
    var r := Activate(db, id, ids, ready);
    assert r.streams == Map(db.streams, f);
    NextActiveOk(doc, ids, ready, db.lastStream, db.lastConfig);
    forall s | s in db.streams
      ensures StreamOk(f(s), db.lastStream, db.lastConfig) && f(s).id == s.id && Pending(f(s)) == 0 && (Serves(f(s)) ==> s.id == id)
    {
      SwappedOk(db, doc, ids, ready, s);
    }
    TakeOverKeepsInv(db, id, f);
    MapMember(db.streams, f, doc);
    ActiveIs(r, f(doc));
    DeployingIs(db, doc);
    NothingDeploying(r);
  }

  lemma SwappedOk(db: Db, doc: Stream, ids: set<nat>, ready: set<nat>, s: Stream)
    requires Valid(db) && doc in db.streams && NextReady(doc, ids, ready) && s in db.streams
    ensures var t := Swap(s, doc.id, ids);
            StreamOk(t, db.lastStream, db.lastConfig) && t.id == s.id && Pending(t) == 0 && (Serves(t) ==> s.id == doc.id)
  {
    NextActiveOk(doc, ids, ready, db.lastStream, db.lastConfig);
    if s.id == doc.id {
      OneId(db.streams, s, doc);
    } else {
      OthersArePending0(db, doc, s);
    }
  }

  lemma FindIs(db: Db, id: nat)
    requires Valid(db)
    ensures Find(db.streams, id).Some? ==> Find(db.streams, id).value in db.streams && Find(db.streams, id).value.id == id
  {
  }

  lemma ActivateKeepsInv(db: Db, id: nat, ids: set<nat>, ready: set<nat>)
    requires Valid(db)
    ensures Valid(Activate(db, id, ids, ready))
  {
    FindIs(db, id);
    var doc := Find(db.streams, id);
    if doc.Some? && FirstReady(doc.value, ids, ready) {
      FirstActivates(db, doc.value, ids, ready);
    } else if doc.Some? && NextReady(doc.value, ids, ready) {
      NextActivates(db, doc.value, ids, ready);
    }
  }

  /** A first-version stream takes over; the streams it replaces stop at the top level only. */
  lemma ActivateV1KeepsInv(db: Db, id: nat, ready: bool)
    requires Valid(db)
    ensures Valid(ActivateV1(db, id, ready))
  {
    FindIs(db, id);
    var doc := Find(db.streams, id);
    if doc.Some? && !doc.value.v3 && doc.value.state == Processing && ready {
      var f := (s: Stream) => TakeOverV1(s, id);
      forall s | s in db.streams
        ensures StreamOk(f(s), db.lastStream, db.lastConfig) && f(s).id == s.id && Pending(f(s)) == 0 && (Serves(f(s)) ==> s.id == id)
      {
        if s.id == id {
          OneId(db.streams, s, doc.value);
        } else {
          OthersArePending0(db, doc.value, s);
        }
      }
      TakeOverKeepsInv(db, id, f);
      assert ActivateV1(db, id, ready).streams == Map(db.streams, f);
    }
  }

  // ----- runs -----

  datatype Step =
    | Deploy(v3: bool, forceNew: bool, incremental: bool)
    | RestartReplication(id: nat, v3: bool)
    | ActivateStream(id: nat, ids: set<nat>, ready: set<nat>)
    | ActivateFirstVersion(id: nat, isReady: bool)
    | Terminate(id: nat)
    | Prune(id: nat, ids: set<nat>)

  function TerminatedStream(s: Stream, id: nat): Stream {
    if s.id == id && s.state == Stop then s.(state := Terminated, configs := []) else s
  }

  function Pruned(configs: seq<Config>, ids: set<nat>): seq<Config> {
    if configs == [] then []
    else (if configs[0].id in ids && configs[0].state == Stop then [] else [configs[0]]) + Pruned(configs[1..], ids)
  }

  /** The update of a cleanup is made only while all configs it would remove are stopped. */
  predicate MayPrune(s: Stream, id: nat, ids: set<nat>) {
    s.id == id && forall c :: c in s.configs && c.id in ids ==> c.state == Stop
  }

  function PrunedStream(s: Stream, id: nat, ids: set<nat>): Stream {
    if MayPrune(s, id, ids) then s.(configs := Pruned(s.configs, ids)) else s
  }

  lemma {:induction false} PrunedCounts(configs: seq<Config>, ids: set<nat>, state: SyncState)
    requires state != Stop
    ensures CountState(Pruned(configs, ids), state) == CountState(configs, state)
  {
    if configs != [] {
      PrunedCounts(configs[1..], ids, state);
      var rest := Pruned(configs[1..], ids);
      assert ([configs[0]] + rest)[1..] == rest && [] + rest == rest;
    }
  }

  lemma {:induction false} PrunedMembers(configs: seq<Config>, ids: set<nat>)
    ensures forall c :: c in Pruned(configs, ids) ==> c in configs
    ensures (forall c :: c in configs ==> c.state != Stop) ==> Pruned(configs, ids) == configs
  {
    if configs != [] {
      PrunedMembers(configs[1..], ids);
      assert configs == [configs[0]] + configs[1..];
    }
  }

  lemma {:induction false} PrunedDistinct(configs: seq<Config>, ids: set<nat>)
    requires DistinctIds(configs)
    ensures DistinctIds(Pruned(configs, ids))
  {
    if configs != [] {
      var tail := configs[1..];
      PrunedDistinct(tail, ids);
      PrunedMembers(tail, ids);
      var rest := Pruned(tail, ids);
      forall i | 0 <= i < |rest| ensures rest[i].id != configs[0].id {
        assert rest[i] in tail;
      }
    }
  }

  function Next(db: Db, step: Step): Db {
    match step
    case Deploy(v3, forceNew, incremental) => Update(db, v3, forceNew, incremental)
    case RestartReplication(id, v3) => var r := Restart(db, id, v3); if r.Some? then r.value else db
    case ActivateStream(id, ids, ready) => Activate(db, id, ids, ready)
    case ActivateFirstVersion(id, ready) => ActivateV1(db, id, ready)
    case Terminate(id) => if id in Stopped(db.streams) then db.(streams := Map(db.streams, (s: Stream) => TerminatedStream(s, id))) else db
    case Prune(id, ids) => db.(streams := Map(db.streams, (s: Stream) => PrunedStream(s, id, ids)))
  }

  lemma PruneOk(s: Stream, id: nat, ids: set<nat>, lastStream: nat, lastConfig: nat)
    requires StreamOk(s, lastStream, lastConfig)
    ensures StreamOk(PrunedStream(s, id, ids), lastStream, lastConfig) && Pending(PrunedStream(s, id, ids)) == Pending(s)
  {
    PrunedCounts(s.configs, ids, Processing);
    PrunedCounts(s.configs, ids, Active);
    PrunedCounts(s.configs, ids, Errored);
    PrunedMembers(s.configs, ids);
    PrunedDistinct(s.configs, ids);
    if s.v3 && s.state == Processing {
      assert s.configs == [s.configs[0]];
    }
  }

  lemma NextKeepsInv(db: Db, step: Step)
    requires Valid(db)
    ensures Valid(Next(db, step))
  {
    match step
    case Deploy(v3, forceNew, incremental) => UpdateKeepsInv(db, v3, forceNew, incremental);
    case RestartReplication(id, v3) => RestartReplaces(db, id, v3);
    case ActivateStream(id, ids, ready) => ActivateKeepsInv(db, id, ids, ready);
    case ActivateFirstVersion(id, ready) => ActivateV1KeepsInv(db, id, ready);
    case Terminate(id) =>
      MapKeepsInv(db.streams, db.lastStream, db.lastConfig, (s: Stream) => TerminatedStream(s, id));
    case Prune(id, ids) =>
      forall s | s in db.streams
        ensures StreamOk(PrunedStream(s, id, ids), db.lastStream, db.lastConfig) && Pending(PrunedStream(s, id, ids)) == Pending(s)
      {
        PruneOk(s, id, ids, db.lastStream, db.lastConfig);
      }
      MapKeepsInv(db.streams, db.lastStream, db.lastConfig, (s: Stream) => PrunedStream(s, id, ids));
  }

  function Run(db: Db, steps: seq<Step>): Db {
    if steps == [] then db else Next(Run(db, steps[..|steps| - 1]), steps[|steps| - 1])
  }

  const Start := Db([], 0, 0)

  lemma {:induction false} EveryRunIsValid(steps: seq<Step>)
    ensures Valid(Run(Start, steps))
  {
    if steps != [] {
      EveryRunIsValid(steps[..|steps| - 1]);
      NextKeepsInv(Run(Start, steps[..|steps| - 1]), steps[|steps| - 1]);
    }
  }

  /** In every run: at most one config is being processed, at most one stream serves, and a serving
      stream of the new version has exactly one config that is ACTIVE or ERRORED. */
  lemma AtMostOneProcessing(steps: seq<Step>, s: Stream, t: Stream)
    requires s in Run(Start, steps).streams && t in Run(Start, steps).streams
    ensures Pending(s) <= 1 && (Pending(s) > 0 && Pending(t) > 0 ==> s == t)
    ensures Serves(s) && Serves(t) ==> s == t
    ensures s.v3 && Serves(s) ==> CountState(s.configs, Active) + CountState(s.configs, Errored) == 1
  {
    EveryRunIsValid(steps);
    var db := Run(Start, steps);
    assert StreamOk(s, db.lastStream, db.lastConfig);
    if s.id == t.id {
      OneId(db.streams, s, t);
    }
  }
}
