/** Streams and their sync configs, as deploys and restarts leave them. */
module Lifecycle {
  // Replication streams, and the sync configs embedded in them, as deploy, restart and activation
  // transactions change them.

  import opened Wrappers

  datatype SyncState = Processing | Active | Errored | Stop | Terminated

  datatype Config = Config(id: nat, state: SyncState)

  /** A stream of the first storage version is its own config and embeds none. */
  datatype Stream = Stream(id: nat, v3: bool, state: SyncState, configs: seq<Config>)

  /** What a lookup resolves to: a stream, and the config in it. */
  datatype Resolved = Resolved(stream: nat, config: Option<nat>)

  // ----- counting -----

  function CountState(configs: seq<Config>, state: SyncState): nat {
    if configs == [] then 0 else CountState(configs[1..], state) + if configs[0].state == state then 1 else 0
  }

  lemma {:induction false} CountConcat(a: seq<Config>, b: seq<Config>, state: SyncState)
    ensures CountState(a + b, state) == CountState(a, state) + CountState(b, state)
  {
    if a == [] {
      assert a + b == b;
    } else {
      CountConcat(a[1..], b, state);
      assert (a + b)[1..] == a[1..] + b;
    }
  }

  /** Work in progress of a stream. */
  function Pending(s: Stream): nat {
    if s.v3 then CountState(s.configs, Processing) else if s.state == Processing then 1 else 0
  }

  predicate IsActiveV3(s: Stream) {
    s.state == Active && s.v3
  }

  predicate Serves(s: Stream) {
    s.state == Active || s.state == Errored
  }

  // ----- the invariant -----

  ghost predicate DistinctIds(configs: seq<Config>) {
    forall i, j :: 0 <= i < j < |configs| ==> configs[i].id != configs[j].id
  }

  /** A deploying stream has one config, and a serving one exactly one config that serves. */
  ghost predicate Shaped(s: Stream) {
    && DistinctIds(s.configs)
    && (!s.v3 ==> s.configs == [])
    && (s.v3 ==>
          match s.state
          case Processing => |s.configs| == 1 && s.configs[0].state == Processing
          case Active => CountState(s.configs, Active) == 1 && CountState(s.configs, Errored) == 0
          case Errored => CountState(s.configs, Errored) == 1 && CountState(s.configs, Active) == 0
          case _ => CountState(s.configs, Processing) == 0)
  }

  ghost predicate StreamOk(s: Stream, lastStream: nat, lastConfig: nat) {
    Shaped(s) && Pending(s) <= 1 && s.id <= lastStream && forall c :: c in s.configs ==> c.id <= lastConfig
  }

  ghost predicate SortedIds(streams: seq<Stream>) {
    forall i, j :: 0 <= i < j < |streams| ==> streams[i].id < streams[j].id
  }

  /** At most one stream has work in progress, and at most one serves clients. */
  ghost predicate Exclusive(streams: seq<Stream>) {
    && (forall s, t :: s in streams && t in streams && Pending(s) > 0 && Pending(t) > 0 ==> s.id == t.id)
    && (forall s, t :: s in streams && t in streams && Serves(s) && Serves(t) ==> s.id == t.id)
  }

  ghost predicate Inv(streams: seq<Stream>, lastStream: nat, lastConfig: nat) {
    (forall s :: s in streams ==> StreamOk(s, lastStream, lastConfig)) && SortedIds(streams) && Exclusive(streams)
  }

  // ----- updates of the collection -----

  function SetState(configs: seq<Config>, source: SyncState, target: SyncState): (r: seq<Config>)
    ensures |r| == |configs|
    ensures forall i :: 0 <= i < |r| ==> r[i] == if configs[i].state == source then configs[i].(state := target) else configs[i]
  {
    seq(|configs|, i requires 0 <= i < |configs| => if configs[i].state == source then configs[i].(state := target) else configs[i])
  }

  function StopAll(configs: seq<Config>): (r: seq<Config>)
    ensures |r| == |configs|
    ensures forall i :: 0 <= i < |r| ==> r[i] == configs[i].(state := Stop)
  {
    seq(|configs|, i requires 0 <= i < |configs| => configs[i].(state := Stop))
  }

  function StopStream(s: Stream): Stream {
    s.(state := Stop, configs := StopAll(s.configs))
  }

  function StopWorkOf(s: Stream): Stream {
    var t := if Serves(s) then s.(configs := SetState(s.configs, Processing, Stop)) else s;
    if t.state == Processing then StopStream(t) else t
  }

  function StopProcessingWork(streams: seq<Stream>): seq<Stream> {
    Map(streams, StopWorkOf)
  }

  /** The stream with the highest id that satisfies a filter. */
  function FindLast(streams: seq<Stream>, filter: Stream -> bool): (r: Option<Stream>)
    ensures r.Some? ==> r.value in streams && filter(r.value)
    ensures r.None? ==> forall s :: s in streams ==> !filter(s)
  {
    if streams == [] then None
    else if filter(streams[|streams| - 1]) then Some(streams[|streams| - 1])
    else
      var r := FindLast(streams[..|streams| - 1], filter);
      assert streams == streams[..|streams| - 1] + [streams[|streams| - 1]];
      r
  }

  function FirstOf(configs: seq<Config>, accepted: set<SyncState>): (r: Option<nat>)
    ensures r.None? <==> forall c :: c in configs ==> c.state !in accepted
    ensures r.Some? ==> exists c :: c in configs && c.id == r.value && c.state in accepted
  {
    if configs == [] then None
    else if configs[0].state in accepted then Some(configs[0].id)
    else
      var r := FirstOf(configs[1..], accepted);
      assert configs == [configs[0]] + configs[1..];
      r
  }

  /** A stream as a lookup sees it: nothing when no config of it is in an accepted state. */
  function Resolve(doc: Option<Stream>, accepted: set<SyncState>): Option<Resolved> {
    if doc.None? then None
    else if !doc.value.v3 then Some(Resolved(doc.value.id, None))
    else
      var config := FirstOf(doc.value.configs, accepted);
      if config.None? then None else Some(Resolved(doc.value.id, config))
  }

  predicate HasPending(s: Stream) {
    s.state == Processing || exists c :: c in s.configs && c.state == Processing
  }

  function ActiveLookup(streams: seq<Stream>): Option<Resolved> {
    Resolve(FindLast(streams, Serves), {Active, Errored})
  }

  function DeployingLookup(streams: seq<Stream>): Option<Resolved> {
    Resolve(FindLast(streams, HasPending), {Processing})
  }

  /** The ids of the streams a replicator runs. */
  function Replicating(streams: seq<Stream>): set<nat> {
    set s | s in streams && (s.state == Processing || s.state == Active) && Resolve(Some(s), {Processing, Active}).Some? :: s.id
  }

  /** The ids of the streams a replicator cleans up. */
  function Stopped(streams: seq<Stream>): set<nat> {
    set s | s in streams && s.state == Stop && Resolve(Some(s), {Stop}).Some? :: s.id
  }

  // ----- what the updates keep -----

  lemma {:induction false} CountZero(configs: seq<Config>, state: SyncState)
    ensures CountState(configs, state) == 0 <==> forall c :: c in configs ==> c.state != state
  {
    if configs != [] {
      CountZero(configs[1..], state);
      assert configs == [configs[0]] + configs[1..];
    }
  }

  lemma {:induction false} SetStateCounts(configs: seq<Config>, source: SyncState, target: SyncState, state: SyncState)
    requires source != target
    ensures CountState(SetState(configs, source, target), state) ==
            if state == source then 0
            else if state == target then CountState(configs, source) + CountState(configs, target)
            else CountState(configs, state)
  {
    if configs != [] {
      var rest, mapped := configs[1..], SetState(configs, source, target);
      SetStateCounts(rest, source, target, state);
      assert mapped[1..] == SetState(rest, source, target);
      assert mapped[0].state == if configs[0].state == source then target else configs[0].state;
      assert CountState(mapped, state) == CountState(mapped[1..], state) + if mapped[0].state == state then 1 else 0;
    }
  }

  lemma {:induction false} StopAllCounts(configs: seq<Config>, state: SyncState)
    requires state != Stop
    ensures CountState(StopAll(configs), state) == 0
  {
    CountZero(StopAll(configs), state);
  }

  /** Stopping the work in progress of a stream. */
  lemma StopWorkKeeps(s: Stream)
    requires Shaped(s)
    ensures var t := StopWorkOf(s); Shaped(t) && t.id == s.id && Pending(t) == 0 && Serves(t) == Serves(s)
    ensures forall c :: c in StopWorkOf(s).configs ==> exists d :: d in s.configs && d.id == c.id
  {
    if Serves(s) {
      SetStateCounts(s.configs, Processing, Stop, Processing);
      SetStateCounts(s.configs, Processing, Stop, Active);
      SetStateCounts(s.configs, Processing, Stop, Errored);
    } else {
      StopAllCounts(s.configs, Processing);
    }
    var t := StopWorkOf(s);
    forall c | c in t.configs ensures exists d :: d in s.configs && d.id == c.id {
      var i :| 0 <= i < |t.configs| && t.configs[i] == c;
      assert s.configs[i] in s.configs && s.configs[i].id == c.id;
    }
  }

  lemma MapMembers(streams: seq<Stream>, f: Stream -> Stream, t: Stream) returns (s: Stream)
    requires t in Map(streams, f)
    ensures s in streams && t == f(s)
  {
    var i :| 0 <= i < |streams| && Map(streams, f)[i] == t;
    s := streams[i];
  }

  /** Updates of single streams that add no work and serve no new stream keep the invariant. */
  lemma MapKeepsInv(streams: seq<Stream>, lastStream: nat, lastConfig: nat, f: Stream -> Stream)
    requires Inv(streams, lastStream, lastConfig)
    requires forall s :: s in streams ==>
               StreamOk(f(s), lastStream, lastConfig) && f(s).id == s.id && Pending(f(s)) <= Pending(s) && (Serves(f(s)) ==> Serves(s))
    ensures Inv(Map(streams, f), lastStream, lastConfig)
  {
    var mapped := Map(streams, f);
    forall t | t in mapped ensures StreamOk(t, lastStream, lastConfig) {
      var s := MapMembers(streams, f, t);
    }
    forall t, u | t in mapped && u in mapped
      ensures Pending(t) > 0 && Pending(u) > 0 ==> t.id == u.id
      ensures Serves(t) && Serves(u) ==> t.id == u.id
    {
      var s := MapMembers(streams, f, t);
      var r := MapMembers(streams, f, u);
    }
  }

  lemma StopWorkKeepsInv(streams: seq<Stream>, lastStream: nat, lastConfig: nat)
    requires Inv(streams, lastStream, lastConfig)
    ensures Inv(StopProcessingWork(streams), lastStream, lastConfig)
    ensures forall s :: s in StopProcessingWork(streams) ==> Pending(s) == 0
  {
    forall s | s in streams
      ensures var t := StopWorkOf(s);
              StreamOk(t, lastStream, lastConfig) && t.id == s.id && Pending(t) == 0 && Serves(t) == Serves(s)
    {
      StopWorkKeeps(s);
    }
    MapKeepsInv(streams, lastStream, lastConfig, StopWorkOf);
    var stopped := StopProcessingWork(streams);
    forall t | t in stopped ensures Pending(t) == 0 {
      var i :| 0 <= i < |stopped| && stopped[i] == t;
      assert streams[i] in streams;
    }
  }

  function NewStream(id: nat, v3: bool, config: nat): Stream {
    Stream(id, v3, Processing, if v3 then [Config(config, Processing)] else [])
  }

  lemma NewStreamShape(id: nat, v3: bool, config: nat)
    ensures var s := NewStream(id, v3, config);
            Shaped(s) && Pending(s) == 1 && !Serves(s) && s.id == id && StreamOk(s, id, config)
  {
    assert CountState([Config(config, Processing)][1..], Processing) == 0;
  }

  lemma ExtendKeepsInv(streams: seq<Stream>, lastStream: nat, lastConfig: nat, stream: Stream)
    requires Inv(streams, lastStream, lastConfig) && (forall s :: s in streams ==> Pending(s) == 0)
    requires StreamOk(stream, lastStream + 1, lastConfig + 1) && stream.id == lastStream + 1 && !Serves(stream)
    ensures Inv(streams + [stream], lastStream + 1, lastConfig + 1)
  {
    var more := streams + [stream];
    assert forall s :: s in more <==> s in streams || s == stream;
    assert forall s :: s in streams ==> StreamOk(s, lastStream, lastConfig);
    OneMoreId(streams, lastStream, stream);
  }

  lemma OneMoreId(streams: seq<Stream>, lastStream: nat, stream: Stream)
    requires SortedIds(streams) && (forall s :: s in streams ==> s.id <= lastStream) && stream.id == lastStream + 1
    ensures SortedIds(streams + [stream])
  {
    var more := streams + [stream];
    assert forall i :: 0 <= i < |streams| ==> more[i] == streams[i] && more[i] in streams;
  }

  // ----- deploying -----

  datatype Db = Db(streams: seq<Stream>, lastStream: nat, lastConfig: nat)

  ghost predicate Valid(db: Db) {
    Inv(db.streams, db.lastStream, db.lastConfig)
  }

  function WithNew(db: Db, v3: bool): Db {
    Db(db.streams + [NewStream(db.lastStream + 1, v3, db.lastConfig + 1)], db.lastStream + 1, db.lastConfig + 1)
  }

  function DeployNew(db: Db, v3: bool): Db {
    WithNew(db.(streams := StopProcessingWork(db.streams)), v3)
  }

  function Appended(s: Stream, id: nat, config: nat): Stream {
    if s.id == id then s.(configs := s.configs + [Config(config, Processing)]) else s
  }

  function AppendTo(streams: seq<Stream>, id: nat, config: nat): seq<Stream> {
    Map(streams, (s: Stream) => Appended(s, id, config))
  }

  function Append(db: Db, id: nat): Db {
    Db(AppendTo(StopProcessingWork(db.streams), id, db.lastConfig + 1), db.lastStream, db.lastConfig + 1)
  }

  /** Deploy a config: append it to the active stream when that can take it, and otherwise start a new one. */
  function Update(db: Db, v3: bool, forceNew: bool, incremental: bool): Db {
    var active := FindLast(db.streams, IsActiveV3);
    if v3 && active.Some? && !forceNew && incremental then Append(db, active.value.id) else DeployNew(db, v3)
  }

  lemma NewStreamKeepsInv(db: Db, v3: bool)
    requires Valid(db) && forall s :: s in db.streams ==> Pending(s) == 0
    ensures Valid(WithNew(db, v3))
  {
    var stream := NewStream(db.lastStream + 1, v3, db.lastConfig + 1);
    NewStreamShape(db.lastStream + 1, v3, db.lastConfig + 1);
    ExtendKeepsInv(db.streams, db.lastStream, db.lastConfig, stream);
    assert WithNew(db, v3) == Db(db.streams + [stream], db.lastStream + 1, db.lastConfig + 1);
  }

  lemma DeployNewKeepsInv(db: Db, v3: bool)
    requires Valid(db)
    ensures Valid(DeployNew(db, v3))
  {
    StopWorkKeepsInv(db.streams, db.lastStream, db.lastConfig);
    NewStreamKeepsInv(db.(streams := StopProcessingWork(db.streams)), v3);
  }

  lemma AppendedShape(s: Stream, config: nat)
    requires Shaped(s) && s.v3 && s.state == Active && Pending(s) == 0 && forall c :: c in s.configs ==> c.id < config
    ensures var t := Appended(s, s.id, config); Shaped(t) && Pending(t) == 1 && t.state == Active
  {
    var added := [Config(config, Processing)];
    CountConcat(s.configs, added, Processing);
    CountConcat(s.configs, added, Active);
    CountConcat(s.configs, added, Errored);
    assert added[1..] == [];
    var configs := s.configs + added;
    forall i, j | 0 <= i < j < |configs| ensures configs[i].id != configs[j].id {
      assert configs[i] == s.configs[i] && s.configs[i] in s.configs;
    }
  }

  lemma AppendKeepsInv(db: Db, s: Stream)
    requires Valid(db) && s in db.streams && s.v3 && s.state == Active
    ensures Valid(Append(db, s.id))
  {
    StopWorkKeepsInv(db.streams, db.lastStream, db.lastConfig);
    MapMember(db.streams, StopWorkOf, s);
    var target := StopWorkOf(s);
    StoppedTakes(target, db.lastStream, db.lastConfig);
    AppendOneKeepsInv(StopProcessingWork(db.streams), db.lastStream, db.lastConfig, target);
  }

  lemma MapMember(streams: seq<Stream>, f: Stream -> Stream, s: Stream)
    requires s in streams
    ensures f(s) in Map(streams, f)
  {
    var i :| 0 <= i < |streams| && streams[i] == s;
    assert Map(streams, f)[i] == f(s);
  }

  lemma StoppedTakes(target: Stream, lastStream: nat, lastConfig: nat)
    requires StreamOk(target, lastStream, lastConfig) && target.v3 && target.state == Active && Pending(target) == 0
    ensures Shaped(Appended(target, target.id, lastConfig + 1)) && Pending(Appended(target, target.id, lastConfig + 1)) == 1
  {
    AppendedShape(target, lastConfig + 1);
  }

  lemma AppendOneKeepsInv(streams: seq<Stream>, lastStream: nat, lastConfig: nat, target: Stream)
    requires Inv(streams, lastStream, lastConfig) && (forall s :: s in streams ==> Pending(s) == 0)
    requires target in streams && target.state == Active
    requires Shaped(Appended(target, target.id, lastConfig + 1)) && Pending(Appended(target, target.id, lastConfig + 1)) == 1
    ensures Inv(AppendTo(streams, target.id, lastConfig + 1), lastStream, lastConfig + 1)
  {
    var f := (s: Stream) => Appended(s, target.id, lastConfig + 1);
    var mapped := AppendTo(streams, target.id, lastConfig + 1);
    assert mapped == Map(streams, f);
    forall s | s in streams
      ensures StreamOk(f(s), lastStream, lastConfig + 1) && f(s).id == s.id && Serves(f(s)) == Serves(s)
      ensures Pending(f(s)) > 0 ==> s.id == target.id
    {
      assert StreamOk(s, lastStream, lastConfig);
      if s.id == target.id {
        OneId(streams, s, target);
      }
    }
    forall t | t in mapped ensures StreamOk(t, lastStream, lastConfig + 1) {
      var s := MapMembers(streams, f, t);
    }
    forall t, u | t in mapped && u in mapped
      ensures Pending(t) > 0 && Pending(u) > 0 ==> t.id == u.id
      ensures Serves(t) && Serves(u) ==> t.id == u.id
    {
      var s := MapMembers(streams, f, t);
      var r := MapMembers(streams, f, u);
    }
  }

  lemma OneId(streams: seq<Stream>, s: Stream, t: Stream)
    requires SortedIds(streams) && s in streams && t in streams && s.id == t.id
    ensures s == t
  {
  }

  lemma UpdateKeepsInv(db: Db, v3: bool, forceNew: bool, incremental: bool)
    requires Valid(db)
    ensures Valid(Update(db, v3, forceNew, incremental))
  {
    var active := FindLast(db.streams, IsActiveV3);
    if v3 && active.Some? && !forceNew && incremental {
      AppendKeepsInv(db, active.value);
    } else {
      DeployNewKeepsInv(db, v3);
    }
  }

  // ----- lookups -----

  lemma {:induction false} FirstOfSame(a: seq<Config>, b: seq<Config>, accepted: set<SyncState>)
    requires |a| == |b|
    requires forall i :: 0 <= i < |a| ==> a[i].id == b[i].id && (a[i].state in accepted <==> b[i].state in accepted)
    ensures FirstOf(a, accepted) == FirstOf(b, accepted)
  {
    if a != [] { FirstOfSame(a[1..], b[1..], accepted); }
  }

  /** The one serving stream is what the active lookup resolves. */
  lemma ActiveIs(db: Db, s: Stream)
    requires Valid(db) && s in db.streams && Serves(s)
    ensures ActiveLookup(db.streams) == Resolve(Some(s), {Active, Errored}) && ActiveLookup(db.streams).Some?
  {
    var found := FindLast(db.streams, Serves);
    OneId(db.streams, found.value, s);
    if s.v3 {
      CountZero(s.configs, Active);
      CountZero(s.configs, Errored);
    }
  }

  lemma PendingIs(s: Stream)
    requires Shaped(s)
    ensures HasPending(s) <==> Pending(s) > 0
    ensures Pending(s) > 0 ==> Resolve(Some(s), {Processing}).Some?
  {
    CountZero(s.configs, Processing);
    if s.v3 && s.state == Processing {
      assert s.configs[0] in s.configs;
    }
  }

  /** The one stream with work in progress is what the deploying lookup resolves. */
  lemma DeployingIs(db: Db, s: Stream)
    requires Valid(db) && s in db.streams && Pending(s) > 0
    ensures DeployingLookup(db.streams) == Resolve(Some(s), {Processing}) && DeployingLookup(db.streams).Some?
  {
    var found := FindLast(db.streams, HasPending);
    PendingIs(s);
    PendingIs(found.value);
    OneId(db.streams, found.value, s);
  }

  // ----- replacing the active stream -----

  function ErroredConfig(c: Config, config: nat): Config {
    if c.id == config && (c.state == Active || c.state == Errored) then c.(state := Errored)
    else if c.id != config && c.state == Processing then c.(state := Stop)
    else c
  }

  function ErroredConfigs(configs: seq<Config>, config: nat): (r: seq<Config>)
    ensures |r| == |configs| && forall i :: 0 <= i < |r| ==> r[i] == ErroredConfig(configs[i], config)
  {
    seq(|configs|, i requires 0 <= i < |configs| => ErroredConfig(configs[i], config))
  }

  predicate IsTarget(s: Stream, active: Resolved) {
    && s.id == active.stream && Serves(s)
    && (active.config.Some? ==> exists c :: c in s.configs && c.id == active.config.value && (c.state == Active || c.state == Errored))
  }

  function ErrorStream(s: Stream, active: Resolved): Stream {
    if !IsTarget(s, active) then s
    else s.(state := Errored, configs := if active.config.None? then s.configs else ErroredConfigs(s.configs, active.config.value))
  }

  function ErrorAll(streams: seq<Stream>, active: Resolved): seq<Stream> {
    Map(streams, (s: Stream) => ErrorStream(s, active))
  }

  /** Keep the active config readable while its stream no longer replicates; an update that matches
      nothing aborts the transaction. */
  function ErrorActive(db: Db, active: Resolved): Option<Db> {
    if exists s :: s in db.streams && IsTarget(s, active) then Some(db.(streams := ErrorAll(db.streams, active))) else None
  }

  /** Redo the work of a stream whose replication was invalidated. */
  function Restart(db: Db, id: nat, v3: bool): Option<Db> {
    var next := DeployingLookup(db.streams);
    var active := ActiveLookup(db.streams);
    if next.Some? && next.value.stream == id then
      var redone := Update(db, v3, true, false);
      if active.Some? && active.value.stream == id then ErrorActive(redone, active.value) else Some(redone)
    else if next.None? && active.Some? && active.value.stream == id then
      ErrorActive(Update(db, v3, true, false), active.value)
    else if next.Some? && active.Some? && active.value.stream == id then
      ErrorActive(db, active.value)
    else Some(db)
  }

  lemma {:induction false} FirstOfIs(configs: seq<Config>, accepted: set<SyncState>, config: nat)
    requires DistinctIds(configs) && FirstOf(configs, accepted) == Some(config)
    ensures exists i :: 0 <= i < |configs| && configs[i].id == config && configs[i].state in accepted
  {
    var c :| c in configs && c.id == config && c.state in accepted;
    var i :| 0 <= i < |configs| && configs[i] == c;
  }

  lemma {:induction false} CountOne(configs: seq<Config>, state: SyncState, i: nat)
    requires i < |configs| && configs[i].state == state
    ensures CountState(configs, state) >= 1
    ensures CountState(configs, state) == 1 ==> forall j :: 0 <= j < |configs| && j != i ==> configs[j].state != state
  {
    if i == 0 {
      CountZero(configs[1..], state);
      assert forall j :: 1 <= j < |configs| ==> configs[j] in configs[1..];
    } else {
      CountOne(configs[1..], state, i - 1);
      if configs[0].state == state {
        CountZero(configs[1..], state);
      }
      forall j | 0 <= j < |configs| && j != i && CountState(configs, state) == 1 ensures configs[j].state != state {
        if j > 0 { assert configs[j] == configs[1..][j - 1]; }
      }
    }
  }

  /** When exactly one config has a state, and only it does, the count says so. */
  lemma {:induction false} CountIsOne(configs: seq<Config>, state: SyncState, i: nat)
    requires i < |configs| && forall j :: 0 <= j < |configs| ==> (configs[j].state == state <==> j == i)
    ensures CountState(configs, state) == 1
  {
    if i == 0 {
      CountZero(configs[1..], state);
    } else {
      CountIsOne(configs[1..], state, i - 1);
    }
  }

  /** The config an active lookup gives is the one that serves, and no other config of the stream does. */
  lemma ServingConfig(s: Stream, config: nat) returns (i: nat)
    requires Shaped(s) && s.v3 && Serves(s) && FirstOf(s.configs, {Active, Errored}) == Some(config)
    ensures i < |s.configs| && s.configs[i].id == config
    ensures forall j :: 0 <= j < |s.configs| ==> (s.configs[j].state in {Active, Errored} <==> j == i)
  {
    FirstOfIs(s.configs, {Active, Errored}, config);
    i :| 0 <= i < |s.configs| && s.configs[i].id == config && s.configs[i].state in {Active, Errored};
    CountOne(s.configs, s.configs[i].state, i);
    CountZero(s.configs, Active);
    CountZero(s.configs, Errored);
    assert forall j :: 0 <= j < |s.configs| ==> s.configs[j] in s.configs;
  }

  lemma ErroredStates(configs: seq<Config>, config: nat, i: nat)
    requires DistinctIds(configs) && i < |configs| && configs[i].id == config
    requires forall j :: 0 <= j < |configs| ==> (configs[j].state in {Active, Errored} <==> j == i)
    ensures var r := ErroredConfigs(configs, config);
            && DistinctIds(r) && (forall j :: 0 <= j < |r| ==> r[j].state != Active && r[j].state != Processing)
            && (forall j :: 0 <= j < |r| ==> r[j].id == configs[j].id && (r[j].state == Errored <==> j == i))
  {
    forall j | 0 <= j < |configs| ensures ErroredConfig(configs[j], config).state in {Errored, Stop, Terminated} {
      assert configs[j].state in {Active, Errored} <==> j == i;
      assert configs[j].id == config <==> j == i;
    }
  }

  lemma ErroredConfigsKeep(configs: seq<Config>, config: nat, i: nat)
    requires DistinctIds(configs) && i < |configs| && configs[i].id == config
    requires forall j :: 0 <= j < |configs| ==> (configs[j].state in {Active, Errored} <==> j == i)
    ensures var r := ErroredConfigs(configs, config);
            && DistinctIds(r) && CountState(r, Errored) == 1 && CountState(r, Active) == 0 && CountState(r, Processing) == 0
            && FirstOf(r, {Active, Errored}) == FirstOf(configs, {Active, Errored})
  {
    var r := ErroredConfigs(configs, config);
    ErroredStates(configs, config, i);
    CountIsOne(r, Errored, i);
    CountZero(r, Active);
    CountZero(r, Processing);
    FirstOfSame(configs, r, {Active, Errored});
  }

  lemma ErrorStreamKeeps(s: Stream, active: Resolved)
    requires Shaped(s) && Serves(s) && Resolve(Some(s), {Active, Errored}) == Some(active)
    ensures var t := ErrorStream(s, active);
            && IsTarget(s, active) && Shaped(t) && t.id == s.id && t.state == Errored && Pending(t) == 0
            && Resolve(Some(t), {Active, Errored}) == Some(active)
  {
    if s.v3 {
      var i := ServingConfig(s, active.config.value);
      assert s.configs[i] in s.configs;
      ErroredConfigsKeep(s.configs, active.config.value, i);
    }
  }

  lemma ErroredIds(s: Stream, active: Resolved, lastConfig: nat)
    requires forall c :: c in s.configs ==> c.id <= lastConfig
    ensures forall c :: c in ErrorStream(s, active).configs ==> c.id <= lastConfig
  {
    var t := ErrorStream(s, active);
    forall c | c in t.configs ensures c.id <= lastConfig {
      var k :| 0 <= k < |t.configs| && t.configs[k] == c;
      assert s.configs[k] in s.configs && s.configs[k].id == c.id;
    }
  }

  /** The active lookup always finds what it names, and erroring it keeps clients on the same config. */
  lemma ErrorActiveKeeps(db: Db, active: Resolved)
    requires Valid(db) && ActiveLookup(db.streams) == Some(active)
    ensures ErrorActive(db, active).Some?
    ensures var r := ErrorActive(db, active).value; Valid(r) && ActiveLookup(r.streams) == Some(active)
    ensures var r := ErrorActive(db, active).value;
            && (forall t :: t in r.streams && t.id == active.stream ==> t.state == Errored && Pending(t) == 0)
            && (forall s :: s in db.streams && s.id != active.stream ==> s in r.streams)
  {
    var f := (s: Stream) => ErrorStream(s, active);
    var serving := FindLast(db.streams, Serves).value;
    assert serving.id == active.stream;
    ErrorStreamKeeps(serving, active);
    forall s | s in db.streams
      ensures StreamOk(f(s), db.lastStream, db.lastConfig) && f(s).id == s.id && Pending(f(s)) <= Pending(s) && (Serves(f(s)) ==> Serves(s))
      ensures s.id == active.stream ==> s == serving
    {
      if s.id == active.stream {
        OneId(db.streams, s, serving);
        ErroredIds(s, active, db.lastConfig);
      }
    }
    MapKeepsInv(db.streams, db.lastStream, db.lastConfig, f);
    ErrorActiveFinds(db, active, serving);
  }

  lemma ErrorActiveFinds(db: Db, active: Resolved, serving: Stream)
    requires serving in db.streams && IsTarget(serving, active) && Valid(db.(streams := ErrorAll(db.streams, active)))
    requires forall s :: s in db.streams && s.id == active.stream ==> s == serving
    requires var t := ErrorStream(serving, active);
             t.state == Errored && Pending(t) == 0 && Resolve(Some(t), {Active, Errored}) == Some(active)
    ensures ErrorActive(db, active).Some?
    ensures var r := ErrorActive(db, active).value;
            && ActiveLookup(r.streams) == Some(active)
            && (forall t :: t in r.streams && t.id == active.stream ==> t.state == Errored && Pending(t) == 0)
            && (forall s :: s in db.streams && s.id != active.stream ==> s in r.streams)
  {
    var f := (s: Stream) => ErrorStream(s, active);
    var r := db.(streams := ErrorAll(db.streams, active));
    assert r.streams == Map(db.streams, f);
    MapMember(db.streams, f, serving);
    ActiveIs(r, f(serving));
    forall t | t in r.streams && t.id == active.stream ensures t == f(serving) {
      var s := MapMembers(db.streams, f, t);
    }
    forall s | s in db.streams && s.id != active.stream ensures s in r.streams {
      MapMember(db.streams, f, s);
    }
  }

  // ----- what a deploy does to the lookups -----

  lemma StopWorkServes(s: Stream)
    requires Shaped(s) && Serves(s)
    ensures Resolve(Some(StopWorkOf(s)), {Active, Errored}) == Resolve(Some(s), {Active, Errored})
  {
    FirstOfSame(s.configs, SetState(s.configs, Processing, Stop), {Active, Errored});
  }

  /** Serving streams that stay serving, and resolve as before, keep the active lookup. */
  lemma SameActive(db: Db, db': Db)
    requires Valid(db) && Valid(db')
    requires forall s :: s in db.streams && Serves(s) ==>
               exists t :: t in db'.streams && Serves(t) && Resolve(Some(t), {Active, Errored}) == Resolve(Some(s), {Active, Errored})
    requires forall t :: t in db'.streams && Serves(t) ==> exists s :: s in db.streams && Serves(s)
    ensures ActiveLookup(db'.streams) == ActiveLookup(db.streams)
  {
    var found := FindLast(db.streams, Serves);
    if found.Some? {
      var t :| t in db'.streams && Serves(t)
               && Resolve(Some(t), {Active, Errored}) == Resolve(found, {Active, Errored});
      ActiveIs(db, found.value);
      ActiveIs(db', t);
    }
  }

  /** What is left of the streams that were there before a deploy. */
  ghost predicate StoppedFrom(streams: seq<Stream>, t: Stream) {
    Pending(t) == 0 && t.state != Processing && exists s :: s in streams && t == StopWorkOf(s)
  }

  lemma DeployNewOld(db: Db, v3: bool)
    requires Valid(db)
    ensures forall t :: t in DeployNew(db, v3).streams && t.id <= db.lastStream ==> StoppedFrom(db.streams, t)
  {
    var r := DeployNew(db, v3);
    StopWorkKeepsInv(db.streams, db.lastStream, db.lastConfig);
    forall t | t in r.streams && t.id <= db.lastStream ensures StoppedFrom(db.streams, t) {
      assert t in StopProcessingWork(db.streams);
      var s := MapMembers(db.streams, StopWorkOf, t);
    }
  }

  lemma DeployNewDeploys(db: Db, v3: bool)
    requires Valid(db)
    ensures var r := DeployNew(db, v3);
            Valid(r) && DeployingLookup(r.streams).Some? && DeployingLookup(r.streams).value.stream == db.lastStream + 1
  {
    DeployNewKeepsInv(db, v3);
    var r := DeployNew(db, v3);
    var added := NewStream(db.lastStream + 1, v3, db.lastConfig + 1);
    NewStreamShape(db.lastStream + 1, v3, db.lastConfig + 1);
    assert r.streams[|r.streams| - 1] == added;
    DeployingIs(r, added);
  }

  lemma DeployNewServes(db: Db, v3: bool)
    requires Valid(db)
    ensures ActiveLookup(DeployNew(db, v3).streams) == ActiveLookup(db.streams)
  {
    DeployNewKeepsInv(db, v3);
    var r := DeployNew(db, v3);
    forall s | s in db.streams && Serves(s)
      ensures exists t :: t in r.streams && Serves(t) && Resolve(Some(t), {Active, Errored}) == Resolve(Some(s), {Active, Errored})
    {
      MapMember(db.streams, StopWorkOf, s);
      StopWorkServes(s);
      assert StopWorkOf(s) in r.streams && Serves(StopWorkOf(s));
    }
    forall t | t in r.streams && Serves(t) ensures exists s :: s in db.streams && Serves(s) {
      assert t in StopProcessingWork(db.streams);
      var s := MapMembers(db.streams, StopWorkOf, t);
      StopWorkKeeps(s);
    }
    SameActive(db, r);
  }

  // ----- restarting -----

  /** Restarting the deploying or the active stream never fails; clients keep the config they are served,
      the stream replicates no more, and some config is deploying. */
  lemma RestartReplaces(db: Db, id: nat, v3: bool)
    requires Valid(db)
    ensures Restart(db, id, v3).Some? && Valid(Restart(db, id, v3).value)
    ensures var r := Restart(db, id, v3).value;
            var next, active := DeployingLookup(db.streams), ActiveLookup(db.streams);
            && ActiveLookup(r.streams) == active
            && (if (next.Some? && next.value.stream == id) || (active.Some? && active.value.stream == id)
                then id !in Replicating(r.streams) && DeployingLookup(r.streams).Some?
                else r == db)
  {
    var next, active := DeployingLookup(db.streams), ActiveLookup(db.streams);
    if next.Some? && next.value.stream == id {
      RestartDeploying(db, id, v3);
    } else if active.Some? && active.value.stream == id {
      RestartActive(db, id, v3);
    }
  }

  lemma NotReplicating(streams: seq<Stream>, id: nat)
    requires forall t :: t in streams && t.id == id ==> t.state != Processing && t.state != Active
    ensures id !in Replicating(streams)
  {
  }

  lemma RestartDeploying(db: Db, id: nat, v3: bool)
    requires Valid(db) && DeployingLookup(db.streams).Some? && DeployingLookup(db.streams).value.stream == id
    ensures Restart(db, id, v3).Some?
    ensures var r := Restart(db, id, v3).value;
            && Valid(r) && ActiveLookup(r.streams) == ActiveLookup(db.streams)
            && id !in Replicating(r.streams) && DeployingLookup(r.streams).Some?
  {
    var active := ActiveLookup(db.streams);
    var redone := DeployNew(db, v3);
    DeployNewDeploys(db, v3);
    DeployNewServes(db, v3);
    var found := FindLast(db.streams, HasPending).value;
    assert StreamOk(found, db.lastStream, db.lastConfig) && id == found.id <= db.lastStream;
    if active.Some? && active.value.stream == id {
      ErrorKeepsDeploying(redone, active.value);
    } else {
      OtherStopsReplicating(db, id, v3);
    }
  }

  /** A stream that was not the active one replicates no more once its work is taken over. */
  lemma OtherStopsReplicating(db: Db, id: nat, v3: bool)
    requires Valid(db) && id <= db.lastStream
    requires ActiveLookup(db.streams).Some? ==> ActiveLookup(db.streams).value.stream != id
    ensures id !in Replicating(DeployNew(db, v3).streams)
  {
    DeployNewOld(db, v3);
    var r := DeployNew(db, v3);
    forall t | t in r.streams && t.id == id ensures t.state != Active && t.state != Processing {
      assert StoppedFrom(db.streams, t);
      var s :| s in db.streams && t == StopWorkOf(s);
      StopWorkKeeps(s);
      if Serves(s) {
        ActiveIs(db, s);
      }
    }
    NotReplicating(r.streams, id);
  }

  /** Erroring the active stream leaves a config deploying on another one. */
  lemma ErrorKeepsDeploying(db: Db, active: Resolved)
    requires Valid(db) && ActiveLookup(db.streams) == Some(active)
    requires DeployingLookup(db.streams).Some? && DeployingLookup(db.streams).value.stream != active.stream
    ensures ErrorActive(db, active).Some?
    ensures var r := ErrorActive(db, active).value;
            && Valid(r) && ActiveLookup(r.streams) == Some(active)
            && active.stream !in Replicating(r.streams) && DeployingLookup(r.streams).Some?
  {
    ErrorActiveKeeps(db, active);
    var r := ErrorActive(db, active).value;
    var found := FindLast(db.streams, HasPending).value;
    assert found in r.streams;
    PendingIs(found);
    DeployingIs(r, found);
    NotReplicating(r.streams, active.stream);
  }

  lemma RestartActive(db: Db, id: nat, v3: bool)
    requires Valid(db) && ActiveLookup(db.streams).Some? && ActiveLookup(db.streams).value.stream == id
    requires DeployingLookup(db.streams).Some? ==> DeployingLookup(db.streams).value.stream != id
    ensures Restart(db, id, v3).Some?
    ensures var r := Restart(db, id, v3).value;
            && Valid(r) && ActiveLookup(r.streams) == ActiveLookup(db.streams)
            && id !in Replicating(r.streams) && DeployingLookup(r.streams).Some?
  {
    var active := ActiveLookup(db.streams).value;
    if DeployingLookup(db.streams).Some? {
      ErrorKeepsDeploying(db, active);
    } else {
      DeployNewDeploys(db, v3);
      DeployNewServes(db, v3);
      var found := FindLast(db.streams, Serves).value;
      assert StreamOk(found, db.lastStream, db.lastConfig) && id == found.id;
      ErrorKeepsDeploying(DeployNew(db, v3), active);
    }
  }
}
