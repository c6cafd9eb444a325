/** The storage object whose transactions change the lifecycle collection in place. */
module SyncConfigStorage {
  import opened Wrappers
  import opened Lifecycle

  lemma {:induction false} FirstOfAppend(configs: seq<Config>, c: Config, accepted: set<SyncState>)
    requires c.state !in accepted
    ensures FirstOf(configs + [c], accepted) == FirstOf(configs, accepted)
  {
    if configs != [] {
      FirstOfAppend(configs[1..], c, accepted);
      assert (configs + [c])[1..] == configs[1..] + [c];
    }
  }

  lemma AppendServes(s: Stream, id: nat, config: nat)
    requires Shaped(s) && Serves(s)
    ensures var t := Appended(StopWorkOf(s), id, config);
            Serves(t) && Resolve(Some(t), {Active, Errored}) == Resolve(Some(s), {Active, Errored})
  {
    StopWorkServes(s);
    FirstOfAppend(StopWorkOf(s).configs, Config(config, Processing), {Active, Errored});
  }

  /** The stream a config is appended to, afterwards. */
  lemma AppendTarget(db: Db, target: Stream) returns (t: Stream)
    requires Valid(db) && target in db.streams && IsActiveV3(target)
    ensures t == Appended(StopWorkOf(target), target.id, db.lastConfig + 1) && t in Append(db, target.id).streams
    ensures t.id == target.id && t.v3 && Serves(t) && Pending(t) == 1
  {
    var stopped := StopWorkOf(target);
    var f := (s: Stream) => Appended(s, target.id, db.lastConfig + 1);
    MapMember(db.streams, StopWorkOf, target);
    MapMember(StopProcessingWork(db.streams), f, stopped);
    assert Append(db, target.id).streams == Map(StopProcessingWork(db.streams), f);
    StopWorkKeepsInv(db.streams, db.lastStream, db.lastConfig);
    assert StreamOk(stopped, db.lastStream, db.lastConfig);
    StoppedTakes(stopped, db.lastStream, db.lastConfig);
    t := f(stopped);
  }

  lemma AppendActive(db: Db, target: Stream)
    requires Valid(db) && target in db.streams && IsActiveV3(target)
    ensures ActiveLookup(Append(db, target.id).streams) == ActiveLookup(db.streams)
  {
    AppendKeepsInv(db, target);
    var t := AppendTarget(db, target);
    ActiveIs(db, target);
    AppendServes(target, target.id, db.lastConfig + 1);
    ActiveIs(Append(db, target.id), t);
  }

  lemma AppendDeploys(db: Db, target: Stream)
    requires Valid(db) && target in db.streams && IsActiveV3(target)
    ensures DeployingLookup(Append(db, target.id).streams) == Some(Resolved(target.id, Some(db.lastConfig + 1)))
  {
    AppendKeepsInv(db, target);
    var t := AppendTarget(db, target);
    DeployingIs(Append(db, target.id), t);
    StopWorkKeeps(target);
    CountZero(StopWorkOf(target).configs, Processing);
    FirstOfLast(StopWorkOf(target).configs, Config(db.lastConfig + 1, Processing));
  }

  lemma {:induction false} FirstOfLast(configs: seq<Config>, c: Config)
    requires c.state == Processing && forall d :: d in configs ==> d.state != Processing
    ensures FirstOf(configs + [c], {Processing}) == Some(c.id)
  {
    if configs != [] {
      assert configs[0] in configs;
      FirstOfLast(configs[1..], c);
      assert (configs + [c])[1..] == configs[1..] + [c];
    }
  }

  /** A deploy leaves a config in progress, and clients on the config they had. */
  lemma UpdateLookups(db: Db, v3: bool, forceNew: bool, incremental: bool)
    requires Valid(db)
    ensures var r := Update(db, v3, forceNew, incremental);
            ActiveLookup(r.streams) == ActiveLookup(db.streams) && DeployingLookup(r.streams).Some?
  {
    var active := FindLast(db.streams, IsActiveV3);
    if v3 && active.Some? && !forceNew && incremental {
      AppendActive(db, active.value);
      AppendDeploys(db, active.value);
    } else {
      DeployNewServes(db, v3);
      DeployNewDeploys(db, v3);
    }
  }

  lemma ErrorActiveIs(db: Db, active: Resolved)
    requires Valid(db) && ActiveLookup(db.streams) == Some(active)
    ensures exists s :: s in db.streams && IsTarget(s, active)
    ensures ErrorActive(db, active) == Some(db.(streams := ErrorAll(db.streams, active)))
  {
    ErrorActiveKeeps(db, active);
  }

  class BucketStorage {
    var streams: seq<Stream>
    var lastStream: nat
    var lastConfig: nat

    ghost predicate IsValid()
      reads this
    {
      Inv(streams, lastStream, lastConfig)
    }

    function Contents(): Db
      reads this
    {
      Db(streams, lastStream, lastConfig)
    }

    constructor ()
      ensures IsValid() && Contents() == Db([], 0, 0)
    {
      streams, lastStream, lastConfig := [], 0, 0;
    }

    method StopExistingProcessingWork()
      modifies this`streams
      ensures streams == StopProcessingWork(old(streams))
    {
      streams := Map(streams, StopWorkOf);
    }

    method AppendSyncConfigToStream(id: nat)
      modifies this`streams, this`lastConfig
      ensures streams == AppendTo(old(streams), id, old(lastConfig) + 1) && lastConfig == old(lastConfig) + 1
    {
      lastConfig := lastConfig + 1;
      streams := AppendTo(streams, id, lastConfig);
    }

    /** A deploy: append to the active stream if that is compatible, or start a new stream. Clients keep
        what they are served, and exactly the new config is in progress. */
    method UpdateSyncRules(v3: bool, forceNew: bool, incremental: bool)
      requires IsValid()
      modifies this
      ensures IsValid() && Contents() == Update(old(Contents()), v3, forceNew, incremental)
      ensures ActiveLookup(streams) == ActiveLookup(old(streams)) && DeployingLookup(streams).Some?
    {
      UpdateKeepsInv(Contents(), v3, forceNew, incremental);
      UpdateLookups(Contents(), v3, forceNew, incremental);
      ApplyUpdate(v3, forceNew, incremental);
    }

    method ApplyUpdate(v3: bool, forceNew: bool, incremental: bool)
      modifies this
      ensures Contents() == Update(old(Contents()), v3, forceNew, incremental)
    {
      var active := FindLast(streams, IsActiveV3);
      StopExistingProcessingWork();
      if v3 && active.Some? && !forceNew && incremental {
        AppendSyncConfigToStream(active.value.id);
      } else {
        lastStream := lastStream + 1;
        lastConfig := lastConfig + 1;
        streams := streams + [NewStream(lastStream, v3, lastConfig)];
      }
    }

    method ErrorActiveStreamForReplacement(active: Resolved) returns (ok: bool)
      requires IsValid() && ActiveLookup(streams) == Some(active)
      modifies this`streams
      ensures ok && ErrorActive(old(Contents()), active) == Some(Contents())
    {
      ErrorActiveIs(Contents(), active);
      ok := exists s :: s in streams && IsTarget(s, active);
      streams := ErrorAll(streams, active);
    }

    /** A restart never fails half-way: the update of the active stream always finds what was looked up.
        Clients keep the config they are served, the stream leaves the replicating set, and a config is
        deploying. Any other stream is left alone. */
    method RestartReplication(id: nat, v3: bool) returns (ok: bool)
      requires IsValid()
      modifies this
      ensures ok && IsValid() && Restart(old(Contents()), id, v3) == Some(Contents())
      ensures ActiveLookup(streams) == ActiveLookup(old(streams))
      ensures var next, active := DeployingLookup(old(streams)), ActiveLookup(old(streams));
              if (next.Some? && next.value.stream == id) || (active.Some? && active.value.stream == id)
              then id !in Replicating(streams) && DeployingLookup(streams).Some?
              else Contents() == old(Contents())
    {
      RestartReplaces(Contents(), id, v3);
      var next := DeployingLookup(streams);
      var active := ActiveLookup(streams);
      ok := true;
      if next.Some? && next.value.stream == id {
        UpdateSyncRules(v3, true, false);
        if active.Some? && active.value.stream == id {
          ok := ErrorActiveStreamForReplacement(active.value);
        }
      } else if next.None? && active.Some? && active.value.stream == id {
        UpdateSyncRules(v3, true, false);
        ok := ErrorActiveStreamForReplacement(active.value);
      } else if next.Some? && active.Some? && active.value.stream == id {
        ok := ErrorActiveStreamForReplacement(active.value);
      }
    }
  }
}
