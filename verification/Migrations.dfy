/** The migration runner. */
module Migrations {
  // After any runs of it a prefix of the list is applied, as long as the log tells which way the last run went.

  import opened Wrappers

  datatype Entry = Entry(name: string, up: bool, ts: nat)

  /** What the store keeps: the last migration run, and the whole log. */
  datatype Stored = Stored(lastRun: string, log: seq<Entry>)

  ghost predicate Distinct(names: seq<string>) {
    forall i, j :: 0 <= i < j < |names| ==> names[i] != names[j]
  }

  /** The entry at i has the latest time of its name, and is the first that has. */
  ghost predicate IsLatest(log: seq<Entry>, name: string, i: nat) {
    && i < |log| && log[i].name == name
    && (forall j :: 0 <= j < |log| && log[j].name == name ==> log[j].ts <= log[i].ts)
    && (forall j :: 0 <= j < i && log[j].name == name ==> log[j].ts < log[i].ts)
  }

  lemma LatestIsUnique(log: seq<Entry>, name: string, i: nat, j: nat)
    requires IsLatest(log, name, i) && IsLatest(log, name, j)
    ensures i == j
  {
  }

  function Ending(log: seq<Entry>): Entry
    requires log != []
  {
    log[|log| - 1]
  }

  /** The latest entry of the migration run last, as its times tell, went the way the last run went. Clocks
      that stand still, go back, or differ between processes decide this, and the log shows it. */
  ghost predicate TellsDirection(log: seq<Entry>) {
    log != [] ==> exists i: nat :: IsLatest(log, Ending(log).name, i) && log[i].up == Ending(log).up
  }

  /** It is so whenever the last entry is later than all other entries of its name that went the other way,
      in particular when times strictly increase. */
  lemma LaterTells(log: seq<Entry>)
    requires log != []
    requires forall j :: 0 <= j < |log| && log[j].name == Ending(log).name && log[j].up != Ending(log).up ==> log[j].ts < Ending(log).ts
    ensures TellsDirection(log)
  {
    assert log[|log| - 1].name == Ending(log).name;
    var i := LatestOf(log, Ending(log).name, |log|);
    assert log[..|log|] == log;
  }

  lemma {:induction false} LatestOf(log: seq<Entry>, name: string, n: nat) returns (i: nat)
    requires n <= |log| && exists j :: 0 <= j < n && log[j].name == name
    ensures IsLatest(log[..n], name, i)
  {
    var e := log[n - 1];
    if j :| 0 <= j < n - 1 && log[j].name == name {
      i := LatestOf(log, name, n - 1);
      assert forall k :: 0 <= k < n - 1 ==> log[..n - 1][k] == log[..n][k];
      if e.name == name && log[i].ts < e.ts {
        i := n - 1;
      }
    } else {
      i := n - 1;
    }
  }

  /** The migrations a log leaves applied: each is, if it was last run upwards. */
  function Applied(log: seq<Entry>): set<string> {
    if log == [] then {}
    else
      var e := log[|log| - 1];
      var before := Applied(log[..|log| - 1]);
      if e.up then before + {e.name} else before - {e.name}
  }

  function Prefix(names: seq<string>, n: nat): set<string>
    requires n <= |names|
  {
    if n == 0 then {} else Prefix(names, n - 1) + {names[n - 1]}
  }

  /** The log of a store whose first n migrations are applied. */
  ghost predicate IsPrefix(names: seq<string>, state: Option<Stored>, n: nat) {
    && n <= |names|
    && match state
       case None => n == 0
       case Some(s) =>
         && |s.log| > 0 && s.log[|s.log| - 1].name == s.lastRun && Applied(s.log) == Prefix(names, n)
         && StandsAt(names, s.lastRun, s.log[|s.log| - 1].up, n)
  }

  /** The migration run last is the last applied, or the first not applied. */
  predicate StandsAt(names: seq<string>, lastRun: string, up: bool, n: nat) {
    if up then 0 < n <= |names| && names[n - 1] == lastRun else n < |names| && names[n] == lastRun
  }

  function LogOf(state: Option<Stored>): seq<Entry> {
    if state.Some? then state.value.log else []
  }

  function Reversed(names: seq<string>): (r: seq<string>)
    ensures |r| == |names| && forall i :: 0 <= i < |r| ==> r[i] == names[|names| - 1 - i]
  {
    seq(|names|, i requires 0 <= i < |names| => names[|names| - 1 - i])
  }

  /** Steps of one direction from n applied migrations: upwards the first that is not applied, downwards
      the last that is. */
  function NextName(names: seq<string>, n: nat, up: bool): Option<string>
    requires n <= |names|
  {
    if up then (if n < |names| then Some(names[n]) else None) else (if n > 0 then Some(names[n - 1]) else None)
  }

  function Moved(n: nat, up: bool, steps: nat): int {
    if up then n + steps else n - steps
  }

  lemma AppliedOne(log: seq<Entry>, e: Entry)
    ensures Applied(log + [e]) == if e.up then Applied(log) + {e.name} else Applied(log) - {e.name}
  {
    assert (log + [e])[..|log|] == log;
  }

  lemma OneMoreApplied(names: seq<string>, n: nat, up: bool, applied: set<string>, name: string)
    requires Distinct(names) && n <= |names| && NextName(names, n, up) == Some(name) && applied == Prefix(names, n)
    ensures 0 <= Moved(n, up, 1) <= |names|
    ensures (if up then applied + {name} else applied - {name}) == Prefix(names, Moved(n, up, 1))
  {
    if !up {
      NotInPrefix(names, n - 1, n - 1);
      assert Prefix(names, n) == Prefix(names, n - 1) + {names[n - 1]};
    }
  }

  lemma SavedIsPrefix(names: seq<string>, state: Option<Stored>, n: nat, e: Entry)
    requires Distinct(names) && IsPrefix(names, state, n) && NextName(names, n, e.up) == Some(e.name)
    ensures 0 <= Moved(n, e.up, 1) && IsPrefix(names, Some(Stored(e.name, LogOf(state) + [e])), Moved(n, e.up, 1))
  {
    NothingApplied(names, state, n);
    AppliedOne(LogOf(state), e);
    OneMoreApplied(names, n, e.up, Applied(LogOf(state)), e.name);
    assert StandsAt(names, e.name, e.up, Moved(n, e.up, 1));
  }

  lemma NothingApplied(names: seq<string>, state: Option<Stored>, n: nat)
    requires IsPrefix(names, state, n)
    ensures n <= |names| && Applied(LogOf(state)) == Prefix(names, n)
  {
    if state.None? {
      assert Prefix(names, 0) == {};
    }
  }

  /** The entry of a name with the latest time; of equal times, the first. */
  method FindLastEntry(log: seq<Entry>, name: string) returns (found: Option<Entry>)
    ensures found.None? ==> forall i :: 0 <= i < |log| ==> log[i].name != name
    ensures found.Some? ==> exists i: nat :: IsLatest(log, name, i) && log[i] == found.value
  {
    found := None;
    ghost var at: nat := 0;
    for k := 0 to |log|
      invariant found.None? ==> forall i :: 0 <= i < k ==> log[i].name != name
      invariant found.Some? ==> at < k && log[at] == found.value && log[at].name == name
                                && (forall j :: 0 <= j < k && log[j].name == name ==> log[j].ts <= log[at].ts)
                                && (forall j :: 0 <= j < at && log[j].name == name ==> log[j].ts < log[at].ts)
    {
      if log[k].name == name && (found.None? || log[k].ts > found.value.ts) {
        found := Some(log[k]);
        at := k;
      }
    }
    assert found.Some? ==> IsLatest(log, name, at);
  }

  /** The way the last run went, as the runner reads it from a log. It is right exactly for the logs that tell. */
  method LastDirection(log: seq<Entry>) returns (up: bool)
    requires log != []
    ensures up == Ending(log).up <==> TellsDirection(log)
  {
    var name := Ending(log).name;
    assert log[|log| - 1].name == name;
    var last := FindLastEntry(log, name);
    up := last.value.up;
    ghost var at: nat :| IsLatest(log, name, at) && log[at] == last.value;
    LatestDecides(log, at);
  }

  lemma LatestDecides(log: seq<Entry>, at: nat)
    requires log != [] && IsLatest(log, Ending(log).name, at)
    ensures TellsDirection(log) <==> log[at].up == Ending(log).up
  {
    if i: nat :| IsLatest(log, Ending(log).name, i) && log[i].up == Ending(log).up {
      LatestIsUnique(log, Ending(log).name, i, at);
    }
  }

  method FindIndex(names: seq<string>, name: string) returns (index: int)
    ensures index == -1 ==> name !in names
    ensures index != -1 ==> 0 <= index < |names| && names[index] == name
  {
    for i := 0 to |names|
      invariant forall k :: 0 <= k < i ==> names[k] != name
    {
      if names[i] == name {
        return i;
      }
    }
    return -1;
  }

  class Agent {
    const names: seq<string>
    var state: Option<Stored>

    constructor (names: seq<string>)
      ensures this.names == names && state == None
    {
      this.names := names;
      state := None;
    }

    ghost predicate Valid(n: nat)
      reads this
    {
      Distinct(names) && IsPrefix(names, state, n)
    }

    /** Where in the list, reversed for a run downwards, the runner goes on: at the next migration exactly when
        the log tells which way the last run went. The last run is always found in the list, and in the log. */
    method StartIndex(migrations: seq<string>, up: bool, ghost n: nat) returns (index: nat)
      requires Valid(n) && migrations == if up then names else Reversed(names)
      ensures index == (if up then n else |names| - n) <==> TellsDirection(LogOf(state))
      ensures index <= |names|
    {
      if state.None? {
        return if up then 0 else |migrations|;
      }
      var s := state.value;
      var found := FindIndex(migrations, s.lastRun);
      LastRunIsListed(names, s.lastRun, Ending(s.log).up, n, up, found);
      var lastUp := LastDirection(s.log);
      return if up == lastUp then found + 1 else found;
    }

    /** Run migrations in one direction, saving after each, at whatever times the clock shows. A count of zero is
        no limit, and a failing migration ends the process: what it did before is saved. When the log tells which
        way the last run went, each migration is the next one, and a prefix stays applied; when it does not,
        the first migration run is a wrong one. */
    method Run(up: bool, count: nat, failAt: Option<nat>, now: nat -> nat, ghost n: nat) returns (ran: seq<string>, ghost m: nat)
      requires Valid(n)
      modifies this
      ensures Extends(LogOf(old(state)), LogOf(state), ran, up, now)
      ensures count > 0 ==> |ran| <= count
      ensures TellsDirection(LogOf(old(state))) ==>
                && m == Moved(n, up, |ran|) && Valid(m) && InOrder(names, n, up, ran)
                && (failAt.None? ==> (count > 0 && |ran| == count) || NextName(names, m, up).None?)
      ensures !TellsDirection(LogOf(old(state))) && |ran| > 0 ==> NextName(names, n, up) != Some(ran[0])
    {
      var migrations := if up then names else Reversed(names);
      var index := StartIndex(migrations, up, n);
      ran := RunFrom(migrations, index, up, count, failAt, now);
      m := n;
      if TellsDirection(LogOf(old(state))) {
        ItsTurns(names, up, index, n, ran);
        m := Moved(n, up, |ran|);
        if ran != [] {
          RunIsPrefix(names, old(state), n, up, ran, LogOf(state), now);
        }
      } else if ran != [] {
        WrongStart(names, n, up, index);
      }
    }

    /** From one place in the list on. */
    method RunFrom(migrations: seq<string>, index: nat, up: bool, count: nat, failAt: Option<nat>, now: nat -> nat) returns (ran: seq<string>)
      requires index <= |migrations|
      modifies this
      ensures index + |ran| <= |migrations| && ran == migrations[index..index + |ran|]
      ensures Extends(LogOf(old(state)), LogOf(state), ran, up, now)
      ensures state == if ran == [] then old(state) else Some(Stored(ran[|ran| - 1], LogOf(state)))
      ensures count > 0 ==> |ran| <= count
      ensures failAt.None? ==> (count > 0 && |ran| == count) || index + |ran| == |migrations|
    {
      ran := [];
      var log := LogOf(state);
      for i := index to |migrations|
        invariant |ran| == i - index && ran == migrations[index..i]
        invariant log == LogOf(state) && Extends(LogOf(old(state)), log, ran, up, now)
        invariant state == if ran == [] then old(state) else Some(Stored(ran[|ran| - 1], log))
        invariant count > 0 ==> |ran| <= count
      {
        if (count > 0 && count == |ran|) || failAt == Some(|ran|) {
          return;
        }
        ExtendsOne(LogOf(old(state)), log, ran, migrations[i], up, now);
        log := log + [Entry(migrations[i], up, now(|ran|))];
        ran := ran + [migrations[i]];
        state := Some(Stored(migrations[i], log));
      }
    }
  }

  /** The log has one more entry for each migration run, in order. */
  ghost predicate Extends(before: seq<Entry>, log: seq<Entry>, ran: seq<string>, up: bool, now: nat -> nat) {
    && |log| == |before| + |ran| && before <= log
    && forall k :: 0 <= k < |ran| ==> log[|before| + k] == Entry(ran[k], up, now(k))
  }

  lemma ExtendsOne(before: seq<Entry>, log: seq<Entry>, ran: seq<string>, name: string, up: bool, now: nat -> nat)
    requires Extends(before, log, ran, up, now)
    ensures Extends(before, log + [Entry(name, up, now(|ran|))], ran + [name], up, now)
  {
  }

  /** Each migration run is the next one in its direction. */
  ghost predicate InOrder(names: seq<string>, n: nat, up: bool, ran: seq<string>) {
    forall k :: 0 <= k < |ran| ==> 0 <= Moved(n, up, k) <= |names| && NextName(names, Moved(n, up, k), up) == Some(ran[k])
  }

  /** A stretch of the list is a run in order. */
  lemma ItsTurns(names: seq<string>, up: bool, index: nat, n: nat, ran: seq<string>)
    requires n <= |names| && index == if up then n else |names| - n
    requires index + |ran| <= |names| && ran == (if up then names else Reversed(names))[index..index + |ran|]
    ensures InOrder(names, n, up, ran) && Moved(n, up, |ran|) >= 0
    ensures index + |ran| == |names| ==> NextName(names, Moved(n, up, |ran|), up).None?
  {
    var migrations := if up then names else Reversed(names);
    forall k | 0 <= k < |ran| ensures NextName(names, Moved(n, up, k), up) == Some(ran[k]) {
      assert ran[k] == migrations[index + k];
    }
  }

  /** A run in order leaves a prefix applied. */
  lemma {:induction false} RunIsPrefix(names: seq<string>, start: Option<Stored>, n: nat, up: bool, ran: seq<string>, log: seq<Entry>, now: nat -> nat)
    requires Distinct(names) && IsPrefix(names, start, n) && ran != []
    requires InOrder(names, n, up, ran) && Extends(LogOf(start), log, ran, up, now)
    ensures Moved(n, up, |ran|) >= 0 && IsPrefix(names, Some(Stored(ran[|ran| - 1], log)), Moved(n, up, |ran|))
    decreases |ran|
  {
    var k := |ran| - 1;
    var init, before, e := ran[..k], log[..|log| - 1], Entry(ran[k], up, now(k));
    InOrderInit(names, n, up, ran);
    LastOfRun(LogOf(start), log, ran, up, now);
    if k == 0 {
      SavedIsPrefix(names, start, n, e);
    } else {
      RunIsPrefix(names, start, n, up, init, before, now);
      SavedIsPrefix(names, Some(Stored(init[k - 1], before)), Moved(n, up, k), e);
    }
  }

  lemma InOrderInit(names: seq<string>, n: nat, up: bool, ran: seq<string>)
    requires InOrder(names, n, up, ran) && ran != []
    ensures var k := |ran| - 1;
            InOrder(names, n, up, ran[..k]) && 0 <= Moved(n, up, k) <= |names| && NextName(names, Moved(n, up, k), up) == Some(ran[k])
  {
  }

  lemma LastOfRun(start: seq<Entry>, log: seq<Entry>, ran: seq<string>, up: bool, now: nat -> nat)
    requires Extends(start, log, ran, up, now) && ran != []
    ensures var k, before := |ran| - 1, log[..|log| - 1];
            && log == before + [Entry(ran[k], up, now(k))] && Extends(start, before, ran[..k], up, now)
            && (k == 0 ==> before == start)
  {
    assert log[|start| + (|ran| - 1)] == Entry(ran[|ran| - 1], up, now(|ran| - 1));
  }

  /** The place of the last run in the list, whichever way that is read. */
  lemma LastRunIsListed(names: seq<string>, lastRun: string, lastUp: bool, n: nat, up: bool, found: int)
    requires Distinct(names) && StandsAt(names, lastRun, lastUp, n)
    requires var migrations := if up then names else Reversed(names);
             if found == -1 then lastRun !in migrations else 0 <= found < |names| && migrations[found] == lastRun
    ensures found == var at := if lastUp then n - 1 else n; if up then at else |names| - 1 - at
  {
    var at := if lastUp then n - 1 else n;
    assert names[at] == lastRun && Reversed(names)[|names| - 1 - at] == lastRun;
  }

  /** One place off is another migration. */
  lemma WrongStart(names: seq<string>, n: nat, up: bool, index: nat)
    requires Distinct(names) && n <= |names| && index < |names| && index != (if up then n else |names| - n)
    ensures NextName(names, n, up) != Some((if up then names else Reversed(names))[index])
  {
  }

  lemma {:induction false} PrefixSize(names: seq<string>, n: nat)
    requires Distinct(names) && n <= |names|
    ensures |Prefix(names, n)| == n
  {
    if n > 0 {
      PrefixSize(names, n - 1);
      NotInPrefix(names, n - 1, n - 1);
    }
  }

  lemma {:induction false} NotInPrefix(names: seq<string>, n: nat, i: nat)
    requires Distinct(names) && n <= i < |names|
    ensures names[i] !in Prefix(names, n)
  {
    if n > 0 {
      NotInPrefix(names, n - 1, i);
    }
  }

  /** The store tells how many migrations are applied. */
  lemma PrefixIsUnique(names: seq<string>, state: Option<Stored>, n: nat, m: nat)
    requires Distinct(names) && IsPrefix(names, state, n) && IsPrefix(names, state, m)
    ensures n == m
  {
    NothingApplied(names, state, n);
    NothingApplied(names, state, m);
    PrefixSize(names, n);
    PrefixSize(names, m);
  }

  // ----- any sequence of runs -----

  /** What one run of the runner did. */
  datatype Ran = Ran(up: bool, names: seq<string>, now: nat -> nat)

  /** The run went on from where it found the store, as `Agent.Run` does when the log tells the direction. */
  ghost predicate WentOn(names: seq<string>, before: Option<Stored>, run: Ran, after: Option<Stored>) {
    && (exists k: nat :: IsPrefix(names, before, k) && InOrder(names, k, run.up, run.names))
    && Extends(LogOf(before), LogOf(after), run.names, run.up, run.now)
    && after == if run.names == [] then before else Some(Stored(run.names[|run.names| - 1], LogOf(after)))
  }

  /** Each run begins with the store the one before it left. */
  ghost predicate AllWentOn(names: seq<string>, states: seq<Option<Stored>>, runs: seq<Ran>)
    requires |states| == |runs| + 1
  {
    forall i {:trigger runs[i]} :: 0 <= i < |runs| ==> WentOn(names, states[i], runs[i], states[i + 1])
  }

  /** How many more migrations were run upwards than downwards. */
  function Net(runs: seq<Ran>): int {
    if runs == [] then 0
    else
      var last := runs[|runs| - 1];
      Net(runs[..|runs| - 1]) + if last.up then |last.names| else -|last.names|
  }

  lemma OneRunMoves(names: seq<string>, before: Option<Stored>, run: Ran, after: Option<Stored>, n: nat)
    requires Distinct(names) && IsPrefix(names, before, n) && WentOn(names, before, run, after)
    ensures 0 <= Moved(n, run.up, |run.names|) && IsPrefix(names, after, Moved(n, run.up, |run.names|))
  {
    var k: nat :| IsPrefix(names, before, k) && InOrder(names, k, run.up, run.names);
    PrefixIsUnique(names, before, n, k);
    if run.names != [] {
      RunIsPrefix(names, before, n, run.up, run.names, LogOf(after), run.now);
    }
  }

  lemma NetOfOneMore(runs: seq<Ran>, j: nat)
    requires j < |runs|
    ensures Net(runs[..j + 1]) == Net(runs[..j]) + if runs[j].up then |runs[j].names| else -|runs[j].names|
  {
    assert runs[..j + 1][..j] == runs[..j];
  }

  lemma {:induction false} RunsMove(names: seq<string>, states: seq<Option<Stored>>, runs: seq<Ran>, n: nat, j: nat) returns (m: nat)
    requires Distinct(names) && |states| == |runs| + 1 && IsPrefix(names, states[0], n) && j <= |runs|
    requires AllWentOn(names, states, runs)
    ensures m == n + Net(runs[..j]) && IsPrefix(names, states[j], m)
    decreases j
  {
    m := n;
    if j > 0 {
      var k := j - 1;
      var at := RunsMove(names, states, runs, n, k);
      var run := runs[k];
      assert WentOn(names, states[k], run, states[k + 1]);
      OneRunMoves(names, states[k], run, states[k + 1], at);
      NetOfOneMore(runs, k);
      m := Moved(at, run.up, |run.names|);
    }
  }

  /** However many runs, whichever way and whenever: what is applied at the end is the prefix of as many
      migrations more as were run upwards than downwards, and the store stands there. */
  lemma RunsCompose(names: seq<string>, states: seq<Option<Stored>>, runs: seq<Ran>, n: nat)
    requires Distinct(names) && |states| == |runs| + 1 && IsPrefix(names, states[0], n)
    requires AllWentOn(names, states, runs)
    ensures 0 <= n + Net(runs) <= |names| && IsPrefix(names, states[|runs|], n + Net(runs))
    ensures Applied(LogOf(states[|runs|])) == Prefix(names, n + Net(runs))
  {
    var m := RunsMove(names, states, runs, n, |runs|);
    assert runs[..|runs|] == runs;
    NothingApplied(names, states[|runs|], m);
  }

  /** Two entries of one time are told apart by their order, but the later one is not the one found:
      right after an up and a down of one migration in the same instant, it still counts as applied. */
  method SameInstantIsMisread() returns (up: bool)
    ensures var log := [Entry("a", true, 5), Entry("a", false, 5)]; up && !TellsDirection(log) && Applied(log) == {}
  {
    var log := [Entry("a", true, 5), Entry("a", false, 5)];
    assert IsLatest(log, Ending(log).name, 0);
    LatestDecides(log, 0);
    up := LastDirection(log);
    assert log[..1] == [Entry("a", true, 5)] && log[..1][..0] == [];
    assert Applied(log[..1]) == {"a"};
  }
}
