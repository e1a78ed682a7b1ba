// What the protocol's steps and runs make of one entry of the binary cache.

module InstallCache {
  import opened InstallProgress
  import opened InstallProtocol
  import opened InstallSafety
  import opened Options

  // ----- Who finishes an entry, and with what -----

  /** Only a population with no file left to copy finishes an entry. */
  lemma {:induction false} OnlyTheLastFileFinishes(c: Config, s: State, e: Event, v: Version)
    requires Enabled(c, s, e) && EntryOf(Do(c, s, e).disk, v).finished > EntryOf(s.disk, v).finished
    ensures var ph := s.procs[e.pid].phase; ph.Populating? && ph.version == v && ph.left == 0
    ensures EntryOf(Do(c, s, e).disk, v) == CacheEntry(EntryOf(s.disk, v).writes + 1, true, EntryOf(s.disk, v).finished + 1)
  {}

  /** A marker comes with a population that writes it at its end, or copies one along. */
  lemma {:induction false} MarkerComesFrom(c: Config, s: State, e: Event, v: Version)
    requires Enabled(c, s, e)
    ensures EntryOf(Do(c, s, e).disk, v).complete <==>
      || EntryOf(s.disk, v).complete
      || (&& s.procs[e.pid].phase.Populating? && s.procs[e.pid].phase.version == v && e.action.Populate?
          && (e.action.populate == PopulateFile(true) || e.action.populate.WriteMarker?))
  {}

  /** A marker, once written, stays, and writes only add up. */
  lemma {:induction false} MarkerStays(c: Config, s: State, es: seq<Event>, s': State, v: Version)
    requires Runs(c, s, es, s')
    ensures EntryOf(s.disk, v).complete ==> EntryOf(s'.disk, v).complete
    ensures EntryOf(s.disk, v).writes <= EntryOf(s'.disk, v).writes
    decreases |es|
  {
    if es != [] {
      DiskChange(c, s, es[0].pid, es[0].action);
      MarkerStays(c, Do(c, s, es[0]), es[1..], s', v);
    }
  }

  predicate IsFileCopied(a: Action) {
    a.Populate? && a.populate.PopulateFile?
  }

  /** All that `p` does in `es` is to copy files into the entry. */
  ghost predicate OnlyPopulates(es: seq<Event>, p: Pid) {
    forall i :: 0 <= i < |es| && es[i].pid == p ==> IsFileCopied(es[i].action)
  }

  /** While `p` populates an entry, each step of `p` copies one file, and nobody else writes. */
  lemma {:induction false} PopulationStep(c: Config, s: State, e: Event, p: Pid)
    requires Inv(c, s) && Enabled(c, s, e) && p in s.procs && s.procs[p].phase.Populating?
    requires e.pid == p ==> IsFileCopied(e.action)
    ensures var ph, s' := s.procs[p].phase, Do(c, s, e);
      && p in s'.procs && s'.procs[p].phase.Populating? && s'.procs[p].phase.version == ph.version
      && EntryOf(s'.disk, ph.version).writes + s'.procs[p].phase.left == EntryOf(s.disk, ph.version).writes + ph.left
      && EntryOf(s'.disk, ph.version).finished == EntryOf(s.disk, ph.version).finished
  {
    if e.pid != p {
      assert !Clash(s.procs[e.pid].held, s.procs[p].held);
      DiskChange(c, s, e.pid, e.action);
    }
  }

  lemma {:induction false} PopulationAddsUp(c: Config, s: State, es: seq<Event>, s': State, p: Pid)
    requires Inv(c, s) && Runs(c, s, es, s') && p in s.procs && s.procs[p].phase.Populating?
    requires OnlyPopulates(es, p)
    ensures var v := s.procs[p].phase.version;
      && p in s'.procs && s'.procs[p].phase.Populating? && s'.procs[p].phase.version == v
      && EntryOf(s'.disk, v).writes + s'.procs[p].phase.left == EntryOf(s.disk, v).writes + s.procs[p].phase.left
      && EntryOf(s'.disk, v).finished == EntryOf(s.disk, v).finished
    decreases |es|
  {
    if es != [] {
      PopulationStep(c, s, es[0], p);
      assert OnlyPopulates(es[1..], p);
      StepKeepsInv(c, s, es[0]);
      PopulationAddsUp(c, Do(c, s, es[0]), es[1..], s', p);
    }
  }

  ghost predicate Steps(c: Config, s: State, e: Event, s': State) {
    Enabled(c, s, e) && s' == Do(c, s, e)
  }

  lemma {:induction false} PopulationBegins(c: Config, s: State, p: Pid, n: nat, s': State)
    requires Inv(c, s) && Steps(c, s, Event(p, Populate(BeginPopulate(n))), s')
    ensures Inv(c, s')
    ensures p in s.procs && s.procs[p].phase.Recheck? && p in s'.procs && s'.procs[p].phase.Populating?
    ensures var v := s.procs[p].phase.version;
      && s'.procs[p].phase.version == v && s'.procs[p].phase.left == n
      && EntryOf(s'.disk, v) == EntryOf(s.disk, v) && !EntryOf(s.disk, v).complete && EntryOf(s.disk, v).finished == 0
  {
    StepKeepsInv(c, s, Event(p, Populate(BeginPopulate(n))));
    assert IsSoundEntry(c, EntryOf(s.disk, s.procs[p].phase.version));
  }

  lemma {:induction false} PopulationEnds(c: Config, s: State, p: Pid, extensions: nat, s': State)
    requires Steps(c, s, Event(p, Populate(WriteMarker(extensions))), s')
    ensures p in s.procs && s.procs[p].phase.Populating? && s.procs[p].phase.left == 0
    ensures var v := s.procs[p].phase.version;
      EntryOf(s'.disk, v) == CacheEntry(EntryOf(s.disk, v).writes + 1, true, EntryOf(s.disk, v).finished + 1)
  {}

  lemma {:induction false} PopulationOnTheWay(c: Config, s: State, p: Pid, n: nat, begun: State, es: seq<Event>, filled: State)
    requires Reachable(c, s) && Steps(c, s, Event(p, Populate(BeginPopulate(n))), begun)
    requires Runs(c, begun, es, filled) && OnlyPopulates(es, p)
    ensures p in s.procs && s.procs[p].phase.Recheck? && p in filled.procs && filled.procs[p].phase.Populating?
    ensures var v := s.procs[p].phase.version;
      && filled.procs[p].phase.version == v && !EntryOf(s.disk, v).complete
      && EntryOf(s.disk, v).finished == EntryOf(filled.disk, v).finished == 0
      && EntryOf(filled.disk, v).writes + filled.procs[p].phase.left == EntryOf(s.disk, v).writes + n
  {
    ReachableInv(c, s);
    PopulationBegins(c, s, p, n, begun);
    PopulationAddsUp(c, begun, es, filled, p);
  }

  /** A population of `n` files that writes its marker has found the entry unmarked and
      written to it exactly `n + 1` times, whatever all the others did meanwhile. */
  lemma {:induction false} PopulationWritesEveryFile(c: Config, s: State, p: Pid, n: nat, begun: State, es: seq<Event>,
                                                     filled: State, extensions: nat, s': State)
    requires Reachable(c, s) && Steps(c, s, Event(p, Populate(BeginPopulate(n))), begun)
    requires Runs(c, begun, es, filled) && OnlyPopulates(es, p)
    requires Steps(c, filled, Event(p, Populate(WriteMarker(extensions))), s')
    ensures p in s.procs && s.procs[p].phase.Recheck?
    ensures var v, before := s.procs[p].phase.version, EntryOf(s.disk, s.procs[p].phase.version);
      !before.complete && before.finished == 0 && EntryOf(s'.disk, v) == CacheEntry(before.writes + n + 1, true, 1)
  {
    PopulationOnTheWay(c, s, p, n, begun, es, filled);
    PopulationEnds(c, filled, p, extensions, s');
  }

  // ----- What the marker decides -----

  /** Under its lock on the entry a process goes by the marker alone: unless it fails, a
      reader copies exactly when the marker is there, and a writer populates exactly when
      it is not. */
  lemma {:induction false} MarkerDecides(c: Config, s: State, e: Event)
    requires Enabled(c, s, e) && !IsFault(e.action)
    ensures var ph, ph' := s.procs[e.pid].phase, Do(c, s, e).procs[e.pid].phase;
      && (ph.CheckHit? ==> if EntryOf(s.disk, ph.version).complete then ph'.Copying? else ph'.MissSetup?)
      && (ph.Recheck? ==> if EntryOf(s.disk, ph.version).complete then ph'.Hook? else ph'.Populating?)
      && (ph'.WaitShared? ==> EntryOf(s.disk, ph'.version).complete)
      && (ph'.WaitExclusive? ==> !EntryOf(s.disk, ph'.version).complete)
  {}

  // ----- Which locks exclude each other -----

  /** A lock can be taken exactly when nobody holds the same one, where readers of one
      entry do not exclude each other; a slot's lock is only ever taken where it is free. */
  lemma {:induction false} FreeIff(s: State, lock: Lock)
    ensures Free(s, lock) <==> forall q :: q in s.procs ==>
      match lock
      case Guard(r) => s.procs[q].held.guard != Some(r)
      case Slot => true
      case Setup(i) => s.procs[q].held.setup != Some(i)
      case Entry(v, false) => s.procs[q].held.entry != Some((v, true))
      case Entry(v, true) => s.procs[q].held.entry != Some((v, true)) && s.procs[q].held.entry != Some((v, false))
      case Archive(d) => s.procs[q].held.archive != Some(d)
  {
    forall q | q in s.procs && lock.Entry?
      ensures var e := s.procs[q].held.entry;
        Blocks(s.procs[q].held, lock) <==>
          e == Some((lock.version, true)) || (lock.exclusive && e == Some((lock.version, false)))
    {
      var e := s.procs[q].held.entry;
      if e.Some? && e.value.0 == lock.version {
        assert e == if e.value.1 then Some((lock.version, true)) else Some((lock.version, false));
      }
    }
  }
}
