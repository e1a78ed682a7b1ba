// The compare-exchange counter of privilege-drop guards, over any number of
// threads and interleavings.

module GuardCounter {
  type Guard = nat

  /** The life of one guard. Between a load and its exchange the dropping thread
      remembers the value it `seen`; `at` is how many updates had happened then,
      `start` how many when it began, and `failures` its failed exchanges. */
  datatype Life =
    | Untaken
    | Held
    | Dropping(seen: nat, at: nat, start: nat, failures: nat)
    | Dropped

  /** The counter, the successful updates so far, and every guard. */
  datatype State = State(counter: nat, updates: nat, guards: map<Guard, Life>)

  datatype Action = Take | Load | Exchange

  datatype Event = Event(guard: Guard, action: Action)

  predicate Enabled(s: State, e: Event) {
    && e.guard in s.guards
    && match e.action
       case Take => s.guards[e.guard].Untaken?
       case Load => s.guards[e.guard].Held?
       case Exchange => s.guards[e.guard].Dropping?
  }

  function SaturatingSub(n: nat, m: nat): nat { if n < m then 0 else n - m }

  function Do(s: State, e: Event): State
    requires Enabled(s, e)
  {
    var life := s.guards[e.guard];
    match e.action
    case Take => State(s.counter + 1, s.updates + 1, s.guards[e.guard := Held])
    case Load => s.(guards := s.guards[e.guard := Dropping(s.counter, s.updates, s.updates, 0)])
    case Exchange =>
      if s.counter == life.seen then
        State(SaturatingSub(life.seen, 1), s.updates + 1, s.guards[e.guard := Dropped])
      else
        s.(guards := s.guards[e.guard := Dropping(s.counter, s.updates, life.start, life.failures + 1)])
  }

  /** The guards that were taken and whose decrement has not succeeded yet. */
  function Outstanding(s: State): set<Guard> {
    set g | g in s.guards && (s.guards[g].Held? || s.guards[g].Dropping?)
  }

  /** The guards whose decrement has succeeded. */
  function DroppedGuards(s: State): set<Guard> {
    set g | g in s.guards && s.guards[g].Dropped?
  }

  predicate Init(s: State) {
    s.counter == 0 && s.updates == 0 && forall g :: g in s.guards ==> s.guards[g].Untaken?
  }

  /** A value seen is current unless an update came in between, and every failed
      exchange moved on to a later update. */
  predicate LifeSound(s: State, l: Life) {
    l.Dropping? ==>
      && 0 < l.seen && l.start + l.failures <= l.at <= s.updates
      && (l.at == s.updates ==> l.seen == s.counter)
  }

  ghost predicate Inv(s: State) {
    && s.counter == |Outstanding(s)|
    && s.updates == |Outstanding(s)| + 2 * |DroppedGuards(s)|
    && forall g :: g in s.guards ==> LifeSound(s, s.guards[g])
  }

  lemma {:induction false} StepKeepsInv(s: State, e: Event)
    requires Inv(s) && Enabled(s, e)
    ensures Inv(Do(s, e))
  {
    var s', g := Do(s, e), e.guard;
    assert LifeSound(s, s.guards[g]);
    if e.action.Take? {
      assert Outstanding(s') == Outstanding(s) + {g} && DroppedGuards(s') == DroppedGuards(s);
    } else {
      assert g in Outstanding(s);
      if s'.guards[g].Dropped? {
        assert Outstanding(s') == Outstanding(s) - {g} && DroppedGuards(s') == DroppedGuards(s) + {g};
      } else {
        assert Outstanding(s') == Outstanding(s) && DroppedGuards(s') == DroppedGuards(s);
      }
    }
  }

  ghost predicate Runs(s: State, es: seq<Event>, s': State)
    decreases |es|
  {
    if es == [] then s' == s else Enabled(s, es[0]) && Runs(Do(s, es[0]), es[1..], s')
  }

  lemma {:induction false} RunsKeepInv(s: State, es: seq<Event>, s': State)
    requires Inv(s) && Runs(s, es, s')
    ensures Inv(s')
    decreases |es|
  {
    if es != [] {
      StepKeepsInv(s, es[0]);
      RunsKeepInv(Do(s, es[0]), es[1..], s');
    }
  }

  lemma {:induction false} ReachedInv(init: State, es: seq<Event>, s: State)
    requires Init(init) && Runs(init, es, s)
    ensures Inv(s)
  {
    assert Outstanding(init) == {} == DroppedGuards(init);
    RunsKeepInv(init, es, s);
  }

  /** In every interleaving the counter is the number of outstanding guards, so it is
      positive exactly while there is one. */
  lemma {:induction false} CounterCountsGuards(init: State, es: seq<Event>, s: State)
    requires Init(init) && Runs(init, es, s)
    ensures s.counter == |Outstanding(s)|
    ensures s.counter > 0 <==> exists g :: g in Outstanding(s)
  {
    ReachedInv(init, es, s);
    if g :| g in Outstanding(s) {
      assert Outstanding(s) != {};
    }
  }

  /** No exchange ever works from a zero count, so no decrement is lost to saturation. */
  lemma {:induction false} NeverDecrementsZero(init: State, es: seq<Event>, s: State, g: Guard)
    requires Init(init) && Runs(init, es, s) && g in s.guards && s.guards[g].Dropping?
    ensures s.guards[g].seen > 0
    ensures s.counter == s.guards[g].seen ==> Do(s, Event(g, Exchange)).counter == s.counter - 1
  {
    ReachedInv(init, es, s);
    assert LifeSound(s, s.guards[g]);
  }

  /** How many events of `es`, run from `s`, updated the counter for another guard than `g`. */
  ghost function UpdatesByOthers(s: State, es: seq<Event>, s': State, g: Guard): nat
    requires Runs(s, es, s')
    decreases |es|
  {
    if es == [] then 0
    else
      var mid := Do(s, es[0]);
      (if es[0].guard != g then mid.updates - s.updates else 0) + UpdatesByOthers(mid, es[1..], s', g)
  }

  /** How many exchanges of `es` are those of guard `g`. */
  function Exchanges(es: seq<Event>, g: Guard): nat {
    if es == [] then 0 else (if es[0] == Event(g, Exchange) then 1 else 0) + Exchanges(es[1..], g)
  }

  /** Each exchange of a drop that goes on has failed, and is paid for by another thread's
      successful update during that drop. */
  lemma {:induction false} FailuresArePaidFor(s: State, es: seq<Event>, s': State, g: Guard)
    requires Inv(s) && Runs(s, es, s')
    requires g in s.guards && s.guards[g].Dropping? && g in s'.guards && s'.guards[g].Dropping?
    ensures s'.guards[g].at - s.guards[g].at >= s'.guards[g].failures - s.guards[g].failures
    ensures s'.updates - s.updates == UpdatesByOthers(s, es, s', g)
    ensures s'.guards[g].failures == s.guards[g].failures + Exchanges(es, g)
    ensures s'.guards[g].failures <= s.guards[g].failures + (s.updates - s.guards[g].at) + UpdatesByOthers(s, es, s', g)
    decreases |es|
  {
    if es != [] {
      var mid := Do(s, es[0]);
      StepKeepsInv(s, es[0]);
      assert LifeSound(s, s.guards[g]);
      if mid.guards[g].Dropping? {
        FailuresArePaidFor(mid, es[1..], s', g);
        RunsKeepInv(mid, es[1..], s');
      } else {
        DroppedStays(mid, es[1..], s', g);
      }
    }
    RunsKeepInv(s, es, s');
    assert LifeSound(s', s'.guards[g]);
  }

  lemma {:induction false} DroppedStays(s: State, es: seq<Event>, s': State, g: Guard)
    requires Runs(s, es, s') && g in s.guards && s.guards[g].Dropped?
    ensures g in s'.guards && s'.guards[g].Dropped?
    decreases |es|
  {
    if es != [] {
      DroppedStays(Do(s, es[0]), es[1..], s', g);
    }
  }
}
