/** The upload gate: so many permits, a bounded queue, and permits handed over in arrival order. */
module Admission {

  datatype Limits = Limits(maxActive: nat, maxWaiting: nat)

  datatype Outcome = Granted | Saturated | TimedOut | Gone

  /**
   * Requests are numbered as they arrive. `armed` are the requests whose deadline and abort
   * listener are still set; `returned` the slots whose `released` flag is.
   */
  datatype Gate = Gate(
    active: int,
    queue: seq<nat>,
    arrivals: nat,
    armed: set<nat>,
    outcomes: map<nat, Outcome>,
    returned: set<nat>)

  datatype Event =
    | Acquire(alreadyGone: bool)
    | Release(r: nat)
    | Abort(r: nat)
    | Deadline(r: nat)

  function Dropped(queue: seq<nat>, r: nat): seq<nat> {
    if queue == [] then []
    else if queue[0] == r then queue[1..]
    else [queue[0]] + Dropped(queue[1..], r)
  }

  function Settle(g: Gate, r: nat, outcome: Outcome): Gate {
    g.(outcomes := g.outcomes[r := outcome])
  }

  function Acquired(limits: Limits, g: Gate, alreadyGone: bool): Gate {
    var r := g.arrivals;
    var g1 := g.(arrivals := r + 1);
    if alreadyGone then Settle(g1, r, Gone)
    else if g.active < limits.maxActive then Settle(g1.(active := g.active + 1), r, Granted)
    else if |g.queue| >= limits.maxWaiting then Settle(g1, r, Saturated)
    else g1.(queue := g.queue + [r], armed := g.armed + {r})
  }

  /** Called again, or with nobody waiting, it hands nothing over. */
  function Released(g: Gate, r: nat): Gate {
    if r in g.returned then g
    else
      var g1 := g.(returned := g.returned + {r});
      if g.queue == [] then g1.(active := g.active - 1)
      else Settle(g1.(queue := g.queue[1..], armed := g.armed - {g.queue[0]}), g.queue[0], Granted)
  }

  /** A deadline or an abort, if the request is still listening for one. */
  function GivenUp(g: Gate, r: nat, outcome: Outcome): Gate {
    if r !in g.armed then g
    else Settle(g.(armed := g.armed - {r}, queue := Dropped(g.queue, r)), r, outcome)
  }

  /** Only who was given a slot can release it. */
  predicate Possible(g: Gate, e: Event) {
    e.Release? ==> e.r in g.outcomes && g.outcomes[e.r].Granted?
  }

  function Apply(limits: Limits, g: Gate, e: Event): Gate {
    match e
    case Acquire(alreadyGone) => Acquired(limits, g, alreadyGone)
    case Release(r) => Released(g, r)
    case Abort(r) => GivenUp(g, r, Gone)
    case Deadline(r) => GivenUp(g, r, TimedOut)
  }

  const NewGate := Gate(0, [], 0, {}, map[], {})

  // ---------- What every state keeps ----------

  /** Slots given out and not yet given back. */
  function Holders(g: Gate): set<nat> {
    set r | r in g.outcomes && g.outcomes[r].Granted? && r !in g.returned
  }

  /** The permits in use are counted exactly, and never too many. */
  ghost predicate CountsPermits(limits: Limits, g: Gate) {
    g.active == |Holders(g)| <= limits.maxActive
  }

  /** The queue is bounded, and nobody waits while there is a permit. */
  ghost predicate WaitsOnlyWhenFull(limits: Limits, g: Gate) {
    |g.queue| <= limits.maxWaiting && (g.queue != [] ==> g.active == limits.maxActive)
  }

  /** Everyone who arrived either waits, with its listeners on, or has an answer; never both. */
  ghost predicate NobodyLost(g: Gate) {
    && (forall r :: r in g.armed <==> r in g.queue)
    && (forall r: nat :: r < g.arrivals <==> r in g.outcomes || r in g.queue)
    && (forall r :: r in g.queue ==> r !in g.outcomes)
    && (forall r :: r in g.returned ==> r in g.outcomes && g.outcomes[r].Granted?)
  }

  ghost predicate Ascending(queue: seq<nat>) {
    forall i, j :: 0 <= i < j < |queue| ==> queue[i] < queue[j]
  }

  lemma {:induction false} HeadIsLeast(queue: seq<nat>)
    requires Ascending(queue) && queue != []
    ensures Ascending(queue[1..])
    ensures forall w :: w in queue[1..] ==> queue[0] < w
    ensures forall w :: w in queue <==> w == queue[0] || w in queue[1..]
  {
    assert queue == [queue[0]] + queue[1..];
  }

  /** Waiters stand in arrival order, behind everyone who was given a slot. */
  ghost predicate InOrder(g: Gate) {
    && Ascending(g.queue)
    && (forall r, w :: r in g.outcomes && g.outcomes[r].Granted? && w in g.queue ==> r < w)
  }

  ghost predicate Inv(limits: Limits, g: Gate) {
    CountsPermits(limits, g) && WaitsOnlyWhenFull(limits, g) && NobodyLost(g) && InOrder(g)
  }

  lemma {:induction false} AcquireKeeps(limits: Limits, g: Gate, alreadyGone: bool)
    requires Inv(limits, g)
    ensures Inv(limits, Acquired(limits, g, alreadyGone))
  {
    var r := g.arrivals;
    assert r !in g.outcomes && r !in g.queue && r !in g.returned;
    if alreadyGone {
      AnsweredAtOnce(limits, g, Gone);
    } else if g.active < limits.maxActive {
      AnsweredAtOnce(limits, g, Granted);
    } else if |g.queue| >= limits.maxWaiting {
      AnsweredAtOnce(limits, g, Saturated);
    } else {
      JoinsQueue(limits, g);
    }
  }

  lemma {:induction false} AnsweredAtOnce(limits: Limits, g: Gate, outcome: Outcome)
    requires Inv(limits, g) && (outcome.Granted? ==> g.active < limits.maxActive)
    ensures Inv(limits, Settle(g.(arrivals := g.arrivals + 1,
                                  active := if outcome.Granted? then g.active + 1 else g.active), g.arrivals, outcome))
  {
    var r := g.arrivals;
    var g2 := Settle(g.(arrivals := r + 1, active := if outcome.Granted? then g.active + 1 else g.active), r, outcome);
    assert r !in g.outcomes && r !in g.queue && r !in g.returned;
    assert Holders(g2) == if outcome.Granted? then Holders(g) + {r} else Holders(g);
  }

  lemma {:induction false} JoinsQueue(limits: Limits, g: Gate)
    requires Inv(limits, g) && g.active >= limits.maxActive && |g.queue| < limits.maxWaiting
    ensures Inv(limits, g.(arrivals := g.arrivals + 1, queue := g.queue + [g.arrivals], armed := g.armed + {g.arrivals}))
  {
    var r := g.arrivals;
    var g2 := g.(arrivals := r + 1, queue := g.queue + [r], armed := g.armed + {r});
    assert Holders(g2) == Holders(g);
    forall x
      ensures x in g2.queue <==> x in g.queue || x == r
    {
      assert g2.queue[|g.queue|] == r;
    }
    LastInOrder(g, g2);
  }

  lemma {:induction false} LastInOrder(g: Gate, g2: Gate)
    requires InOrder(g) && NobodyLost(g)
    requires g2.outcomes == g.outcomes && g2.queue == g.queue + [g.arrivals]
    ensures InOrder(g2)
  {
    forall i | 0 <= i < |g.queue|
      ensures g.queue[i] < g.arrivals
    {
      assert g.queue[i] in g.queue;
    }
  }

  lemma {:induction false} ReleaseKeeps(limits: Limits, g: Gate, r: nat)
    requires Inv(limits, g) && Possible(g, Release(r))
    ensures Inv(limits, Released(g, r))
  {
    if r !in g.returned {
      if g.queue == [] {
        FreesPermit(limits, g, r);
      } else {
        HandsOver(limits, g, r);
      }
    }
  }

  lemma {:induction false} FreesPermit(limits: Limits, g: Gate, r: nat)
    requires Inv(limits, g) && Possible(g, Release(r)) && r !in g.returned && g.queue == []
    ensures Inv(limits, Released(g, r))
  {
    assert r in Holders(g);
    assert Holders(Released(g, r)) == Holders(g) - {r};
  }

  lemma {:induction false} HandsOver(limits: Limits, g: Gate, r: nat)
    requires Inv(limits, g) && Possible(g, Release(r)) && r !in g.returned && g.queue != []
    ensures Inv(limits, Released(g, r))
  {
    var next, g2 := g.queue[0], Released(g, r);
    assert next in g.queue && r < next && r in Holders(g);
    assert Holders(g2) == Holders(g) - {r} + {next};
    assert g.queue == [next] + g2.queue;
    HeadLeavesInOrder(g, g2, next);
    HeadIsAnswered(g, g2, r, next);
  }

  lemma {:induction false} HeadIsAnswered(g: Gate, g2: Gate, r: nat, next: nat)
    requires NobodyLost(g) && InOrder(g) && InOrder(g2) && g.queue == [next] + g2.queue
    requires g2.outcomes == g.outcomes[next := Granted] && g2.armed == g.armed - {next} && g2.arrivals == g.arrivals
    requires g2.returned == g.returned + {r} && r in g.outcomes && g.outcomes[r].Granted?
    ensures NobodyLost(g2)
  {
    assert next !in g2.queue;
    assert forall x :: x in g.queue <==> x == next || x in g2.queue;
  }

  lemma {:induction false} HeadLeavesInOrder(g: Gate, g2: Gate, next: nat)
    requires InOrder(g) && g.queue == [next] + g2.queue && g2.outcomes == g.outcomes[next := Granted]
    ensures InOrder(g2)
  {
    HeadIsLeast(g.queue);
    assert g.queue[1..] == g2.queue;
  }

  lemma {:induction false} HeadGoesFirst(head: nat, rest: seq<nat>)
    requires Ascending(rest) && forall w :: w in rest ==> head < w
    ensures Ascending([head] + rest)
    ensures forall w :: w in [head] + rest <==> w == head || w in rest
  {
    forall k | 0 <= k < |rest|
      ensures head < rest[k]
    {
      assert rest[k] in rest;
    }
  }

  lemma {:induction false} DroppedLeaves(queue: seq<nat>, r: nat)
    requires Ascending(queue)
    ensures var d := Dropped(queue, r);
            && |d| <= |queue|
            && Ascending(d)
            && (forall w :: w in d <==> w in queue && w != r)
  {
    if queue != [] {
      HeadIsLeast(queue);
      if queue[0] != r {
        DroppedLeaves(queue[1..], r);
        HeadGoesFirst(queue[0], Dropped(queue[1..], r));
      }
    }
  }

  lemma {:induction false} GiveUpKeeps(limits: Limits, g: Gate, r: nat, outcome: Outcome)
    requires Inv(limits, g) && !outcome.Granted?
    ensures Inv(limits, GivenUp(g, r, outcome))
  {
    DroppedLeaves(g.queue, r);
    var g2 := GivenUp(g, r, outcome);
    assert Holders(g2) == Holders(g);
  }

  lemma {:induction false} ApplyKeeps(limits: Limits, g: Gate, e: Event)
    requires Inv(limits, g) && Possible(g, e)
    ensures Inv(limits, Apply(limits, g, e))
  {
    match e
    case Acquire(alreadyGone) => AcquireKeeps(limits, g, alreadyGone);
    case Release(r) => ReleaseKeeps(limits, g, r);
    case Abort(r) => GiveUpKeeps(limits, g, r, Gone);
    case Deadline(r) => GiveUpKeeps(limits, g, r, TimedOut);
  }

  // ---------- Over every run ----------

  ghost predicate IsRun(limits: Limits, run: seq<Gate>, events: seq<Event>) {
    && limits.maxActive >= 1
    && |run| == |events| + 1 && run[0] == NewGate
    && (forall i :: 0 <= i < |events| ==> Possible(run[i], events[i]) && run[i + 1] == Apply(limits, run[i], events[i]))
  }

  lemma {:induction false} RunInv(limits: Limits, run: seq<Gate>, events: seq<Event>, i: nat)
    requires IsRun(limits, run, events) && i < |run|
    ensures Inv(limits, run[i])
    decreases i
  {
    if i > 0 {
      RunInv(limits, run, events, i - 1);
      var e := events[i - 1];
      ApplyKeeps(limits, run[i - 1], e);
    } else {
      assert Holders(run[0]) == {};
    }
  }

  /**
   * In every reachable state: permits in use are the slots given out and not given back, at
   * most `maxActive`; at most `maxWaiting` wait, and only while every permit is out.
   */
  lemma {:induction false} PermitsAreConserved(limits: Limits, run: seq<Gate>, events: seq<Event>, i: nat)
    requires IsRun(limits, run, events) && i < |run|
    ensures run[i].active == |Holders(run[i])| <= limits.maxActive
    ensures |run[i].queue| <= limits.maxWaiting
    ensures run[i].queue != [] ==> |Holders(run[i])| == limits.maxActive
  {
    RunInv(limits, run, events, i);
  }

  /** A request is answered at most once, and everyone without an answer is still in the queue. */
  lemma {:induction false} AnswersAreFinal(limits: Limits, run: seq<Gate>, events: seq<Event>, i: nat, j: nat, r: nat)
    requires IsRun(limits, run, events) && i <= j < |run|
    ensures r in run[i].outcomes ==> r in run[j].outcomes && run[j].outcomes[r] == run[i].outcomes[r]
    ensures r < run[i].arrivals ==> r < run[j].arrivals && (r !in run[j].outcomes ==> r in run[j].queue)
    decreases j - i
  {
    RunInv(limits, run, events, j);
    if i < j {
      AnswersAreFinal(limits, run, events, i, j - 1, r);
      RunInv(limits, run, events, j - 1);
      var e := events[j - 1];
      AnswerKept(limits, run[j - 1], e, r);
    }
  }

  lemma {:induction false} AnswerKept(limits: Limits, g: Gate, e: Event, r: nat)
    requires Inv(limits, g) && Possible(g, e)
    ensures var g2 := Apply(limits, g, e);
            && g.arrivals <= g2.arrivals
            && (r in g.outcomes ==> r in g2.outcomes && g2.outcomes[r] == g.outcomes[r])
  {
    assert g.queue != [] ==> g.queue[0] in g.queue;
    assert r in g.outcomes ==> r < g.arrivals;
  }

  /** No overtaking: whoever has a slot, everybody who arrived before it had an answer by then. */
  lemma {:induction false} GrantedInArrivalOrder(limits: Limits, run: seq<Gate>, events: seq<Event>, i: nat, early: nat, late: nat)
    requires IsRun(limits, run, events) && i < |run| && early < late
    requires late in run[i].outcomes && run[i].outcomes[late].Granted?
    ensures early in run[i].outcomes
  {
    RunInv(limits, run, events, i);
    assert late < run[i].arrivals;
  }

  /** A slot's second release changes nothing. */
  lemma {:induction false} ReleaseIsIdempotent(limits: Limits, g: Gate, r: nat)
    requires Inv(limits, g) && Possible(g, Release(r))
    ensures var once := Apply(limits, g, Release(r));
            Possible(once, Release(r)) && Apply(limits, once, Release(r)) == once
  {
    AnswerKept(limits, g, Release(r), r);
  }

  // ---------- The gate ----------

  class AdmissionGate {
    const limits: Limits
    var active: int
    var queue: seq<nat>
    var arrivals: nat
    var armed: set<nat>
    var outcomes: map<nat, Outcome>
    var returned: set<nat>

    ghost function State(): Gate
      reads this
    {
      Gate(active, queue, arrivals, armed, outcomes, returned)
    }

    ghost predicate Valid()
      reads this
    {
      limits.maxActive >= 1 && Inv(limits, State())
    }

    /** Options outside their range are refused before there is a gate. */
    constructor (limits: Limits)
      requires limits.maxActive >= 1
      ensures Valid() && this.limits == limits && State() == NewGate
    {
      this.limits := limits;
      active, queue, arrivals := 0, [], 0;
      armed, outcomes, returned := {}, map[], {};
      new;
      assert Holders(State()) == {};
    }

    /** Answers one request. Asking it of an answered one would be a second settling. */
    method Answer(r: nat, outcome: Outcome)
      requires r !in outcomes
      modifies this`outcomes
      ensures outcomes == old(outcomes)[r := outcome]
    {
      outcomes := outcomes[r := outcome];
    }

    /** The request no longer hears of its deadline or of an abort. Where it waits is left alone. */
    method Disarm(r: nat)
      modifies this`armed
      ensures armed == old(armed) - {r}
    {
      armed := armed - {r};
    }

    method Acquire(alreadyGone: bool) returns (r: nat)
      requires Valid()
      modifies this
      ensures Valid() && State() == Acquired(limits, old(State()), alreadyGone) && r == old(arrivals)
    {
      AcquireKeeps(limits, State(), alreadyGone);
      r := arrivals;
      arrivals := arrivals + 1;
      if alreadyGone {
        Answer(r, Gone);
        return;
      }
      if active < limits.maxActive {
        active := active + 1;
        Answer(r, Granted);
        return;
      }
      if |queue| >= limits.maxWaiting {
        Answer(r, Saturated);
        return;
      }
      armed := armed + {r};
      queue := queue + [r];
    }

    method Release(r: nat)
      requires Valid() && r in outcomes && outcomes[r].Granted?
      modifies this
      ensures Valid() && State() == Released(old(State()), r)
    {
      ReleaseKeeps(limits, State(), r);
      if r in returned {
        return;
      }
      returned := returned + {r};
      if queue != [] {
        var next := queue[0];
        assert next in queue;
        queue := queue[1..];
        Disarm(next);
        Answer(next, Granted);
        return;
      }
      active := active - 1;
    }

    /** The deadline's and the abort listener's handler, which is off once a request is answered. */
    method GiveUp(r: nat, outcome: Outcome)
      requires Valid() && !outcome.Granted?
      modifies this
      ensures Valid() && State() == GivenUp(old(State()), r, outcome)
    {
      GiveUpKeeps(limits, State(), r, outcome);
      if r !in armed {
        return;
      }
      Disarm(r);
      RemoveFromQueue(r);
      Answer(r, outcome);
    }

    method RemoveFromQueue(r: nat)
      modifies this`queue
      ensures queue == Dropped(old(queue), r)
    {
      var index := 0;
      while index < |queue| && queue[index] != r
        invariant index <= |queue| && queue == old(queue)
        invariant Dropped(queue, r) == queue[..index] + Dropped(queue[index..], r)
      {
        assert queue[index..][1..] == queue[index + 1..];
        index := index + 1;
      }
      if index < |queue| {
        assert queue[index..][1..] == queue[index + 1..];
        queue := queue[..index] + queue[index + 1..];
      } else {
        assert queue[..index] == queue;
      }
    }
  }
}
