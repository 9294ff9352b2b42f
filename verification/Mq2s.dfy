/** The queue from the socket thread to the workers: a mutex, a condition variable and any number
    of threads, each anywhere in `MQ2S_Push*` or `MQ2S_Pop`. */
module Mq2s {
  import opened Framing
  import opened Sums

  datatype Item =
    | Pack(uniqid: nat, pack: Pdu)
    | Connect(pack: Pdu)
    | Close(uniqid: nat)
    | Timer(timerid: nat)
    | Tick

  /** Where a thread is: outside, before the lock, inside a push, inside a pop. */
  datatype Pc =
    | Idle
    | WantPush(item: Item)
    | Pushing(item: Item)
    | Broadcasting
    | PushUnlocking
    | WantPop
    | Testing
    | Waiting
    | Woken
    | Taking
    | PopUnlocking(item: Item)

  datatype Owner = Free | HeldBy(thread: nat)

  datatype Taken = Taken(worker: nat, item: Item)

  /** The queue, the mutex, the threads, and the history: what was pushed and who popped what. */
  datatype State = State(queue: seq<Item>, owner: Owner, pcs: seq<Pc>, pushed: seq<Item>, popped: seq<Taken>)

  datatype Action =
    | CallPush(item: Item) | CallPop
    | Lock | PushBack | Broadcast | Test | SpuriousWakeup | PopFront | Unlock

  predicate Holds(pc: Pc) {
    pc.Pushing? || pc.Broadcasting? || pc.PushUnlocking? || pc.Testing? || pc.Taking? || pc.PopUnlocking?
  }

  /** `pthread_cond_broadcast`: everyone who waits will try to lock again. */
  function WakeAll(pcs: seq<Pc>): (r: seq<Pc>)
    ensures |r| == |pcs|
    ensures forall i | 0 <= i < |pcs| :: r[i] == if pcs[i].Waiting? then Woken else pcs[i]
  {
    seq(|pcs|, i requires 0 <= i < |pcs| => if pcs[i].Waiting? then Woken else pcs[i])
  }

  /** One step of thread `t`. */
  ghost predicate Step(s: State, t: nat, a: Action, s': State) {
    t < |s.pcs| &&
    var pc := s.pcs[t];
    match a
    case CallPush(item) =>
      pc.Idle? && s' == s.(pcs := s.pcs[t := WantPush(item)])
    case CallPop =>
      pc.Idle? && s' == s.(pcs := s.pcs[t := WantPop])
    case Lock =>
      s.owner.Free? && (pc.WantPush? || pc.WantPop? || pc.Woken?) &&
      s' == s.(owner := HeldBy(t), pcs := s.pcs[t := if pc.WantPush? then Pushing(pc.item) else Testing])
    case PushBack =>
      pc.Pushing? &&
      s' == s.(queue := s.queue + [pc.item], pushed := s.pushed + [pc.item], pcs := s.pcs[t := Broadcasting])
    case Broadcast =>
      pc.Broadcasting? && s' == s.(pcs := WakeAll(s.pcs)[t := PushUnlocking])
    case Test =>
      // waits as long as the queue is empty; the wait gives the mutex back
      pc.Testing? &&
      s' == if s.queue == [] then s.(owner := Free, pcs := s.pcs[t := Waiting]) else s.(pcs := s.pcs[t := Taking])
    case SpuriousWakeup =>
      pc.Waiting? && s' == s.(pcs := s.pcs[t := Woken])
    case PopFront =>
      pc.Taking? && s.queue != [] &&
      s' == s.(queue := s.queue[1..], popped := s.popped + [Taken(t, s.queue[0])],
               pcs := s.pcs[t := PopUnlocking(s.queue[0])])
    case Unlock =>
      (pc.PushUnlocking? || pc.PopUnlocking?) && s' == s.(owner := Free, pcs := s.pcs[t := Idle])
  }

  function Items(popped: seq<Taken>): (r: seq<Item>)
    ensures |r| == |popped| && forall i | 0 <= i < |popped| :: r[i] == popped[i].item
  {
    seq(|popped|, i requires 0 <= i < |popped| => popped[i].item)
  }

  ghost predicate Init(s: State) {
    s.queue == [] && s.owner.Free? && s.pushed == [] && s.popped == [] && forall t | 0 <= t < |s.pcs| :: s.pcs[t].Idle?
  }

  // ----- what holds in every run -----

  ghost predicate MutualExclusion(s: State) {
    && (s.owner.HeldBy? ==> s.owner.thread < |s.pcs|)
    && forall t | 0 <= t < |s.pcs| :: Holds(s.pcs[t]) <==> s.owner == HeldBy(t)
  }

  /** First in, first out, and every item to exactly one worker. */
  ghost predicate Fifo(s: State) {
    && s.pushed == Items(s.popped) + s.queue
    && forall t | 0 <= t < |s.pcs| && s.pcs[t].PopUnlocking? ::
      s.popped != [] && s.popped[|s.popped| - 1] == Taken(t, s.pcs[t].item)
  }

  ghost predicate NeverPopsEmpty(s: State) {
    forall t | 0 <= t < |s.pcs| && s.pcs[t].Taking? :: s.queue != []
  }

  /** While something is queued nobody waits un-notified, except between a push and its broadcast. */
  ghost predicate NoLostWakeup(s: State) {
    forall t | 0 <= t < |s.pcs| && s.pcs[t].Waiting? && s.queue != [] ::
      s.owner.HeldBy? && s.owner.thread < |s.pcs| && s.pcs[s.owner.thread].Broadcasting?
  }

  ghost predicate Safe(s: State) {
    MutualExclusion(s) && Fifo(s) && NeverPopsEmpty(s) && NoLostWakeup(s)
  }

  lemma StepKeepsMutualExclusion(s: State, t: nat, a: Action, s': State)
    requires MutualExclusion(s) && Step(s, t, a, s')
    ensures MutualExclusion(s')
  {
  }

  lemma StepKeepsFifo(s: State, t: nat, a: Action, s': State)
    requires MutualExclusion(s) && Fifo(s) && Step(s, t, a, s')
    ensures Fifo(s')
  {
    if a.PopFront? {
      assert Items(s'.popped) == Items(s.popped) + [s.queue[0]];
    }
    if a.PushBack? {
      assert s'.pushed == Items(s.popped) + (s.queue + [s.pcs[t].item]);
    }
  }

  lemma StepKeepsWakeups(s: State, t: nat, a: Action, s': State)
    requires MutualExclusion(s) && NeverPopsEmpty(s) && NoLostWakeup(s) && Step(s, t, a, s')
    ensures NeverPopsEmpty(s') && NoLostWakeup(s')
  {
  }

  /** A run: which thread does what next. */
  ghost predicate Run(states: seq<State>, threads: seq<nat>, actions: seq<Action>) {
    && |states| == |threads| + 1 == |actions| + 1
    && Init(states[0])
    && forall i | 0 <= i < |actions| :: Step(states[i], threads[i], actions[i], states[i + 1])
  }

  /** In every run of any threads: mutual exclusion, exactly-once delivery in order, no pop from an
      empty queue and no lost wake-up. */
  lemma {:induction false} EveryRunIsSafe(states: seq<State>, threads: seq<nat>, actions: seq<Action>, n: nat)
    requires Run(states, threads, actions) && n < |states|
    ensures Safe(states[n])
  {
    if n > 0 {
      hide Step, MutualExclusion, Fifo, NeverPopsEmpty, NoLostWakeup;
      EveryRunIsSafe(states, threads, actions, n - 1);
      var s, t, a, s' := states[n - 1], threads[n - 1], actions[n - 1], states[n];
      StepKeepsMutualExclusion(s, t, a, s');
      StepKeepsFifo(s, t, a, s');
      StepKeepsWakeups(s, t, a, s');
    }
  }

  // ----- no deadlock -----

  /** The steps that finish calls under way: no new calls and no spurious wake-ups. */
  predicate Finishing(a: Action) {
    !a.CallPush? && !a.CallPop? && !a.SpuriousWakeup?
  }

  ghost predicate Quiet(s: State) {
    forall t, a, s' | Finishing(a) :: !Step(s, t, a, s')
  }

  /** A thread that holds the mutex, or wants it while it is free, can go on. */
  lemma CanGoOn(s: State, t: nat)
    requires Safe(s) && t < |s.pcs|
    requires Holds(s.pcs[t]) || (s.owner.Free? && (s.pcs[t].WantPush? || s.pcs[t].WantPop? || s.pcs[t].Woken?))
    ensures !Quiet(s)
  {
    var pc := s.pcs[t];
    var (a, s') :=
      if pc.WantPush? || pc.WantPop? || pc.Woken? then
        (Lock, s.(owner := HeldBy(t), pcs := s.pcs[t := if pc.WantPush? then Pushing(pc.item) else Testing]))
      else if pc.Pushing? then
        (PushBack, s.(queue := s.queue + [pc.item], pushed := s.pushed + [pc.item], pcs := s.pcs[t := Broadcasting]))
      else if pc.Broadcasting? then
        (Broadcast, s.(pcs := WakeAll(s.pcs)[t := PushUnlocking]))
      else if pc.Testing? then
        (Test, if s.queue == [] then s.(owner := Free, pcs := s.pcs[t := Waiting]) else s.(pcs := s.pcs[t := Taking]))
      else if pc.Taking? then
        (PopFront, s.(queue := s.queue[1..], popped := s.popped + [Taken(t, s.queue[0])],
                      pcs := s.pcs[t := PopUnlocking(s.queue[0])]))
      else
        (Unlock, s.(owner := Free, pcs := s.pcs[t := Idle]));
    assert Step(s, t, a, s') && Finishing(a);
  }

  /** When nothing can go on, nothing is queued or nobody is popping: no worker sleeps beside a
      nonempty queue. */
  lemma QuietMeansServed(s: State)
    requires Safe(s) && Quiet(s)
    ensures s.queue == [] || forall t | 0 <= t < |s.pcs| :: s.pcs[t].Idle?
    ensures s.owner.Free? && forall t | 0 <= t < |s.pcs| :: s.pcs[t].Idle? || s.pcs[t].Waiting?
  {
    hide Quiet;
    if s.owner.HeldBy? {
      CanGoOn(s, s.owner.thread);
    }
    forall t | 0 <= t < |s.pcs|
      ensures s.pcs[t].Idle? || s.pcs[t].Waiting?
    {
      if !s.pcs[t].Idle? && !s.pcs[t].Waiting? {
        CanGoOn(s, t);
      }
    }
  }

  /** The broadcasts still to come. */
  function Pending(pc: Pc): nat {
    if pc.WantPush? || pc.Pushing? || pc.Broadcasting? then 1 else 0
  }

  /** The steps still to do until the thread is idle or waits. */
  function Rank(pc: Pc): nat {
    match pc
    case WantPush(_) => 4
    case Pushing(_) => 3
    case Broadcasting => 2
    case PushUnlocking => 1
    case WantPop => 4
    case Woken => 4
    case Testing => 3
    case Taking => 2
    case PopUnlocking(_) => 1
    case Idle => 0
    case Waiting => 0
  }

  ghost function PendingSum(pcs: seq<Pc>): nat {
    Sum(Pending, pcs)
  }

  ghost function RankSum(pcs: seq<Pc>): nat {
    Sum(Rank, pcs)
  }

  lemma SumsUpdate(pcs: seq<Pc>, t: nat, pc: Pc)
    requires t < |pcs|
    ensures PendingSum(pcs[t := pc]) + Pending(pcs[t]) == PendingSum(pcs) + Pending(pc)
    ensures RankSum(pcs[t := pc]) + Rank(pcs[t]) == RankSum(pcs) + Rank(pc)
  {
    SumUpdate(Pending, pcs, t, pc);
    SumUpdate(Rank, pcs, t, pc);
  }

  /** Calls under way always come to an end: every step that finishes one makes the measure
      smaller, lexicographically. */
  lemma FinishingEnds(s: State, t: nat, a: Action, s': State)
    requires Step(s, t, a, s') && Finishing(a)
    ensures PendingSum(s'.pcs) <= PendingSum(s.pcs)
    ensures PendingSum(s'.pcs) == PendingSum(s.pcs) ==> RankSum(s'.pcs) < RankSum(s.pcs)
  {
    hide PendingSum, RankSum;
    SumsUpdate(s.pcs, t, s'.pcs[t]);
    if a.Broadcast? {
      var woken := WakeAll(s.pcs);
      SumsUpdate(woken, t, PushUnlocking);
      WakingIsNotPending(s.pcs);
    }
  }

  lemma WakingIsNotPending(pcs: seq<Pc>)
    ensures PendingSum(WakeAll(pcs)) == PendingSum(pcs)
  {
    SumsAgree(Pending, WakeAll(pcs), pcs);
  }

  lemma StepKeepsSafe(s: State, t: nat, a: Action, s': State)
    requires Safe(s) && Step(s, t, a, s')
    ensures Safe(s')
  {
    hide Step, MutualExclusion, Fifo, NeverPopsEmpty, NoLostWakeup;
    StepKeepsMutualExclusion(s, t, a, s');
    StepKeepsFifo(s, t, a, s');
    StepKeepsWakeups(s, t, a, s');
  }

  lemma NextStep(s: State) returns (t: nat, a: Action, s': State)
    requires !Quiet(s)
    ensures Finishing(a) && Step(s, t, a, s')
  {
    t, a, s' :| Finishing(a) && Step(s, t, a, s');
  }

  /** From every safe state finitely many finishing steps lead to one in which nothing is queued or
      nobody is popping; any finishing step can be continued like that. */
  lemma {:induction false} Settles(s: State) returns (states: seq<State>, threads: seq<nat>, actions: seq<Action>)
    requires Safe(s)
    ensures |states| == |actions| + 1 && |threads| == |actions| && states[0] == s
    ensures forall i | 0 <= i < |actions| ::
      Finishing(actions[i]) && Step(states[i], threads[i], actions[i], states[i + 1])
    ensures var u := states[|actions|];
      Safe(u) && (u.queue == [] || forall t | 0 <= t < |u.pcs| :: u.pcs[t].Idle?)
    decreases PendingSum(s.pcs), RankSum(s.pcs)
  {
    if Quiet(s) {
      QuietMeansServed(s);
      return [s], [], [];
    }
    hide Quiet, Step, Safe, PendingSum, RankSum;
    var t, a, s' := NextStep(s);
    FinishingEnds(s, t, a, s');
    StepKeepsSafe(s, t, a, s');
    var states', threads', actions' := Settles(s');
    states, threads, actions := [s] + states', [t] + threads', [a] + actions';
  }

  // ----- what the calls do -----

  /** A series of steps of one thread. */
  ghost predicate Series(states: seq<State>, t: nat, actions: seq<Action>) {
    |states| == |actions| + 1 && forall i | 0 <= i < |actions| :: Step(states[i], t, actions[i], states[i + 1])
  }

  /** A push that nobody interrupts puts its item behind the queue and wakes everyone who waits. */
  lemma PushTakesEffect(s: State, t: nat, item: Item) returns (states: seq<State>)
    requires t < |s.pcs| && s.pcs[t].Idle? && s.owner.Free?
    ensures Series(states, t, [CallPush(item), Lock, PushBack, Broadcast, Unlock]) && states[0] == s
    ensures var u := states[5];
      && u.queue == s.queue + [item] && u.pushed == s.pushed + [item] && u.popped == s.popped && u.owner.Free?
      && |u.pcs| == |s.pcs| && u.pcs[t].Idle?
      && forall r | 0 <= r < |s.pcs| && r != t :: u.pcs[r] == if s.pcs[r].Waiting? then Woken else s.pcs[r]
  {
    var s1 := s.(pcs := s.pcs[t := WantPush(item)]);
    var s2 := s1.(owner := HeldBy(t), pcs := s1.pcs[t := Pushing(item)]);
    var s3 := s2.(queue := s.queue + [item], pushed := s.pushed + [item], pcs := s2.pcs[t := Broadcasting]);
    var s4 := s3.(pcs := WakeAll(s3.pcs)[t := PushUnlocking]);
    var s5 := s4.(owner := Free, pcs := s4.pcs[t := Idle]);
    states := [s, s1, s2, s3, s4, s5];
  }

  /** A pop that nobody interrupts, of a worker that begins it or was woken, takes the first item. */
  lemma PopTakesEffect(s: State, t: nat) returns (states: seq<State>)
    requires t < |s.pcs| && (s.pcs[t].WantPop? || s.pcs[t].Woken?) && s.owner.Free? && s.queue != []
    ensures Series(states, t, [Lock, Test, PopFront, Unlock]) && states[0] == s
    ensures states[4] == s.(queue := s.queue[1..], popped := s.popped + [Taken(t, s.queue[0])], pcs := s.pcs[t := Idle])
  {
    var s1 := s.(owner := HeldBy(t), pcs := s.pcs[t := Testing]);
    var s2 := s1.(pcs := s1.pcs[t := Taking]);
    var s3 := s2.(queue := s.queue[1..], popped := s.popped + [Taken(t, s.queue[0])],
                  pcs := s2.pcs[t := PopUnlocking(s.queue[0])]);
    var s4 := s3.(owner := Free, pcs := s3.pcs[t := Idle]);
    assert s4.pcs == s.pcs[t := Idle];
    states := [s, s1, s2, s3, s4];
  }

  /** A pop of an empty queue waits, and gives the mutex back meanwhile. */
  lemma PopWaits(s: State, t: nat) returns (states: seq<State>)
    requires t < |s.pcs| && s.pcs[t].Idle? && s.owner.Free? && s.queue == []
    ensures Series(states, t, [CallPop, Lock, Test]) && states[0] == s
    ensures states[3] == s.(pcs := s.pcs[t := Waiting])
  {
    var s1 := s.(pcs := s.pcs[t := WantPop]);
    var s2 := s1.(owner := HeldBy(t), pcs := s1.pcs[t := Testing]);
    var s3 := s2.(owner := Free, pcs := s2.pcs[t := Waiting]);
    assert s3.pcs == s.pcs[t := Waiting];
    states := [s, s1, s2, s3];
  }
}
