/** Any number of ioctl threads sharing one virtqueue with the host, one mutex and one
    completion (driver/virtio_hmcuda_main.c:68-72, 292-318, 347-374;
    host/vhost/vhost_user_hmcuda.c:94-182), as a step relation.

    Every push by the host raises one interrupt, and every interrupt runs the callback once. */
module Virtqueue {
  import opened Api
  import opened Memory

  /** One descriptor chain: who added it, the request it carries, and its readable bytes. */
  datatype Chain = Chain(id: nat, owner: nat, req: nat, len: nat)

  /** Where a thread is inside a submission. */
  datatype Pc =
    | Idle                              // outside, or blocked in mutex_lock
    | Holding                           // has the mutex
    | Armed                             // has reinitialized the completion
    | Added(c: Chain)                   // virtqueue_add_sgs succeeded
    | Waiting(c: Chain)                 // kicked; in wait_for_completion
    | Awake(c: Chain)                   // the wait returned
    | Left(c: Chain, got: Option<Chain>)  // has collected what virtqueue_get_buf gave

  /** A finished submission: the chain that was sent and the chain whose response was collected. */
  datatype Outcome = Outcome(sent: Chain, got: Option<Chain>)

  datatype State = State(
    lock: Option<nat>, pcs: map<nat, Pc>, done: nat, next: nat,
    avail: seq<Chain>, popped: Option<Chain>, used: seq<Chain>, irq: nat,
    pushed: seq<nat>, finished: seq<Outcome>)

  datatype Step =
    | Acquire(t: nat) | Reinit(t: nat) | Add(t: nat, req: nat, reqLen: nat) | AddFails(t: nat)
    | Kick(t: nat) | Wake(t: nat) | GetBuf(t: nat) | Unlock(t: nat)
    | Pop | Drop | Push | Callback

  const INIT: State := State(None, map[], 0, 0, [], None, [], 0, [], [])

  function PcOf(s: State, t: nat): Pc {
    if t in s.pcs then s.pcs[t] else Idle
  }

  predicate Enabled(s: State, step: Step) {
    match step
    case Acquire(t) => s.lock == None && PcOf(s, t) == Idle
    case Reinit(t) => PcOf(s, t) == Holding
    case Add(t, _, _) => PcOf(s, t) == Armed
    case AddFails(t) => PcOf(s, t) == Armed
    case Kick(t) => PcOf(s, t).Added?
    case Wake(t) => PcOf(s, t).Waiting? && s.done > 0
    case GetBuf(t) => PcOf(s, t).Awake?
    case Unlock(t) => PcOf(s, t).Left?
    case Pop => s.popped == None && s.avail != []
    case Drop => s.popped.Some? && s.popped.value.len < HEADER_LEN
    case Push => s.popped.Some? && s.popped.value.len >= HEADER_LEN
    case Callback => s.irq > 0
  }

  function At(s: State, t: nat, pc: Pc): State {
    s.(pcs := s.pcs[t := pc])
  }

  function Next(s: State, step: Step): State
    requires Enabled(s, step)
  {
    match step
    case Acquire(t) => At(s, t, Holding).(lock := Some(t))
    case Reinit(t) => At(s, t, Armed).(done := 0)
    case Add(t, req, reqLen) =>
      var c := Chain(s.next, t, req, HEADER_LEN + reqLen);
      At(s, t, Added(c)).(avail := s.avail + [c], next := s.next + 1)
    case AddFails(t) => At(s, t, Idle).(lock := None)
    case Kick(t) => At(s, t, Waiting(PcOf(s, t).c))
    case Wake(t) => At(s, t, Awake(PcOf(s, t).c)).(done := s.done - 1)
    case GetBuf(t) =>
      if s.used == [] then At(s, t, Left(PcOf(s, t).c, None))
      else At(s, t, Left(PcOf(s, t).c, Some(s.used[0]))).(used := s.used[1..])
    case Unlock(t) => At(s, t, Idle).(lock := None, finished := s.finished + [Outcome(PcOf(s, t).c, PcOf(s, t).got)])
    case Pop => s.(popped := Some(s.avail[0]), avail := s.avail[1..])
    case Drop => s.(popped := None)
    case Push =>
      s.(popped := None, used := s.used + [s.popped.value], irq := s.irq + 1, pushed := s.pushed + [s.popped.value.id])
    case Callback => s.(irq := s.irq - 1, done := s.done + 1)
  }

  /* ---- the invariant ---- */

  /** Nothing is outstanding. */
  predicate Quiet(s: State) {
    s.avail == [] && s.popped == None && s.used == [] && s.irq == 0 && s.done == 0 && |s.pushed| == s.next
  }

  /** `c` is the one chain outstanding, and it is in exactly one place. */
  predicate InFlight(s: State, c: Chain) {
    && c.len >= HEADER_LEN && c.id + 1 == s.next
    && (|| (s.avail == [c] && s.popped == None && s.used == [] && s.irq == 0 && s.done == 0 && |s.pushed| == c.id)
        || (s.avail == [] && s.popped == Some(c) && s.used == [] && s.irq == 0 && s.done == 0 && |s.pushed| == c.id)
        || (s.avail == [] && s.popped == None && s.used == [c] && s.irq + s.done == 1 && |s.pushed| == s.next))
  }

  predicate Phase(s: State, t: nat, pc: Pc) {
    match pc
    case Idle => false
    case Holding => Quiet(s)
    case Armed => Quiet(s)
    case Added(c) => c.owner == t && InFlight(s, c)
    case Waiting(c) => c.owner == t && InFlight(s, c)
    case Awake(c) =>
      && c.owner == t && c.len >= HEADER_LEN
      && s.avail == [] && s.popped == None && s.used == [c] && s.irq == 0 && s.done == 0 && |s.pushed| == s.next
    case Left(c, got) => c.owner == t && got == Some(c) && Quiet(s)
  }

  /** Only the holder of the mutex is inside a submission. */
  ghost predicate Exclusive(s: State) {
    forall t | t in s.pcs && s.pcs[t] != Idle :: s.lock == Some(t)
  }

  ghost predicate Answered(finished: seq<Outcome>) {
    forall i | 0 <= i < |finished| :: finished[i].got == Some(finished[i].sent)
  }

  ghost predicate Inv(s: State) {
    && Exclusive(s) && Answered(s.finished)
    && s.pushed == Range(0, |s.pushed|)
    && if s.lock == None then Quiet(s) else Phase(s, s.lock.value, PcOf(s, s.lock.value))
  }

  predicate ByThread(step: Step) {
    !(step.Pop? || step.Drop? || step.Push? || step.Callback?)
  }

  lemma HostStepKeepsInv(s: State, step: Step)
    requires Inv(s) && Enabled(s, step) && (step.Pop? || step.Drop? || step.Push? || step.Callback?)
    ensures Inv(Next(s, step))
  {
    assert s.lock.Some?;
    if step.Push? {
      assert Range(0, |s.pushed| + 1) == Range(0, |s.pushed|) + [|s.pushed|];
    }
  }

  lemma ThreadStepKeepsInv(s: State, step: Step)
    requires Inv(s) && Enabled(s, step) && !(step.Pop? || step.Drop? || step.Push? || step.Callback?)
    ensures Inv(Next(s, step))
  {
    assert step.Acquire? || s.lock == Some(step.t);
  }

  lemma StepKeepsInv(s: State, step: Step)
    requires Inv(s) && Enabled(s, step)
    ensures Inv(Next(s, step))
  {
    if ByThread(step) {
      ThreadStepKeepsInv(s, step);
    } else {
      HostStepKeepsInv(s, step);
    }
  }

  predicate Legal(s: State, steps: seq<Step>)
    decreases |steps|
  {
    steps == [] || (Enabled(s, steps[0]) && Legal(Next(s, steps[0]), steps[1..]))
  }

  function Run(s: State, steps: seq<Step>): State
    requires Legal(s, steps)
    decreases |steps|
  {
    if steps == [] then s else Run(Next(s, steps[0]), steps[1..])
  }

  /** The invariant holds after every run, of any threads, in any interleaving. */
  lemma {:induction false} RunKeepsInv(s: State, steps: seq<Step>)
    requires Inv(s) && Legal(s, steps)
    ensures Inv(Run(s, steps))
    decreases |steps|
  {
    if steps != [] {
      StepKeepsInv(s, steps[0]);
      RunKeepsInv(Next(s, steps[0]), steps[1..]);
    }
  }

  /* ---- the record of a run ---- */

  /** What a thread submitted. */
  datatype Submission = Submission(thread: nat, req: nat, reqLen: nat)

  function Made(step: Step): seq<Submission> {
    match step
    case Add(t, req, reqLen) => [Submission(t, req, reqLen)]
    case _ => []
  }

  function Back(step: Step): seq<nat> {
    match step
    case Unlock(t) => [t]
    case _ => []
  }

  /** The submissions of a run, in order, read off its steps alone. */
  function Submitted(steps: seq<Step>): seq<Submission> {
    if steps == [] then [] else Made(steps[0]) + Submitted(steps[1..])
  }

  /** The threads that returned from a submission, in order. */
  function Returned(steps: seq<Step>): seq<nat> {
    if steps == [] then [] else Back(steps[0]) + Returned(steps[1..])
  }

  /** The chain of the `i`-th submission: its thread's own request behind an eight-byte header. */
  ghost predicate Carries(subs: seq<Submission>, i: nat, c: Chain) {
    i < |subs| && c.id == i && c.owner == subs[i].thread && c.req == subs[i].req && c.len == 8 + subs[i].reqLen
  }

  ghost predicate AllCarry(subs: seq<Submission>, chains: seq<Chain>) {
    forall i | 0 <= i < |chains| :: Carries(subs, chains[i].id, chains[i])
  }

  /** The `i`-th submission to finish is the `i`-th that was made, by the thread that returned
      then, and what it collected is the response to its own request. */
  ghost predicate Fulfilled(subs: seq<Submission>, back: seq<nat>, i: nat, o: Outcome) {
    Carries(subs, i, o.sent) && o.got == Some(o.sent) && i < |back| && o.sent.owner == back[i]
  }

  ghost predicate AllFulfilled(subs: seq<Submission>, back: seq<nat>, finished: seq<Outcome>) {
    |finished| == |back| && forall i | 0 <= i < |finished| :: Fulfilled(subs, back, i, finished[i])
  }

  /** The chain that a thread inside a submission has added. */
  function ChainOf(pc: Pc): Option<Chain> {
    match pc
    case Added(c) => Some(c)
    case Waiting(c) => Some(c)
    case Awake(c) => Some(c)
    case Left(c, _) => Some(c)
    case _ => None
  }

  /** A thread that has added a chain added the last one, and is the only one not to have returned. */
  ghost predicate Pending(s: State, subs: seq<Submission>, pc: Pc) {
    || (ChainOf(pc).Some? && Carries(subs, |s.finished|, ChainOf(pc).value))
    || (ChainOf(pc).None? && |s.finished| == |subs|)
  }

  /** Thread `t` has the chain of the last submission, its own. */
  ghost predicate Holds(subs: seq<Submission>, t: nat, c: Chain) {
    c.id + 1 == |subs| && Carries(subs, c.id, c) && c.owner == t
  }

  /** The state agrees with the record of the steps that led to it. */
  ghost predicate Recorded(s: State, subs: seq<Submission>, back: seq<nat>) {
    && s.next == |subs| <= |s.finished| + 1 && AllFulfilled(subs, back, s.finished)
    && AllCarry(subs, s.avail) && AllCarry(subs, s.used)
    && (s.popped == None || Carries(subs, s.popped.value.id, s.popped.value))
    && Pending(s, subs, if s.lock == None then Idle else PcOf(s, s.lock.value))
  }

  lemma HostStepRecorded(s: State, step: Step, subs: seq<Submission>, back: seq<nat>)
    requires Inv(s) && Recorded(s, subs, back) && Enabled(s, step) && !ByThread(step)
    ensures Recorded(Next(s, step), subs, back)
  {
  }

  lemma AddRecorded(s: State, t: nat, req: nat, reqLen: nat, subs: seq<Submission>, back: seq<nat>)
    requires Inv(s) && Recorded(s, subs, back) && Enabled(s, Add(t, req, reqLen))
    ensures Recorded(Next(s, Add(t, req, reqLen)), subs + [Submission(t, req, reqLen)], back)
  {
    var r, subs' := Next(s, Add(t, req, reqLen)), subs + [Submission(t, req, reqLen)];
    assert s.lock == Some(t);
    forall i | 0 <= i < |s.finished| ensures Fulfilled(subs', back, i, r.finished[i]) {
      assert Fulfilled(subs, back, i, s.finished[i]);
    }
  }

  lemma UnlockRecorded(s: State, t: nat, subs: seq<Submission>, back: seq<nat>)
    requires Inv(s) && Recorded(s, subs, back) && Enabled(s, Unlock(t))
    ensures Recorded(Next(s, Unlock(t)), subs, back + [t])
  {
    var r := Next(s, Unlock(t));
    assert s.lock == Some(t);
    forall i | 0 <= i < |r.finished| ensures Fulfilled(subs, back + [t], i, r.finished[i]) {
      if i < |s.finished| {
        assert Fulfilled(subs, back, i, s.finished[i]);
      }
    }
  }

  lemma OtherStepRecorded(s: State, step: Step, subs: seq<Submission>, back: seq<nat>)
    requires Inv(s) && Recorded(s, subs, back) && Enabled(s, step) && ByThread(step) && !step.Add? && !step.Unlock?
    ensures Recorded(Next(s, step), subs, back)
  {
    assert step.Acquire? || s.lock == Some(step.t);
  }

  lemma StepRecorded(s: State, step: Step, subs: seq<Submission>, back: seq<nat>)
    requires Inv(s) && Recorded(s, subs, back) && Enabled(s, step)
    ensures Recorded(Next(s, step), subs + Made(step), back + Back(step))
  {
    assert subs + [] == subs && back + [] == back;
    match step
    case Add(t, req, reqLen) => AddRecorded(s, t, req, reqLen, subs, back);
    case Unlock(t) => UnlockRecorded(s, t, subs, back);
    case _ =>
      if ByThread(step) {
        OtherStepRecorded(s, step, subs, back);
      } else {
        HostStepRecorded(s, step, subs, back);
      }
  }

  lemma Advance(s: State, step: Step, subs: seq<Submission>, back: seq<nat>, r: State, subs': seq<Submission>,
                back': seq<nat>)
    requires Inv(s) && Recorded(s, subs, back) && Enabled(s, step) && r == Next(s, step)
    requires subs' == subs + Made(step) && back' == back + Back(step)
    ensures Inv(r) && Recorded(r, subs', back')
  {
    StepRecorded(s, step, subs, back);
    StepKeepsInv(s, step);
  }

  lemma {:induction false} RunRecorded(s: State, steps: seq<Step>, subs: seq<Submission>, back: seq<nat>,
                                       all: seq<Submission>, returned: seq<nat>)
    requires Inv(s) && Recorded(s, subs, back) && Legal(s, steps)
    requires all == subs + Submitted(steps) && returned == back + Returned(steps)
    ensures Recorded(Run(s, steps), all, returned)
    decreases |steps|
  {
    if steps == [] {
      assert all == subs && returned == back;
    } else {
      var step := steps[0];
      var subs', back' := subs + Made(step), back + Back(step);
      assert all == subs' + Submitted(steps[1..]) && returned == back' + Returned(steps[1..]);
      var r := Next(s, step);
      Advance(s, step, subs, back, r, subs', back');
      RunRecorded(r, steps[1..], subs', back', all, returned);
    }
  }

  /* ---- what it gives ---- */

  function Outstanding(s: State): nat {
    |s.avail| + (if s.popped.Some? then 1 else 0) + |s.used|
  }

  /** In every reachable state: at most one chain is outstanding; whoever waits holds the
      mutex; every submission that finished collected the response to its own chain; and
      chains are pushed once each, in the order they were added, all but at most the last.
      And against the record of the steps: every chain on the way or collected carries the
      request that its own thread submitted, and submissions finish in the order they were made. */
  lemma Safety(steps: seq<Step>, t: nat)
    requires Legal(INIT, steps)
    ensures
      var s := Run(INIT, steps);
      && Outstanding(s) <= 1
      && (PcOf(s, t).Waiting? ==> s.lock == Some(t))
      && (PcOf(s, t).Left? ==> PcOf(s, t).got == Some(PcOf(s, t).c))
      && Answered(s.finished)
      && s.pushed == Range(0, |s.pushed|) && |s.pushed| <= s.next <= |s.pushed| + 1
      && (s.lock == None ==> |s.pushed| == s.next)
      && s.next == |Submitted(steps)| <= |s.finished| + 1
      && AllCarry(Submitted(steps), s.avail) && AllCarry(Submitted(steps), s.used)
      && (s.popped.Some? ==> Carries(Submitted(steps), s.popped.value.id, s.popped.value))
      && (ChainOf(PcOf(s, t)).Some? ==> Holds(Submitted(steps), t, ChainOf(PcOf(s, t)).value))
      && AllFulfilled(Submitted(steps), Returned(steps), s.finished)
  {
    assert Inv(INIT);
    RunKeepsInv(INIT, steps);
    Record(steps, t);
  }

  lemma Record(steps: seq<Step>, t: nat)
    requires Legal(INIT, steps)
    ensures
      var s, subs := Run(INIT, steps), Submitted(steps);
      && Recorded(s, subs, Returned(steps))
      && (ChainOf(PcOf(s, t)).Some? ==> Holds(subs, t, ChainOf(PcOf(s, t)).value))
  {
    assert Inv(INIT);
    RunKeepsInv(INIT, steps);
    RunRecorded(INIT, steps, [], [], Submitted(steps), Returned(steps));
  }

  predicate Releases(step: Step, t: nat) {
    step == Unlock(t) || step == AddFails(t)
  }

  /** From lock to unlock only the holder moves: others intervene between batches, never inside one. */
  lemma {:induction false} NobodyIntervenes(s: State, steps: seq<Step>, t: nat, i: nat)
    requires Inv(s) && Legal(s, steps) && s.lock == Some(t) && i < |steps|
    requires forall j | 0 <= j < i :: !Releases(steps[j], t)
    ensures ByThread(steps[i]) ==> steps[i].t == t
    decreases i
  {
    if i > 0 {
      StepKeepsInv(s, steps[0]);
      assert ByThread(steps[0]) ==> steps[0].t == t;
      assert !Releases(steps[0], t);
      assert forall j | 0 <= j < i - 1 :: steps[1..][j] == steps[j + 1];
      NobodyIntervenes(Next(s, steps[0]), steps[1..], t, i - 1);
    }
  }

  /* ---- no lost wake-up ---- */

  function ThreadRank(pc: Pc): nat {
    match pc
    case Idle => 0
    case Left(_, _) => 1
    case Awake(_) => 2
    case Waiting(_) => 3
    case Added(_) => 4
    case Armed => 8
    case Holding => 9
  }

  /** Steps that the current submission can still take. */
  function Rank(s: State): nat {
    (if s.lock == None then 0 else ThreadRank(PcOf(s, s.lock.value)))
    + 3 * |s.avail| + (if s.popped.Some? then 2 else 0) + s.irq
  }

  /** A held mutex is always released: some step other than taking it is possible, and each
      such step brings the release nearer. */
  lemma SomebodyCanMove(s: State)
    requires Inv(s) && s.lock.Some?
    ensures exists step :: Enabled(s, step) && !step.Acquire?
  {
    var t := s.lock.value;
    match PcOf(s, t)
    case Holding => assert Enabled(s, Reinit(t));
    case Armed => assert Enabled(s, AddFails(t));
    case Added(_) => assert Enabled(s, Kick(t));
    case Awake(_) => assert Enabled(s, GetBuf(t));
    case Left(_, _) => assert Enabled(s, Unlock(t));
    case Waiting(_) =>
      if s.done > 0 {
        assert Enabled(s, Wake(t));
      } else if s.irq > 0 {
        assert Enabled(s, Callback);
      } else if s.avail != [] {
        assert Enabled(s, Pop);
      } else {
        assert Enabled(s, Push);
      }
  }

  lemma RankFalls(s: State, step: Step)
    requires Inv(s) && Enabled(s, step) && !step.Acquire?
    ensures Rank(Next(s, step)) < Rank(s)
  {
    if ByThread(step) {
      assert s.lock == Some(step.t);
    }
  }

  /** No submission takes more than nine steps of driver, host and callback together. */
  lemma {:induction false} SubmissionsAreShort(s: State, steps: seq<Step>)
    requires Inv(s) && Legal(s, steps) && forall i | 0 <= i < |steps| :: !steps[i].Acquire?
    ensures |steps| <= Rank(s) <= 9
    decreases |steps|
  {
    if steps != [] {
      assert !steps[0].Acquire?;
      RankFalls(s, steps[0]);
      StepKeepsInv(s, steps[0]);
      assert forall i | 0 <= i < |steps| - 1 :: steps[1..][i] == steps[i + 1];
      SubmissionsAreShort(Next(s, steps[0]), steps[1..]);
    }
  }
}
