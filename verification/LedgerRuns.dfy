/** Safety of gold and cash over whole runs: handlers and consumers in any order, from an empty server. */
module LedgerRuns {
  import opened LedgerModel
  import opened LedgerConservation

  // ----- Cash is never negative -----

  ghost predicate CashNonNeg(s: State) {
    forall u :: CashOf(s, u) >= 0.0
  }

  /** The cash of the first enabled entry for task 1. */
  function FirstReward(ts: seq<TaskInfo>): real {
    if ts == [] then 0.0
    else
      var init, last := ts[..|ts| - 1], ts[|ts| - 1];
      if last.taskId == 1 && last.status == 1 && !HasEnabled(init) then last.cash else FirstReward(init)
  }

  predicate HasEnabled(ts: seq<TaskInfo>) {
    exists i :: 0 <= i < |ts| && ts[i].taskId == 1 && ts[i].status == 1
  }

  /** What a registration pays in cash. */
  function RegistrationReward(tasks: seq<TaskInfo>): real {
    FirstReward(TasksOf(tasks, One))
  }

  lemma {:induction false} NewRow(s: State, u: nat, day: int, ts: seq<TaskInfo>)
    requires Key(u, 1, day) !in s.events
    ensures var key := Key(u, 1, day);
            var t := CreateRows(s, u, day, ts);
            (key in t.events <==> HasEnabled(ts)) && Lookup(t.events, key).cash == FirstReward(ts)
  {
    if ts != [] {
      var init, last := ts[..|ts| - 1], ts[|ts| - 1];
      NewRow(s, u, day, init);
      assert forall i :: 0 <= i < |init| ==> ts[i] == init[i];
      assert HasEnabled(ts) <==> HasEnabled(init) || (last.taskId == 1 && last.status == 1);
    }
  }

  /** A registration pays its reward to the new user and leaves everyone else's cash alone. */
  lemma RegisterPays(s: State, openId: string, day: int, now: int)
    requires Wf(s) && openId !in s.openIds
    ensures forall u :: CashOf(Register(s, openId, day, now), u) ==
                        if u == s.nextUser then RegistrationReward(s.tasks) else CashOf(s, u)
  {
    hide TasksOf, LedgerTaken;
    var v := s.nextUser;
    var t := WithNewUser(s, openId);
    var ts := TasksOf(s.tasks, One);
    NewRow(t, v, day, ts);
    CreateFrame(t, v, day, ts);
  }

  lemma WithdrawNonNeg(s: State, v: nat, amount: int, now: int)
    requires CashNonNeg(s)
    ensures CashNonNeg(Withdraw(s, v, amount, now))
  {
    hide HasPending, WithdrawalTaken;
    assert CashOf(s, v) >= 0.0;
    if v in s.users {
      assert (Trunc(s.users[v].cash) as real) <= s.users[v].cash;
    }
    forall u ensures CashOf(Withdraw(s, v, amount, now), u) >= 0.0 {
      assert CashOf(s, u) >= 0.0;
    }
  }

  lemma StepNonNeg(s: State, step: Step)
    requires Wf(s) && CashNonNeg(s) && RegistrationReward(s.tasks) >= 0.0
    ensures CashNonNeg(Next(s, step))
  {
    hide Register, Withdraw;
    match step
    case RegisterStep(openId, day, now) =>
      if openId !in s.openIds {
        RegisterPays(s, openId, day, now);
      } else {
        RegisteredAgain(s, openId, day, now);
      }
    case WithdrawStep(u, amount, now) => WithdrawNonNeg(s, u, amount, now);
    case _ => StepSameCash(s, step);
  }

  lemma RegisteredAgain(s: State, openId: string, day: int, now: int)
    requires openId in s.openIds
    ensures Register(s, openId, day, now) == s
  {
  }

  /** Only registration and withdrawal change anyone's cash. */
  lemma StepSameCash(s: State, step: Step)
    requires Wf(s) && !step.RegisterStep? && !step.WithdrawStep?
    ensures forall u :: CashOf(Next(s, step), u) == CashOf(s, u)
  {
    hide Award, SignIn, UpdateUserData, EffectiveFeedback, DrainGold, CashOf;
    match step
    case LoginStep(v, day) => LoginCash(s, v, day);
    case ShareStep(v, day, now) => RewardCash(s, step);
    case ReadStep(v, taskId, day, now) => RewardCash(s, step);
    case SignStep(v, day, now) => RewardCash(s, step);
    case ProfileStep(v, day, now) => ProfileCash(s, v, day, now);
    case ApproveStep(v, commit, valid, op, day, now) => FeedbackCash(s, v, commit, valid, op, day, now);
    case DrainGoldStep(now) => DrainGoldCash(s, now);
    case _ => SameUsers(s, step);
  }

  lemma LoginCash(s: State, v: nat, day: int)
    ensures forall u :: CashOf(Login(s, v, day), u) == CashOf(s, u)
  {
    CreateFrame(s, v, day, TasksOf(s.tasks, Two));
  }

  lemma SameUsers(s: State, step: Step)
    requires step.PostStep? || step.HandleStep? || step.DrainEventStep?
    ensures forall u :: CashOf(Next(s, step), u) == CashOf(s, u)
  {
    hide Approve;
  }

  /** The configuration never changes. */
  lemma StepTasks(s: State, step: Step)
    ensures Next(s, step).tasks == s.tasks
  {
    hide Register, Login, Award, SignIn, UpdateUserData, EffectiveFeedback, DrainGold, Withdraw;
    match step
    case RegisterStep(openId, day, now) => RegisterTasks(s, openId, day, now);
    case LoginStep(u, day) => LoginTasks(s, u, day);
    case ShareStep(u, day, now) => RewardTasks(s, u, 4, day, now);
    case ReadStep(u, taskId, day, now) => RewardTasks(s, u, taskId, day, now);
    case SignStep(u, day, now) => RewardTasks(s, u, SIGN_TASK, day, now);
    case ProfileStep(u, day, now) => ProfileTasks(s, u, day, now);
    case ApproveStep(u, commit, valid, op, day, now) => FeedbackTasks(s, u, commit, valid, op, day, now);
    case _ => PlainTasks(s, step);
  }

  lemma RegisterTasks(s: State, openId: string, day: int, now: int)
    ensures Register(s, openId, day, now).tasks == s.tasks
  {
    hide TasksOf, LedgerTaken;
    CreateFrame(WithNewUser(s, openId), s.nextUser, day, TasksOf(s.tasks, One));
  }

  lemma LoginTasks(s: State, u: nat, day: int)
    ensures Login(s, u, day).tasks == s.tasks
  {
    CreateFrame(s, u, day, TasksOf(s.tasks, Two));
  }

  lemma PayTasks(s: State, key: Key, gold: int, status: int, eventId: nat, now: int)
    ensures Pay(s, key, gold, status, eventId, now).tasks == s.tasks
  {
    hide SendGold;
    var a := s.(users := AddGold(s.users, key.user, gold));
    SendGoldFrame(SendEvent(a, EventMsg(key, status)), GoldMsg(key.user, key.taskId, gold, 0.0, eventId), now);
  }

  lemma RewardTasks(s: State, u: nat, taskId: int, day: int, now: int)
    ensures Award(s, u, taskId, day, now).tasks == s.tasks && SignIn(s, u, day, now).tasks == s.tasks
  {
    hide Pay;
    var key := Key(u, taskId, day);
    PayTasks(s, key, Lookup(s.events, key).gold, 1, Lookup(s.events, key).eventId, now);
    var sign := Key(u, SIGN_TASK, day);
    PayTasks(s, sign, Reward(LastSign(s, u, day)), LastSign(s, u, day) + 1, Lookup(s.events, sign).eventId, now);
  }

  lemma ProfileTasks(s: State, u: nat, day: int, now: int)
    ensures UpdateUserData(s, u, day, now).tasks == s.tasks
  {
    hide LedgerTaken;
  }

  lemma FeedbackTasks(s: State, u: nat, commit: int, valid: int, op: int, day: int, now: int)
    ensures EffectiveFeedback(s, u, commit, valid, op, day, now).tasks == s.tasks
  {
    hide LedgerTaken;
  }

  lemma PlainTasks(s: State, step: Step)
    requires step.PostStep? || step.WithdrawStep? || step.HandleStep? || step.DrainEventStep? || step.DrainGoldStep?
    ensures Next(s, step).tasks == s.tasks
  {
    hide LedgerTaken, HasPending, WithdrawalTaken, Approve, Trunc;
  }

  // ----- Whole runs -----

  /** A user's gold is what the ledger (registration rows aside), the queue and the refused inserts add up to. */
  predicate GoldBalanced(s: State, u: nat) {
    GoldOf(s, u) == LedgerGold(s.ledger, u) + QueueGold(s.goldChan, u) + QueueGold(s.rejected, u)
  }

  /** A user's cash is what the ledger adds up to, less the withdrawals, recorded or refused. */
  predicate CashBalanced(s: State, u: nat) {
    CashOf(s, u) == LedgerCash(s.ledger, u) - Withdrawn(s.withdrawals, u) - Withdrawn(s.unrecorded, u)
  }

  /** In every reachable state the tables are well-formed and the channels within bounds, every user's gold and cash
      are accounted for, and at most one withdrawal of a user waits. */
  lemma RunConserves(tasks: seq<TaskInfo>, steps: seq<Step>)
    ensures var s := Run(Init(tasks), steps);
            Wf(s) && OnePending(s) && forall u: nat :: GoldBalanced(s, u) && CashBalanced(s, u)
  {
    RunShape(tasks, steps);
    var s := Run(Init(tasks), steps);
    forall u: nat ensures GoldBalanced(s, u) && CashBalanced(s, u) {
      RunGaps(tasks, steps, u);
    }
  }

  lemma {:induction false} RunShape(tasks: seq<TaskInfo>, steps: seq<Step>)
    ensures Wf(Run(Init(tasks), steps)) && OnePending(Run(Init(tasks), steps))
  {
    if steps != [] {
      RunShape(tasks, steps[..|steps| - 1]);
      StepWf(Run(Init(tasks), steps[..|steps| - 1]), steps[|steps| - 1]);
      StepPending(Run(Init(tasks), steps[..|steps| - 1]), steps[|steps| - 1]);
    }
  }

  lemma {:induction false} RunGaps(tasks: seq<TaskInfo>, steps: seq<Step>, u: nat)
    ensures GoldGap(Run(Init(tasks), steps), u) == 0 && CashGap(Run(Init(tasks), steps), u) == 0.0
  {
    if steps != [] {
      var s := Run(Init(tasks), steps[..|steps| - 1]);
      RunGaps(tasks, steps[..|steps| - 1], u);
      RunShape(tasks, steps[..|steps| - 1]);
      StepGap(s, steps[|steps| - 1], u);
      StepCash(s, steps[|steps| - 1], u);
    }
  }

  lemma {:induction false} RunTasks(tasks: seq<TaskInfo>, steps: seq<Step>)
    ensures Run(Init(tasks), steps).tasks == tasks
  {
    if steps != [] {
      RunTasks(tasks, steps[..|steps| - 1]);
      StepTasks(Run(Init(tasks), steps[..|steps| - 1]), steps[|steps| - 1]);
    }
  }

  lemma {:induction false} RunNonNeg(tasks: seq<TaskInfo>, steps: seq<Step>)
    requires RegistrationReward(tasks) >= 0.0
    ensures CashNonNeg(Run(Init(tasks), steps))
  {
    if steps != [] {
      RunNonNeg(tasks, steps[..|steps| - 1]);
      RunShape(tasks, steps[..|steps| - 1]);
      RunTasks(tasks, steps[..|steps| - 1]);
      StepNonNeg(Run(Init(tasks), steps[..|steps| - 1]), steps[|steps| - 1]);
    }
  }

  /** No run ever makes anyone's cash negative, exactly when the configured registration reward is not. */
  lemma CashSafe(tasks: seq<TaskInfo>)
    ensures (forall steps :: CashNonNeg(Run(Init(tasks), steps))) <==> RegistrationReward(tasks) >= 0.0
  {
    if RegistrationReward(tasks) >= 0.0 {
      forall steps ensures CashNonNeg(Run(Init(tasks), steps)) {
        RunNonNeg(tasks, steps);
      }
    } else {
      var step := RegisterStep("a", 1, 1);
      RunShape(tasks, []);
      RunNone(Init(tasks));
      RunAppend(Init(tasks), [], step);
      RegisterPays(Init(tasks), "a", 1, 1);
      assert CashOf(Run(Init(tasks), [] + [step]), 1) < 0.0;
    }
  }

  // ----- Runs put together -----

  lemma RunNone(s: State)
    ensures Run(s, []) == s
  {
  }

  lemma RunAppend(s: State, steps: seq<Step>, step: Step)
    ensures Run(s, steps + [step]) == Next(Run(s, steps), step)
  {
    assert (steps + [step])[..|steps|] == steps;
  }

  lemma RunTwo(s: State, start: seq<Step>, a: Step, b: Step)
    ensures Run(s, start + [a, b]) == Next(Next(Run(s, start), a), b)
  {
    RunAppend(s, start, a);
    RunAppend(s, start + [a], b);
    assert start + [a] + [b] == start + [a, b];
  }
}
