/** When the two tables alone tell the truth: exactly which steps make the ledger lose gold, and which make the
    withdrawals table lose cash, over whole runs. */
module LedgerExactness {
  import opened LedgerModel
  import opened LedgerConservation
  import opened LedgerRuns

  // ----- Gold -----

  /** The documented meaning of the ledger table: gold is the sum of its rows and of what is still queued. */
  predicate LedgerExact(s: State, u: nat) {
    GoldOf(s, u) == LedgerGold(s.ledger, u) + QueueGold(s.goldChan, u)
  }

  predicate Unrewarded(s: State, key: Key) {
    key.user in s.users && Lookup(s.events, key).status <= 0
  }

  /** The request is answered with a reward, whose message is put on the queue. */
  predicate Pays(s: State, step: Step) {
    match step
    case ShareStep(u, day, _) => Unrewarded(s, Key(u, 4, day))
    case ReadStep(u, taskId, day, _) => 5 <= taskId <= 8 && Unrewarded(s, Key(u, taskId, day))
    case SignStep(u, day, _) => Unrewarded(s, Key(u, SIGN_TASK, day))
    case ProfileStep(u, day, _) => Key(u, 2, day) in s.events && Unrewarded(s, Key(u, 2, day))
    case ApproveStep(u, commit, valid, op, _, _) =>
      u in s.users && (u, commit) in s.feedbacks && s.feedbacks[(u, commit)].valid <= 0 && valid == 1 && op != 1
    case _ => false
  }

  /** The step takes a message off the queue: the consumer's own turn, or the one a reward waits for when the queue
      is full. */
  predicate TakesFront(s: State, step: Step) {
    s.goldChan != [] && (step.DrainGoldStep? || (Pays(s, step) && |s.goldChan| >= GOLD_CAP))
  }

  /** The front message of the queue carries gold of `u`, and its primary key (user, task, second) is taken. */
  predicate FrontRefused(s: State, now: int, u: nat)
    requires s.goldChan != []
  {
    var m := s.goldChan[0];
    m.user == u && m.taskId != 1 && m.gold != 0 && LedgerTaken(s.ledger, u, m.taskId, now)
  }

  predicate LosesGold(s: State, step: Step, u: nat) {
    TakesFront(s, step) && FrontRefused(s, step.now, u)
  }

  /** The gold of `u` that the table would refuse if the front message were taken now. */
  function RefusedGold(s: State, now: int, u: nat): int {
    if s.goldChan != [] && FrontRefused(s, now, u) then s.goldChan[0].gold else 0
  }

  lemma DrainRefuses(s: State, now: int, u: nat)
    ensures QueueGold(DrainGold(s, now).rejected, u) == QueueGold(s.rejected, u) + RefusedGold(s, now, u)
  {
    if s.goldChan != [] {
      QueueGoldAppend(s.rejected, s.goldChan[0], u);
    }
  }

  lemma SendRefuses(s: State, m: GoldMsg, now: int, u: nat)
    ensures QueueGold(SendGold(s, m, now).rejected, u) ==
            QueueGold(s.rejected, u) + if |s.goldChan| >= GOLD_CAP then RefusedGold(s, now, u) else 0
  {
    hide DrainGold;
    DrainRefuses(s, now, u);
  }

  lemma PayRefuses(s: State, key: Key, gold: int, status: int, eventId: nat, now: int, u: nat)
    ensures QueueGold(Pay(s, key, gold, status, eventId, now).rejected, u) ==
            QueueGold(s.rejected, u) + if |s.goldChan| >= GOLD_CAP then RefusedGold(s, now, u) else 0
  {
    hide SendGold, LedgerTaken, QueueGold;
    var b := SendEvent(s.(users := AddGold(s.users, key.user, gold)), EventMsg(key, status));
    SendRefuses(b, GoldMsg(key.user, key.taskId, gold, 0.0, eventId), now, u);
  }

  /** What a step adds to the refused gold of a user. */
  function Refuses(s: State, step: Step, u: nat): int {
    if TakesFront(s, step) then RefusedGold(s, step.now, u) else 0
  }

  lemma AwardRefuses(s: State, step: Step, u: nat)
    requires step.ShareStep? || step.ReadStep? || step.SignStep?
    ensures QueueGold(Next(s, step).rejected, u) == QueueGold(s.rejected, u) + Refuses(s, step, u)
  {
    hide Pay, QueueGold, RefusedGold;
    match step
    case ShareStep(v, day, now) =>
      var row := Lookup(s.events, Key(v, 4, day));
      PayRefuses(s, Key(v, 4, day), row.gold, 1, row.eventId, now, u);
    case ReadStep(v, taskId, day, now) =>
      var row := Lookup(s.events, Key(v, taskId, day));
      PayRefuses(s, Key(v, taskId, day), row.gold, 1, row.eventId, now, u);
    case SignStep(v, day, now) =>
      var key, last := Key(v, SIGN_TASK, day), LastSign(s, v, day);
      PayRefuses(s, key, Reward(last), last + 1, Lookup(s.events, key).eventId, now, u);
  }

  lemma ProfileRefuses(s: State, v: nat, day: int, now: int, u: nat)
    ensures QueueGold(UpdateUserData(s, v, day, now).rejected, u) ==
            QueueGold(s.rejected, u) + Refuses(s, ProfileStep(v, day, now), u)
  {
    hide SendGold, LedgerTaken, QueueGold;
    var key := Key(v, 2, day);
    if key in s.events {
      var row := s.events[key];
      var a := s.(users := AddGold(s.users, v, row.gold), events := SetStatus(s.events, key, 1));
      SendRefuses(a, GoldMsg(v, 2, row.gold, 0.0, row.eventId), now, u);
    }
  }

  lemma FeedbackRefuses(s: State, v: nat, commit: int, valid: int, op: int, day: int, now: int, u: nat)
    ensures QueueGold(EffectiveFeedback(s, v, commit, valid, op, day, now).rejected, u) ==
            QueueGold(s.rejected, u) + Refuses(s, ApproveStep(v, commit, valid, op, day, now), u)
  {
    hide SendGold, LedgerTaken, QueueGold;
    var row := Lookup(s.events, Key(v, 9, day));
    var a := s.(feedbacks := s.feedbacks[(v, commit) := Feedback(valid, 1)]);
    SendRefuses(a.(users := AddGold(a.users, v, row.gold)), GoldMsg(v, 9, row.gold, 0.0, row.eventId), now, u);
  }

  /** A registration row carries no gold for this account: it is credited in cash. */
  lemma RegisterRefuses(s: State, openId: string, day: int, now: int, u: nat)
    ensures QueueGold(Register(s, openId, day, now).rejected, u) == QueueGold(s.rejected, u)
  {
    hide TasksOf, LedgerTaken;
    var v := s.nextUser;
    CreateFrame(WithNewUser(s, openId), v, day, TasksOf(s.tasks, One));
    var row := Lookup(CreateRows(WithNewUser(s, openId), v, day, TasksOf(s.tasks, One)).events, Key(v, 1, day));
    QueueGoldAppend(s.rejected, GoldMsg(v, 1, row.gold, row.cash, row.eventId), u);
  }

  lemma QuietRefuses(s: State, step: Step)
    requires Quiet(step)
    ensures Next(s, step).rejected == s.rejected
  {
    hide HasPending, WithdrawalTaken, Approve, Trunc, TasksOf;
    if step.LoginStep? {
      CreateFrame(s, step.u, step.day, TasksOf(s.tasks, Two));
    }
  }

  lemma StepRefuses(s: State, step: Step, u: nat)
    ensures QueueGold(Next(s, step).rejected, u) == QueueGold(s.rejected, u) + Refuses(s, step, u)
  {
    hide Next, QueueGold, RefusedGold;
    match step
    case RegisterStep(openId, day, now) => NextRegister(s, openId, day, now); RegisterRefuses(s, openId, day, now, u);
    case ShareStep(_, _, _) => AwardRefuses(s, step, u);
    case ReadStep(_, _, _, _) => AwardRefuses(s, step, u);
    case SignStep(_, _, _) => AwardRefuses(s, step, u);
    case ProfileStep(v, day, now) => NextReward(s, step); ProfileRefuses(s, v, day, now, u);
    case ApproveStep(v, commit, valid, op, day, now) =>
      NextReward(s, step); FeedbackRefuses(s, v, commit, valid, op, day, now, u);
    case DrainGoldStep(now) => NextReward(s, step); DrainStepRefuses(s, now, u);
    case _ => QuietRefuses(s, step);
  }

  lemma NextRegister(s: State, openId: string, day: int, now: int)
    ensures Next(s, RegisterStep(openId, day, now)) == Register(s, openId, day, now)
  {
  }

  lemma NextReward(s: State, step: Step)
    ensures step.ProfileStep? ==> Next(s, step) == UpdateUserData(s, step.u, step.day, step.now)
    ensures step.ApproveStep? ==>
              Next(s, step) == EffectiveFeedback(s, step.u, step.commit, step.valid, step.op, step.day, step.now)
    ensures step.DrainGoldStep? ==> Next(s, step) == DrainGold(s, step.now)
  {
  }

  lemma DrainStepRefuses(s: State, now: int, u: nat)
    ensures QueueGold(DrainGold(s, now).rejected, u) == QueueGold(s.rejected, u) + Refuses(s, DrainGoldStep(now), u)
  {
    hide LedgerTaken;
    DrainRefuses(s, now, u);
  }

  /** A step keeps the ledger exact for a user if and only if it does not take a message with that user's gold whose
      primary key (user, task, second) is taken. */
  lemma StepExact(s: State, step: Step, u: nat)
    requires Wf(s) && GoldBalanced(s, u) && LedgerExact(s, u)
    ensures LedgerExact(Next(s, step), u) <==> !LosesGold(s, step, u)
  {
    hide Next, Wf, LedgerGold, QueueGold, LedgerTaken, Pays;
    assert s.nextUser !in s.users by { NewUserFree(s); }
    StepGap(s, step, u);
    StepRefuses(s, step, u);
  }

  lemma NewUserFree(s: State)
    requires Wf(s)
    ensures s.nextUser !in s.users
  {
  }

  /** Taking a message off the queue keeps the ledger exact for its user if and only if the row's primary key (user,
      task, second) is still free, or the message carries no gold. */
  lemma DrainExact(s: State, now: int)
    requires s.goldChan != [] && s.goldChan[0].taskId != 1 && LedgerExact(s, s.goldChan[0].user)
    ensures var m := s.goldChan[0];
            LedgerExact(DrainGold(s, now), m.user) <==> !LedgerTaken(s.ledger, m.user, m.taskId, now) || m.gold == 0
  {
    var m := s.goldChan[0];
    QueueGoldPop(s.goldChan, m.user);
    LedgerAppend(s.ledger, LedgerRow(m, now), m.user);
  }

  /** No step of the run loses gold of `u`. */
  predicate LosslessRun(s: State, steps: seq<Step>, u: nat) {
    steps == [] || (LosslessRun(s, steps[..|steps| - 1], u) &&
                    !LosesGold(Run(s, steps[..|steps| - 1]), steps[|steps| - 1], u))
  }

  /** The ledger tells the user's gold after every step of a run if and only if no step loses any. */
  lemma {:induction false} RunLossless(tasks: seq<TaskInfo>, steps: seq<Step>, u: nat)
    ensures (forall n :: 0 <= n <= |steps| ==> LedgerExact(Run(Init(tasks), steps[..n]), u)) <==>
            LosslessRun(Init(tasks), steps, u)
  {
    hide LosesGold, LedgerExact, GoldBalanced, Next;
    if steps == [] {
      assert LedgerExact(Init(tasks), u) by { EmptyExact(tasks, u); }
      assert steps[..0] == [];
    } else {
      var init, step := steps[..|steps| - 1], steps[|steps| - 1];
      var s := Run(Init(tasks), init);
      RunLossless(tasks, init, u);
      RunConserves(tasks, init);
      assert GoldBalanced(s, u);
      assert forall n :: 0 <= n <= |init| ==> steps[..n] == init[..n];
      assert init[..|init|] == init && steps[..|steps|] == steps;
      if LosslessRun(Init(tasks), init, u) {
        assert LedgerExact(Run(Init(tasks), init[..|init|]), u);
        StepExact(s, step, u);
      }
    }
  }

  lemma EmptyExact(tasks: seq<TaskInfo>, u: nat)
    ensures LedgerExact(Init(tasks), u)
  {
  }

  /** At the end of a run the ledger is exact for a user if and only if the inserts refused to that user carried no
      gold in sum. */
  lemma RunExact(tasks: seq<TaskInfo>, steps: seq<Step>, u: nat)
    ensures var s := Run(Init(tasks), steps); LedgerExact(s, u) <==> QueueGold(s.rejected, u) == 0
  {
    RunConserves(tasks, steps);
    assert GoldBalanced(Run(Init(tasks), steps), u);
  }

  // ----- Cash -----

  /** Cash is what the ledger adds up to, less the recorded withdrawals. */
  predicate CashExact(s: State, u: nat) {
    CashOf(s, u) == LedgerCash(s.ledger, u) - Withdrawn(s.withdrawals, u)
  }

  predicate Accepted(s: State, u: nat, amount: int) {
    u in s.users && !HasPending(s.withdrawals, u) && 30 <= amount <= Trunc(s.users[u].cash)
  }

  /** An accepted withdrawal of `u` whose primary key (user, second) is taken: the cash goes, the row does not come. */
  predicate LosesCash(s: State, step: Step, u: nat) {
    step.WithdrawStep? && step.u == u && Accepted(s, u, step.amount) && WithdrawalTaken(s.withdrawals, u, step.now)
  }

  /** An accepted withdrawal takes the cash whether or not its row is inserted: the withdrawals table stays exact if
      and only if the primary key (user, second) is free. */
  lemma WithdrawExact(s: State, u: nat, amount: int, now: int)
    requires Accepted(s, u, amount) && CashExact(s, u)
    ensures CashExact(Withdraw(s, u, amount, now), u) <==> !WithdrawalTaken(s.withdrawals, u, now)
  {
    hide HasPending, WithdrawalTaken, Trunc, LedgerCash;
    WithdrawnAppend(s.withdrawals, Withdrawal(u, 0, amount, now), u);
  }

  lemma StepUnrecorded(s: State, step: Step, u: nat)
    requires Wf(s)
    ensures var t := Next(s, step);
            t.unrecorded == s.unrecorded ||
            (step.WithdrawStep? && step.amount >= 30 && LosesCash(s, step, step.u) &&
             t.unrecorded == s.unrecorded + [Withdrawal(step.u, 0, step.amount, step.now)])
    ensures LosesCash(s, step, u) ==> Next(s, step).unrecorded != s.unrecorded
  {
    hide Register, Login, Award, SignIn, UpdateUserData, EffectiveFeedback, HasPending, WithdrawalTaken,
      Approve, Trunc, Wf;
    match step
    case RegisterStep(openId, day, now) => RegisterUnrecorded(s, openId, day, now);
    case LoginStep(v, day) => LoginUnrecorded(s, v, day);
    case ShareStep(_, _, _) => RewardCash(s, step);
    case ReadStep(_, _, _, _) => RewardCash(s, step);
    case SignStep(_, _, _) => RewardCash(s, step);
    case ProfileStep(v, day, now) => ProfileCash(s, v, day, now);
    case ApproveStep(v, commit, valid, op, day, now) => FeedbackCash(s, v, commit, valid, op, day, now);
    case DrainGoldStep(now) => DrainGoldCash(s, now);
    case _ =>
  }

  lemma RegisterUnrecorded(s: State, openId: string, day: int, now: int)
    ensures Register(s, openId, day, now).unrecorded == s.unrecorded
  {
    hide TasksOf, LedgerTaken;
    CreateFrame(WithNewUser(s, openId), s.nextUser, day, TasksOf(s.tasks, One));
  }

  lemma LoginUnrecorded(s: State, u: nat, day: int)
    ensures Login(s, u, day).unrecorded == s.unrecorded
  {
    CreateFrame(s, u, day, TasksOf(s.tasks, Two));
  }

  predicate NoLostCash(s: State, steps: seq<Step>, u: nat) {
    steps == [] || (NoLostCash(s, steps[..|steps| - 1], u) &&
                    !LosesCash(Run(s, steps[..|steps| - 1]), steps[|steps| - 1], u))
  }

  predicate NoneOf(ws: seq<Withdrawal>, u: nat) {
    forall w :: w in ws ==> w.user != u
  }

  lemma {:induction false} WithdrawnNone(ws: seq<Withdrawal>, u: nat)
    requires forall w :: w in ws ==> w.amount > 0
    ensures Withdrawn(ws, u) >= 0.0 && (Withdrawn(ws, u) == 0.0 <==> NoneOf(ws, u))
  {
    if ws != [] {
      var init, last := ws[..|ws| - 1], ws[|ws| - 1];
      WithdrawnNone(init, u);
      assert ws == init + [last];
    }
  }

  lemma {:induction false} RunUnrecorded(tasks: seq<TaskInfo>, steps: seq<Step>, u: nat)
    ensures var s := Run(Init(tasks), steps);
            && (forall w :: w in s.unrecorded ==> w.amount > 0)
            && (NoneOf(s.unrecorded, u) <==> NoLostCash(Init(tasks), steps, u))
  {
    hide LosesCash, Next;
    if steps != [] {
      var init, step := steps[..|steps| - 1], steps[|steps| - 1];
      var s := Run(Init(tasks), init);
      RunUnrecorded(tasks, init, u);
      RunShape(tasks, init);
      StepUnrecorded(s, step, u);
      LosesOwn(s, step, u);
    }
  }

  lemma LosesOwn(s: State, step: Step, u: nat)
    ensures LosesCash(s, step, u) ==> step.WithdrawStep? && step.u == u
  {
  }

  /** At the end of a run the withdrawals table tells a user's cash if and only if no withdrawal of that user was
      refused, which is to say, no accepted one met a taken primary key (user, second) on the way. */
  lemma RunCashExact(tasks: seq<TaskInfo>, steps: seq<Step>, u: nat)
    ensures var s := Run(Init(tasks), steps);
            && (CashExact(s, u) <==> NoneOf(s.unrecorded, u))
            && (CashExact(s, u) <==> NoLostCash(Init(tasks), steps, u))
  {
    hide LosesCash, NoneOf;
    var s := Run(Init(tasks), steps);
    RunConserves(tasks, steps);
    assert CashBalanced(s, u);
    RunUnrecorded(tasks, steps, u);
    WithdrawnNone(s.unrecorded, u);
  }
}
