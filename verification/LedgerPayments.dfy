/** The rewards answered with success are the whole of everyone's gold. */
module LedgerPayments {
  import opened LedgerModel
  import opened LedgerConservation
  import opened LedgerAwards
  import opened LedgerRuns

  function PaymentTo(p: Payment, u: nat): int {
    match p
    case Daily(key, gold, _) => if key.user == u then gold else 0
    case Profile(user, _, gold) => if user == u then gold else 0
    case ForFeedback(user, _, gold) => if user == u then gold else 0
  }

  /** The gold of all rewards answered to a user. */
  function PaidTo(paid: seq<Payment>, u: nat): int {
    if paid == [] then 0 else PaidTo(paid[..|paid| - 1], u) + PaymentTo(paid[|paid| - 1], u)
  }

  lemma PaidAppend(paid: seq<Payment>, p: Payment, u: nat)
    ensures PaidTo(paid + [p], u) == PaidTo(paid, u) + PaymentTo(p, u)
  {
    assert (paid + [p])[..|paid|] == paid;
  }

  /** Gold that no reward accounts for. */
  function PaidGap(s: State, u: nat): int {
    GoldOf(s, u) - PaidTo(s.paid, u)
  }

  lemma PayPaid(s: State, key: Key, gold: int, status: int, eventId: nat, now: int, u: nat)
    requires key.user in s.users
    ensures PaidGap(Pay(s, key, gold, status, eventId, now), u) == PaidGap(s, u)
  {
    hide Pay;
    PayCredits(s, key, gold, status, eventId, now);
    PaySettled(s, key, gold, status, eventId, now, key);
    PaidAppend(s.paid, Daily(key, gold, key in s.events), u);
  }

  lemma AwardPaid(s: State, v: nat, taskId: int, day: int, now: int, u: nat)
    ensures PaidGap(Award(s, v, taskId, day, now), u) == PaidGap(s, u)
  {
    hide Pay, PaidGap;
    var row := Lookup(s.events, Key(v, taskId, day));
    if v in s.users {
      PayPaid(s, Key(v, taskId, day), row.gold, 1, row.eventId, now, u);
    }
  }

  lemma SignPaid(s: State, v: nat, day: int, now: int, u: nat)
    ensures PaidGap(SignIn(s, v, day, now), u) == PaidGap(s, u)
  {
    hide Pay, PaidGap;
    var key, last := Key(v, SIGN_TASK, day), LastSign(s, v, day);
    if v in s.users {
      PayPaid(s, key, Reward(last), last + 1, Lookup(s.events, key).eventId, now, u);
    }
  }

  lemma ProfilePaid(s: State, v: nat, day: int, now: int, u: nat)
    ensures PaidGap(UpdateUserData(s, v, day, now), u) == PaidGap(s, u)
  {
    hide SendGold;
    var key := Key(v, 2, day);
    if v in s.users && key in s.events {
      var row := s.events[key];
      var a := s.(users := AddGold(s.users, v, row.gold), events := SetStatus(s.events, key, 1));
      SendGoldFrame(a, GoldMsg(v, 2, row.gold, 0.0, row.eventId), now);
      PaidAppend(s.paid, Profile(v, day, row.gold), u);
    }
  }

  lemma FeedbackPaid(s: State, v: nat, commit: int, valid: int, op: int, day: int, now: int, u: nat)
    ensures PaidGap(EffectiveFeedback(s, v, commit, valid, op, day, now), u) == PaidGap(s, u)
  {
    hide SendGold;
    if v in s.users {
      var row := Lookup(s.events, Key(v, 9, day));
      var a := s.(feedbacks := s.feedbacks[(v, commit) := Feedback(valid, 1)]);
      var b := a.(users := AddGold(a.users, v, row.gold));
      SendGoldFrame(b, GoldMsg(v, 9, row.gold, 0.0, row.eventId), now);
      PaidAppend(s.paid, ForFeedback(v, commit, row.gold), u);
    }
  }

  lemma RegisterPaid(s: State, openId: string, day: int, now: int, u: nat)
    requires s.nextUser !in s.users
    ensures PaidGap(Register(s, openId, day, now), u) == PaidGap(s, u)
  {
    hide TasksOf, LedgerTaken;
    CreateFrame(WithNewUser(s, openId), s.nextUser, day, TasksOf(s.tasks, One));
  }

  /** The steps that answer no reward. */
  lemma PlainPaid(s: State, step: Step, u: nat)
    requires Quiet(step) || step.DrainGoldStep?
    ensures PaidGap(Next(s, step), u) == PaidGap(s, u)
  {
    hide HasPending, WithdrawalTaken, Approve, Trunc, TasksOf, LedgerTaken, PaidTo;
    if step.LoginStep? {
      CreateFrame(s, step.u, step.day, TasksOf(s.tasks, Two));
    }
  }

  lemma StepPaid(s: State, step: Step, u: nat)
    requires s.nextUser !in s.users
    ensures PaidGap(Next(s, step), u) == PaidGap(s, u)
  {
    hide Register, Award, SignIn, UpdateUserData, EffectiveFeedback, PaidGap;
    match step
    case RegisterStep(openId, day, now) => RegisterPaid(s, openId, day, now, u);
    case ShareStep(v, day, now) => AwardPaid(s, v, 4, day, now, u);
    case ReadStep(v, taskId, day, now) => AwardPaid(s, v, taskId, day, now, u);
    case SignStep(v, day, now) => SignPaid(s, v, day, now, u);
    case ProfileStep(v, day, now) => ProfilePaid(s, v, day, now, u);
    case ApproveStep(v, commit, valid, op, day, now) => FeedbackPaid(s, v, commit, valid, op, day, now, u);
    case _ => PlainPaid(s, step, u);
  }

  /** In every reachable state a user's balance is the sum of the rewards answered to that user: what is shown of the
      rewards is shown of the gold. */
  lemma {:induction false} RunPaid(tasks: seq<TaskInfo>, steps: seq<Step>, u: nat)
    ensures var s := Run(Init(tasks), steps); GoldOf(s, u) == PaidTo(s.paid, u)
  {
    if steps != [] {
      var s := Run(Init(tasks), steps[..|steps| - 1]);
      RunPaid(tasks, steps[..|steps| - 1], u);
      RunShape(tasks, steps[..|steps| - 1]);
      StepPaid(s, steps[|steps| - 1], u);
    }
  }
}
