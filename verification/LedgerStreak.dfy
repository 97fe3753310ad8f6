/** The sign-in streak: what the status of the sign-in rows counts, and what a run of days earns. */
module LedgerStreak {
  import opened LedgerModel
  import opened LedgerConservation
  import opened LedgerAwards
  import opened LedgerRuns
  import opened LedgerPayments

  function SignedDays(paid: seq<Payment>, u: nat): set<int> {
    set i | 0 <= i < |paid| && IsSign(paid[i], u) :: paid[i].key.day
  }

  predicate IsSign(p: Payment, u: nat) {
    p.Daily? && p.key.user == u && p.key.taskId == SIGN_TASK
  }

  /** The number of consecutive days of `days` that end at `d`. */
  function Streak(days: set<int>, d: int): nat
    decreases |days|
  {
    if d in days then 1 + Streak(days - {d}, d - 1) else 0
  }

  /** A streak looks back only. */
  lemma {:induction false} StreakLocal(a: set<int>, b: set<int>, d: int)
    requires forall e :: e <= d ==> (e in a <==> e in b)
    ensures Streak(a, d) == Streak(b, d)
    decreases |a|
  {
    if d in a {
      StreakLocal(a - {d}, b - {d}, d - 1);
    }
  }

  lemma StreakStep(days: set<int>, d: int)
    ensures Streak(days, d) == if d in days then 1 + Streak(days, d - 1) else 0
  {
    StreakLocal(days - {d}, days, d - 1);
  }

  // ----- The invariant -----

  /** What a sign-in request must find to keep the count: today's row, and unless that row reads as signed, nothing
      about it queued, yesterday's count as it will settle, and tomorrow unsigned. */
  ghost predicate KeepsCount(s: State, u: nat, day: int) {
    var key := Key(u, SIGN_TASK, day);
    && key in s.events
    && (s.events[key].status > 0 ||
        (Ready(s, key) && LastSign(s, u, day) == Settled(s, Key(u, SIGN_TASK, day - 1)) &&
         day + 1 !in SignedDays(s.paid, u)))
  }

  ghost predicate Orderly(s: State, step: Step) {
    step.SignStep? && step.u in s.users ==> KeepsCount(s, step.u, step.day)
  }

  ghost predicate OrderlyRun(s: State, steps: seq<Step>) {
    steps == [] || (OrderlyRun(s, steps[..|steps| - 1]) && Orderly(Run(s, steps[..|steps| - 1]), steps[|steps| - 1]))
  }

  /** Every sign-in row counts, once settled, the consecutive signed days that end at its date; and every queued
      sign-in announcement has its row. */
  ghost predicate Counted(s: State) {
    && (forall u, d :: Settled(s, Key(u, SIGN_TASK, d)) == Streak(SignedDays(s.paid, u), d))
    && (forall m :: m in s.eventChan && m.key.taskId == SIGN_TASK ==> m.key in s.events)
  }

  /** Every sign-in payment was the reward for the days signed before it. */
  ghost predicate Rewarded(s: State) {
    forall u, d :: SignGold(s.paid, u, d) ==
                   if d in SignedDays(s.paid, u) then Reward(Streak(SignedDays(s.paid, u), d) - 1) else 0
  }

  /** The rows count and every sign-in was paid its place in the reward table. */
  ghost predicate Counts(s: State) {
    Counted(s) && Rewarded(s)
  }

  function SignGold(paid: seq<Payment>, u: nat, d: int): int {
    if paid == [] then 0
    else
      var p := paid[|paid| - 1];
      SignGold(paid[..|paid| - 1], u, d) + if IsSign(p, u) && p.key.day == d then p.gold else 0
  }

  lemma SignedAppend(paid: seq<Payment>, p: Payment, u: nat, d: int)
    ensures SignedDays(paid + [p], u) == SignedDays(paid, u) + if IsSign(p, u) then {p.key.day} else {}
    ensures SignGold(paid + [p], u, d) == SignGold(paid, u, d) + if IsSign(p, u) && p.key.day == d then p.gold else 0
  {
    var q := paid + [p];
    assert q[..|paid|] == paid;
    assert forall i :: 0 <= i < |paid| ==> q[i] == paid[i];
    assert q[|paid|] == p;
    forall e ensures e in SignedDays(q, u) <==> e in SignedDays(paid, u) || (IsSign(p, u) && e == p.key.day) {
      if e in SignedDays(paid, u) {
        var i :| 0 <= i < |paid| && IsSign(paid[i], u) && paid[i].key.day == e;
        assert IsSign(q[i], u) && q[i].key.day == e;
      }
      if IsSign(p, u) && e == p.key.day {
        assert IsSign(q[|paid|], u);
      }
    }
  }

  /** Same sign-in picture: what all other steps do. */
  ghost predicate SamePicture(s: State, t: State) {
    && (forall u, d :: Settled(t, Key(u, SIGN_TASK, d)) == Settled(s, Key(u, SIGN_TASK, d)))
    && (forall m :: m in t.eventChan && m.key.taskId == SIGN_TASK ==> m in s.eventChan)
    && s.events.Keys <= t.events.Keys
    && (t.paid == s.paid || exists p: Payment :: t.paid == s.paid + [p] && !(p.Daily? && p.key.taskId == SIGN_TASK))
  }

  lemma PictureKept(s: State, t: State)
    requires Counted(s) && Rewarded(s) && SamePicture(s, t)
    ensures Counted(t) && Rewarded(t)
  {
    if t.paid != s.paid {
      var p :| t.paid == s.paid + [p] && !(p.Daily? && p.key.taskId == SIGN_TASK);
      forall u, d
        ensures SignedDays(t.paid, u) == SignedDays(s.paid, u) && SignGold(t.paid, u, d) == SignGold(s.paid, u, d)
      {
        SignedAppend(s.paid, p, u, d);
      }
    }
  }

  lemma PayPicture(s: State, key: Key, gold: int, status: int, eventId: nat, now: int)
    requires Wf(s) && key.taskId != SIGN_TASK
    ensures SamePicture(s, Pay(s, key, gold, status, eventId, now))
  {
    var t := Pay(s, key, gold, status, eventId, now);
    forall u, d ensures Settled(t, Key(u, SIGN_TASK, d)) == Settled(s, Key(u, SIGN_TASK, d)) {
      PaySettled(s, key, gold, status, eventId, now, Key(u, SIGN_TASK, d));
    }
    PaySettled(s, key, gold, status, eventId, now, key);
    PayQueue(s, key, gold, status, eventId, now);
  }

  lemma PayQueue(s: State, key: Key, gold: int, status: int, eventId: nat, now: int)
    ensures var t := Pay(s, key, gold, status, eventId, now);
            forall m :: m in t.eventChan ==> m in s.eventChan || m == EventMsg(key, status)
  {
    hide InsertLedger;
    var b := SendEvent(s.(users := AddGold(s.users, key.user, gold)), EventMsg(key, status));
    SendGoldFrame(b, GoldMsg(key.user, key.taskId, gold, 0.0, eventId), now);
  }

  lemma AwardPicture(s: State, u: nat, taskId: int, day: int, now: int)
    requires Wf(s) && taskId != SIGN_TASK
    ensures SamePicture(s, Award(s, u, taskId, day, now))
  {
    hide Pay;
    var row := Lookup(s.events, Key(u, taskId, day));
    PayPicture(s, Key(u, taskId, day), row.gold, 1, row.eventId, now);
  }

  lemma CreatePicture(s: State, u: nat, day: int, ts: seq<TaskInfo>)
    requires Wf(s) && Counted(s)
    ensures SamePicture(s, CreateRows(s, u, day, ts))
  {
    var t := CreateRows(s, u, day, ts);
    CreateFrame(s, u, day, ts);
    forall k | k in s.events ensures k in t.events {
      CreateSettled(s, u, day, ts, k);
    }
    forall v, d ensures Settled(t, Key(v, SIGN_TASK, d)) == Settled(s, Key(v, SIGN_TASK, d)) {
      CreateSettled(s, u, day, ts, Key(v, SIGN_TASK, d));
    }
  }

  lemma RegisterPicture(s: State, openId: string, day: int, now: int)
    requires Wf(s) && Counted(s)
    ensures SamePicture(s, Register(s, openId, day, now))
  {
    hide TasksOf;
    if openId !in s.openIds {
      var a := WithNewUser(s, openId);
      var ts := TasksOf(s.tasks, One);
      var b := CreateRows(a, s.nextUser, day, ts);
      assert Counted(a) by {
        assert forall k :: Settled(a, k) == Settled(s, k);
      }
      CreatePicture(a, s.nextUser, day, ts);
      CreateFrame(a, s.nextUser, day, ts);
      RegisterEventPicture(b, s.nextUser, day, now);
    }
  }

  lemma RegisterEventPicture(s: State, u: nat, day: int, now: int)
    ensures SamePicture(s, RegisterEvent(s, u, day, now))
  {
    hide LedgerTaken;
  }

  lemma ProfilePicture(s: State, u: nat, day: int, now: int)
    ensures SamePicture(s, UpdateUserData(s, u, day, now))
  {
    hide SendGold;
    var key := Key(u, 2, day);
    if u in s.users && key in s.events && s.events[key].status <= 0 {
      var row := s.events[key];
      var a := s.(users := AddGold(s.users, u, row.gold), events := SetStatus(s.events, key, 1));
      SendGoldFrame(a, GoldMsg(u, 2, row.gold, 0.0, row.eventId), now);
      var p := Profile(u, day, row.gold);
      assert UpdateUserData(s, u, day, now).paid == s.paid + [p];
    }
  }

  lemma FeedbackPicture(s: State, u: nat, commit: int, valid: int, op: int, day: int, now: int)
    ensures SamePicture(s, EffectiveFeedback(s, u, commit, valid, op, day, now))
  {
    hide LedgerTaken;
    var t := EffectiveFeedback(s, u, commit, valid, op, day, now);
    assert t.events == s.events && t.eventChan == s.eventChan;
    if t.paid != s.paid {
      var p := ForFeedback(u, commit, Lookup(s.events, Key(u, 9, day)).gold);
      assert t.paid == s.paid + [p];
    }
  }

  lemma DrainPicture(s: State)
    ensures SamePicture(s, DrainEvent(s))
  {
    forall u, d ensures Settled(DrainEvent(s), Key(u, SIGN_TASK, d)) == Settled(s, Key(u, SIGN_TASK, d)) {
      DrainSettled(s, Key(u, SIGN_TASK, d));
    }
  }

  lemma OtherPicture(s: State, step: Step)
    requires Wf(s) && Counted(s) && !step.SignStep?
    ensures SamePicture(s, Next(s, step))
  {
    hide Register, Login, Award, SignIn, UpdateUserData, EffectiveFeedback, DrainEvent,
      HasPending, WithdrawalTaken, Approve, Trunc, InsertLedger;
    match step
    case RegisterStep(openId, day, now) => RegisterPicture(s, openId, day, now);
    case LoginStep(u, day) => LoginPicture(s, u, day);
    case ShareStep(u, day, now) => AwardPicture(s, u, 4, day, now);
    case ReadStep(u, taskId, day, now) => AwardPicture(s, u, if 5 <= taskId <= 8 then taskId else 5, day, now);
    case ProfileStep(u, day, now) => ProfilePicture(s, u, day, now);
    case ApproveStep(u, commit, valid, op, day, now) => FeedbackPicture(s, u, commit, valid, op, day, now);
    case DrainEventStep => DrainPicture(s);
    case DrainGoldStep(now) => DrainGoldPicture(s, now);
    case _ =>
  }

  lemma LoginPicture(s: State, u: nat, day: int)
    requires Wf(s) && Counted(s)
    ensures SamePicture(s, Login(s, u, day))
  {
    CreatePicture(s, u, day, TasksOf(s.tasks, Two));
  }

  lemma DrainGoldPicture(s: State, now: int)
    ensures SamePicture(s, DrainGold(s, now))
  {
    hide LedgerTaken;
  }

  /** A sign-in keeps the count if and only if it finds what it must. */
  lemma SignExact(s: State, u: nat, day: int, now: int)
    requires Wf(s) && Counts(s)
    ensures Counts(SignIn(s, u, day, now)) <==> (u in s.users ==> KeepsCount(s, u, day))
  {
    hide Pay, Settled, Counted, Rewarded;
    var key := Key(u, SIGN_TASK, day);
    if u in s.users && Lookup(s.events, key).status <= 0 {
      var last := LastSign(s, u, day);
      if KeepsCount(s, u, day) {
        SignStreak(s, u, day);
        PaySign(s, key, Reward(last), last + 1, s.events[key].eventId, now);
      } else if Counts(SignIn(s, u, day, now)) {
        PayMiscounts(s, key, Reward(last), last + 1, Lookup(s.events, key).eventId, now);
        assert false;
      }
    } else {
      assert SignIn(s, u, day, now) == s;
    }
  }

  lemma SignStreak(s: State, u: nat, day: int)
    requires Wf(s) && Counted(s) && KeepsCount(s, u, day)
    requires s.events[Key(u, SIGN_TASK, day)].status <= 0
    ensures day !in SignedDays(s.paid, u)
    ensures LastSign(s, u, day) == Streak(SignedDays(s.paid, u), day - 1)
  {
    var key := Key(u, SIGN_TASK, day);
    FinalAbsent(s.events[key].status, s.eventChan, key);
    assert Settled(s, key) == Streak(SignedDays(s.paid, u), day);
    assert Settled(s, Key(u, SIGN_TASK, day - 1)) == Streak(SignedDays(s.paid, u), day - 1);
  }

  /** A payment that does not find what it must spoils the count: of today, of tomorrow, or of the gold. */
  lemma PayMiscounts(s: State, key: Key, gold: int, status: int, eventId: nat, now: int)
    requires Wf(s) && Counts(s) && key.taskId == SIGN_TASK && !KeepsCount(s, key.user, key.day)
    requires Lookup(s.events, key).status <= 0 && gold > 0 && status == LastSign(s, key.user, key.day) + 1
    ensures !Counts(Pay(s, key, gold, status, eventId, now))
  {
    hide Pay, SignGold, Settled;
    var u, day := key.user, key.day;
    var t := Pay(s, key, gold, status, eventId, now);
    var days := SignedDays(s.paid, u);
    var p := Daily(key, gold, key in s.events);
    PaySettled(s, key, gold, status, eventId, now, key);
    SignedAppend(s.paid, p, u, day);
    assert SignedDays(t.paid, u) == days + {day} && SignGold(t.paid, u, day) == SignGold(s.paid, u, day) + gold;
    StreakStep(days + {day}, day);
    StreakLocal(days + {day}, days, day - 1);
    assert Settled(s, key) == Streak(days, day) && Settled(s, Key(u, SIGN_TASK, day - 1)) == Streak(days, day - 1);
    SettledNow(s, key);
    assert day in days ==> days + {day} == days;
    if Counts(t) {
      assert Settled(t, key) == Streak(days + {day}, day);
      assert key in s.events && status == Streak(days, day - 1) + 1;
      var next := Key(u, SIGN_TASK, day + 1);
      PaySettled(s, key, gold, status, eventId, now, next);
      StreakStep(days, day + 1);
      StreakStep(days + {day}, day + 1);
      assert false;
    }
  }

  lemma SettledNow(s: State, key: Key)
    requires Wf(s) && Lookup(s.events, key).status <= 0
    ensures key !in s.events ==> Settled(s, key) == 0
    ensures Ready(s, key) ==> Settled(s, key) == 0
    ensures key in s.events && !Ready(s, key) ==> Settled(s, key) > 0
  {
    if key in s.events {
      FinalPositive(s.events[key].status, s.eventChan, key);
      if Ready(s, key) {
        FinalAbsent(s.events[key].status, s.eventChan, key);
      }
    }
  }

  lemma PaySign(s: State, key: Key, gold: int, status: int, eventId: nat, now: int)
    requires Wf(s) && Counted(s) && Rewarded(s) && key.taskId == SIGN_TASK && key in s.events
    requires key.day !in SignedDays(s.paid, key.user)
    requires key.day + 1 !in SignedDays(s.paid, key.user)
    requires status == Streak(SignedDays(s.paid, key.user), key.day - 1) + 1 && gold == Reward(status - 1)
    ensures Counted(Pay(s, key, gold, status, eventId, now)) && Rewarded(Pay(s, key, gold, status, eventId, now))
  {
    hide Pay, Settled, Streak, SignGold, Reward;
    var t := Pay(s, key, gold, status, eventId, now);
    PayQueue(s, key, gold, status, eventId, now);
    forall u, d
      ensures Settled(t, Key(u, SIGN_TASK, d)) == Streak(SignedDays(t.paid, u), d)
      ensures SignGold(t.paid, u, d) ==
              if d in SignedDays(t.paid, u) then Reward(Streak(SignedDays(t.paid, u), d) - 1) else 0
    {
      PaySettled(s, key, gold, status, eventId, now, Key(u, SIGN_TASK, d));
      SignedAppend(s.paid, Daily(key, gold, true), u, d);
      assert Settled(s, Key(u, SIGN_TASK, d)) == Streak(SignedDays(s.paid, u), d);
      assert SignGold(s.paid, u, d) ==
             if d in SignedDays(s.paid, u) then Reward(Streak(SignedDays(s.paid, u), d) - 1) else 0;
      if u == key.user {
        LongerStreak(SignedDays(s.paid, u), key.day, d);
      } else {
        assert SignedDays(t.paid, u) == SignedDays(s.paid, u);
      }
    }
    PaySettled(s, key, gold, status, eventId, now, key);
  }

  lemma {:induction false} LongerStreak(days: set<int>, day: int, d: int)
    requires day !in days && day + 1 !in days
    ensures Streak(days + {day}, d) == if d == day then Streak(days, day - 1) + 1 else Streak(days, d)
    decreases d - day
  {
    if d < day {
      StreakLocal(days, days + {day}, d);
    } else if d == day {
      StreakStep(days + {day}, day);
      StreakLocal(days, days + {day}, day - 1);
    } else {
      StreakStep(days, d);
      StreakStep(days + {day}, d);
      if d > day + 1 {
        LongerStreak(days, day, d - 1);
      }
    }
  }

  /** The sign-in rows count streaks, and every sign-in was paid its place in the reward table, after every step of a
      run if and only if each sign-in finds what it must, whatever else happens in between. */
  lemma {:induction false} RunCounts(tasks: seq<TaskInfo>, steps: seq<Step>)
    ensures (forall n :: 0 <= n <= |steps| ==> Counts(Run(Init(tasks), steps[..n]))) <==>
            OrderlyRun(Init(tasks), steps)
  {
    hide Counts, Orderly, Next;
    if steps == [] {
      assert Counts(Init(tasks)) by { EmptyCounts(tasks); }
      assert steps[..0] == [];
    } else {
      var init, step := steps[..|steps| - 1], steps[|steps| - 1];
      var s := Run(Init(tasks), init);
      RunCounts(tasks, init);
      assert forall n :: 0 <= n <= |init| ==> steps[..n] == init[..n];
      assert init[..|init|] == init && steps[..|steps|] == steps;
      if OrderlyRun(Init(tasks), init) {
        assert Counts(Run(Init(tasks), init[..|init|]));
        RunShape(tasks, init);
        StepCounts(s, step);
      }
    }
  }

  lemma EmptyCounts(tasks: seq<TaskInfo>)
    ensures Counts(Init(tasks))
  {
    assert forall u :: SignedDays(Init(tasks).paid, u) == {};
  }

  lemma OrderlyCounts(tasks: seq<TaskInfo>, steps: seq<Step>)
    requires OrderlyRun(Init(tasks), steps)
    ensures Counts(Run(Init(tasks), steps))
  {
    RunCounts(tasks, steps);
    assert steps[..|steps|] == steps;
  }

  /** Only a sign-in can spoil the count, and it does if and only if it does not find what it must. */
  lemma StepCounts(s: State, step: Step)
    requires Wf(s) && Counts(s)
    ensures Counts(Next(s, step)) <==> Orderly(s, step)
  {
    hide Counted, Rewarded, SamePicture, KeepsCount, SignIn;
    if step.SignStep? {
      SignExact(s, step.u, step.day, step.now);
    } else {
      OtherPicture(s, step);
      PictureKept(s, Next(s, step));
    }
  }

  // ----- What a run of days earns -----

  function Earned(paid: seq<Payment>, u: nat, from: int, n: nat): int {
    if n == 0 then 0 else Earned(paid, u, from, n - 1) + SignGold(paid, u, from + n - 1)
  }

  function RunReward(n: nat): int {
    if n <= 7 then 10 * n + 5 * n * (n - 1) / 2 else 175 + 40 * (n - 7)
  }

  lemma {:induction false} StreakOf(days: set<int>, from: int, n: nat)
    requires from - 1 !in days && forall e :: from <= e < from + n ==> e in days
    ensures Streak(days, from + n - 1) == n
  {
    if n > 0 {
      StreakOf(days, from, n - 1);
      StreakStep(days, from + n - 1);
    }
  }

  lemma {:induction false} RewardedEarns(s: State, u: nat, from: int, n: nat)
    requires Rewarded(s)
    requires from - 1 !in SignedDays(s.paid, u)
    requires forall e :: from <= e < from + n ==> e in SignedDays(s.paid, u)
    ensures Earned(s.paid, u, from, n) == RunReward(n)
  {
    if n > 0 {
      RewardedEarns(s, u, from, n - 1);
      StreakOf(SignedDays(s.paid, u), from, n);
      assert SignGold(s.paid, u, from + n - 1) == Reward(n - 1);
      RewardStep(n);
    }
  }

  /** The gold of all rewards to `u` other than the sign-ins of the `n` days. */
  function OtherGold(paid: seq<Payment>, u: nat, from: int, n: nat): int {
    if paid == [] then 0
    else
      var p := paid[|paid| - 1];
      OtherGold(paid[..|paid| - 1], u, from, n) +
      if IsSign(p, u) && from <= p.key.day < from + n then 0 else PaymentTo(p, u)
  }

  lemma {:induction false} OneMoreDay(paid: seq<Payment>, u: nat, from: int, n: nat)
    ensures OtherGold(paid, u, from, n) == OtherGold(paid, u, from, n + 1) + SignGold(paid, u, from + n)
    ensures n == 0 ==> OtherGold(paid, u, from, n) == PaidTo(paid, u)
  {
    if paid != [] {
      OneMoreDay(paid[..|paid| - 1], u, from, n);
    }
  }

  lemma {:induction false} PaidSplits(paid: seq<Payment>, u: nat, from: int, n: nat)
    ensures PaidTo(paid, u) == Earned(paid, u, from, n) + OtherGold(paid, u, from, n)
  {
    if n == 0 {
      OneMoreDay(paid, u, from, 0);
    } else {
      PaidSplits(paid, u, from, n - 1);
      OneMoreDay(paid, u, from, n - 1);
    }
  }

  /** In every run that counts, `n` consecutive signed days that start a streak have put 10n + 5n(n-1)/2 gold, for n
      up to 7, and 175 + 40(n-7) beyond, into the user's balance, on top of what all other rewards paid. */
  lemma StreakEarns(tasks: seq<TaskInfo>, steps: seq<Step>, u: nat, from: int, n: nat)
    requires OrderlyRun(Init(tasks), steps)
    requires from - 1 !in SignedDays(Run(Init(tasks), steps).paid, u)
    requires forall e :: from <= e < from + n ==> e in SignedDays(Run(Init(tasks), steps).paid, u)
    ensures var s := Run(Init(tasks), steps);
            Earned(s.paid, u, from, n) == RunReward(n) && GoldOf(s, u) == RunReward(n) + OtherGold(s.paid, u, from, n)
  {
    var s := Run(Init(tasks), steps);
    OrderlyCounts(tasks, steps);
    RewardedEarns(s, u, from, n);
    PaidSplits(s.paid, u, from, n);
    RunPaid(tasks, steps, u);
  }

  lemma RewardStep(n: nat)
    requires n > 0
    ensures RunReward(n) == RunReward(n - 1) + Reward(n - 1)
  {
    assert n <= 7 ==> n == 1 || n == 2 || n == 3 || n == 4 || n == 5 || n == 6 || n == 7;
  }

  // ----- The count shown at login -----

  /** `UserLogin`: today's count, or the one a sign-in would reach. */
  function SignCount(s: State, u: nat, day: int): int {
    var today := Lookup(s.events, Key(u, SIGN_TASK, day)).status;
    var yesterday := LastSign(s, u, day);
    if today > 0 then today else if yesterday > 0 then yesterday + 1 else 1
  }

  /** The count shown at login is the streak that signing in today makes or has made: when today reads as signed and
      nothing about it is queued, and when it does not, exactly if yesterday's count reads as it will settle. */
  lemma LoginPredicts(s: State, u: nat, day: int)
    requires Wf(s) && Counted(s)
    ensures var key := Key(u, SIGN_TASK, day);
            var predicted := SignCount(s, u, day) == Streak(SignedDays(s.paid, u) + {day}, day);
            && (Lookup(s.events, key).status > 0 && Ready(s, key) ==> predicted)
            && (Lookup(s.events, key).status == 0 ==>
                  (predicted <==> LastSign(s, u, day) == Settled(s, Key(u, SIGN_TASK, day - 1))))
  {
    var key, before := Key(u, SIGN_TASK, day), Key(u, SIGN_TASK, day - 1);
    var days := SignedDays(s.paid, u);
    StreakStep(days + {day}, day);
    StreakStep(days, day);
    StreakLocal(days + {day}, days, day - 1);
    assert Settled(s, key) == Streak(days, day) && Settled(s, before) == Streak(days, day - 1);
    assert LastSign(s, u, day) >= 0;
    if Ready(s, key) {
      FinalAbsent(s.events[key].status, s.eventChan, key);
    }
  }

  /** Why yesterday's announcement must have been drained: while it is queued, yesterday reads zero, and signing in
      starts the count again whatever the streak was. */
  lemma UndrainedResets(s: State, u: nat, day: int, now: int)
    requires u in s.users && Key(u, SIGN_TASK, day) in s.events && s.events[Key(u, SIGN_TASK, day)].status == 0
    requires LastSign(s, u, day) == 0 && Settled(s, Key(u, SIGN_TASK, day - 1)) > 0
    ensures var key := Key(u, SIGN_TASK, day);
            && SignIn(s, u, day, now).paid == s.paid + [Daily(key, 10, true)]
            && Settled(SignIn(s, u, day, now), key) == 1 < Settled(s, Key(u, SIGN_TASK, day - 1)) + 1
  {
    hide Pay;
    var key := Key(u, SIGN_TASK, day);
    PaySettled(s, key, 10, 1, s.events[key].eventId, now, key);
  }
}
