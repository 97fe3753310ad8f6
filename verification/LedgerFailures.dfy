/** Runs from an empty server in which the reward server does not do what it is for. */
module LedgerFailures {
  import opened LedgerModel
  import opened LedgerConservation
  import opened LedgerRuns
  import opened LedgerExactness
  import opened LedgerAwards
  import opened LedgerStreak

  // ----- The ledger loses a row -----

  /** User 1 registers, logs in and posts two feedbacks. */
  const TWO_POSTS := [RegisterStep("a", 1, 1), LoginStep(1, 1), PostStep(1, true, 2), PostStep(1, true, 3)]

  /** Both feedbacks are approved and drained within one second: the second row is refused, and the ledger is short
      by its reward from then on. */
  lemma LedgerLosesRow(now: int)
    ensures var s := Run(Init([TaskInfo(9, Two, 1, 50, 0.0)]),
                         TWO_POSTS + [ApproveStep(1, 2, 1, 0, 1, 4), ApproveStep(1, 3, 1, 0, 1, 5)]
                                   + [DrainGoldStep(now), DrainGoldStep(now)]);
            s.goldChan == [] && GoldOf(s, 1) == 100 && LedgerGold(s.ledger, 1) == 50 && !LedgerExact(s, 1)
  {
    LoseRow(Init([TaskInfo(9, Two, 1, 50, 0.0)]), TWO_POSTS, [TaskInfo(9, Two, 1, 50, 0.0)], now);
  }

  lemma LoseRow(s: State, start: seq<Step>, tasks: seq<TaskInfo>, now: int)
    requires tasks == [TaskInfo(9, Two, 1, 50, 0.0)] && s == Init(tasks) && start == TWO_POSTS
    ensures var t := Run(s, start + [ApproveStep(1, 2, 1, 0, 1, 4), ApproveStep(1, 3, 1, 0, 1, 5)]
                                  + [DrainGoldStep(now), DrainGoldStep(now)]);
            t.goldChan == [] && GoldOf(t, 1) == 100 && LedgerGold(t.ledger, 1) == 50
  {
    hide Run, Next;
    var a, b := ApproveStep(1, 2, 1, 0, 1, 4), ApproveStep(1, 3, 1, 0, 1, 5);
    TwoFeedbacks(s, tasks);
    ApproveBoth(Run(s, start));
    RunTwo(s, start, a, b);
    DrainBoth(Run(s, start + [a, b]), now);
    RunTwo(s, start + [a, b], DrainGoldStep(now), DrainGoldStep(now));
  }

  /** User 1, logged in today, with two feedbacks waiting. */
  predicate FeedbacksWaiting(s: State) {
    && s.users == map[1 := User(0, 0.0)] && s.events == map[Key(1, 9, 1) := Event(0, 50, 0.0, 1)]
    && s.feedbacks == map[(1, 2) := Feedback(0, 0), (1, 3) := Feedback(0, 0)]
    && s.goldChan == [] && s.ledger == [LedgerRow(GoldMsg(1, 1, 0, 0.0, 0), 1)]
  }

  lemma TwoFeedbacks(s: State, tasks: seq<TaskInfo>)
    requires tasks == [TaskInfo(9, Two, 1, 50, 0.0)] && s == Init(tasks)
    ensures FeedbacksWaiting(Run(s, TWO_POSTS))
  {
    hide Next, Run;
    var a, b, c, d := TWO_POSTS[0], TWO_POSTS[1], TWO_POSTS[2], TWO_POSTS[3];
    RegisterFirst(s, tasks);
    LoginFirst(Register(s, "a", 1, 1), tasks);
    PostTwo(Login(Register(s, "a", 1, 1), 1, 1));
    RunNone(s);
    RunTwo(s, [], a, b);
    RunTwo(s, [a, b], c, d);
    NextFour(s, a, b, c, d);
    assert [] + [a, b] == [a, b];
    assert [a, b] + [c, d] == TWO_POSTS;
  }

  lemma NextFour(s: State, a: Step, b: Step, c: Step, d: Step)
    requires a == RegisterStep("a", 1, 1) && b == LoginStep(1, 1)
      && c == PostStep(1, true, 2) && d == PostStep(1, true, 3)
    ensures Next(Next(Next(Next(s, a), b), c), d) ==
            PostFeedback(PostFeedback(Login(Register(s, "a", 1, 1), 1, 1), 1, true, 2), 1, true, 3)
  {
    hide Register, Login, PostFeedback;
  }

  lemma RegisterFirst(s: State, tasks: seq<TaskInfo>)
    requires tasks == [TaskInfo(9, Two, 1, 50, 0.0)] && s == Init(tasks)
    ensures var t := Register(s, "a", 1, 1);
            && t.users == map[1 := User(0, 0.0)] && t.events == map[] && t.nextEvent == 1 && t.tasks == tasks
            && t.ledger == [LedgerRow(GoldMsg(1, 1, 0, 0.0, 0), 1)] && t.feedbacks == map[] && t.goldChan == []
  {
    assert tasks[..0] == [];
    assert TasksOf(tasks, One) == [];
  }

  lemma LoginFirst(s: State, tasks: seq<TaskInfo>)
    requires tasks == [TaskInfo(9, Two, 1, 50, 0.0)] && s.tasks == tasks
    requires s.users == map[1 := User(0, 0.0)] && s.events == map[] && s.nextEvent == 1
    ensures var key := Key(1, 9, 1); Login(s, 1, 1) == s.(events := map[key := Event(0, 50, 0.0, 1)], nextEvent := 2)
  {
    assert tasks[..0] == [];
    assert TasksOf(tasks, Two) == tasks;
    assert CreateRows(s, 1, 1, []) == s;
  }

  lemma PostTwo(s: State)
    requires s.users == map[1 := User(0, 0.0)] && s.feedbacks == map[]
    ensures var t := PostFeedback(PostFeedback(s, 1, true, 2), 1, true, 3);
            t == s.(feedbacks := map[(1, 2) := Feedback(0, 0), (1, 3) := Feedback(0, 0)])
  {
    var t := PostFeedback(s, 1, true, 2);
    assert t == s.(feedbacks := map[(1, 2) := Feedback(0, 0)]);
  }

  lemma ApproveBoth(s: State)
    requires FeedbacksWaiting(s)
    ensures var t := Next(Next(s, ApproveStep(1, 2, 1, 0, 1, 4)), ApproveStep(1, 3, 1, 0, 1, 5));
            t.goldChan == [GoldMsg(1, 9, 50, 0.0, 1), GoldMsg(1, 9, 50, 0.0, 1)]
            && t.ledger == s.ledger && GoldOf(t, 1) == 100
  {
    var m := GoldMsg(1, 9, 50, 0.0, 1);
    var t := Next(s, ApproveStep(1, 2, 1, 0, 1, 4));
    assert t.goldChan == [m] && t.users == map[1 := User(50, 0.0)] && t.feedbacks[(1, 3)] == Feedback(0, 0);
    assert t.goldChan + [m] == [m, m];
  }

  lemma DrainBoth(s: State, now: int)
    requires s.goldChan == [GoldMsg(1, 9, 50, 0.0, 1), GoldMsg(1, 9, 50, 0.0, 1)]
    requires s.ledger == [LedgerRow(GoldMsg(1, 1, 0, 0.0, 0), 1)]
    ensures var t := Next(Next(s, DrainGoldStep(now)), DrainGoldStep(now));
            t.goldChan == [] && GoldOf(t, 1) == GoldOf(s, 1) && LedgerGold(t.ledger, 1) == 50
  {
    var m := GoldMsg(1, 9, 50, 0.0, 1);
    var row := LedgerRow(m, now);
    var t := DrainGold(s, now);
    assert t.ledger == s.ledger + [row] && t.goldChan == [m];
    assert t.ledger[1] == row;
    LedgerAppend(s.ledger, row, 1);
    assert s.ledger[..0] == [];
    assert LedgerGold(s.ledger, 1) == 0;
  }

  // ----- Short runs -----

  lemma RunThree(s: State, a: Step, b: Step, c: Step)
    ensures Run(s, [a, b, c]) == Next(Next(Next(s, a), b), c)
  {
    hide Run, Next;
    RunNone(s);
    RunAppend(s, [], a);
    RunTwo(s, [a], b, c);
    assert [] + [a] == [a] && [a] + [b, c] == [a, b, c];
  }

  lemma RunFour(s: State, a: Step, b: Step, c: Step, d: Step)
    ensures Run(s, [a, b, c, d]) == Next(Next(Next(Next(s, a), b), c), d)
  {
    hide Run, Next;
    RunThree(s, a, b, c);
    RunAppend(s, [a, b, c], d);
    assert [a, b, c] + [d] == [a, b, c, d];
  }

  lemma RunFive(s: State, a: Step, b: Step, c: Step, d: Step, e: Step)
    ensures Run(s, [a, b, c, d, e]) == Next(Next(Next(Next(Next(s, a), b), c), d), e)
  {
    hide Run, Next;
    RunFour(s, a, b, c, d);
    RunAppend(s, [a, b, c, d], e);
    assert [a, b, c, d] + [e] == [a, b, c, d, e];
  }

  /** User 1 and nobody else, without event rows or rewards. */
  predicate NewUser(s: State, tasks: seq<TaskInfo>) {
    && s.tasks == tasks && s.users == map[1 := User(0, 0.0)] && s.events == map[] && s.nextEvent == 1
    && s.eventChan == [] && s.goldChan == [] && s.paid == []
  }

  /** Registering user 1 when no entry is created at registration. */
  lemma RegisterOnly(tasks: seq<TaskInfo>, openId: string)
    requires TasksOf(tasks, One) == []
    ensures NewUser(Next(Init(tasks), RegisterStep(openId, 1, 1)), tasks)
  {
  }

  /** Logging in when one entry is created at login. */
  lemma LoginOnly(s: State, day: int, t: TaskInfo)
    requires 1 in s.users && s.tasks == [t] && t.taskType == Two && t.status == 1 && Key(1, t.taskId, day) !in s.events
    ensures Next(s, LoginStep(1, day)) ==
            s.(events := s.events[Key(1, t.taskId, day) := Event(0, t.gold, t.cash, s.nextEvent)],
              nextEvent := s.nextEvent + 1)
  {
    SingleTask(t);
    assert CreateRows(s, 1, day, []) == s;
    assert [t][..0] == [];
  }

  lemma SingleTask(t: TaskInfo)
    ensures TasksOf([t], One) == (if t.taskType == One then [t] else [])
    ensures TasksOf([t], Two) == (if t.taskType == Two then [t] else [])
  {
    assert [t][..0] == [];
    assert TasksOf([], One) == [] && TasksOf([], Two) == [];
  }

  // ----- A reward is paid twice -----

  const SHARE := TaskInfo(4, Two, 1, 40, 0.0)

  /** Sharing twice before the announcement is drained pays twice for one task and day. */
  lemma SharePaidTwice()
    ensures var s := Run(Init([SHARE]), [RegisterStep("a", 1, 1), LoginStep(1, 1),
                                         ShareStep(1, 1, 2), ShareStep(1, 1, 3)]);
            GoldOf(s, 1) == 80 && s.paid == [Daily(Key(1, 4, 1), 40, true), Daily(Key(1, 4, 1), 40, true)]
  {
    hide Run, Next;
    RunFour(Init([SHARE]), RegisterStep("a", 1, 1), LoginStep(1, 1), ShareStep(1, 1, 2), ShareStep(1, 1, 3));
    SingleTask(SHARE);
    RegisterOnly([SHARE], "a");
    var s := Next(Init([SHARE]), RegisterStep("a", 1, 1));
    LoginOnly(s, 1, SHARE);
    ShareTwice(Next(s, LoginStep(1, 1)));
  }

  lemma ShareTwice(s: State)
    requires s.users == map[1 := User(0, 0.0)] && s.events == map[Key(1, 4, 1) := Event(0, 40, 0.0, 1)]
    requires s.eventChan == [] && s.goldChan == [] && s.paid == []
    ensures var t := Next(Next(s, ShareStep(1, 1, 2)), ShareStep(1, 1, 3));
            GoldOf(t, 1) == 80 && t.paid == [Daily(Key(1, 4, 1), 40, true), Daily(Key(1, 4, 1), 40, true)]
  {
    var t := Next(s, ShareStep(1, 1, 2));
    assert t.events == s.events && t.users == map[1 := User(40, 0.0)] && t.paid == [Daily(Key(1, 4, 1), 40, true)];
    assert |t.eventChan| == 1 && |t.goldChan| == 1;
  }

  // ----- A sign-in without a row -----

  /** Signing in twice on a day for which there is no row pays twice. */
  lemma SignPaidTwice()
    ensures var s := Run(Init([]), [RegisterStep("a", 1, 1), SignStep(1, 1, 2), SignStep(1, 1, 3)]);
            GoldOf(s, 1) == 20 && s.paid == [Daily(Key(1, 3, 1), 10, false), Daily(Key(1, 3, 1), 10, false)]
  {
    hide Run, Next;
    RunThree(Init([]), RegisterStep("a", 1, 1), SignStep(1, 1, 2), SignStep(1, 1, 3));
    assert TasksOf([], One) == [];
    RegisterOnly([], "a");
    SignTwice(Next(Init([]), RegisterStep("a", 1, 1)));
  }

  lemma SignTwice(s: State)
    requires NewUser(s, [])
    ensures var t := Next(Next(s, SignStep(1, 1, 2)), SignStep(1, 1, 3));
            GoldOf(t, 1) == 20 && t.paid == [Daily(Key(1, 3, 1), 10, false), Daily(Key(1, 3, 1), 10, false)]
  {
    var t := Next(s, SignStep(1, 1, 2));
    assert t.events == map[] && t.users == map[1 := User(10, 0.0)] && t.paid == [Daily(Key(1, 3, 1), 10, false)];
    assert |t.eventChan| == 1 && |t.goldChan| == 1;
  }

  // ----- A streak starts again -----

  const SIGN := TaskInfo(SIGN_TASK, Two, 1, 0, 0.0)

  /** Signing in on the second day while the first day's announcement is queued pays 10 and will be recorded as a
      streak of 1, although two consecutive days have been signed. */
  lemma StreakLost()
    ensures var s := Run(Init([SIGN]), [RegisterStep("a", 1, 1), LoginStep(1, 1), SignStep(1, 1, 2), LoginStep(1, 2),
                                        SignStep(1, 2, 3)]);
            && s.paid == [Daily(Key(1, 3, 1), 10, true), Daily(Key(1, 3, 2), 10, true)]
            && Settled(s, Key(1, 3, 2)) == 1 && Streak(SignedDays(s.paid, 1), 2) == 2
  {
    hide Run, Next;
    RunFive(Init([SIGN]), RegisterStep("a", 1, 1), LoginStep(1, 1),
            SignStep(1, 1, 2), LoginStep(1, 2), SignStep(1, 2, 3));
    SingleTask(SIGN);
    RegisterOnly([SIGN], "a");
    var a := Next(Init([SIGN]), RegisterStep("a", 1, 1));
    LoginOnly(a, 1, SIGN);
    var b := Next(a, LoginStep(1, 1));
    SignFirst(b);
    var c := Next(b, SignStep(1, 1, 2));
    LoginOnly(c, 2, SIGN);
    SignSecond(Next(c, LoginStep(1, 2)));
  }

  lemma SignFirst(s: State)
    requires s.users == map[1 := User(0, 0.0)] && s.events == map[Key(1, 3, 1) := Event(0, 0, 0.0, 1)]
    requires s.eventChan == [] && s.goldChan == [] && s.paid == [] && s.tasks == [SIGN]
    ensures var t := Next(s, SignStep(1, 1, 2));
            && t.users == map[1 := User(10, 0.0)] && t.events == s.events && t.tasks == [SIGN]
            && t.eventChan == [EventMsg(Key(1, 3, 1), 1)] && |t.goldChan| == 1
            && t.paid == [Daily(Key(1, 3, 1), 10, true)]
  {
  }

  lemma SignSecond(s: State)
    requires s.users == map[1 := User(10, 0.0)] && s.eventChan == [EventMsg(Key(1, 3, 1), 1)] && |s.goldChan| == 1
    requires Key(1, 3, 1) in s.events && s.events[Key(1, 3, 1)].status == 0
    requires Key(1, 3, 2) in s.events && s.events[Key(1, 3, 2)].status == 0
    requires s.paid == [Daily(Key(1, 3, 1), 10, true)]
    ensures var t := Next(s, SignStep(1, 2, 3));
            && t.paid == [Daily(Key(1, 3, 1), 10, true), Daily(Key(1, 3, 2), 10, true)]
            && Settled(t, Key(1, 3, 2)) == 1 && Streak(SignedDays(t.paid, 1), 2) == 2
  {
    hide Pay, Streak;
    var key := Key(1, 3, 2);
    PaySettled(s, key, 10, 1, s.events[key].eventId, 3, key);
    TwoDays(s.paid, Daily(key, 10, true));
  }

  lemma TwoDays(paid: seq<Payment>, p: Payment)
    requires paid == [Daily(Key(1, 3, 1), 10, true)] && p == Daily(Key(1, 3, 2), 10, true)
    ensures Streak(SignedDays(paid + [p], 1), 2) == 2
  {
    SignedAppend([], paid[0], 1, 1);
    assert SignedDays([], 1) == {} && [] + [paid[0]] == paid;
    SignedAppend(paid, p, 1, 2);
    assert SignedDays(paid + [p], 1) == {1, 2};
    StreakStep({1, 2}, 2);
    StreakStep({1, 2}, 1);
    StreakStep({1, 2}, 0);
  }

  // ----- A withdrawal is not recorded -----

  const BONUS := TaskInfo(1, One, 1, 0, 100.0)

  /** Two withdrawals within one second, the first approved in between: both take cash, one is recorded. */
  lemma WithdrawalLost()
    ensures var s := Run(Init([BONUS]), [RegisterStep("a", 1, 1), WithdrawStep(1, 30, 5), HandleStep(1, 5, 0),
                                         WithdrawStep(1, 30, 5)]);
            CashOf(s, 1) == 40.0 && s.withdrawals == [Withdrawal(1, 1, 30, 5)] && !CashExact(s, 1)
  {
    hide Run, Next;
    RunFour(Init([BONUS]), RegisterStep("a", 1, 1), WithdrawStep(1, 30, 5),
            HandleStep(1, 5, 0), WithdrawStep(1, 30, 5));
    RegisterBonus("a");
    WithdrawTwice(Next(Init([BONUS]), RegisterStep("a", 1, 1)));
  }

  lemma RegisterBonus(openId: string)
    ensures var s := Next(Init([BONUS]), RegisterStep(openId, 1, 1));
            && s.users == map[1 := User(0, 100.0)] && s.withdrawals == [] && s.unrecorded == []
            && s.ledger == [LedgerRow(GoldMsg(1, 1, 0, 100.0, 1), 1)]
  {
    SingleTask(BONUS);
    assert [BONUS][..0] == [];
    var a := WithNewUser(Init([BONUS]), openId);
    assert CreateRows(a, 1, 1, []) == a;
    assert CreateRows(a, 1, 1, [BONUS]) ==
           a.(events := map[Key(1, 1, 1) := Event(0, 0, 100.0, 1)], nextEvent := 2);
  }

  lemma WithdrawTwice(s: State)
    requires s.users == map[1 := User(0, 100.0)] && s.withdrawals == [] && s.unrecorded == []
    requires s.ledger == [LedgerRow(GoldMsg(1, 1, 0, 100.0, 1), 1)]
    ensures var t := Next(Next(Next(s, WithdrawStep(1, 30, 5)), HandleStep(1, 5, 0)), WithdrawStep(1, 30, 5));
            CashOf(t, 1) == 40.0 && t.withdrawals == [Withdrawal(1, 1, 30, 5)] && !CashExact(t, 1)
  {
    hide Next;
    WithdrawFirst(s);
    var a := Next(s, WithdrawStep(1, 30, 5));
    ApproveFirst(a);
    WithdrawAgain(Next(a, HandleStep(1, 5, 0)));
  }

  lemma WithdrawFirst(s: State)
    requires s.users == map[1 := User(0, 100.0)] && s.withdrawals == []
    ensures Next(s, WithdrawStep(1, 30, 5)) ==
            s.(users := map[1 := User(0, 70.0)], withdrawals := [Withdrawal(1, 0, 30, 5)])
  {
    assert AddCash(s.users, 1, -30.0) == map[1 := User(0, 70.0)];
  }

  lemma ApproveFirst(s: State)
    requires s.users == map[1 := User(0, 70.0)] && s.withdrawals == [Withdrawal(1, 0, 30, 5)]
    ensures Next(s, HandleStep(1, 5, 0)) == s.(withdrawals := [Withdrawal(1, 1, 30, 5)])
  {
  }

  lemma WithdrawAgain(s: State)
    requires s.users == map[1 := User(0, 70.0)] && s.withdrawals == [Withdrawal(1, 1, 30, 5)]
    requires s.ledger == [LedgerRow(GoldMsg(1, 1, 0, 100.0, 1), 1)]
    ensures var t := Next(s, WithdrawStep(1, 30, 5));
            CashOf(t, 1) == 40.0 && t.withdrawals == [Withdrawal(1, 1, 30, 5)] && !CashExact(t, 1)
  {
    var w, row := Withdrawal(1, 1, 30, 5), s.ledger[0];
    assert s.withdrawals[0] == w && !HasPending(s.withdrawals, 1) && WithdrawalTaken(s.withdrawals, 1, 5);
    LedgerAppend([], row, 1);
    assert [] + [row] == s.ledger && [] + [w] == s.withdrawals;
    WithdrawnAppend([], w, 1);
  }
}
