/** Rewards that no run can pay twice: the profile reward of an event row and the reward of a feedback. */
module LedgerOnce {
  import opened LedgerModel
  import opened LedgerConservation
  import opened LedgerRuns

  /** Positive statuses stay positive, and settled feedbacks stay settled. */
  ghost predicate KeepsPositive(s: State, t: State) {
    && (forall k :: k in s.events && s.events[k].status > 0 ==> k in t.events && t.events[k].status > 0)
    && (forall f :: f in s.feedbacks && s.feedbacks[f].valid > 0 ==> f in t.feedbacks && t.feedbacks[f].valid > 0)
  }

  ghost predicate Once(s: State) {
    && (forall i :: 0 <= i < |s.paid| && s.paid[i].Profile? ==>
          var k := Key(s.paid[i].user, 2, s.paid[i].day); k in s.events && s.events[k].status > 0)
    && (forall i :: 0 <= i < |s.paid| && s.paid[i].ForFeedback? ==>
          var f := (s.paid[i].user, s.paid[i].commit); f in s.feedbacks && s.feedbacks[f].valid > 0)
    && (forall i, j :: 0 <= i < j < |s.paid| && s.paid[i].Profile? && s.paid[j].Profile? ==>
          s.paid[i].user != s.paid[j].user || s.paid[i].day != s.paid[j].day)
    && (forall i, j :: 0 <= i < j < |s.paid| && s.paid[i].ForFeedback? && s.paid[j].ForFeedback? ==>
          s.paid[i].user != s.paid[j].user || s.paid[i].commit != s.paid[j].commit)
  }

  lemma OnceKept(s: State, t: State)
    requires Once(s) && KeepsPositive(s, t)
    requires t.paid == s.paid || exists p: Payment :: p.Daily? && t.paid == s.paid + [p]
    ensures Once(t)
  {
    assert forall i :: 0 <= i < |s.paid| ==> t.paid[i] == s.paid[i];
  }

  lemma PayPositive(s: State, key: Key, gold: int, status: int, eventId: nat, now: int)
    requires Wf(s) && Once(s)
    ensures Once(Pay(s, key, gold, status, eventId, now))
  {
    var a := s.(users := AddGold(s.users, key.user, gold));
    var b := SendEvent(a, EventMsg(key, status));
    SendEventPositive(a, EventMsg(key, status));
    SendGoldFrame(b, GoldMsg(key.user, key.taskId, gold, 0.0, eventId), now);
    var t := Pay(s, key, gold, status, eventId, now);
    assert Daily(key, gold, key in s.events).Daily? && t.paid == s.paid + [Daily(key, gold, key in s.events)];
    OnceKept(s, t);
  }

  lemma SendEventPositive(s: State, m: EventMsg)
    requires Wf(s)
    ensures KeepsPositive(s, SendEvent(s, m)) && SendEvent(s, m).paid == s.paid
  {
    DrainEventPositive(s);
  }

  lemma DrainEventPositive(s: State)
    requires Wf(s)
    ensures KeepsPositive(s, DrainEvent(s)) && DrainEvent(s).paid == s.paid
  {
    if s.eventChan != [] {
      assert s.eventChan[0] in s.eventChan;
    }
  }

  lemma {:induction false} CreatePositive(s: State, u: nat, day: int, ts: seq<TaskInfo>)
    ensures var t := CreateRows(s, u, day, ts);
            t.paid == s.paid && t.feedbacks == s.feedbacks &&
            forall k :: k in s.events ==> k in t.events && t.events[k] == s.events[k]
  {
    if ts != [] {
      CreatePositive(s, u, day, ts[..|ts| - 1]);
    }
  }

  lemma RegisterOnce(s: State, openId: string, day: int, now: int)
    requires Wf(s) && Once(s)
    ensures Once(Register(s, openId, day, now))
  {
    hide TasksOf;
    if openId !in s.openIds {
      var t := WithNewUser(s, openId);
      var ts := TasksOf(s.tasks, One);
      CreatePositive(t, s.nextUser, day, ts);
      OnceKept(s, Register(s, openId, day, now));
    }
  }

  lemma LoginOnce(s: State, u: nat, day: int)
    requires Once(s)
    ensures Once(Login(s, u, day))
  {
    CreatePositive(s, u, day, TasksOf(s.tasks, Two));
    OnceKept(s, Login(s, u, day));
  }

  lemma AwardOnceKept(s: State, u: nat, taskId: int, day: int, now: int)
    requires Wf(s) && Once(s)
    ensures Once(Award(s, u, taskId, day, now))
  {
    hide Pay;
    var row := Lookup(s.events, Key(u, taskId, day));
    PayPositive(s, Key(u, taskId, day), row.gold, 1, row.eventId, now);
  }

  lemma SignOnceKept(s: State, u: nat, day: int, now: int)
    requires Wf(s) && Once(s)
    ensures Once(SignIn(s, u, day, now))
  {
    hide Pay;
    var key := Key(u, SIGN_TASK, day);
    var last := LastSign(s, u, day);
    PayPositive(s, key, Reward(last), last + 1, Lookup(s.events, key).eventId, now);
  }

  /** The profile reward marks its row at once, so the row pays at most once. */
  lemma ProfileOnce(s: State, u: nat, day: int, now: int)
    requires Once(s)
    ensures Once(UpdateUserData(s, u, day, now))
  {
    hide InsertLedger;
    var key := Key(u, 2, day);
    if u in s.users && key in s.events && s.events[key].status <= 0 {
      var row := s.events[key];
      var a := s.(users := AddGold(s.users, u, row.gold), events := SetStatus(s.events, key, 1));
      SendGoldFrame(a, GoldMsg(u, 2, row.gold, 0.0, row.eventId), now);
      var t := UpdateUserData(s, u, day, now);
      assert t.paid == s.paid + [Profile(u, day, row.gold)];
      assert forall i :: 0 <= i < |s.paid| ==> t.paid[i] == s.paid[i];
    }
  }

  /** A feedback found valid is never found valid again, so it pays at most once. */
  lemma FeedbackOnce(s: State, u: nat, commit: int, valid: int, op: int, day: int, now: int)
    requires Once(s)
    ensures Once(EffectiveFeedback(s, u, commit, valid, op, day, now))
  {
    hide EffectiveFeedback;
    FeedbackForm(s, u, commit, valid, op, day, now);
    var t := EffectiveFeedback(s, u, commit, valid, op, day, now);
    assert forall i :: 0 <= i < |s.paid| ==> t.paid[i] == s.paid[i];
  }

  lemma FeedbackForm(s: State, u: nat, commit: int, valid: int, op: int, day: int, now: int)
    ensures var t := EffectiveFeedback(s, u, commit, valid, op, day, now);
            var f := (u, commit);
            && t.events == s.events
            && (t.feedbacks == s.feedbacks ||
                (f in s.feedbacks && s.feedbacks[f].valid <= 0 && t.feedbacks == s.feedbacks[f := Feedback(valid, 1)]))
            && (t.paid == s.paid ||
                (f in s.feedbacks && s.feedbacks[f].valid <= 0 && t.feedbacks == s.feedbacks[f := Feedback(1, 1)] &&
                 exists gold :: t.paid == s.paid + [ForFeedback(u, commit, gold)]))
  {
    hide SendGold;
    var row := Lookup(s.events, Key(u, 9, day));
    var a := s.(feedbacks := s.feedbacks[(u, commit) := Feedback(valid, 1)]);
    SendGoldFrame(a.(users := AddGold(a.users, u, row.gold)), GoldMsg(u, 9, row.gold, 0.0, row.eventId), now);
  }

  lemma StepOnce(s: State, step: Step)
    requires Wf(s) && Once(s)
    ensures Once(Next(s, step))
  {
    hide Register, Login, Award, SignIn, UpdateUserData, EffectiveFeedback, DrainEvent, Once;
    match step
    case RegisterStep(openId, day, now) => RegisterOnce(s, openId, day, now);
    case LoginStep(u, day) => LoginOnce(s, u, day);
    case ShareStep(u, day, now) => AwardOnceKept(s, u, 4, day, now);
    case ReadStep(u, taskId, day, now) => AwardOnceKept(s, u, taskId, day, now);
    case SignStep(u, day, now) => SignOnceKept(s, u, day, now);
    case ProfileStep(u, day, now) => ProfileOnce(s, u, day, now);
    case ApproveStep(u, commit, valid, op, day, now) => FeedbackOnce(s, u, commit, valid, op, day, now);
    case DrainEventStep => DrainEventOnce(s);
    case _ => PlainOnce(s, step);
  }

  lemma DrainEventOnce(s: State)
    requires Wf(s) && Once(s)
    ensures Once(DrainEvent(s))
  {
    DrainEventPositive(s);
    OnceKept(s, DrainEvent(s));
  }

  lemma PlainOnce(s: State, step: Step)
    requires Once(s) && (step.PostStep? || step.WithdrawStep? || step.HandleStep? || step.DrainGoldStep?)
    ensures Once(Next(s, step))
  {
    hide HasPending, WithdrawalTaken, Approve, Trunc, LedgerTaken, Once;
    PlainPositive(s, step);
    OnceKept(s, Next(s, step));
  }

  lemma PlainPositive(s: State, step: Step)
    requires step.PostStep? || step.WithdrawStep? || step.HandleStep? || step.DrainGoldStep?
    ensures KeepsPositive(s, Next(s, step)) && Next(s, step).paid == s.paid
  {
    hide HasPending, WithdrawalTaken, Approve, Trunc, LedgerTaken;
  }

  /** In every run, whatever the interleaving, each profile row and each feedback is rewarded at most once. */
  lemma {:induction false} RunOnce(tasks: seq<TaskInfo>, steps: seq<Step>)
    ensures Wf(Run(Init(tasks), steps)) && Once(Run(Init(tasks), steps))
  {
    if steps != [] {
      RunOnce(tasks, steps[..|steps| - 1]);
      StepWf(Run(Init(tasks), steps[..|steps| - 1]), steps[|steps| - 1]);
      StepOnce(Run(Init(tasks), steps[..|steps| - 1]), steps[|steps| - 1]);
    }
  }

  // ----- The profile reward, once per user -----

  /** The configuration creates profile rows at login, that is every day. */
  predicate DailyProfile(tasks: seq<TaskInfo>) {
    exists i :: 0 <= i < |tasks| && tasks[i].taskType == Two && tasks[i].status == 1 && tasks[i].taskId == 2
  }

  ghost predicate OnePerUser(paid: seq<Payment>) {
    forall i, j :: 0 <= i < j < |paid| && paid[i].Profile? && paid[j].Profile? ==> paid[i].user != paid[j].user
  }

  /** No user has two profile rows. */
  ghost predicate OneProfileRow(s: State) {
    forall j, k :: j in s.events && k in s.events && j.user == k.user && j.taskId == 2 && k.taskId == 2 ==> j == k
  }

  lemma {:induction false} TasksOfMembers(tasks: seq<TaskInfo>, taskType: TaskType, t: TaskInfo)
    ensures t in TasksOf(tasks, taskType) <==> t in tasks && t.taskType == taskType
  {
    if tasks != [] {
      TasksOfMembers(tasks[..|tasks| - 1], taskType, t);
      assert tasks == tasks[..|tasks| - 1] + [tasks[|tasks| - 1]];
    }
  }

  predicate Enabled(ts: seq<TaskInfo>, taskId: int) {
    exists i :: 0 <= i < |ts| && ts[i].status == 1 && ts[i].taskId == taskId
  }

  /** New rows are today's rows of that user for enabled entries, and every enabled entry has its row. */
  lemma {:induction false} CreateKeys(s: State, u: nat, day: int, ts: seq<TaskInfo>, key: Key)
    ensures var t := CreateRows(s, u, day, ts);
            && (key in t.events <==> key in s.events || (key.user == u && key.day == day && Enabled(ts, key.taskId)))
            && (key in t.events && key !in s.events ==> t.events[key].status == 0)
  {
    if ts != [] {
      var init := ts[..|ts| - 1];
      CreateKeys(s, u, day, init, key);
      assert forall i :: 0 <= i < |init| ==> ts[i] == init[i];
    }
  }

  lemma RegisterRows(s: State, openId: string, day: int, now: int)
    requires Wf(s) && OneProfileRow(s)
    ensures OneProfileRow(Register(s, openId, day, now))
  {
    hide TasksOf, LedgerTaken;
    if openId !in s.openIds {
      var ts := TasksOf(s.tasks, One);
      var t := Register(s, openId, day, now);
      forall k | k in t.events ensures k in s.events || (k.user == s.nextUser && k.day == day) {
        CreateKeys(WithNewUser(s, openId), s.nextUser, day, ts, k);
      }
    }
  }

  lemma LoginRows(s: State, u: nat, day: int)
    requires OneProfileRow(s) && !DailyProfile(s.tasks)
    ensures OneProfileRow(Login(s, u, day))
  {
    hide TasksOf;
    var ts := TasksOf(s.tasks, Two);
    var t := Login(s, u, day);
    forall k | k in t.events && k.taskId == 2 ensures k in s.events {
      CreateKeys(s, u, day, ts, k);
      if i :| 0 <= i < |ts| && ts[i].status == 1 && ts[i].taskId == 2 {
        assert ts[i] in ts;
        TasksOfMembers(s.tasks, Two, ts[i]);
      }
    }
  }

  /** Only registration and login add rows. */
  lemma SameRows(s: State, step: Step)
    requires !step.RegisterStep? && !step.LoginStep?
    ensures Next(s, step).events.Keys == s.events.Keys
  {
    hide Pay, SendGold, HasPending, WithdrawalTaken, Approve, Trunc, LedgerTaken;
    match step
    case ShareStep(u, day, now) => PayRows(s, Key(u, 4, day), now);
    case ReadStep(u, taskId, day, now) => PayRows(s, Key(u, taskId, day), now);
    case SignStep(u, day, now) => PayRows(s, Key(u, SIGN_TASK, day), now);
    case ProfileStep(u, day, now) =>
      var key := Key(u, 2, day);
      if key in s.events {
        var row := s.events[key];
        var a := s.(users := AddGold(s.users, u, row.gold), events := SetStatus(s.events, key, 1));
        SendGoldFrame(a, GoldMsg(u, 2, row.gold, 0.0, row.eventId), now);
      }
    case ApproveStep(u, commit, valid, op, day, now) => FeedbackForm(s, u, commit, valid, op, day, now);
    case _ =>
  }

  lemma PayRows(s: State, key: Key, now: int)
    ensures forall gold, status, eventId :: Pay(s, key, gold, status, eventId, now).events.Keys == s.events.Keys
  {
    hide SendGold;
    forall gold, status, eventId ensures Pay(s, key, gold, status, eventId, now).events.Keys == s.events.Keys {
      var b := SendEvent(s.(users := AddGold(s.users, key.user, gold)), EventMsg(key, status));
      SendGoldFrame(b, GoldMsg(key.user, key.taskId, gold, 0.0, eventId), now);
    }
  }

  lemma {:induction false} RunRows(tasks: seq<TaskInfo>, steps: seq<Step>)
    requires !DailyProfile(tasks)
    ensures OneProfileRow(Run(Init(tasks), steps))
  {
    if steps != [] {
      var s, step := Run(Init(tasks), steps[..|steps| - 1]), steps[|steps| - 1];
      RunRows(tasks, steps[..|steps| - 1]);
      RunShape(tasks, steps[..|steps| - 1]);
      RunTasks(tasks, steps[..|steps| - 1]);
      match step {
        case RegisterStep(openId, day, now) => RegisterRows(s, openId, day, now);
        case LoginStep(u, day) => LoginRows(s, u, day);
        case _ => SameRows(s, step);
      }
    }
  }

  /** No profile has been rewarded yet. */
  ghost predicate Unpaid(s: State) {
    s.paid == [] && forall k :: k in s.events && k.taskId == 2 ==> s.events[k].status == 0
  }

  lemma UnpaidRegistered(s: State)
    requires s == Init(s.tasks)
    ensures var t := Register(s, "a", 1, 1); Unpaid(t) && 1 in t.users && t.tasks == s.tasks
  {
    hide TasksOf, LedgerTaken;
    var a, ts := WithNewUser(s, "a"), TasksOf(s.tasks, One);
    CreateFrame(a, 1, 1, ts);
    forall k | k in CreateRows(a, 1, 1, ts).events ensures CreateRows(a, 1, 1, ts).events[k].status == 0 {
      CreateKeys(a, 1, 1, ts, k);
    }
  }

  lemma UnpaidLogin(s: State, day: int)
    requires Unpaid(s) && 1 in s.users && DailyProfile(s.tasks)
    ensures var t := Login(s, 1, day);
            && Unpaid(t) && 1 in t.users && t.tasks == s.tasks && Key(1, 2, day) in t.events
            && s.events.Keys <= t.events.Keys
  {
    hide TasksOf;
    var ts := TasksOf(s.tasks, Two);
    CreateFrame(s, 1, day, ts);
    CreatePositive(s, 1, day, ts);
    var i :| 0 <= i < |s.tasks| && s.tasks[i].taskType == Two && s.tasks[i].status == 1 && s.tasks[i].taskId == 2;
    TasksOfMembers(s.tasks, Two, s.tasks[i]);
    var j :| 0 <= j < |ts| && ts[j] == s.tasks[i];
    CreateKeys(s, 1, day, ts, Key(1, 2, day));
    forall k | k in Login(s, 1, day).events && k.taskId == 2 ensures Login(s, 1, day).events[k].status == 0 {
      CreateKeys(s, 1, day, ts, k);
    }
  }

  lemma TwoProfiles(s: State)
    requires Unpaid(s) && 1 in s.users && Key(1, 2, 1) in s.events && Key(1, 2, 2) in s.events
    ensures !OnePerUser(UpdateUserData(UpdateUserData(s, 1, 1, 2), 1, 2, 2).paid)
  {
    hide SendGold;
    var t := UpdateUserData(s, 1, 1, 2);
    ProfileForm(s, 1, 2);
    ProfileForm(t, 2, 2);
    var paid := UpdateUserData(t, 1, 2, 2).paid;
    assert paid[0].Profile? && paid[0].user == 1 && paid[1].Profile? && paid[1].user == 1;
  }

  lemma ProfileForm(s: State, day: int, now: int)
    requires 1 in s.users && Key(1, 2, day) in s.events && s.events[Key(1, 2, day)].status <= 0
    ensures var t := UpdateUserData(s, 1, day, now);
            && 1 in t.users && t.events == SetStatus(s.events, Key(1, 2, day), 1)
            && t.paid == s.paid + [Profile(1, day, s.events[Key(1, 2, day)].gold)]
  {
    hide SendGold;
    var row := s.events[Key(1, 2, day)];
    var a := s.(users := AddGold(s.users, 1, row.gold), events := SetStatus(s.events, Key(1, 2, day), 1));
    SendGoldFrame(a, GoldMsg(1, 2, row.gold, 0.0, row.eventId), now);
  }

  /** A user with one profile row a day is rewarded for it on two days. */
  lemma DailyProfileTwice(tasks: seq<TaskInfo>)
    requires DailyProfile(tasks)
    ensures !OnePerUser(Run(Init(tasks), [RegisterStep("a", 1, 1), LoginStep(1, 1), LoginStep(1, 2),
                                          ProfileStep(1, 1, 2), ProfileStep(1, 2, 2)]).paid)
  {
    hide Run, OnePerUser, Register, Login, UpdateUserData;
    var s := Init(tasks);
    var a, b, c, d, e := RegisterStep("a", 1, 1), LoginStep(1, 1), LoginStep(1, 2),
                         ProfileStep(1, 1, 2), ProfileStep(1, 2, 2);
    RunNone(s);
    RunAppend(s, [], a);
    RunTwo(s, [a], b, c);
    RunTwo(s, [a, b, c], d, e);
    assert [] + [a] == [a] && [a] + [b, c] == [a, b, c] && [a, b, c] + [d, e] == [a, b, c, d, e];
    UnpaidRegistered(s);
    UnpaidLogin(Register(s, "a", 1, 1), 1);
    UnpaidLogin(Login(Register(s, "a", 1, 1), 1, 1), 2);
    TwoProfiles(Login(Login(Register(s, "a", 1, 1), 1, 1), 1, 2));
  }

  /** No run rewards any user's profile twice if and only if the configuration has no enabled profile entry among
      those created at login. */
  lemma ProfileOncePerUser(tasks: seq<TaskInfo>)
    ensures (forall steps :: OnePerUser(Run(Init(tasks), steps).paid)) <==> !DailyProfile(tasks)
  {
    if DailyProfile(tasks) {
      DailyProfileTwice(tasks);
    } else {
      forall steps ensures OnePerUser(Run(Init(tasks), steps).paid) {
        var s := Run(Init(tasks), steps);
        RunOnce(tasks, steps);
        RunRows(tasks, steps);
        OneRowOnePayment(s);
      }
    }
  }

  lemma OneRowOnePayment(s: State)
    requires Once(s) && OneProfileRow(s)
    ensures OnePerUser(s.paid)
  {
    forall i, j | 0 <= i < j < |s.paid| && s.paid[i].Profile? && s.paid[j].Profile?
      ensures s.paid[i].user != s.paid[j].user
    {
      assert Key(s.paid[i].user, 2, s.paid[i].day) in s.events && Key(s.paid[j].user, 2, s.paid[j].day) in s.events;
    }
  }
}
