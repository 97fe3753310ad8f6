/** Which rewards can be paid twice: the guard that event rows and queued announcements provide. */
module LedgerAwards {
  import opened LedgerModel
  import opened LedgerConservation

  // ----- The status a row will have once the queue is drained -----

  function Final(status: int, ms: seq<EventMsg>, key: Key): int
    decreases ms
  {
    if ms == [] then status
    else Final(if ms[0].key == key then ms[0].status else status, ms[1..], key)
  }

  function Settled(s: State, key: Key): int {
    if key in s.events then Final(s.events[key].status, s.eventChan, key) else 0
  }

  /** The key has a row and no queued announcement. */
  ghost predicate Ready(s: State, key: Key) {
    key in s.events && forall m :: m in s.eventChan ==> m.key != key
  }

  lemma {:induction false} FinalAppend(status: int, ms: seq<EventMsg>, m: EventMsg, key: Key)
    ensures Final(status, ms + [m], key) == if m.key == key then m.status else Final(status, ms, key)
    decreases ms
  {
    if ms == [] {
      assert (ms + [m])[1..] == [];
    } else {
      FinalAppend(if ms[0].key == key then ms[0].status else status, ms[1..], m, key);
      assert (ms + [m])[1..] == ms[1..] + [m];
    }
  }

  lemma {:induction false} FinalAbsent(status: int, ms: seq<EventMsg>, key: Key)
    requires forall m :: m in ms ==> m.key != key
    ensures Final(status, ms, key) == status
  {
    if ms != [] {
      assert ms[0] in ms;
      FinalAbsent(status, ms[1..], key);
    }
  }

  lemma {:induction false} FinalPositive(status: int, ms: seq<EventMsg>, key: Key)
    requires forall m :: m in ms ==> m.status > 0
    ensures status >= 0 ==> Final(status, ms, key) >= 0
    ensures status > 0 ==> Final(status, ms, key) > 0
    ensures (exists m :: m in ms && m.key == key) ==> Final(status, ms, key) > 0
    decreases ms
  {
    if ms != [] {
      assert ms[0] in ms;
      FinalPositive(if ms[0].key == key then ms[0].status else status, ms[1..], key);
    }
  }

  lemma DrainSettled(s: State, key: Key)
    ensures Settled(DrainEvent(s), key) == Settled(s, key)
  {
  }

  lemma SendSettled(s: State, m: EventMsg, key: Key)
    ensures Settled(SendEvent(s, m), key) == if key == m.key && key in s.events then m.status else Settled(s, key)
  {
    DrainSettled(s, key);
    var t := if |s.eventChan| < EVENT_CAP then s else DrainEvent(s);
    if key in t.events {
      FinalAppend(t.events[key].status, t.eventChan, m, key);
    }
  }

  /** What a paid reward does to the table as it will be: it announces the new status, if there is a row. */
  lemma PaySettled(s: State, key: Key, gold: int, status: int, eventId: nat, now: int, k: Key)
    ensures var t := Pay(s, key, gold, status, eventId, now);
            && Settled(t, k) == (if k == key && key in s.events then status else Settled(s, k))
            && t.paid == s.paid + [Daily(key, gold, key in s.events)]
            && t.events.Keys == s.events.Keys && t.feedbacks == s.feedbacks
  {
    var a := s.(users := AddGold(s.users, key.user, gold));
    var b := SendEvent(a, EventMsg(key, status));
    SendSettled(a, EventMsg(key, status), k);
    assert Settled(a, k) == Settled(s, k);
    SendGoldFrame(b, GoldMsg(key.user, key.taskId, gold, 0.0, eventId), now);
  }

  lemma {:induction false} CreateSettled(s: State, u: nat, day: int, ts: seq<TaskInfo>, key: Key)
    requires Wf(s)
    ensures var t := CreateRows(s, u, day, ts);
            && (key in s.events ==> key in t.events && Settled(t, key) == Settled(s, key))
            && (key !in s.events ==> Settled(t, key) >= 0)
            && (key !in s.events && (forall m :: m in s.eventChan ==> m.key != key) ==> Settled(t, key) == 0)
  {
    CreateFrame(s, u, day, ts);
    if ts != [] {
      CreateSettled(s, u, day, ts[..|ts| - 1], key);
      CreateFrame(s, u, day, ts[..|ts| - 1]);
      FinalPositive(0, s.eventChan, key);
      if forall m :: m in s.eventChan ==> m.key != key {
        FinalAbsent(0, s.eventChan, key);
      }
    }
  }

  // ----- The guard -----

  /** Every reward paid against an existing row is visible in its row, now or once the queue is drained. */
  ghost predicate Guarded(s: State) {
    forall i :: 0 <= i < |s.paid| && s.paid[i].Daily? && s.paid[i].hadRow ==> Settled(s, s.paid[i].key) > 0
  }

  lemma PayGuarded(s: State, key: Key, gold: int, status: int, eventId: nat, now: int)
    requires Guarded(s) && status > 0
    ensures Guarded(Pay(s, key, gold, status, eventId, now))
  {
    hide Pay;
    var t := Pay(s, key, gold, status, eventId, now);
    forall i | 0 <= i < |t.paid| && t.paid[i].Daily? && t.paid[i].hadRow ensures Settled(t, t.paid[i].key) > 0 {
      PaySettled(s, key, gold, status, eventId, now, t.paid[i].key);
    }
  }

  lemma SetStatusSettled(s: State, key: Key, k: Key)
    requires Wf(s) && Settled(s, k) > 0
    ensures Settled(s.(events := SetStatus(s.events, key, 1)), k) > 0
  {
    if k == key {
      FinalPositive(1, s.eventChan, k);
    }
  }

  lemma RegisterGuarded(s: State, openId: string, day: int, now: int)
    requires Wf(s) && Guarded(s)
    ensures Guarded(Register(s, openId, day, now)) && Register(s, openId, day, now).paid == s.paid
  {
    if openId !in s.openIds {
      var u := s.nextUser;
      var a := WithNewUser(s, openId);
      var ts := TasksOf(s.tasks, One);
      var b := CreateRows(a, u, day, ts);
      CreateFrame(a, u, day, ts);
      CreateWf(a, u, day, ts);
      var t := Register(s, openId, day, now);
      assert t.paid == s.paid;
      forall i | 0 <= i < |s.paid| && s.paid[i].Daily? && s.paid[i].hadRow ensures Settled(t, s.paid[i].key) > 0 {
        CreateSettled(a, u, day, ts, s.paid[i].key);
        assert Settled(a, s.paid[i].key) == Settled(s, s.paid[i].key);
        SetStatusSettled(b, Key(u, 1, day), s.paid[i].key);
      }
    }
  }

  lemma LoginGuarded(s: State, u: nat, day: int)
    requires Wf(s) && Guarded(s)
    ensures Guarded(Login(s, u, day)) && Login(s, u, day).paid == s.paid
  {
    var ts := TasksOf(s.tasks, Two);
    CreateFrame(s, u, day, ts);
    forall i | 0 <= i < |s.paid| && s.paid[i].Daily? && s.paid[i].hadRow
      ensures Settled(CreateRows(s, u, day, ts), s.paid[i].key) > 0
    {
      CreateSettled(s, u, day, ts, s.paid[i].key);
    }
  }

  lemma ProfileGuarded(s: State, u: nat, day: int, now: int)
    requires Wf(s) && Guarded(s)
    ensures Guarded(UpdateUserData(s, u, day, now))
  {
    hide SendGold;
    var key := Key(u, 2, day);
    if u in s.users && key in s.events && s.events[key].status <= 0 {
      var row := s.events[key];
      var a := s.(users := AddGold(s.users, u, row.gold), events := SetStatus(s.events, key, 1));
      SendGoldFrame(a, GoldMsg(u, 2, row.gold, 0.0, row.eventId), now);
      var t := UpdateUserData(s, u, day, now);
      forall i | 0 <= i < |t.paid| && t.paid[i].Daily? && t.paid[i].hadRow ensures Settled(t, t.paid[i].key) > 0 {
        assert t.paid[i] == s.paid[i];
        SetStatusSettled(s, key, s.paid[i].key);
      }
    }
  }

  lemma FeedbackGuarded(s: State, u: nat, commit: int, valid: int, op: int, day: int, now: int)
    requires Guarded(s)
    ensures Guarded(EffectiveFeedback(s, u, commit, valid, op, day, now))
  {
    var t := EffectiveFeedback(s, u, commit, valid, op, day, now);
    assert t.events == s.events && t.eventChan == s.eventChan;
    forall i | 0 <= i < |t.paid| && t.paid[i].Daily? && t.paid[i].hadRow ensures Settled(t, t.paid[i].key) > 0 {
      assert t.paid[i] == s.paid[i];
    }
  }

  lemma AwardGuarded(s: State, u: nat, taskId: int, day: int, now: int)
    requires Guarded(s)
    ensures Guarded(Award(s, u, taskId, day, now))
  {
    hide Pay;
    var row := Lookup(s.events, Key(u, taskId, day));
    PayGuarded(s, Key(u, taskId, day), row.gold, 1, row.eventId, now);
  }

  lemma SignGuarded(s: State, u: nat, day: int, now: int)
    requires Wf(s) && Guarded(s)
    ensures Guarded(SignIn(s, u, day, now))
  {
    hide Pay;
    var key := Key(u, SIGN_TASK, day);
    var last := LastSign(s, u, day);
    PayGuarded(s, key, Reward(last), last + 1, Lookup(s.events, key).eventId, now);
  }

  lemma DrainGuarded(s: State)
    requires Guarded(s)
    ensures Guarded(DrainEvent(s))
  {
    forall i | 0 <= i < |s.paid| && s.paid[i].Daily? && s.paid[i].hadRow
      ensures Settled(DrainEvent(s), s.paid[i].key) > 0
    {
      DrainSettled(s, s.paid[i].key);
    }
  }

  lemma StepGuarded(s: State, step: Step)
    requires Wf(s) && Guarded(s)
    ensures Guarded(Next(s, step))
  {
    hide Register, Award, SignIn, UpdateUserData, EffectiveFeedback, Login, HasPending, WithdrawalTaken, Approve;
    match step
    case RegisterStep(openId, day, now) => RegisterGuarded(s, openId, day, now);
    case LoginStep(u, day) => LoginGuarded(s, u, day);
    case ShareStep(u, day, now) => AwardGuarded(s, u, 4, day, now);
    case ReadStep(u, taskId, day, now) => AwardGuarded(s, u, taskId, day, now);
    case SignStep(u, day, now) => SignGuarded(s, u, day, now);
    case ProfileStep(u, day, now) => ProfileGuarded(s, u, day, now);
    case ApproveStep(u, commit, valid, op, day, now) => FeedbackGuarded(s, u, commit, valid, op, day, now);
    case DrainEventStep => DrainGuarded(s);
    case _ =>
  }

  // ----- Sign-ins without a row -----

  /** Without a row for today the sign-in is unguarded: it pays, leaves the row missing, and pays again, `n` times. */
  function SignTimes(s: State, u: nat, day: int, now: int, n: nat): State {
    if n == 0 then s else SignIn(SignTimes(s, u, day, now, n - 1), u, day, now)
  }

  lemma {:induction false} SignWithoutRow(s: State, u: nat, day: int, now: int, n: nat)
    requires Wf(s) && u in s.users && Key(u, SIGN_TASK, day) !in s.events
    ensures var t := SignTimes(s, u, day, now, n);
            && Wf(t) && u in t.users && Key(u, SIGN_TASK, day) !in t.events && GoldOf(t, u) >= GoldOf(s, u) + 10 * n
  {
    hide SignIn;
    if n > 0 {
      var t := SignTimes(s, u, day, now, n - 1);
      SignWithoutRow(s, u, day, now, n - 1);
      SignWf(t, u, day, now);
      SignOnceWithoutRow(t, u, day, now);
    }
  }

  lemma SignOnceWithoutRow(s: State, u: nat, day: int, now: int)
    requires Wf(s) && u in s.users && Key(u, SIGN_TASK, day) !in s.events
    ensures var t := SignIn(s, u, day, now);
            && t.events.Keys == s.events.Keys && u in t.users && GoldOf(t, u) >= GoldOf(s, u) + 10
  {
    hide Pay;
    var key := Key(u, SIGN_TASK, day);
    var last := LastSign(s, u, day);
    PaySettled(s, key, Reward(last), last + 1, 0, now, key);
    PayCredits(s, key, Reward(last), last + 1, 0, now);
  }

  lemma PayCredits(s: State, key: Key, gold: int, status: int, eventId: nat, now: int)
    requires key.user in s.users
    ensures var t := Pay(s, key, gold, status, eventId, now); t.users == AddGold(s.users, key.user, gold)
  {
    SendGoldFrame(SendEvent(s.(users := AddGold(s.users, key.user, gold)), EventMsg(key, status)),
                  GoldMsg(key.user, key.taskId, gold, 0.0, eventId), now);
  }

  // ----- Runs -----

  /** The steps that pay no daily reward. */
  lemma OtherPaid(s: State, step: Step)
    requires Wf(s) && Guarded(s) && !step.ShareStep? && !step.ReadStep? && !step.SignStep?
    ensures var t := Next(s, step); t.paid == s.paid || exists p: Payment :: !p.Daily? && t.paid == s.paid + [p]
  {
    hide HasPending, WithdrawalTaken, Approve, Trunc, TasksOf, Register, Login;
    match step
    case RegisterStep(openId, day, now) => RegisterGuarded(s, openId, day, now);
    case LoginStep(u, day) => LoginGuarded(s, u, day);
    case ProfileStep(u, day, now) =>
      var key := Key(u, 2, day);
      if key in s.events {
        assert !Profile(u, day, s.events[key].gold).Daily?;
      }
    case ApproveStep(u, commit, valid, op, day, now) =>
      assert !ForFeedback(u, commit, Lookup(s.events, Key(u, 9, day)).gold).Daily?;
    case _ =>
  }

  /** In every run the guard holds. */
  lemma {:induction false} RunGuarded(tasks: seq<TaskInfo>, steps: seq<Step>)
    ensures Wf(Run(Init(tasks), steps)) && Guarded(Run(Init(tasks), steps))
  {
    if steps != [] {
      RunGuarded(tasks, steps[..|steps| - 1]);
      StepWf(Run(Init(tasks), steps[..|steps| - 1]), steps[|steps| - 1]);
      StepGuarded(Run(Init(tasks), steps[..|steps| - 1]), steps[|steps| - 1]);
    }
  }
}
