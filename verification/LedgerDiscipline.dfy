/** Exactly which runs reward nobody twice for one task and day. */
module LedgerDiscipline {
  import opened LedgerModel
  import opened LedgerConservation
  import opened LedgerAwards
  import opened LedgerOnce

  // ----- Announcements and read rows are paid for -----

  function MsgKeys(ms: seq<EventMsg>): seq<Key> {
    seq(|ms|, i requires 0 <= i < |ms| => ms[i].key)
  }

  /** How often the key is announced in the queue. */
  function Queued(s: State, key: Key): nat {
    multiset(MsgKeys(s.eventChan))[key]
  }

  /** How often the key has been rewarded. */
  function PaidCount(paid: seq<Payment>, key: Key): nat {
    if paid == [] then 0
    else
      var p := paid[|paid| - 1];
      PaidCount(paid[..|paid| - 1], key) + if p.Daily? && p.key == key then 1 else 0
  }

  /** The tasks whose rows only announcements change. */
  predicate Announced(taskId: int) {
    taskId != 1 && taskId != 2
  }

  /** Each announcement in the queue, and each row that reads as done, has a reward of its own. */
  ghost predicate Accounted(s: State) {
    forall key: Key :: Announced(key.taskId) ==>
      Queued(s, key) + (if Lookup(s.events, key).status > 0 then 1 else 0) <= PaidCount(s.paid, key)
  }

  lemma PaidCountAppend(paid: seq<Payment>, p: Payment, key: Key)
    ensures PaidCount(paid + [p], key) == PaidCount(paid, key) + if p.Daily? && p.key == key then 1 else 0
  {
    assert (paid + [p])[..|paid|] == paid;
  }

  lemma {:induction false} PaidCountFinds(paid: seq<Payment>, key: Key)
    ensures PaidCount(paid, key) > 0 ==> exists i :: 0 <= i < |paid| && paid[i].Daily? && paid[i].key == key
  {
    if paid != [] && PaidCount(paid, key) > 0 {
      var init, p := paid[..|paid| - 1], paid[|paid| - 1];
      PaidCountFinds(init, key);
      if !(p.Daily? && p.key == key) {
        var i :| 0 <= i < |init| && init[i].Daily? && init[i].key == key;
        assert paid[i] == init[i];
      }
    }
  }

  /** Steps that announce nothing and settle no announced row. */
  lemma AccountedKept(s: State, t: State)
    requires Accounted(s) && t.eventChan == s.eventChan
    requires t.paid == s.paid || exists p: Payment :: !p.Daily? && t.paid == s.paid + [p]
    requires forall k: Key :: Announced(k.taskId) && Lookup(t.events, k).status > 0 ==> Lookup(s.events, k).status > 0
    ensures Accounted(t)
  {
    if t.paid != s.paid {
      var p: Payment :| !p.Daily? && t.paid == s.paid + [p];
      forall key ensures PaidCount(t.paid, key) == PaidCount(s.paid, key) {
        PaidCountAppend(s.paid, p, key);
      }
    }
  }

  lemma DrainAccounted(s: State)
    requires Accounted(s)
    ensures Accounted(DrainEvent(s)) && DrainEvent(s).paid == s.paid
  {
    if s.eventChan != [] {
      assert MsgKeys(s.eventChan) == [s.eventChan[0].key] + MsgKeys(s.eventChan[1..]);
    }
  }

  lemma PayAccounted(s: State, key: Key, gold: int, status: int, eventId: nat, now: int)
    requires Accounted(s)
    ensures Accounted(Pay(s, key, gold, status, eventId, now))
  {
    hide SendGold, DrainEvent;
    var a := s.(users := AddGold(s.users, key.user, gold));
    assert Accounted(a);
    var c := if |s.eventChan| < EVENT_CAP then a else DrainEvent(a);
    DrainAccounted(a);
    var m := EventMsg(key, status);
    assert MsgKeys(c.eventChan + [m]) == MsgKeys(c.eventChan) + [key];
    var b := SendEvent(a, m);
    SendGoldFrame(b, GoldMsg(key.user, key.taskId, gold, 0.0, eventId), now);
    forall k ensures PaidCount(s.paid + [Daily(key, gold, key in s.events)], k) ==
                     PaidCount(s.paid, k) + if k == key then 1 else 0
    {
      PaidCountAppend(s.paid, Daily(key, gold, key in s.events), k);
    }
  }

  lemma CreateAccounted(s: State, u: nat, day: int, ts: seq<TaskInfo>)
    requires Accounted(s)
    ensures Accounted(CreateRows(s, u, day, ts))
  {
    var t := CreateRows(s, u, day, ts);
    CreateFrame(s, u, day, ts);
    CreatePositive(s, u, day, ts);
    forall k: Key | Lookup(t.events, k).status > 0 ensures Lookup(s.events, k).status > 0 {
      CreateKeys(s, u, day, ts, k);
    }
    AccountedKept(s, t);
  }

  lemma RegisterAccounted(s: State, openId: string, day: int, now: int)
    requires Accounted(s)
    ensures Accounted(Register(s, openId, day, now))
  {
    hide RegisterEvent, TasksOf, CreateRows;
    if openId !in s.openIds {
      var a, ts := WithNewUser(s, openId), TasksOf(s.tasks, One);
      AccountedKept(s, a);
      CreateAccounted(a, s.nextUser, day, ts);
      var b := CreateRows(a, s.nextUser, day, ts);
      RegisterEventSettles(b, s.nextUser, day, now);
      AccountedKept(b, RegisterEvent(b, s.nextUser, day, now));
    }
  }

  lemma RegisterEventSettles(s: State, u: nat, day: int, now: int)
    ensures var t := RegisterEvent(s, u, day, now);
            && t.eventChan == s.eventChan && t.paid == s.paid
            && forall k: Key :: k.taskId != 1 ==> Lookup(t.events, k) == Lookup(s.events, k)
  {
    hide LedgerTaken;
  }

  lemma ProfileAccounted(s: State, u: nat, day: int, now: int)
    requires Accounted(s)
    ensures Accounted(UpdateUserData(s, u, day, now))
  {
    hide SendGold, Accounted;
    var key := Key(u, 2, day);
    if u in s.users && key in s.events && s.events[key].status <= 0 {
      var row := s.events[key];
      var a := s.(users := AddGold(s.users, u, row.gold), events := SetStatus(s.events, key, 1));
      SendGoldFrame(a, GoldMsg(u, 2, row.gold, 0.0, row.eventId), now);
      var p := Profile(u, day, row.gold);
      assert UpdateUserData(s, u, day, now).paid == s.paid + [p] && !p.Daily?;
      AccountedKept(s, UpdateUserData(s, u, day, now));
    }
  }

  lemma FeedbackAccounted(s: State, u: nat, commit: int, valid: int, op: int, day: int, now: int)
    requires Accounted(s)
    ensures Accounted(EffectiveFeedback(s, u, commit, valid, op, day, now))
  {
    hide LedgerTaken, Accounted;
    var t := EffectiveFeedback(s, u, commit, valid, op, day, now);
    if t.paid != s.paid {
      var p := ForFeedback(u, commit, Lookup(s.events, Key(u, 9, day)).gold);
      assert t.paid == s.paid + [p] && !p.Daily?;
    }
    AccountedKept(s, t);
  }

  lemma AwardAccounted(s: State, u: nat, taskId: int, day: int, now: int)
    requires Accounted(s)
    ensures Accounted(Award(s, u, taskId, day, now)) && Accounted(SignIn(s, u, day, now))
  {
    hide Pay, Accounted;
    var key, sign, last := Key(u, taskId, day), Key(u, SIGN_TASK, day), LastSign(s, u, day);
    PayAccounted(s, key, Lookup(s.events, key).gold, 1, Lookup(s.events, key).eventId, now);
    PayAccounted(s, sign, Reward(last), last + 1, Lookup(s.events, sign).eventId, now);
  }

  lemma StepAccounted(s: State, step: Step)
    requires Accounted(s)
    ensures Accounted(Next(s, step))
  {
    hide Register, Award, SignIn, UpdateUserData, EffectiveFeedback, DrainEvent, Accounted;
    match step
    case RegisterStep(openId, day, now) => RegisterAccounted(s, openId, day, now);
    case LoginStep(u, day) => CreateAccounted(s, u, day, TasksOf(s.tasks, Two));
    case ShareStep(u, day, now) => AwardAccounted(s, u, 4, day, now);
    case ReadStep(u, taskId, day, now) => AwardAccounted(s, u, taskId, day, now);
    case SignStep(u, day, now) => AwardAccounted(s, u, SIGN_TASK, day, now);
    case ProfileStep(u, day, now) => ProfileAccounted(s, u, day, now);
    case ApproveStep(u, commit, valid, op, day, now) => FeedbackAccounted(s, u, commit, valid, op, day, now);
    case DrainEventStep => DrainAccounted(s);
    case _ => PlainAccounted(s, step);
  }

  lemma PlainAccounted(s: State, step: Step)
    requires Accounted(s) && (step.PostStep? || step.WithdrawStep? || step.HandleStep? || step.DrainGoldStep?)
    ensures Accounted(Next(s, step))
  {
    hide HasPending, WithdrawalTaken, Approve, Trunc, LedgerTaken, Accounted;
    AccountedKept(s, Next(s, step));
  }

  // ----- When a second request pays -----

  ghost predicate PaidWithRow(s: State, key: Key) {
    exists i :: 0 <= i < |s.paid| && s.paid[i].Daily? && s.paid[i].hadRow && s.paid[i].key == key
  }

  predicate InQueue(s: State, key: Key) {
    exists m :: m in s.eventChan && m.key == key
  }

  lemma QueuedKey(s: State, key: Key)
    ensures InQueue(s, key) <==> Queued(s, key) > 0
  {
    var ks := MsgKeys(s.eventChan);
    if m :| m in s.eventChan && m.key == key {
      var i :| 0 <= i < |s.eventChan| && s.eventChan[i] == m;
      assert ks[i] == key;
    }
    if key in ks {
      var i :| 0 <= i < |ks| && ks[i] == key;
      assert s.eventChan[i] in s.eventChan;
    }
  }

  /** The key of a reward paid with its row, and no other: its row reads 0 exactly while its announcement is queued. */
  lemma UnreadQueued(s: State, key: Key)
    requires Wf(s) && Guarded(s) && Accounted(s) && PaidOnce(s) && PaidWithRow(s, key) && Announced(key.taskId)
    ensures key in s.events && (s.events[key].status == 0 <==> InQueue(s, key))
  {
    QueuedKey(s, key);
    OncePaidCount(s, key);
    if !InQueue(s, key) {
      FinalAbsent(s.events[key].status, s.eventChan, key);
    }
  }

  lemma OncePaidCount(s: State, key: Key)
    requires PaidOnce(s)
    ensures PaidCount(s.paid, key) <= 1
  {
    OnceCount(s.paid, key);
  }

  lemma {:induction false} OnceCount(paid: seq<Payment>, key: Key)
    requires forall i, j :: 0 <= i < j < |paid| && paid[i].Daily? && paid[j].Daily? ==> paid[i].key != paid[j].key
    ensures PaidCount(paid, key) <= 1
  {
    if paid != [] {
      var init := paid[..|paid| - 1];
      OnceCount(init, key);
      PaidCountFinds(init, key);
    }
  }

  /** While nobody has been rewarded twice, a share or read request for a key already rewarded pays again if and only if
      the first reward's announcement is still queued. In any state it pays again only then. */
  lemma PaysAgain(s: State, u: nat, taskId: int, day: int, now: int)
    requires Wf(s) && Guarded(s) && u in s.users && PaidWithRow(s, Key(u, taskId, day))
    ensures var key := Key(u, taskId, day);
            var pays := Award(s, u, taskId, day, now) != s;
            && key in s.events && (pays <==> s.events[key].status == 0)
            && (pays ==> InQueue(s, key))
            && (PaidOnce(s) && Accounted(s) && Announced(taskId) ==> (pays <==> InQueue(s, key)))
  {
    hide Pay, Accounted, PaidOnce;
    var key := Key(u, taskId, day);
    if !InQueue(s, key) {
      FinalAbsent(s.events[key].status, s.eventChan, key);
    }
    if PaidOnce(s) && Accounted(s) && Announced(taskId) {
      UnreadQueued(s, key);
    }
    if s.events[key].status == 0 {
      PaySettled(s, key, s.events[key].gold, 1, s.events[key].eventId, now, key);
    }
  }

  /** The same for the sign-in. */
  lemma SignPaysAgain(s: State, u: nat, day: int, now: int)
    requires Wf(s) && Guarded(s) && u in s.users && PaidWithRow(s, Key(u, SIGN_TASK, day))
    ensures var key := Key(u, SIGN_TASK, day);
            var pays := SignIn(s, u, day, now) != s;
            && key in s.events && (pays <==> s.events[key].status == 0)
            && (pays ==> InQueue(s, key))
            && (PaidOnce(s) && Accounted(s) ==> (pays <==> InQueue(s, key)))
  {
    hide Pay, Accounted, PaidOnce;
    var key := Key(u, SIGN_TASK, day);
    if !InQueue(s, key) {
      FinalAbsent(s.events[key].status, s.eventChan, key);
    }
    if PaidOnce(s) && Accounted(s) {
      UnreadQueued(s, key);
    }
    if s.events[key].status == 0 {
      var last := LastSign(s, u, day);
      PaySettled(s, key, Reward(last), last + 1, s.events[key].eventId, now, key);
    }
  }

  // ----- Runs that reward nobody twice -----

  /** The request finds the row of its key, which reads as done or has no announcement queued. */
  ghost predicate Finds(s: State, key: Key) {
    key in s.events && (s.events[key].status > 0 || Ready(s, key))
  }

  ghost predicate Disciplined(s: State, step: Step) {
    match step
    case ShareStep(u, day, _) => u in s.users ==> Finds(s, Key(u, 4, day))
    case ReadStep(u, taskId, day, _) => u in s.users && 5 <= taskId <= 8 ==> Finds(s, Key(u, taskId, day))
    case SignStep(u, day, _) => u in s.users ==> Finds(s, Key(u, SIGN_TASK, day))
    case _ => true
  }

  ghost predicate DisciplinedRun(s: State, steps: seq<Step>) {
    steps == [] || (DisciplinedRun(s, steps[..|steps| - 1]) &&
                    Disciplined(Run(s, steps[..|steps| - 1]), steps[|steps| - 1]))
  }

  /** No key is rewarded twice, and every daily reward had its row. */
  ghost predicate PaidOnce(s: State) {
    && (forall i :: 0 <= i < |s.paid| && s.paid[i].Daily? ==> s.paid[i].hadRow)
    && (forall i, j :: 0 <= i < j < |s.paid| && s.paid[i].Daily? && s.paid[j].Daily? ==>
          s.paid[i].key != s.paid[j].key)
  }

  /** A reward leaves everyone rewarded at most once if and only if its row is there and none of its announcements is
      queued. */
  lemma PayOnce(s: State, key: Key, gold: int, status: int, eventId: nat, now: int)
    requires Wf(s) && Guarded(s) && Accounted(s) && PaidOnce(s) && Announced(key.taskId)
    requires Lookup(s.events, key).status <= 0
    ensures PaidOnce(Pay(s, key, gold, status, eventId, now)) <==> Ready(s, key)
  {
    hide Pay, Accounted;
    PaySettled(s, key, gold, status, eventId, now, key);
    var t := Pay(s, key, gold, status, eventId, now);
    assert t.paid[|s.paid|] == Daily(key, gold, key in s.events);
    if Ready(s, key) {
      FinalAbsent(s.events[key].status, s.eventChan, key);
    } else if key in s.events {
      QueuedPaid(s, key);
      var i :| 0 <= i < |s.paid| && s.paid[i].Daily? && s.paid[i].key == key;
      assert t.paid[i] == s.paid[i];
    }
  }

  lemma QueuedPaid(s: State, key: Key)
    requires Accounted(s) && Announced(key.taskId) && InQueue(s, key)
    ensures exists i :: 0 <= i < |s.paid| && s.paid[i].Daily? && s.paid[i].key == key
  {
    QueuedKey(s, key);
    PaidCountFinds(s.paid, key);
  }

  lemma AwardOnce(s: State, u: nat, taskId: int, day: int, now: int)
    requires Wf(s) && Guarded(s) && Accounted(s) && PaidOnce(s) && Announced(taskId)
    ensures PaidOnce(Award(s, u, taskId, day, now)) <==> (u in s.users ==> Finds(s, Key(u, taskId, day)))
  {
    hide Pay, Accounted, PaidOnce;
    var key := Key(u, taskId, day);
    var row := Lookup(s.events, key);
    if u in s.users && row.status <= 0 {
      PayOnce(s, key, row.gold, 1, row.eventId, now);
    }
  }

  lemma SignOnce(s: State, u: nat, day: int, now: int)
    requires Wf(s) && Guarded(s) && Accounted(s) && PaidOnce(s)
    ensures PaidOnce(SignIn(s, u, day, now)) <==> (u in s.users ==> Finds(s, Key(u, SIGN_TASK, day)))
  {
    hide Pay, Accounted, PaidOnce;
    var key := Key(u, SIGN_TASK, day);
    var last := LastSign(s, u, day);
    if u in s.users && Lookup(s.events, key).status <= 0 {
      PayOnce(s, key, Reward(last), last + 1, Lookup(s.events, key).eventId, now);
    }
  }

  /** A step leaves everyone rewarded at most once if and only if its request finds what it must. */
  lemma StepPaidOnce(s: State, step: Step)
    requires Wf(s) && Guarded(s) && Accounted(s) && PaidOnce(s)
    ensures PaidOnce(Next(s, step)) <==> Disciplined(s, step)
  {
    hide Award, SignIn, Accounted, Guarded, Wf, Finds;
    match step
    case ShareStep(u, day, now) => AwardOnce(s, u, 4, day, now);
    case ReadStep(u, taskId, day, now) => if 5 <= taskId <= 8 { AwardOnce(s, u, taskId, day, now); }
    case SignStep(u, day, now) => SignOnce(s, u, day, now);
    case _ => OtherPaid(s, step);
  }

  /** Rewards are never taken back. */
  lemma StepAppends(s: State, step: Step)
    requires Wf(s) && Guarded(s)
    ensures s.paid <= Next(s, step).paid
  {
    hide Pay, Wf, Guarded;
    match step
    case ShareStep(u, day, now) => PayAppends(s, Key(u, 4, day), 1, now);
    case ReadStep(u, taskId, day, now) => PayAppends(s, Key(u, taskId, day), 1, now);
    case SignStep(u, day, now) => PayAppends(s, Key(u, SIGN_TASK, day), LastSign(s, u, day) + 1, now);
    case _ => OtherPaid(s, step);
  }

  lemma PayAppends(s: State, key: Key, status: int, now: int)
    ensures forall gold, eventId :: s.paid <= Pay(s, key, gold, status, eventId, now).paid
  {
    hide Pay;
    forall gold, eventId ensures s.paid <= Pay(s, key, gold, status, eventId, now).paid {
      PaySettled(s, key, gold, status, eventId, now, key);
    }
  }

  /** In every run the guards hold, and nobody is rewarded twice for one task and day, nor without a row, if and only if
      every request finds its row either done or without a queued announcement. */
  lemma {:induction false} RunAwards(tasks: seq<TaskInfo>, steps: seq<Step>)
    ensures var s := Run(Init(tasks), steps);
            Wf(s) && Guarded(s) && Accounted(s) && (PaidOnce(s) <==> DisciplinedRun(Init(tasks), steps))
  {
    hide Wf, Guarded, Accounted, Next, Disciplined;
    if steps == [] {
      EmptyAwards(tasks);
    } else {
      var s, step := Run(Init(tasks), steps[..|steps| - 1]), steps[|steps| - 1];
      RunAwards(tasks, steps[..|steps| - 1]);
      StepWf(s, step);
      StepGuarded(s, step);
      StepAccounted(s, step);
      if PaidOnce(s) {
        StepPaidOnce(s, step);
      } else {
        StepAppends(s, step);
        TwiceForever(s.paid, Next(s, step).paid);
      }
    }
  }

  lemma EmptyAwards(tasks: seq<TaskInfo>)
    ensures Wf(Init(tasks)) && Guarded(Init(tasks)) && Accounted(Init(tasks)) && PaidOnce(Init(tasks))
  {
  }

  lemma TwiceForever(paid: seq<Payment>, later: seq<Payment>)
    requires paid <= later
    ensures forall i :: 0 <= i < |paid| ==> later[i] == paid[i]
  {
  }
}
