/** What every run of the reward server keeps: shape of the tables, gold, cash, and pending withdrawals. */
module LedgerConservation {
  import opened LedgerModel

  // ----- Sums -----

  function MsgGold(m: GoldMsg, u: nat): int {
    if m.user == u && m.taskId != 1 then m.gold else 0
  }

  function MsgCash(m: GoldMsg, u: nat): real {
    if m.user == u then m.cash else 0.0
  }

  function QueueGold(ms: seq<GoldMsg>, u: nat): int {
    if ms == [] then 0 else QueueGold(ms[..|ms| - 1], u) + MsgGold(ms[|ms| - 1], u)
  }

  function LedgerGold(rows: seq<LedgerRow>, u: nat): int {
    if rows == [] then 0 else LedgerGold(rows[..|rows| - 1], u) + MsgGold(rows[|rows| - 1].msg, u)
  }

  function LedgerCash(rows: seq<LedgerRow>, u: nat): real {
    if rows == [] then 0.0 else LedgerCash(rows[..|rows| - 1], u) + MsgCash(rows[|rows| - 1].msg, u)
  }

  function AmountFor(w: Withdrawal, u: nat): real {
    if w.user == u then w.amount as real else 0.0
  }

  function Withdrawn(ws: seq<Withdrawal>, u: nat): real {
    if ws == [] then 0.0 else Withdrawn(ws[..|ws| - 1], u) + AmountFor(ws[|ws| - 1], u)
  }

  lemma QueueGoldAppend(ms: seq<GoldMsg>, m: GoldMsg, u: nat)
    ensures QueueGold(ms + [m], u) == QueueGold(ms, u) + MsgGold(m, u)
  {
    assert (ms + [m])[..|ms|] == ms;
  }

  lemma {:induction false} QueueGoldPop(ms: seq<GoldMsg>, u: nat)
    requires ms != []
    ensures QueueGold(ms, u) == MsgGold(ms[0], u) + QueueGold(ms[1..], u)
  {
    if |ms| > 1 {
      QueueGoldPop(ms[..|ms| - 1], u);
      assert ms[..|ms| - 1][1..] == ms[1..][..|ms| - 2];
    }
  }

  lemma LedgerAppend(rows: seq<LedgerRow>, row: LedgerRow, u: nat)
    ensures LedgerGold(rows + [row], u) == LedgerGold(rows, u) + MsgGold(row.msg, u)
    ensures LedgerCash(rows + [row], u) == LedgerCash(rows, u) + MsgCash(row.msg, u)
  {
    assert (rows + [row])[..|rows|] == rows;
  }

  lemma WithdrawnAppend(ws: seq<Withdrawal>, w: Withdrawal, u: nat)
    ensures Withdrawn(ws + [w], u) == Withdrawn(ws, u) + AmountFor(w, u)
  {
    assert (ws + [w])[..|ws|] == ws;
  }

  lemma {:induction false} WithdrawnApprove(ws: seq<Withdrawal>, v: nat, commit: int, u: nat)
    ensures Withdrawn(Approve(ws, v, commit), u) == Withdrawn(ws, u)
  {
    if ws != [] {
      var n := |ws|;
      WithdrawnApprove(ws[..n - 1], v, commit, u);
      assert Approve(ws, v, commit)[..n - 1] == Approve(ws[..n - 1], v, commit);
    }
  }

  // ----- Gold -----

  function GoldOf(s: State, u: nat): int {
    if u in s.users then s.users[u].gold else 0
  }

  /** Gold not accounted for by the ledger, the queue, or a refused insert. */
  function GoldGap(s: State, u: nat): int {
    GoldOf(s, u) - LedgerGold(s.ledger, u) - QueueGold(s.goldChan, u) - QueueGold(s.rejected, u)
  }

  lemma InsertGap(s: State, m: GoldMsg, now: int, u: nat)
    ensures GoldGap(InsertLedger(s, m, now), u) == GoldGap(s, u) - MsgGold(m, u)
  {
    hide LedgerTaken;
    LedgerAppend(s.ledger, LedgerRow(m, now), u);
    QueueGoldAppend(s.rejected, m, u);
  }

  lemma DrainGoldGap(s: State, now: int, u: nat)
    ensures GoldGap(DrainGold(s, now), u) == GoldGap(s, u)
  {
    hide InsertLedger;
    if s.goldChan != [] {
      QueueGoldPop(s.goldChan, u);
      InsertGap(s.(goldChan := s.goldChan[1..]), s.goldChan[0], now, u);
    }
  }

  lemma SendGoldFrame(s: State, m: GoldMsg, now: int)
    ensures var t := SendGold(s, m, now); t == s.(ledger := t.ledger, goldChan := t.goldChan, rejected := t.rejected)
  {
  }

  lemma SendGoldGap(s: State, m: GoldMsg, now: int, u: nat)
    ensures GoldGap(SendGold(s, m, now), u) == GoldGap(s, u) - MsgGold(m, u)
  {
    DrainGoldGap(s, now, u);
    var t := if |s.goldChan| < GOLD_CAP then s else DrainGold(s, now);
    QueueGoldAppend(t.goldChan, m, u);
  }

  lemma {:induction false} CreateFrame(s: State, u: nat, day: int, ts: seq<TaskInfo>)
    ensures var t := CreateRows(s, u, day, ts); t == s.(events := t.events, nextEvent := t.nextEvent)
  {
    if ts != [] {
      CreateFrame(s, u, day, ts[..|ts| - 1]);
    }
  }

  lemma PayGap(s: State, key: Key, gold: int, status: int, eventId: nat, now: int, u: nat)
    requires key.user in s.users && key.taskId != 1
    ensures GoldGap(Pay(s, key, gold, status, eventId, now), u) == GoldGap(s, u)
  {
    var a := s.(users := AddGold(s.users, key.user, gold));
    var b := SendEvent(a, EventMsg(key, status));
    SendGoldGap(b, GoldMsg(key.user, key.taskId, gold, 0.0, eventId), now, u);
  }

  lemma RegisterEventGap(s: State, v: nat, day: int, now: int, u: nat)
    ensures GoldGap(RegisterEvent(s, v, day, now), u) == GoldGap(s, u)
  {
    var row := Lookup(s.events, Key(v, 1, day));
    InsertGap(s, GoldMsg(v, 1, row.gold, row.cash, row.eventId), now, u);
  }

  lemma RegisterGap(s: State, openId: string, day: int, now: int, u: nat)
    requires s.nextUser !in s.users
    ensures GoldGap(Register(s, openId, day, now), u) == GoldGap(s, u)
  {
    hide RegisterEvent;
    if openId !in s.openIds {
      var v := s.nextUser;
      var t := s.(nextUser := v + 1, openIds := s.openIds[openId := v], users := s.users[v := User(0, 0.0)]);
      var c := CreateRows(t, v, day, TasksOf(s.tasks, One));
      CreateFrame(t, v, day, TasksOf(s.tasks, One));
      assert GoldGap(c, u) == GoldGap(s, u);
      RegisterEventGap(c, v, day, now, u);
    }
  }

  lemma AwardGap(s: State, v: nat, taskId: int, day: int, now: int, u: nat)
    requires taskId != 1
    ensures GoldGap(Award(s, v, taskId, day, now), u) == GoldGap(s, u)
  {
    hide Pay;
    if v in s.users {
      var key := Key(v, taskId, day);
      var row := Lookup(s.events, key);
      PayGap(s, key, row.gold, 1, row.eventId, now, u);
    }
  }

  lemma SignGap(s: State, v: nat, day: int, now: int, u: nat)
    ensures GoldGap(SignIn(s, v, day, now), u) == GoldGap(s, u)
  {
    hide Pay;
    var key := Key(v, SIGN_TASK, day);
    if v in s.users && Lookup(s.events, key).status <= 0 {
      var last := LastSign(s, v, day);
      PayGap(s, key, Reward(last), last + 1, Lookup(s.events, key).eventId, now, u);
    } else {
      assert SignIn(s, v, day, now) == s;
    }
  }

  lemma ProfileGap(s: State, v: nat, day: int, now: int, u: nat)
    ensures GoldGap(UpdateUserData(s, v, day, now), u) == GoldGap(s, u)
  {
    hide SendGold;
    var key := Key(v, 2, day);
    if v in s.users && key in s.events {
      var row := s.events[key];
      var a := s.(users := AddGold(s.users, v, row.gold), events := SetStatus(s.events, key, 1));
      SendGoldGap(a, GoldMsg(v, 2, row.gold, 0.0, row.eventId), now, u);
    }
  }

  lemma FeedbackGap(s: State, v: nat, commit: int, valid: int, op: int, day: int, now: int, u: nat)
    ensures GoldGap(EffectiveFeedback(s, v, commit, valid, op, day, now), u) == GoldGap(s, u)
  {
    hide SendGold;
    if v in s.users && (v, commit) in s.feedbacks {
      var a := s.(feedbacks := s.feedbacks[(v, commit) := Feedback(valid, 1)]);
      var row := Lookup(s.events, Key(v, 9, day));
      var b := a.(users := AddGold(a.users, v, row.gold));
      assert GoldGap(b, u) == GoldGap(s, u) + MsgGold(GoldMsg(v, 9, row.gold, 0.0, row.eventId), u);
      SendGoldGap(b, GoldMsg(v, 9, row.gold, 0.0, row.eventId), now, u);
    }
  }

  /** No step creates or destroys unaccounted gold. */
  lemma StepGap(s: State, step: Step, u: nat)
    requires s.nextUser !in s.users
    ensures GoldGap(Next(s, step), u) == GoldGap(s, u)
  {
    hide Register, Login, Award, SignIn, UpdateUserData, PostFeedback, EffectiveFeedback,
      Withdraw, HandleWithdrawal, DrainEvent, DrainGold;
    match step
    case RegisterStep(openId, day, now) => RegisterGap(s, openId, day, now, u);
    case ShareStep(v, day, now) => AwardGap(s, v, 4, day, now, u);
    case ReadStep(v, taskId, day, now) => AwardGap(s, v, if 5 <= taskId <= 8 then taskId else 5, day, now, u);
    case SignStep(v, day, now) => SignGap(s, v, day, now, u);
    case ProfileStep(v, day, now) => ProfileGap(s, v, day, now, u);
    case ApproveStep(v, commit, valid, op, day, now) => FeedbackGap(s, v, commit, valid, op, day, now, u);
    case DrainGoldStep(now) => DrainGoldGap(s, now, u);
    case _ => QuietGap(s, step, u);
  }

  predicate Quiet(step: Step) {
    step.LoginStep? || step.PostStep? || step.WithdrawStep? || step.HandleStep? || step.DrainEventStep?
  }

  lemma QuietGap(s: State, step: Step, u: nat)
    requires Quiet(step)
    ensures GoldGap(Next(s, step), u) == GoldGap(s, u)
  {
    hide HasPending, WithdrawalTaken, Approve, Trunc, TasksOf, LedgerGold, QueueGold;
    if step.LoginStep? {
      CreateFrame(s, step.u, step.day, TasksOf(s.tasks, Two));
    }
  }

  // ----- Shape of the tables -----

  ghost predicate Wf(s: State) {
    && (forall u :: u in s.users ==> u < s.nextUser)
    && (forall k :: k in s.events ==> k.user < s.nextUser && s.events[k].status >= 0)
    && (forall i :: 0 <= i < |s.ledger| ==> s.ledger[i].msg.user < s.nextUser)
    && (forall m :: m in s.goldChan ==> m.user < s.nextUser && m.cash == 0.0)
    && (forall m :: m in s.eventChan ==> m.status > 0)
    && |s.eventChan| <= EVENT_CAP && |s.goldChan| <= GOLD_CAP
  }

  lemma DrainEventWf(s: State)
    requires Wf(s)
    ensures Wf(DrainEvent(s))
  {
    if s.eventChan != [] {
      assert s.eventChan[0] in s.eventChan;
    }
  }

  lemma DrainGoldWf(s: State, now: int)
    requires Wf(s)
    ensures Wf(DrainGold(s, now))
  {
    if s.goldChan != [] {
      assert s.goldChan[0] in s.goldChan;
    }
  }

  lemma SendEventWf(s: State, m: EventMsg)
    requires Wf(s) && m.status > 0
    ensures Wf(SendEvent(s, m))
  {
    DrainEventWf(s);
  }

  lemma SendGoldWf(s: State, m: GoldMsg, now: int)
    requires Wf(s) && m.user < s.nextUser && m.cash == 0.0
    ensures Wf(SendGold(s, m, now))
  {
    DrainGoldWf(s, now);
  }

  lemma PayWf(s: State, key: Key, gold: int, status: int, eventId: nat, now: int)
    requires Wf(s) && key.user in s.users && status > 0
    ensures Wf(Pay(s, key, gold, status, eventId, now))
  {
    hide SendGold;
    var a := s.(users := AddGold(s.users, key.user, gold));
    SendEventWf(a, EventMsg(key, status));
    SendGoldWf(SendEvent(a, EventMsg(key, status)), GoldMsg(key.user, key.taskId, gold, 0.0, eventId), now);
  }

  lemma {:induction false} CreateWf(s: State, u: nat, day: int, ts: seq<TaskInfo>)
    requires Wf(s) && u < s.nextUser
    ensures Wf(CreateRows(s, u, day, ts))
  {
    if ts != [] {
      CreateFrame(s, u, day, ts[..|ts| - 1]);
      CreateWf(s, u, day, ts[..|ts| - 1]);
    }
  }

  /** The user a registration has just inserted. */
  function WithNewUser(s: State, openId: string): State {
    s.(nextUser := s.nextUser + 1, openIds := s.openIds[openId := s.nextUser],
       users := s.users[s.nextUser := User(0, 0.0)])
  }

  lemma RegisterWf(s: State, openId: string, day: int, now: int)
    requires Wf(s)
    ensures Wf(Register(s, openId, day, now))
  {
    hide RegisterEvent;
    var u := s.nextUser;
    var t := WithNewUser(s, openId);
    var ts := TasksOf(s.tasks, One);
    assert Wf(t);
    CreateWf(t, u, day, ts);
    CreateFrame(t, u, day, ts);
    RegisterEventWf(CreateRows(t, u, day, ts), u, day, now);
  }

  lemma RegisterEventWf(s: State, u: nat, day: int, now: int)
    requires Wf(s) && u < s.nextUser
    ensures Wf(RegisterEvent(s, u, day, now))
  {
  }

  lemma SignWf(s: State, u: nat, day: int, now: int)
    requires Wf(s)
    ensures Wf(SignIn(s, u, day, now))
  {
    hide Pay;
    if u in s.users {
      var key := Key(u, SIGN_TASK, day);
      var last := LastSign(s, u, day);
      PayWf(s, key, Reward(last), last + 1, Lookup(s.events, key).eventId, now);
    }
  }

  lemma AwardWf(s: State, u: nat, taskId: int, day: int, now: int)
    requires Wf(s)
    ensures Wf(Award(s, u, taskId, day, now))
  {
    hide Pay;
    if u in s.users {
      var row := Lookup(s.events, Key(u, taskId, day));
      PayWf(s, Key(u, taskId, day), row.gold, 1, row.eventId, now);
    }
  }

  lemma ProfileWf(s: State, u: nat, day: int, now: int)
    requires Wf(s)
    ensures Wf(UpdateUserData(s, u, day, now))
  {
    hide SendGold;
    var key := Key(u, 2, day);
    if u in s.users && key in s.events {
      var row := s.events[key];
      var a := s.(users := AddGold(s.users, u, row.gold), events := SetStatus(s.events, key, 1));
      SendGoldWf(a, GoldMsg(u, 2, row.gold, 0.0, row.eventId), now);
    }
  }

  lemma FeedbackWf(s: State, u: nat, commit: int, valid: int, op: int, day: int, now: int)
    requires Wf(s)
    ensures Wf(EffectiveFeedback(s, u, commit, valid, op, day, now))
  {
    hide SendGold;
    if u in s.users {
      var row := Lookup(s.events, Key(u, 9, day));
      var a := s.(feedbacks := s.feedbacks[(u, commit) := Feedback(valid, 1)]);
      SendGoldWf(a.(users := AddGold(a.users, u, row.gold)), GoldMsg(u, 9, row.gold, 0.0, row.eventId), now);
    }
  }

  lemma StepWf(s: State, step: Step)
    requires Wf(s)
    ensures Wf(Next(s, step))
  {
    hide Register, Login, Award, SignIn, UpdateUserData, PostFeedback, EffectiveFeedback,
      Withdraw, HandleWithdrawal, DrainEvent, DrainGold;
    match step
    case RegisterStep(openId, day, now) => RegisterWf(s, openId, day, now);
    case ShareStep(u, day, now) => AwardWf(s, u, 4, day, now);
    case ReadStep(u, taskId, day, now) => AwardWf(s, u, taskId, day, now);
    case SignStep(u, day, now) => SignWf(s, u, day, now);
    case ProfileStep(u, day, now) => ProfileWf(s, u, day, now);
    case ApproveStep(u, commit, valid, op, day, now) => FeedbackWf(s, u, commit, valid, op, day, now);
    case DrainEventStep => DrainEventWf(s);
    case DrainGoldStep(now) => DrainGoldWf(s, now);
    case _ => QuietWf(s, step);
  }

  lemma QuietWf(s: State, step: Step)
    requires Wf(s) && Quiet(step)
    ensures Wf(Next(s, step))
  {
    hide HasPending, WithdrawalTaken, Approve, Trunc, TasksOf;
    match step
    case LoginStep(u, day) => if u in s.users { CreateWf(s, u, day, TasksOf(s.tasks, Two)); }
    case DrainEventStep => DrainEventWf(s);
    case _ =>
  }

  // ----- Cash and withdrawals -----

  function CashOf(s: State, u: nat): real {
    if u in s.users then s.users[u].cash else 0.0
  }

  /** Cash not accounted for by the ledger, the withdrawals, or a refused withdrawal insert. */
  function CashGap(s: State, u: nat): real {
    CashOf(s, u) - LedgerCash(s.ledger, u) + Withdrawn(s.withdrawals, u) + Withdrawn(s.unrecorded, u)
  }

  /** What cash depends on, and what the reward handlers leave alone. */
  ghost predicate SameCash(s: State, t: State) {
    && t.withdrawals == s.withdrawals && t.unrecorded == s.unrecorded
    && (forall u :: CashOf(t, u) == CashOf(s, u) && LedgerCash(t.ledger, u) == LedgerCash(s.ledger, u))
  }

  lemma DrainGoldCash(s: State, now: int)
    requires Wf(s)
    ensures SameCash(s, DrainGold(s, now))
  {
    if s.goldChan != [] {
      var m := s.goldChan[0];
      assert m in s.goldChan;
      forall u ensures LedgerCash(s.ledger + [LedgerRow(m, now)], u) == LedgerCash(s.ledger, u) {
        LedgerAppend(s.ledger, LedgerRow(m, now), u);
      }
    }
  }

  lemma SendGoldCash(s: State, m: GoldMsg, now: int)
    requires Wf(s)
    ensures SameCash(s, SendGold(s, m, now))
  {
    DrainGoldCash(s, now);
  }

  lemma PayCash(s: State, key: Key, gold: int, status: int, eventId: nat, now: int)
    requires Wf(s) && status > 0
    ensures SameCash(s, Pay(s, key, gold, status, eventId, now))
  {
    var a := s.(users := AddGold(s.users, key.user, gold));
    SendEventWf(a, EventMsg(key, status));
    var b := SendEvent(a, EventMsg(key, status));
    assert b.users == a.users && b.ledger == s.ledger;
    SendGoldCash(b, GoldMsg(key.user, key.taskId, gold, 0.0, eventId), now);
    assert forall u :: CashOf(b, u) == CashOf(s, u);
  }

  lemma RegisterCash(s: State, openId: string, day: int, now: int, u: nat)
    requires Wf(s)
    ensures CashGap(Register(s, openId, day, now), u) == CashGap(s, u)
  {
    hide RegisterEvent;
    if openId !in s.openIds {
      var v := s.nextUser;
      var t := WithNewUser(s, openId);
      CreateFrame(t, v, day, TasksOf(s.tasks, One));
      var c := CreateRows(t, v, day, TasksOf(s.tasks, One));
      RegisterEventCash(c, v, day, now, u);
    }
  }

  lemma RegisterEventCash(s: State, v: nat, day: int, now: int, u: nat)
    requires v in s.users && forall i :: 0 <= i < |s.ledger| ==> s.ledger[i].msg.user != v
    ensures CashGap(RegisterEvent(s, v, day, now), u) == CashGap(s, u)
  {
    var row := Lookup(s.events, Key(v, 1, day));
    LedgerAppend(s.ledger, LedgerRow(GoldMsg(v, 1, row.gold, row.cash, row.eventId), now), u);
  }

  lemma WithdrawCash(s: State, v: nat, amount: int, now: int, u: nat)
    ensures CashGap(Withdraw(s, v, amount, now), u) == CashGap(s, u)
  {
    var w := Withdrawal(v, 0, amount, now);
    InsertWithdrawalCash(s, w, u);
    var t := InsertWithdrawal(s, w);
    if v in s.users {
      assert CashGap(t.(users := AddCash(t.users, v, -(amount as real))), u) == CashGap(s, u);
    }
  }

  lemma InsertWithdrawalCash(s: State, w: Withdrawal, u: nat)
    ensures CashGap(InsertWithdrawal(s, w), u) == CashGap(s, u) + AmountFor(w, u)
  {
    hide WithdrawalTaken, Withdrawn, LedgerCash, AmountFor;
    WithdrawnAppend(s.withdrawals, w, u);
    WithdrawnAppend(s.unrecorded, w, u);
  }

  /** The steps that reward: they touch gold only. */
  lemma RewardCash(s: State, step: Step)
    requires Wf(s) && (step.ShareStep? || step.ReadStep? || step.SignStep?)
    ensures SameCash(s, Next(s, step))
  {
    hide Pay;
    match step
    case ShareStep(u, day, now) =>
      var row := Lookup(s.events, Key(u, 4, day));
      PayCash(s, Key(u, 4, day), row.gold, 1, row.eventId, now);
    case ReadStep(u, taskId, day, now) =>
      var row := Lookup(s.events, Key(u, taskId, day));
      PayCash(s, Key(u, taskId, day), row.gold, 1, row.eventId, now);
    case SignStep(u, day, now) =>
      var last := LastSign(s, u, day);
      PayCash(s, Key(u, SIGN_TASK, day), Reward(last), last + 1, Lookup(s.events, Key(u, SIGN_TASK, day)).eventId, now);
    case _ =>
  }

  lemma ProfileCash(s: State, u: nat, day: int, now: int)
    requires Wf(s)
    ensures SameCash(s, UpdateUserData(s, u, day, now))
  {
    var key := Key(u, 2, day);
    if key in s.events {
      var row := s.events[key];
      var a := s.(users := AddGold(s.users, u, row.gold), events := SetStatus(s.events, key, 1));
      SendGoldCash(a, GoldMsg(u, 2, row.gold, 0.0, row.eventId), now);
    }
  }

  lemma FeedbackCash(s: State, u: nat, commit: int, valid: int, op: int, day: int, now: int)
    requires Wf(s)
    ensures SameCash(s, EffectiveFeedback(s, u, commit, valid, op, day, now))
  {
    var row := Lookup(s.events, Key(u, 9, day));
    var a := s.(feedbacks := s.feedbacks[(u, commit) := Feedback(valid, 1)]);
    SendGoldCash(a.(users := AddGold(a.users, u, row.gold)), GoldMsg(u, 9, row.gold, 0.0, row.eventId), now);
  }

  /** No step creates or destroys unaccounted cash. */
  lemma StepCash(s: State, step: Step, u: nat)
    requires Wf(s)
    ensures CashGap(Next(s, step), u) == CashGap(s, u)
  {
    hide Register, Award, SignIn, UpdateUserData, EffectiveFeedback;
    match step
    case RegisterStep(openId, day, now) => RegisterCash(s, openId, day, now, u);
    case LoginStep(v, day) => CreateFrame(s, v, day, TasksOf(s.tasks, Two));
    case ShareStep(v, day, now) => RewardCash(s, step);
    case ReadStep(v, taskId, day, now) => RewardCash(s, step);
    case SignStep(v, day, now) => RewardCash(s, step);
    case ProfileStep(v, day, now) => ProfileCash(s, v, day, now);
    case PostStep(v, hasContent, now) =>
    case ApproveStep(v, commit, valid, op, day, now) => FeedbackCash(s, v, commit, valid, op, day, now);
    case WithdrawStep(v, amount, now) => WithdrawCash(s, v, amount, now, u);
    case HandleStep(v, commit, status) => WithdrawnApprove(s.withdrawals, v, commit, u);
    case DrainEventStep =>
    case DrainGoldStep(now) => DrainGoldCash(s, now);
  }

  /** At most one withdrawal of a user is waiting. */
  ghost predicate OnePending(s: State) {
    forall i, j :: 0 <= i < j < |s.withdrawals| && s.withdrawals[i].user == s.withdrawals[j].user ==>
      s.withdrawals[i].status != 0 || s.withdrawals[j].status != 0
  }

  lemma StepPending(s: State, step: Step)
    requires Wf(s) && OnePending(s)
    ensures OnePending(Next(s, step))
  {
    hide Pay;
    match step
    case RegisterStep(openId, day, now) =>
      CreateFrame(WithNewUser(s, openId), s.nextUser, day, TasksOf(s.tasks, One));
    case LoginStep(v, day) => CreateFrame(s, v, day, TasksOf(s.tasks, Two));
    case ShareStep(v, day, now) => RewardCash(s, step);
    case ReadStep(v, taskId, day, now) => RewardCash(s, step);
    case SignStep(v, day, now) => RewardCash(s, step);
    case ProfileStep(v, day, now) => ProfileCash(s, v, day, now);
    case PostStep(v, hasContent, now) =>
    case ApproveStep(v, commit, valid, op, day, now) => FeedbackCash(s, v, commit, valid, op, day, now);
    case WithdrawStep(v, amount, now) =>
    case HandleStep(v, commit, status) =>
    case DrainEventStep =>
    case DrainGoldStep(now) => DrainGoldCash(s, now);
  }
}
