/** The reward server as a transition system: tables, the two bounded channels, and one total step function for
    every handler and every consumer. Days and seconds are integers; cash is exact. */
module LedgerModel {

  const EVENT_CAP := 10
  const GOLD_CAP := 20
  const SIGN_TASK := 3

  datatype TaskType = One | Two | Other
  datatype TaskInfo = TaskInfo(taskId: int, taskType: TaskType, status: int, gold: int, cash: real)

  datatype User = User(gold: int, cash: real)
  datatype Key = Key(user: nat, taskId: int, day: int)
  datatype Event = Event(status: int, gold: int, cash: real, eventId: nat)
  datatype EventMsg = EventMsg(key: Key, status: int)
  datatype GoldMsg = GoldMsg(user: nat, taskId: int, gold: int, cash: real, eventId: nat)
  datatype LedgerRow = LedgerRow(msg: GoldMsg, time: int)
  datatype Withdrawal = Withdrawal(user: nat, status: int, amount: int, time: int)
  datatype Feedback = Feedback(valid: int, op: int)

  /** A reward answered with success; `hadRow` says whether today's event row existed. */
  datatype Payment =
    | Daily(key: Key, gold: int, hadRow: bool)
    | Profile(user: nat, day: int, gold: int)
    | ForFeedback(user: nat, commit: int, gold: int)

  /** Tables and channels. `rejected` and `unrecorded` hold the inserts that a primary key refused (the server only
      logs them); `paid` holds the rewards answered with success. */
  datatype State = State(
    tasks: seq<TaskInfo>,
    nextUser: nat,
    nextEvent: nat,
    openIds: map<string, nat>,
    users: map<nat, User>,
    events: map<Key, Event>,
    ledger: seq<LedgerRow>,
    withdrawals: seq<Withdrawal>,
    feedbacks: map<(nat, int), Feedback>,
    eventChan: seq<EventMsg>,
    goldChan: seq<GoldMsg>,
    rejected: seq<GoldMsg>,
    unrecorded: seq<Withdrawal>,
    paid: seq<Payment>)

  function Init(tasks: seq<TaskInfo>): State {
    State(tasks, 1, 1, map[], map[], map[], [], [], map[], [], [], [], [], [])
  }

  // ----- Table operations -----

  /** `getEventMap`: a missing row reads as zeros. */
  function Lookup(events: map<Key, Event>, key: Key): Event {
    if key in events then events[key] else Event(0, 0, 0.0, 0)
  }

  function SetStatus(events: map<Key, Event>, key: Key, status: int): map<Key, Event> {
    if key in events then events[key := events[key].(status := status)] else events
  }

  function AddGold(users: map<nat, User>, u: nat, gold: int): map<nat, User> {
    if u in users then users[u := users[u].(gold := users[u].gold + gold)] else users
  }

  function AddCash(users: map<nat, User>, u: nat, cash: real): map<nat, User> {
    if u in users then users[u := users[u].(cash := users[u].cash + cash)] else users
  }

  /** The primary key of the ledger table: user, task and second. */
  predicate LedgerTaken(ledger: seq<LedgerRow>, user: nat, taskId: int, time: int) {
    exists i :: 0 <= i < |ledger| && ledger[i].msg.user == user && ledger[i].msg.taskId == taskId &&
           ledger[i].time == time
  }

  function InsertLedger(s: State, m: GoldMsg, now: int): State {
    if LedgerTaken(s.ledger, m.user, m.taskId, now) then s.(rejected := s.rejected + [m])
    else s.(ledger := s.ledger + [LedgerRow(m, now)])
  }

  // ----- Channels and their consumers -----

  function DrainEvent(s: State): State {
    if s.eventChan == [] then s
    else
      var m := s.eventChan[0];
      s.(eventChan := s.eventChan[1..], events := SetStatus(s.events, m.key, m.status))
  }

  function DrainGold(s: State, now: int): State {
    if s.goldChan == [] then s
    else InsertLedger(s.(goldChan := s.goldChan[1..]), s.goldChan[0], now)
  }

  /** A send to a full channel waits until the consumer has taken one message. */
  function SendEvent(s: State, m: EventMsg): State {
    var t := if |s.eventChan| < EVENT_CAP then s else DrainEvent(s);
    t.(eventChan := t.eventChan + [m])
  }

  function SendGold(s: State, m: GoldMsg, now: int): State {
    var t := if |s.goldChan| < GOLD_CAP then s else DrainGold(s, now);
    t.(goldChan := t.goldChan + [m])
  }

  // ----- Registration and login -----

  function TasksOf(tasks: seq<TaskInfo>, taskType: TaskType): seq<TaskInfo> {
    if tasks == [] then []
    else
      var last := tasks[|tasks| - 1];
      TasksOf(tasks[..|tasks| - 1], taskType) + if last.taskType == taskType then [last] else []
  }

  function CreateRow(s: State, u: nat, day: int, t: TaskInfo): State {
    var key := Key(u, t.taskId, day);
    if t.status == 1 && key !in s.events then
      s.(events := s.events[key := Event(0, t.gold, t.cash, s.nextEvent)], nextEvent := s.nextEvent + 1)
    else s
  }

  function CreateRows(s: State, u: nat, day: int, ts: seq<TaskInfo>): State {
    if ts == [] then s else CreateRow(CreateRows(s, u, day, ts[..|ts| - 1]), u, day, ts[|ts| - 1])
  }

  function RegisterEvent(s: State, u: nat, day: int, now: int): State {
    var key := Key(u, 1, day);
    var row := Lookup(s.events, key);
    var t := InsertLedger(s, GoldMsg(u, 1, row.gold, row.cash, row.eventId), now);
    t.(users := AddCash(t.users, u, row.cash), events := SetStatus(t.events, key, 1))
  }

  function Register(s: State, openId: string, day: int, now: int): State {
    if openId in s.openIds then s
    else
      var u := s.nextUser;
      var t := s.(nextUser := u + 1, openIds := s.openIds[openId := u], users := s.users[u := User(0, 0.0)]);
      RegisterEvent(CreateRows(t, u, day, TasksOf(s.tasks, One)), u, day, now)
  }

  function Login(s: State, u: nat, day: int): State {
    if u !in s.users then s else CreateRows(s, u, day, TasksOf(s.tasks, Two))
  }

  // ----- Rewards -----

  /** Announce the new status, queue the ledger row, answer with success. */
  function Announce(s: State, key: Key, gold: int, status: int, eventId: nat, now: int): State {
    var b := SendEvent(s, EventMsg(key, status));
    var c := SendGold(b, GoldMsg(key.user, key.taskId, gold, 0.0, eventId), now);
    c.(paid := c.paid + [Daily(key, gold, key in s.events)])
  }

  /** Credit, then announce. */
  function Pay(s: State, key: Key, gold: int, status: int, eventId: nat, now: int): State {
    Announce(s.(users := AddGold(s.users, key.user, gold)), key, gold, status, eventId, now)
  }

  function Award(s: State, u: nat, taskId: int, day: int, now: int): State {
    var key := Key(u, taskId, day);
    var row := Lookup(s.events, key);
    if u !in s.users || row.status > 0 then s
    else Pay(s, key, row.gold, 1, row.eventId, now)
  }

  function ShareApp(s: State, u: nat, day: int, now: int): State {
    Award(s, u, 4, day, now)
  }

  function ReadAward(s: State, u: nat, taskId: int, day: int, now: int): State {
    if 5 <= taskId <= 8 then Award(s, u, taskId, day, now) else s
  }

  /** The sign-in reward after `n` consecutive days. */
  function Reward(n: int): int {
    if 0 <= n < 7 then 10 + 5 * n else 40
  }

  /** Yesterday's sign-in count. */
  function LastSign(s: State, u: nat, day: int): int {
    Lookup(s.events, Key(u, SIGN_TASK, day - 1)).status
  }

  function SignIn(s: State, u: nat, day: int, now: int): State {
    var key := Key(u, SIGN_TASK, day);
    var row := Lookup(s.events, key);
    if u !in s.users || row.status > 0 then s
    else Pay(s, key, Reward(LastSign(s, u, day)), LastSign(s, u, day) + 1, row.eventId, now)
  }

  /** The profile reward: the query ignores the date, so `day` is that of whichever row it returned. */
  function UpdateUserData(s: State, u: nat, day: int, now: int): State {
    var key := Key(u, 2, day);
    if u !in s.users || key !in s.events || s.events[key].status > 0 then s
    else
      var row := s.events[key];
      var a := s.(users := AddGold(s.users, u, row.gold), events := SetStatus(s.events, key, 1));
      var b := SendGold(a, GoldMsg(u, 2, row.gold, 0.0, row.eventId), now);
      b.(paid := b.paid + [Profile(u, day, row.gold)])
  }

  function PostFeedback(s: State, u: nat, hasContent: bool, now: int): State {
    if u !in s.users || !hasContent || (u, now) in s.feedbacks then s
    else s.(feedbacks := s.feedbacks[(u, now) := Feedback(0, 0)])
  }

  function EffectiveFeedback(s: State, u: nat, commit: int, valid: int, op: int, day: int, now: int): State {
    if u !in s.users || (u, commit) !in s.feedbacks || s.feedbacks[(u, commit)].valid > 0 then s
    else
      var a := s.(feedbacks := s.feedbacks[(u, commit) := Feedback(valid, 1)]);
      if valid == 1 && op != 1 then
        var row := Lookup(s.events, Key(u, 9, day));
        var b := a.(users := AddGold(a.users, u, row.gold));
        var c := SendGold(b, GoldMsg(u, 9, row.gold, 0.0, row.eventId), now);
        c.(paid := c.paid + [ForFeedback(u, commit, row.gold)])
      else a
  }

  // ----- Withdrawals -----

  /** Go's conversion to int: toward zero. */
  function Trunc(x: real): int {
    if x >= 0.0 then x.Floor else -((-x).Floor)
  }

  predicate HasPending(ws: seq<Withdrawal>, u: nat) {
    exists i :: 0 <= i < |ws| && ws[i].user == u && ws[i].status == 0
  }

  predicate WithdrawalTaken(ws: seq<Withdrawal>, u: nat, time: int) {
    exists i :: 0 <= i < |ws| && ws[i].user == u && ws[i].time == time
  }

  function InsertWithdrawal(s: State, w: Withdrawal): State {
    if WithdrawalTaken(s.withdrawals, w.user, w.time) then s.(unrecorded := s.unrecorded + [w])
    else s.(withdrawals := s.withdrawals + [w])
  }

  function Withdraw(s: State, u: nat, amount: int, now: int): State {
    if u !in s.users || HasPending(s.withdrawals, u) || !(30 <= amount <= Trunc(s.users[u].cash)) then s
    else
      var t := InsertWithdrawal(s, Withdrawal(u, 0, amount, now));
      t.(users := AddCash(t.users, u, -(amount as real)))
  }

  function Approve(ws: seq<Withdrawal>, u: nat, commit: int): seq<Withdrawal> {
    seq(|ws|, i requires 0 <= i < |ws| =>
      if ws[i].user == u && ws[i].time == commit then ws[i].(status := 1) else ws[i])
  }

  function HandleWithdrawal(s: State, u: nat, commit: int, status: int): State {
    if u !in s.users || status == 1 then s else s.(withdrawals := Approve(s.withdrawals, u, commit))
  }

  // ----- Runs -----

  datatype Step =
    | RegisterStep(openId: string, day: int, now: int)
    | LoginStep(u: nat, day: int)
    | ShareStep(u: nat, day: int, now: int)
    | ReadStep(u: nat, taskId: int, day: int, now: int)
    | SignStep(u: nat, day: int, now: int)
    | ProfileStep(u: nat, day: int, now: int)
    | PostStep(u: nat, hasContent: bool, now: int)
    | ApproveStep(u: nat, commit: int, valid: int, op: int, day: int, now: int)
    | WithdrawStep(u: nat, amount: int, now: int)
    | HandleStep(u: nat, commit: int, status: int)
    | DrainEventStep
    | DrainGoldStep(now: int)

  function Next(s: State, step: Step): State {
    match step
    case RegisterStep(openId, day, now) => Register(s, openId, day, now)
    case LoginStep(u, day) => Login(s, u, day)
    case ShareStep(u, day, now) => ShareApp(s, u, day, now)
    case ReadStep(u, taskId, day, now) => ReadAward(s, u, taskId, day, now)
    case SignStep(u, day, now) => SignIn(s, u, day, now)
    case ProfileStep(u, day, now) => UpdateUserData(s, u, day, now)
    case PostStep(u, hasContent, now) => PostFeedback(s, u, hasContent, now)
    case ApproveStep(u, commit, valid, op, day, now) => EffectiveFeedback(s, u, commit, valid, op, day, now)
    case WithdrawStep(u, amount, now) => Withdraw(s, u, amount, now)
    case HandleStep(u, commit, status) => HandleWithdrawal(s, u, commit, status)
    case DrainEventStep => DrainEvent(s)
    case DrainGoldStep(now) => DrainGold(s, now)
  }

  /** The state after a run: handlers and consumers in any order. */
  function Run(s: State, steps: seq<Step>): State {
    if steps == [] then s else Next(Run(s, steps[..|steps| - 1]), steps[|steps| - 1])
  }
}
