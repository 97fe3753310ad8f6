/** The reward server itself: handlers and consumers that update the tables and channels in place. Each method is
    proved to take exactly the step of the transition system that models it. */
module LedgerServer {
  import opened LedgerModel
  import opened LedgerConservation
  import opened LedgerRuns
  import opened LedgerAwards
  import opened LedgerOnce
  import opened LedgerDiscipline
  import opened LedgerPayments
  import opened LedgerStreak

  class Server {
    var tasks: seq<TaskInfo>
    var nextUser: nat
    var nextEvent: nat
    var openIds: map<string, nat>
    var users: map<nat, User>
    var events: map<Key, Event>
    var ledger: seq<LedgerRow>
    var withdrawals: seq<Withdrawal>
    var feedbacks: map<(nat, int), Feedback>
    var eventChan: seq<EventMsg>
    var goldChan: seq<GoldMsg>
    var rejected: seq<GoldMsg>
    var unrecorded: seq<Withdrawal>
    var paid: seq<Payment>

    function Snapshot(): State
      reads this
    {
      State(tasks, nextUser, nextEvent, openIds, users, events, ledger, withdrawals, feedbacks,
            eventChan, goldChan, rejected, unrecorded, paid)
    }

    ghost predicate Valid()
      reads this
    {
      Wf(Snapshot())
    }

    constructor (tasks: seq<TaskInfo>)
      ensures Snapshot() == Init(tasks) && Valid()
    {
      this.tasks := tasks;
      nextUser, nextEvent := 1, 1;
      openIds, users, events, feedbacks := map[], map[], map[], map[];
      ledger, withdrawals, eventChan, goldChan, rejected, unrecorded, paid := [], [], [], [], [], [], [];
    }

    // ----- Consumers and channels -----

    /** One turn of the event consumer; an empty channel leaves it waiting. */
    method UpdateEventTable()
      requires Valid()
      modifies this`eventChan, this`events
      ensures Snapshot() == DrainEvent(old(Snapshot())) && Valid()
    {
      hide Wf;
      DrainEventWf(Snapshot());
      if |eventChan| > 0 {
        var data := eventChan[0];
        eventChan := eventChan[1..];
        if data.key in events {
          events := events[data.key := events[data.key].(status := data.status)];
        }
      }
    }

    /** One turn of the ledger consumer. */
    method SaveGoldAndCash(now: int)
      requires Valid()
      modifies this`goldChan, this`ledger, this`rejected
      ensures Snapshot() == DrainGold(old(Snapshot()), now) && Valid()
    {
      hide Wf;
      DrainGoldWf(Snapshot(), now);
      if |goldChan| > 0 {
        var data := goldChan[0];
        goldChan := goldChan[1..];
        if LedgerTaken(ledger, data.user, data.taskId, now) {
          rejected := rejected + [data];
        } else {
          ledger := ledger + [LedgerRow(data, now)];
        }
      }
    }

    method PutEvent(m: EventMsg)
      requires Valid() && m.status > 0
      modifies this`eventChan, this`events
      ensures Snapshot() == SendEvent(old(Snapshot()), m) && Valid()
    {
      hide Wf;
      SendEventWf(Snapshot(), m);
      if |eventChan| >= EVENT_CAP {
        UpdateEventTable();
      }
      eventChan := eventChan + [m];
    }

    method PutGold(m: GoldMsg, now: int)
      requires Valid() && m.user < nextUser && m.cash == 0.0
      modifies this`goldChan, this`ledger, this`rejected
      ensures Snapshot() == SendGold(old(Snapshot()), m, now) && Valid()
    {
      hide Wf;
      SendGoldWf(Snapshot(), m, now);
      if |goldChan| >= GOLD_CAP {
        SaveGoldAndCash(now);
      }
      goldChan := goldChan + [m];
    }

    // ----- Event rows -----

    method GetEventMap(u: nat, taskId: int, day: int) returns (row: Event)
      ensures row == Lookup(events, Key(u, taskId, day))
    {
      row := Event(0, 0, 0.0, 0);
      if Key(u, taskId, day) in events {
        row := events[Key(u, taskId, day)];
      }
    }

    method GetTaskInfoTable(taskType: TaskType) returns (slice: seq<TaskInfo>)
      ensures slice == TasksOf(tasks, taskType)
    {
      slice := [];
      for i := 0 to |tasks|
        invariant slice == TasksOf(tasks[..i], taskType)
      {
        assert tasks[..i + 1][..i] == tasks[..i];
        if tasks[i].taskType == taskType {
          slice := slice + [tasks[i]];
        }
      }
      assert tasks[..|tasks|] == tasks;
    }

    method CreateEvent(u: nat, slice: seq<TaskInfo>, day: int)
      requires Valid() && u < nextUser
      modifies this`events, this`nextEvent
      ensures Snapshot() == CreateRows(old(Snapshot()), u, day, slice) && Valid()
    {
      hide Wf;
      CreateWf(Snapshot(), u, day, slice);
      for i := 0 to |slice|
        invariant Snapshot() == CreateRows(old(Snapshot()), u, day, slice[..i])
      {
        assert slice[..i + 1][..i] == slice[..i];
        var t := slice[i];
        if t.status == 1 {
          var flag := Key(u, t.taskId, day) in events;
          if !flag {
            events := events[Key(u, t.taskId, day) := Event(0, t.gold, t.cash, nextEvent)];
            nextEvent := nextEvent + 1;
          }
        }
      }
      assert slice[..|slice|] == slice;
    }

    // ----- Registration and login -----

    method UserRegister(openId: string, day: int, now: int) returns (code: int, userId: nat)
      requires Valid()
      modifies this
      ensures Snapshot() == Register(old(Snapshot()), openId, day, now) && Valid()
      ensures code == if openId in old(openIds) then 300 else 200
      ensures openId in openIds && openIds[openId] == userId
      ensures code == 200 ==> userId !in old(users) && userId in users
    {
      hide Wf, CreateRows, RegisterEvent;
      RegisterWf(Snapshot(), openId, day, now);
      if openId in openIds {
        return 300, openIds[openId];
      }
      NewUserRows(Snapshot(), openId, day);
      userId := nextUser;
      nextUser := nextUser + 1;
      openIds := openIds[openId := userId];
      users := users[userId := User(0, 0.0)];
      assert Snapshot() == WithNewUser(old(Snapshot()), openId);
      NewUserWf(old(Snapshot()), openId);
      var taskMap := GetTaskInfoTable(One);
      CreateEvent(userId, taskMap, day);
      AddRegisterEvent(userId, day, now);
      code := 200;
    }

    /** The query names user and task only; for a new user the one possible row is today's. */
    method AddRegisterEvent(userId: nat, day: int, now: int)
      requires forall k :: k in events && k.user == userId && k.taskId == 1 ==> k.day == day
      requires Valid() && userId < nextUser
      modifies this`ledger, this`rejected, this`users, this`events
      ensures Snapshot() == RegisterEvent(old(Snapshot()), userId, day, now) && Valid()
      ensures users.Keys == old(users).Keys
    {
      hide LedgerTaken, Wf;
      RegisterEventWf(Snapshot(), userId, day, now);
      var row := FindRow(userId, 1, day);
      var m := GoldMsg(userId, 1, row.gold, row.cash, row.eventId);
      if LedgerTaken(ledger, userId, 1, now) {
        rejected := rejected + [m];
      } else {
        ledger := ledger + [LedgerRow(m, now)];
      }
      users := AddCash(users, userId, row.cash);
      events := SetStatus(events, Key(userId, 1, day), 1);
    }

    /** A row of the user and task, whatever its date; zeros if there is none. */
    method FindRow(userId: nat, taskId: int, ghost day: int) returns (row: Event)
      requires forall k :: k in events && k.user == userId && k.taskId == taskId ==> k.day == day
      ensures row == Lookup(events, Key(userId, taskId, day))
    {
      row := Event(0, 0, 0.0, 0);
      if exists k :: k in events && k.user == userId && k.taskId == taskId {
        var k :| k in events && k.user == userId && k.taskId == taskId;
        row := events[k];
        assert k == Key(userId, taskId, day);
      }
    }

    method UserLogin(u: nat, day: int) returns (code: int, signCount: int)
      requires Valid()
      modifies this`events, this`nextEvent
      ensures Snapshot() == Login(old(Snapshot()), u, day) && Valid()
      ensures code == if u in users then 200 else 300
      ensures code == 200 ==> signCount == SignCount(old(Snapshot()), u, day)
    {
      hide Wf;
      StepWf(Snapshot(), LoginStep(u, day));
      signCount := 0;
      if u !in users {
        return 300, signCount;
      }
      var eventMap := GetEventMap(u, 3, day - 1);
      var today := GetEventMap(u, 3, day);
      if today.status > 0 {
        signCount := today.status;
      } else if eventMap.status > 0 {
        signCount := eventMap.status + 1;
      } else {
        signCount := 1;
      }
      code := 200;
      KnownUser(Snapshot(), u);
      var taskMap := GetTaskInfoTable(Two);
      CreateEvent(u, taskMap, day);
    }

    // ----- Rewards -----

    method ShareAppHandler(u: nat, day: int, now: int) returns (code: int, gold: int)
      requires Valid()
      modifies this
      ensures Snapshot() == ShareApp(old(Snapshot()), u, day, now) && Valid()
      ensures code == if u !in old(users) then 400
                      else if Key(u, 4, day) in old(events) && old(events)[Key(u, 4, day)].status > 0 then 300 else 200
      ensures gold == if code == 200 && Key(u, 4, day) in old(events) then old(events)[Key(u, 4, day)].gold else 0
      ensures u in old(users) ==> u in users && users[u].gold == old(users)[u].gold + gold
    {
      hide Wf;
      AwardWf(Snapshot(), u, 4, day, now);
      code, gold := PayTask(u, 4, day, now);
    }

    method ReadAwardHandler(u: nat, taskId: int, day: int, now: int) returns (code: int, gold: int)
      requires Valid()
      modifies this
      ensures Snapshot() == ReadAward(old(Snapshot()), u, taskId, day, now) && Valid()
      ensures code == if taskId < 5 || taskId > 8 then 0 else if u !in old(users) then 400
                      else if Key(u, taskId, day) in old(events) && old(events)[Key(u, taskId, day)].status > 0 then 300
                      else 200
      ensures gold == if code == 200 && Key(u, taskId, day) in old(events) then old(events)[Key(u, taskId, day)].gold
                      else 0
      ensures u in old(users) ==> u in users && users[u].gold == old(users)[u].gold + gold
    {
      hide Wf;
      AwardWf(Snapshot(), u, taskId, day, now);
      code, gold := 0, 0;
      if taskId == 5 || taskId == 6 || taskId == 7 || taskId == 8 {
        code, gold := PayTask(u, taskId, day, now);
      }
    }

    /** What follows the update of the user's gold. */
    method AnnounceReward(key: Key, gold: int, status: int, eventId: nat, now: int)
      requires Valid() && key.user < nextUser && status > 0
      modifies this`eventChan, this`events, this`goldChan, this`ledger, this`rejected, this`paid
      ensures Snapshot() == Announce(old(Snapshot()), key, gold, status, eventId, now) && Valid()
    {
      hide SendEvent, SendGold;
      var hadRow := key in events;
      PutEvent(EventMsg(key, status));
      PutGold(GoldMsg(key.user, key.taskId, gold, 0.0, eventId), now);
      assert Valid();
      paid := paid + [Daily(key, gold, hadRow)];
    }

    /** The body that sharing and reading share. */
    method PayTask(u: nat, taskId: int, day: int, now: int) returns (code: int, gold: int)
      requires Valid()
      modifies this
      ensures Snapshot() == Award(old(Snapshot()), u, taskId, day, now) && Valid()
      ensures code == if u !in old(users) then 400
                      else if Key(u, taskId, day) in old(events) && old(events)[Key(u, taskId, day)].status > 0 then 300
                      else 200
      ensures gold == if code == 200 && Key(u, taskId, day) in old(events) then old(events)[Key(u, taskId, day)].gold
                      else 0
      ensures u in old(users) ==> u in users && users[u].gold == old(users)[u].gold + gold
    {
      hide Announce, Wf;
      AwardWf(Snapshot(), u, taskId, day, now);
      gold := 0;
      if u !in users {
        return 400, gold;
      }
      var eventMap := GetEventMap(u, taskId, day);
      if eventMap.status > 0 {
        return 300, gold;
      }
      code, gold := 200, eventMap.gold;
      CreditWf(Snapshot(), u, eventMap.gold);
      users := users[u := users[u].(gold := users[u].gold + eventMap.gold)];
      AnnounceReward(Key(u, taskId, day), eventMap.gold, 1, eventMap.eventId, now);
    }

    method UserSignIn(u: nat, day: int, now: int) returns (code: int, addGold: int, signCount: int)
      requires Valid()
      modifies this
      ensures Snapshot() == SignIn(old(Snapshot()), u, day, now) && Valid()
      ensures code == if u !in old(users) then 400
                      else if Key(u, 3, day) in old(events) && old(events)[Key(u, 3, day)].status > 0 then 300 else 200
      ensures code == 200 ==>
                signCount == 1 + if Key(u, 3, day - 1) in old(events) then old(events)[Key(u, 3, day - 1)].status else 0
      ensures code == 200 ==> addGold == if signCount < 7 then 5 + 5 * signCount else 40
      ensures code == 200 ==> signCount == SignCount(old(Snapshot()), u, day)
      ensures u in old(users) ==> u in users && users[u].gold == old(users)[u].gold + addGold
    {
      hide Announce, Wf;
      LastNonNeg(Snapshot(), u, day);
      SignWf(Snapshot(), u, day, now);
      addGold, signCount := 0, 0;
      if u !in users {
        return 400, addGold, signCount;
      }
      var tmp := GetEventMap(u, 3, day);
      if tmp.status > 0 {
        return 300, addGold, signCount;
      }
      var eventMap := GetEventMap(u, 3, day - 1);
      var oldGold := users[u].gold;
      var signStatus := eventMap.status;
      assert signStatus >= 0;
      addGold := RewardFor(signStatus);
      code, signCount := 200, signStatus + 1;
      CreditWf(Snapshot(), u, addGold);
      users := users[u := users[u].(gold := oldGold + addGold)];
      AnnounceReward(Key(u, 3, day), addGold, signStatus + 1, tmp.eventId, now);
    }

    /** The profile query names user and task only, so any matching row may be the one returned. */
    method UpdateUserDataHandler(u: nat, now: int) returns (code: int, ghost day: int)
      requires Valid()
      modifies this
      ensures Snapshot() == UpdateUserData(old(Snapshot()), u, day, now) && Valid()
      ensures code == 400 <==> u !in old(users) || forall k :: k in old(events) ==> k.user != u || k.taskId != 2
      ensures code == 300 <==>
              u in old(users) && Key(u, 2, day) in old(events) && old(events)[Key(u, 2, day)].status > 0
      ensures code == 200 || code == 300 || code == 400
    {
      hide SendGold, Wf, AddGold, SetStatus;
      day := 0;
      if u !in users || !exists k :: k in events && k.user == u && k.taskId == 2 {
        return 400, day;
      }
      var k :| k in events && k.user == u && k.taskId == 2;
      day := k.day;
      assert k == Key(u, 2, day);
      var row := events[k];
      if row.status > 0 {
        return 300, day;
      }
      code := 200;
      PayProfile(u, k.day, row, now);
    }

    /** Credits the reward of an unpaid profile row and marks the row. */
    method PayProfile(u: nat, day: int, row: Event, now: int)
      requires Valid() && u in users && Key(u, 2, day) in events && events[Key(u, 2, day)] == row && row.status <= 0
      modifies this`users, this`events, this`goldChan, this`ledger, this`rejected, this`paid
      ensures Snapshot() == UpdateUserData(old(Snapshot()), u, day, now) && Valid()
    {
      hide SendGold, Wf;
      ProfileWf(Snapshot(), u, day, now);
      CreditWf(Snapshot(), u, row.gold);
      users := users[u := users[u].(gold := users[u].gold + row.gold)];
      StatusWf(Snapshot(), Key(u, 2, day));
      events := events[Key(u, 2, day) := row.(status := 1)];
      PutGold(GoldMsg(u, 2, row.gold, 0.0, row.eventId), now);
      paid := paid + [Profile(u, day, row.gold)];
    }

    method FeedbackHandler(u: nat, content: string, now: int) returns (code: int)
      requires Valid()
      modifies this`feedbacks
      ensures Snapshot() == PostFeedback(old(Snapshot()), u, content != "", now) && Valid()
      ensures code == if u !in users then 400 else if content != "" then 200 else 300
    {
      hide Wf;
      StepWf(Snapshot(), PostStep(u, content != "", now));
      if u !in users {
        return 400;
      }
      if content != "" {
        if (u, now) !in feedbacks {
          feedbacks := feedbacks[(u, now) := Feedback(0, 0)];
        }
        code := 200;
      } else {
        code := 300;
      }
    }

    method EffectiveFeedbackHandler(u: nat, commit: int, valid: int, op: int, day: int, now: int) returns (code: int)
      requires Valid()
      modifies this
      ensures Snapshot() == EffectiveFeedback(old(Snapshot()), u, commit, valid, op, day, now) && Valid()
      ensures code == if u !in old(users) then 400
                      else if (u, commit) !in old(feedbacks) then 500
                      else if old(feedbacks)[(u, commit)].valid > 0 then 600
                      else if valid == 1 && op != 1 then 200 else 0
    {
      hide SendGold, Wf;
      FeedbackWf(Snapshot(), u, commit, valid, op, day, now);
      if u !in users {
        return 400;
      }
      var eventMap := GetEventMap(u, 9, day);
      if (u, commit) !in feedbacks {
        return 500;
      }
      if feedbacks[(u, commit)].valid > 0 {
        return 600;
      }
      code := 0;
      feedbacks := feedbacks[(u, commit) := Feedback(valid, 1)];
      FeedbacksWf(old(Snapshot()), feedbacks);
      if valid == 1 && op != 1 {
        CreditWf(Snapshot(), u, eventMap.gold);
        users := users[u := users[u].(gold := users[u].gold + eventMap.gold)];
        PutGold(GoldMsg(u, 9, eventMap.gold, 0.0, eventMap.eventId), now);
        paid := paid + [ForFeedback(u, commit, eventMap.gold)];
        code := 200;
      }
    }

    // ----- Withdrawals -----

    /** The scan over a user's withdrawals for one that still waits. */
    method GetWithdraw(u: nat) returns (flag: bool)
      ensures flag == HasPending(withdrawals, u)
      ensures flag <==> exists w :: w in withdrawals && w.user == u && w.status == 0
    {
      flag := false;
      for i := 0 to |withdrawals|
        invariant flag <==> exists j :: 0 <= j < i && withdrawals[j].user == u && withdrawals[j].status == 0
      {
        if withdrawals[i].user == u {
          if withdrawals[i].status == 0 {
            flag := true;
          }
        }
      }
    }

    method WithdrawalHandler(u: nat, amount: int, now: int) returns (code: int)
      requires Valid()
      modifies this`withdrawals, this`unrecorded, this`users
      ensures Snapshot() == Withdraw(old(Snapshot()), u, amount, now) && Valid()
      ensures code == if u !in old(users) then 500
                      else if exists w :: w in old(withdrawals) && w.user == u && w.status == 0 then 300
                      else if 30 <= amount && (amount as real) <= old(users)[u].cash then 200 else 400
      ensures u in old(users) ==>
                users == old(users)[u := User(old(users)[u].gold,
                                              old(users)[u].cash - if code == 200 then amount as real else 0.0)]
    {
      hide Wf;
      StepWf(Snapshot(), WithdrawStep(u, amount, now));
      if u !in users {
        return 500;
      }
      var b := GetWithdraw(u);
      if b {
        return 300;
      }
      var totalCash := Trunc(users[u].cash);
      if amount <= totalCash && amount >= 30 {
        code := 200;
        var w := Withdrawal(u, 0, amount, now);
        if WithdrawalTaken(withdrawals, u, now) {
          unrecorded := unrecorded + [w];
        } else {
          withdrawals := withdrawals + [w];
        }
        users := users[u := users[u].(cash := users[u].cash - amount as real)];
      } else {
        code := 400;
      }
    }

    method HandleWithdrawalHandler(u: nat, commit: int, status: int) returns (code: int)
      requires Valid()
      modifies this`withdrawals
      ensures Snapshot() == HandleWithdrawal(old(Snapshot()), u, commit, status) && Valid()
      ensures code == if u !in users then 400 else if status != 1 then 200 else 600
    {
      hide Wf;
      StepWf(Snapshot(), HandleStep(u, commit, status));
      if u !in users {
        return 400;
      }
      if status != 1 {
        withdrawals := Approve(withdrawals, u, commit);
        code := 200;
      } else {
        code := 600;
      }
    }

    // ----- Requests -----

    /** Serves one request or consumer turn. It takes one step of the transition system: the requested one, where for
        a profile reward the day is that of the row the query returned. */
    method Handle(request: Step) returns (ghost taken: Step)
      requires Valid()
      modifies this
      ensures Snapshot() == Next(old(Snapshot()), taken) && SameRequest(request, taken) && Valid()
    {
      hide Wf, Register, Login, Award, SignIn, UpdateUserData, PostFeedback, EffectiveFeedback, Withdraw,
           HandleWithdrawal, DrainEvent, DrainGold, SignCount, HasPending, Trunc;
      taken := request;
      match request
      case RegisterStep(openId, day, now) => var _, _ := UserRegister(openId, day, now);
      case LoginStep(u, day) => var _, _ := UserLogin(u, day);
      case ShareStep(u, day, now) => var _, _ := ShareAppHandler(u, day, now);
      case ReadStep(u, taskId, day, now) => var _, _ := ReadAwardHandler(u, taskId, day, now);
      case SignStep(u, day, now) => var _, _, _ := UserSignIn(u, day, now);
      case ProfileStep(u, _, now) =>
        var _, day := UpdateUserDataHandler(u, now);
        taken := ProfileStep(u, day, now);
      case PostStep(u, hasContent, now) => var _ := FeedbackHandler(u, if hasContent then "text" else "", now);
      case ApproveStep(u, commit, valid, op, day, now) =>
        var _ := EffectiveFeedbackHandler(u, commit, valid, op, day, now);
      case WithdrawStep(u, amount, now) => var _ := WithdrawalHandler(u, amount, now);
      case HandleStep(u, commit, status) => var _ := HandleWithdrawalHandler(u, commit, status);
      case DrainEventStep => UpdateEventTable();
      case DrainGoldStep(now) => SaveGoldAndCash(now);
    }
  }

  predicate SameRequest(request: Step, taken: Step) {
    if request.ProfileStep? then taken.ProfileStep? && taken.u == request.u && taken.now == request.now
    else taken == request
  }

  /** A server from its start, serving requests and consumer turns in the order they come: its state is that of a run,
      so everyone's gold and cash are accounted for by the tables, the queue and the refused inserts, gold is the sum
      of the rewards answered, and the guards against double rewards hold. */
  method Serve(tasks: seq<TaskInfo>, requests: seq<Step>) returns (server: Server, ghost taken: seq<Step>)
    ensures fresh(server) && server.Valid()
    ensures |taken| == |requests| && forall i :: 0 <= i < |taken| ==> SameRequest(requests[i], taken[i])
    ensures server.Snapshot() == Run(Init(tasks), taken)
    ensures forall u: nat :: GoldBalanced(server.Snapshot(), u) && CashBalanced(server.Snapshot(), u)
    ensures forall u: nat :: GoldOf(server.Snapshot(), u) == PaidTo(server.paid, u)
    ensures OnePending(server.Snapshot()) && Guarded(server.Snapshot()) && Once(server.Snapshot())
    ensures PaidOnce(server.Snapshot()) <==> DisciplinedRun(Init(tasks), taken)
    ensures OrderlyRun(Init(tasks), taken) ==> Counts(server.Snapshot())
    ensures RegistrationReward(tasks) >= 0.0 ==> forall u :: u in server.users ==> server.users[u].cash >= 0.0
  {
    hide Run, Next, Init, Wf, Guarded, Once, OnePending, GoldBalanced, CashBalanced, SameRequest, DisciplinedRun,
         OrderlyRun, PaidOnce, Counts;
    server := new Server(tasks);
    taken := [];
    RunNone(Init(tasks));
    for n := 0 to |requests|
      invariant |taken| == n && server.Valid()
      invariant forall i :: 0 <= i < n ==> SameRequest(requests[i], taken[i])
      invariant server.Snapshot() == Run(Init(tasks), taken)
    {
      ghost var step := server.Handle(requests[n]);
      RunAppend(Init(tasks), taken, step);
      taken := taken + [step];
    }
    RunConserves(tasks, taken);
    RunAwards(tasks, taken);
    RunOnce(tasks, taken);
    if OrderlyRun(Init(tasks), taken) {
      OrderlyCounts(tasks, taken);
    }
    forall u: nat ensures GoldOf(server.Snapshot(), u) == PaidTo(server.paid, u) {
      RunPaid(tasks, taken, u);
    }
    if RegistrationReward(tasks) >= 0.0 {
      RunNonNeg(tasks, taken);
      forall u | u in server.users ensures server.users[u].cash >= 0.0 {
        assert CashOf(server.Snapshot(), u) >= 0.0;
      }
    }
  }

  /** The reward table. */
  method RewardFor(signStatus: int) returns (addGold: int)
    requires signStatus >= 0
    ensures addGold == Reward(signStatus) == if signStatus < 6 then 10 + 5 * signStatus else 40
  {
    var s := [10, 15, 20, 25, 30, 35, 40];
    if signStatus < 7 {
      addGold := s[signStatus];
    } else {
      addGold := 40;
    }
  }

  // ----- The shape of the tables between the writes of a handler -----

  lemma KnownUser(s: State, u: nat)
    requires Wf(s) && u in s.users
    ensures u < s.nextUser
  {
  }

  lemma LastNonNeg(s: State, u: nat, day: int)
    requires Wf(s)
    ensures LastSign(s, u, day) >= 0
  {
  }

  lemma CreditWf(s: State, u: nat, gold: int)
    requires Wf(s) && u in s.users
    ensures Wf(s.(users := AddGold(s.users, u, gold))) && u < s.nextUser
  {
  }

  lemma StatusWf(s: State, key: Key)
    requires Wf(s)
    ensures Wf(s.(events := SetStatus(s.events, key, 1)))
  {
  }

  lemma FeedbacksWf(s: State, feedbacks: map<(nat, int), Feedback>)
    requires Wf(s)
    ensures Wf(s.(feedbacks := feedbacks))
  {
  }

  lemma NewUserWf(s: State, openId: string)
    requires Wf(s)
    ensures Wf(WithNewUser(s, openId))
  {
  }

  /** A new user has no row but today's. */
  lemma NewUserRows(s: State, openId: string, day: int)
    requires Wf(s)
    ensures s.nextUser !in s.users
    ensures var t := CreateRows(WithNewUser(s, openId), s.nextUser, day, TasksOf(s.tasks, One));
            && (forall k :: k in t.events && k.user == s.nextUser && k.taskId == 1 ==> k.day == day)
            && t.users == WithNewUser(s, openId).users && t.openIds == WithNewUser(s, openId).openIds
  {
    CreateOnlyToday(WithNewUser(s, openId), s.nextUser, day, TasksOf(s.tasks, One));
    CreateFrame(WithNewUser(s, openId), s.nextUser, day, TasksOf(s.tasks, One));
  }

  lemma {:induction false} CreateOnlyToday(s: State, u: nat, day: int, ts: seq<TaskInfo>)
    ensures forall k :: k in CreateRows(s, u, day, ts).events ==> k in s.events || (k.user == u && k.day == day)
  {
    if ts != [] {
      CreateOnlyToday(s, u, day, ts[..|ts| - 1]);
    }
  }
}
