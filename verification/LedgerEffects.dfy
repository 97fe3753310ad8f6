/** What each step does to tables and queues, row by row and apart from the functions that define it. */
module LedgerEffects {
  import opened LedgerModel
  import opened LedgerConservation
  import opened LedgerAwards
  import opened LedgerRuns
  import opened LedgerOnce

  // ----- Consumers and channels -----

  /** The event consumer takes the front message and sets the status of its row, if there is one. */
  lemma DrainEventEffect(s: State)
    ensures var t := DrainEvent(s);
            if s.eventChan == [] then t == s
            else
              var m := s.eventChan[0];
              && t == s.(eventChan := s.eventChan[1..], events := t.events)
              && t.events.Keys == s.events.Keys
              && forall k :: k in s.events ==>
                   t.events[k] == if k == m.key then s.events[k].(status := m.status) else s.events[k]
  {
  }

  /** The ledger consumer takes the front message and inserts its row, unless a row of the same user, task and second
      is there. */
  lemma DrainGoldEffect(s: State, now: int)
    ensures var t := DrainGold(s, now);
            if s.goldChan == [] then t == s
            else
              var m := s.goldChan[0];
              var taken := exists row :: row in s.ledger && row.msg.user == m.user && row.msg.taskId == m.taskId &&
                                         row.time == now;
              t == if taken then s.(goldChan := s.goldChan[1..], rejected := s.rejected + [m])
                   else s.(goldChan := s.goldChan[1..], ledger := s.ledger + [LedgerRow(m, now)])
  {
    if s.goldChan != [] {
      TakenMeans(s.ledger, s.goldChan[0].user, s.goldChan[0].taskId, now);
    }
  }

  lemma TakenMeans(rows: seq<LedgerRow>, user: nat, taskId: int, now: int)
    ensures LedgerTaken(rows, user, taskId, now) <==>
            exists row :: row in rows && row.msg.user == user && row.msg.taskId == taskId && row.time == now
  {
    if row :| row in rows && row.msg.user == user && row.msg.taskId == taskId && row.time == now {
      var i :| 0 <= i < |rows| && rows[i] == row;
    }
  }

  /** A send appends the message, after the front one has been taken if the channel holds 10. */
  lemma SendEventEffect(s: State, m: EventMsg)
    ensures var r := if |s.eventChan| < 10 then s else DrainEvent(s);
            SendEvent(s, m) == r.(eventChan := r.eventChan + [m])
  {
  }

  /** The same for the ledger's channel, which holds 20. */
  lemma SendGoldEffect(s: State, m: GoldMsg, now: int)
    ensures var r := if |s.goldChan| < 20 then s else DrainGold(s, now);
            SendGold(s, m, now) == r.(goldChan := r.goldChan + [m])
  {
  }

  // ----- Rewards -----

  /** Credit, announcement, ledger message and answer carry the same key and gold. */
  lemma PayEffect(s: State, key: Key, gold: int, status: int, eventId: nat, now: int)
    requires key.user in s.users
    ensures var t := Pay(s, key, gold, status, eventId, now);
            var e := if |s.eventChan| < 10 then s else DrainEvent(s);
            var l := if |s.goldChan| < 20 then s else DrainGold(s, now);
            t == s.(users := s.users[key.user := User(s.users[key.user].gold + gold, s.users[key.user].cash)],
                    events := e.events,
                    eventChan := e.eventChan + [EventMsg(key, status)],
                    ledger := l.ledger, rejected := l.rejected,
                    goldChan := l.goldChan + [GoldMsg(key.user, key.taskId, gold, 0.0, eventId)],
                    paid := s.paid + [Daily(key, gold, key in s.events)])
  {
    hide DrainEvent, DrainGold, SendEvent, SendGold;
    var users := s.users[key.user := User(s.users[key.user].gold + gold, s.users[key.user].cash)];
    var a := s.(users := users);
    assert AddGold(s.users, key.user, gold) == users;
    var m, g := EventMsg(key, status), GoldMsg(key.user, key.taskId, gold, 0.0, eventId);
    var b := SendEvent(a, m);
    SendEventEffect(a, m);
    DrainEventFrame(s, users);
    SendGoldEffect(b, g, now);
    DrainGoldFrame(s, b, now);
  }

  lemma DrainEventFrame(s: State, users: map<nat, User>)
    ensures var e := DrainEvent(s);
            DrainEvent(s.(users := users)) == s.(users := users, events := e.events, eventChan := e.eventChan)
  {
  }

  lemma DrainGoldFrame(s: State, b: State, now: int)
    requires b.goldChan == s.goldChan && b.ledger == s.ledger && b.rejected == s.rejected
    ensures var l := DrainGold(s, now);
            DrainGold(b, now) == b.(ledger := l.ledger, rejected := l.rejected, goldChan := l.goldChan)
  {
    hide LedgerTaken;
  }

  /** A share or read request for a key whose row does not read as done is paid the gold of that very row (0 without
      one): credited, announced with status 1, queued for the ledger with the row's id, and answered. */
  lemma AwardEffect(s: State, u: nat, taskId: int, day: int, now: int)
    ensures var t := Award(s, u, taskId, day, now);
            var key := Key(u, taskId, day);
            if u !in s.users || (key in s.events && s.events[key].status > 0) then t == s
            else
              var gold := if key in s.events then s.events[key].gold else 0;
              var id := if key in s.events then s.events[key].eventId else 0;
              && t.users == s.users[u := User(s.users[u].gold + gold, s.users[u].cash)]
              && |t.eventChan| > 0 && t.eventChan[|t.eventChan| - 1] == EventMsg(key, 1)
              && |t.goldChan| > 0 && t.goldChan[|t.goldChan| - 1] == GoldMsg(u, taskId, gold, 0.0, id)
              && t.paid == s.paid + [Daily(key, gold, key in s.events)]
              && t.feedbacks == s.feedbacks && t.withdrawals == s.withdrawals && t.unrecorded == s.unrecorded
  {
    hide Pay;
    var key := Key(u, taskId, day);
    var row := Lookup(s.events, key);
    if u in s.users {
      PayEffect(s, key, row.gold, 1, row.eventId, now);
    }
  }

  /** Sharing is task 4; reading is the task asked for, if that is 5, 6, 7 or 8. */
  lemma RewardTasksAre(s: State, u: nat, taskId: int, day: int, now: int)
    ensures ShareApp(s, u, day, now) == Award(s, u, 4, day, now)
    ensures ReadAward(s, u, taskId, day, now) ==
            if taskId == 5 || taskId == 6 || taskId == 7 || taskId == 8 then Award(s, u, taskId, day, now) else s
  {
  }

  /** A sign-in on a day that does not read as done is paid 10, and 5 more for each day yesterday's row counts, 40 at
      most, and announces one day more than that row counts. */
  lemma SignEffect(s: State, u: nat, day: int, now: int)
    requires Wf(s)
    ensures var t := SignIn(s, u, day, now);
            var key, before := Key(u, 3, day), Key(u, 3, day - 1);
            if u !in s.users || (key in s.events && s.events[key].status > 0) then t == s
            else
              var days := if before in s.events then s.events[before].status else 0;
              var gold := if 10 + 5 * days < 40 then 10 + 5 * days else 40;
              var id := if key in s.events then s.events[key].eventId else 0;
              && t.users == s.users[u := User(s.users[u].gold + gold, s.users[u].cash)]
              && |t.eventChan| > 0 && t.eventChan[|t.eventChan| - 1] == EventMsg(key, days + 1)
              && |t.goldChan| > 0 && t.goldChan[|t.goldChan| - 1] == GoldMsg(u, 3, gold, 0.0, id)
              && t.paid == s.paid + [Daily(key, gold, key in s.events)]
              && t.feedbacks == s.feedbacks && t.withdrawals == s.withdrawals && t.unrecorded == s.unrecorded
  {
    hide Pay;
    var key := Key(u, SIGN_TASK, day);
    var last := LastSign(s, u, day);
    if u in s.users {
      PayEffect(s, key, Reward(last), last + 1, Lookup(s.events, key).eventId, now);
    }
  }

  /** The profile reward is the gold of the row found; the row is marked at once and no message announces it. */
  lemma ProfileEffect(s: State, u: nat, day: int, now: int)
    ensures var t := UpdateUserData(s, u, day, now);
            var key := Key(u, 2, day);
            if u !in s.users || key !in s.events || s.events[key].status > 0 then t == s
            else
              var row := s.events[key];
              && t.users == s.users[u := User(s.users[u].gold + row.gold, s.users[u].cash)]
              && t.events == s.events[key := row.(status := 1)] && t.eventChan == s.eventChan
              && |t.goldChan| > 0 && t.goldChan[|t.goldChan| - 1] == GoldMsg(u, 2, row.gold, 0.0, row.eventId)
              && t.paid == s.paid + [Profile(u, day, row.gold)]
              && t.feedbacks == s.feedbacks && t.withdrawals == s.withdrawals && t.unrecorded == s.unrecorded
  {
    hide LedgerTaken;
  }

  /** A feedback with content is inserted as unseen, unless its key (user, second) is taken. */
  lemma PostEffect(s: State, u: nat, hasContent: bool, now: int)
    ensures PostFeedback(s, u, hasContent, now) ==
            if u in s.users && hasContent && (u, now) !in s.feedbacks
            then s.(feedbacks := s.feedbacks[(u, now) := Feedback(0, 0)]) else s
  {
  }

  /** An approval settles that feedback alone and, if it finds it valid, pays the gold of today's row of task 9. */
  lemma ApproveFeedbackEffect(s: State, u: nat, commit: int, valid: int, op: int, day: int, now: int)
    ensures var t := EffectiveFeedback(s, u, commit, valid, op, day, now);
            var f, key := (u, commit), Key(u, 9, day);
            if u !in s.users || f !in s.feedbacks || s.feedbacks[f].valid > 0 then t == s
            else
              && t.feedbacks == s.feedbacks[f := Feedback(valid, 1)]
              && t.events == s.events && t.eventChan == s.eventChan
              && t.withdrawals == s.withdrawals && t.unrecorded == s.unrecorded
              && if valid == 1 && op != 1 then
                   var gold := if key in s.events then s.events[key].gold else 0;
                   var id := if key in s.events then s.events[key].eventId else 0;
                   && t.users == s.users[u := User(s.users[u].gold + gold, s.users[u].cash)]
                   && |t.goldChan| > 0 && t.goldChan[|t.goldChan| - 1] == GoldMsg(u, 9, gold, 0.0, id)
                   && t.paid == s.paid + [ForFeedback(u, commit, gold)]
                 else
                   t.users == s.users && t.goldChan == s.goldChan && t.ledger == s.ledger && t.paid == s.paid
  {
    hide LedgerTaken;
  }

  // ----- Withdrawals -----

  /** A withdrawal is accepted if and only if none of the user waits, and 30 at most the cash is asked for; then the
      amount leaves the cash, and the row is inserted unless its key (user, second) is taken. */
  lemma WithdrawEffect(s: State, u: nat, amount: int, now: int)
    ensures var t := Withdraw(s, u, amount, now);
            var waits := exists w :: w in s.withdrawals && w.user == u && w.status == 0;
            var taken := exists w :: w in s.withdrawals && w.user == u && w.time == now;
            if u !in s.users || waits || amount < 30 || (amount as real) > s.users[u].cash then t == s
            else
              var w := Withdrawal(u, 0, amount, now);
              t == s.(users := s.users[u := User(s.users[u].gold, s.users[u].cash - (amount as real))],
                      withdrawals := s.withdrawals + if taken then [] else [w],
                      unrecorded := s.unrecorded + if taken then [w] else [])
  {
    hide HasPending, WithdrawalTaken, Trunc;
    WaitsMeans(s.withdrawals, u);
    TakenSecond(s.withdrawals, u, now);
    if u in s.users && amount >= 30 {
      TruncMeans(s.users[u].cash, amount);
    }
  }

  lemma WaitsMeans(ws: seq<Withdrawal>, u: nat)
    ensures HasPending(ws, u) <==> exists w :: w in ws && w.user == u && w.status == 0
  {
    if w :| w in ws && w.user == u && w.status == 0 {
      var i :| 0 <= i < |ws| && ws[i] == w;
    }
  }

  lemma TakenSecond(ws: seq<Withdrawal>, u: nat, now: int)
    ensures WithdrawalTaken(ws, u, now) <==> exists w :: w in ws && w.user == u && w.time == now
  {
    if w :| w in ws && w.user == u && w.time == now {
      var i :| 0 <= i < |ws| && ws[i] == w;
    }
  }

  /** Comparing with the truncated cash is comparing with the cash. */
  lemma TruncMeans(x: real, n: int)
    requires x >= 0.0 || n >= 1
    ensures n <= Trunc(x) <==> (n as real) <= x
  {
  }

  /** Handling marks exactly the withdrawals of that user and second, whatever the status asked for, unless it is 1. */
  lemma HandleEffect(s: State, u: nat, commit: int, status: int)
    ensures var t := HandleWithdrawal(s, u, commit, status);
            && t == s.(withdrawals := t.withdrawals) && |t.withdrawals| == |s.withdrawals|
            && forall i :: 0 <= i < |s.withdrawals| ==>
                 var w := s.withdrawals[i];
                 t.withdrawals[i] ==
                 if u in s.users && status != 1 && w.user == u && w.time == commit then w.(status := 1) else w
  {
  }

  // ----- Rows -----

  /** The first enabled entry of a type for the key's task. */
  predicate FirstEntry(tasks: seq<TaskInfo>, taskType: TaskType, i: int, key: Key) {
    && 0 <= i < |tasks| && tasks[i].taskType == taskType && tasks[i].status == 1 && tasks[i].taskId == key.taskId
    && forall j :: 0 <= j < i && tasks[j].taskType == taskType && tasks[j].status == 1 ==> tasks[j].taskId != key.taskId
  }

  predicate FirstEnabled(ts: seq<TaskInfo>, i: int, taskId: int) {
    0 <= i < |ts| && ts[i].status == 1 && ts[i].taskId == taskId &&
    forall j :: 0 <= j < i && ts[j].status == 1 ==> ts[j].taskId != taskId
  }

  /** A row as an entry creates it. */
  predicate RowOf(row: Event, t: TaskInfo) {
    row.status == 0 && row.gold == t.gold && row.cash == t.cash
  }

  /** A key without a row gets today's row of the first enabled entry for its task; rows that exist stay as they are. */
  lemma {:induction false} CreateEffect(s: State, u: nat, day: int, ts: seq<TaskInfo>, key: Key)
    ensures var t := CreateRows(s, u, day, ts);
            && (key in s.events ==> key in t.events && t.events[key] == s.events[key])
            && (key !in s.events && key in t.events ==>
                  key.user == u && key.day == day && exists i ::
                    FirstEnabled(ts, i, key.taskId) && RowOf(t.events[key], ts[i]))
            && (key.user == u && key.day == day && (exists i :: FirstEnabled(ts, i, key.taskId)) ==> key in t.events)
            && s.nextEvent <= t.nextEvent
            && (key !in s.events && key in t.events ==> s.nextEvent <= t.events[key].eventId < t.nextEvent)
  {
    if ts != [] {
      var init, n := ts[..|ts| - 1], |ts| - 1;
      CreateEffect(s, u, day, init, key);
      assert forall i :: 0 <= i < n ==> ts[i] == init[i];
      assert forall i :: FirstEnabled(init, i, key.taskId) ==> FirstEnabled(ts, i, key.taskId);
      assert forall i :: FirstEnabled(ts, i, key.taskId) && i < n ==> FirstEnabled(init, i, key.taskId);
      AnyFirst(init, key.taskId);
    }
  }

  lemma {:induction false} AnyFirst(ts: seq<TaskInfo>, taskId: int)
    ensures (exists i :: 0 <= i < |ts| && ts[i].status == 1 && ts[i].taskId == taskId) <==>
            exists i :: FirstEnabled(ts, i, taskId)
  {
    if ts != [] {
      var init, n := ts[..|ts| - 1], |ts| - 1;
      AnyFirst(init, taskId);
      assert forall i :: 0 <= i < n ==> ts[i] == init[i];
      if k :| FirstEnabled(init, k, taskId) {
        assert FirstEnabled(ts, k, taskId);
      } else if ts[n].status == 1 && ts[n].taskId == taskId {
        assert FirstEnabled(ts, n, taskId);
      }
    }
  }

  /** The entries of a type are those at a strictly increasing sequence of positions, namely all of that type. */
  lemma {:induction false} TasksInOrder(tasks: seq<TaskInfo>, taskType: TaskType) returns (ps: seq<int>)
    ensures |ps| == |TasksOf(tasks, taskType)|
    ensures forall j, k :: 0 <= j < k < |ps| ==> ps[j] < ps[k]
    ensures forall j :: 0 <= j < |ps| ==> 0 <= ps[j] < |tasks| && TasksOf(tasks, taskType)[j] == tasks[ps[j]]
    ensures forall i :: 0 <= i < |tasks| ==> (tasks[i].taskType == taskType <==> i in ps)
  {
    ps := [];
    if tasks != [] {
      var n := |tasks| - 1;
      ps := TasksInOrder(tasks[..n], taskType);
      if tasks[n].taskType == taskType {
        ps := ps + [n];
      }
    }
  }

  lemma FirstOfType(tasks: seq<TaskInfo>, taskType: TaskType, key: Key)
    ensures forall j :: FirstEnabled(TasksOf(tasks, taskType), j, key.taskId) ==>
              exists i :: FirstEntry(tasks, taskType, i, key) && tasks[i] == TasksOf(tasks, taskType)[j]
    ensures (exists i :: FirstEntry(tasks, taskType, i, key)) ==>
              exists j :: FirstEnabled(TasksOf(tasks, taskType), j, key.taskId)
  {
    hide TasksOf;
    var ts := TasksOf(tasks, taskType);
    var ps := TasksInOrder(tasks, taskType);
    forall j | FirstEnabled(ts, j, key.taskId)
      ensures exists i :: FirstEntry(tasks, taskType, i, key) && tasks[i] == ts[j]
    {
      forall i | 0 <= i < ps[j] && tasks[i].taskType == taskType && tasks[i].status == 1
        ensures tasks[i].taskId != key.taskId
      {
        var k :| 0 <= k < |ps| && ps[k] == i;
        assert k < j && ts[k] == tasks[i];
      }
      assert FirstEntry(tasks, taskType, ps[j], key);
    }
    if i :| FirstEntry(tasks, taskType, i, key) {
      var k :| 0 <= k < |ps| && ps[k] == i;
      assert ts[k] == tasks[i];
      AnyFirst(ts, key.taskId);
    }
  }

  /** A login gives today's row, with status 0 and its gold and cash, to every task that has an enabled entry of the
      daily type, unless it has one; it changes nothing else. */
  lemma LoginEffect(s: State, u: nat, day: int, key: Key)
    requires u in s.users
    ensures var t := Login(s, u, day);
            && t == s.(events := t.events, nextEvent := t.nextEvent)
            && (key in s.events ==> key in t.events && t.events[key] == s.events[key])
            && (key !in s.events ==>
                  (key in t.events <==>
                   key.user == u && key.day == day && exists i :: FirstEntry(s.tasks, Two, i, key)))
            && (key !in s.events && key in t.events ==>
                  exists i :: FirstEntry(s.tasks, Two, i, key) && RowOf(t.events[key], s.tasks[i]))
  {
    hide TasksOf, FirstEntry, FirstEnabled, RowOf;
    var ts := TasksOf(s.tasks, Two);
    CreateFrame(s, u, day, ts);
    CreateEffect(s, u, day, ts, key);
    FirstOfType(s.tasks, Two, key);
  }

  /** A registration adds the next user, who gets today's row of every task with an enabled entry of the first type,
      and for task 1 at once its cash, a ledger row and status 1. Nobody else is touched. */
  lemma RegisterEffect(s: State, openId: string, day: int, now: int, key: Key)
    requires Wf(s)
    ensures var t := Register(s, openId, day, now);
            var u := s.nextUser;
            if openId in s.openIds then t == s
            else
              var one := Key(u, 1, day);
              var row := if one in t.events then t.events[one] else Event(0, 0, 0.0, 0);
              && t == s.(nextUser := u + 1, openIds := s.openIds[openId := u],
                         users := s.users[u := User(0, row.cash)],
                         ledger := s.ledger + [LedgerRow(GoldMsg(u, 1, row.gold, row.cash, row.eventId), now)],
                         events := t.events, nextEvent := t.nextEvent)
              && (key in s.events ==> key in t.events && t.events[key] == s.events[key])
              && (key !in s.events ==>
                    (key in t.events <==>
                     key.user == u && key.day == day && exists i :: FirstEntry(s.tasks, One, i, key)))
              && (key !in s.events && key in t.events ==>
                    && t.events[key].status == (if key.taskId == 1 then 1 else 0)
                    && exists i :: FirstEntry(s.tasks, One, i, key) && RowOf(t.events[key].(status := 0), s.tasks[i]))
  {
    hide TasksOf, FirstEntry, FirstEnabled, RowOf, CreateRows;
    if openId !in s.openIds {
      var u, ts := s.nextUser, TasksOf(s.tasks, One);
      var a := WithNewUser(s, openId);
      var b := CreateRows(a, u, day, ts);
      CreateFrame(a, u, day, ts);
      CreateEffect(a, u, day, ts, key);
      FirstOfType(s.tasks, One, key);
      RegisterEventEffect(b, u, day, now);
      NewRowStatus(b, ts, key);
    }
  }

  lemma NewRowStatus(b: State, ts: seq<TaskInfo>, key: Key)
    ensures forall i :: key in b.events && FirstEnabled(ts, i, key.taskId) && RowOf(b.events[key], ts[i]) ==>
              b.events[key].status == 0 && RowOf(b.events[key].(status := 0), ts[i]) &&
              RowOf(b.events[key].(status := 1).(status := 0), ts[i])
  {
  }

  lemma RegisterEventEffect(s: State, u: nat, day: int, now: int)
    requires u in s.users && forall i :: 0 <= i < |s.ledger| ==> s.ledger[i].msg.user != u
    ensures var t := RegisterEvent(s, u, day, now);
            var one := Key(u, 1, day);
            var row := if one in s.events then s.events[one] else Event(0, 0, 0.0, 0);
            t == s.(users := s.users[u := User(s.users[u].gold, s.users[u].cash + row.cash)],
                    ledger := s.ledger + [LedgerRow(GoldMsg(u, 1, row.gold, row.cash, row.eventId), now)],
                    events := if one in s.events then s.events[one := row.(status := 1)] else s.events)
  {
  }

  // ----- Rewards of a run carry the configured gold -----

  /** Rows stay, with their gold, cash and id. */
  ghost predicate KeepsRows(s: State, t: State) {
    forall k :: k in s.events ==> k in t.events && t.events[k].(status := 0) == s.events[k].(status := 0)
  }

  lemma DrainKeepsRows(s: State)
    ensures KeepsRows(s, DrainEvent(s)) && DrainEvent(s).events.Keys == s.events.Keys
  {
  }

  lemma PayKeepsRows(s: State, key: Key, gold: int, status: int, eventId: nat, now: int)
    requires key.user in s.users
    ensures KeepsRows(s, Pay(s, key, gold, status, eventId, now))
    ensures Pay(s, key, gold, status, eventId, now).events.Keys == s.events.Keys
  {
    hide Pay, DrainEvent, DrainGold, KeepsRows;
    PayEffect(s, key, gold, status, eventId, now);
    DrainKeepsRows(s);
    SameKeepsRows(s, Pay(s, key, gold, status, eventId, now));
  }

  lemma SameKeepsRows(s: State, t: State)
    ensures t.events == s.events || t.events == DrainEvent(s).events ==> KeepsRows(s, t)
  {
  }

  /** A reward that had its row, sign-ins aside, carries the gold of that row. */
  predicate OwnGold(s: State, p: Payment) {
    match p
    case Daily(key, gold, hadRow) =>
      hadRow && key.taskId != 3 ==> key in s.events && s.events[key].gold == gold
    case Profile(u, day, gold) => Key(u, 2, day) in s.events && s.events[Key(u, 2, day)].gold == gold
    case ForFeedback(_, _, _) => true
  }

  ghost predicate AllOwnGold(s: State) {
    forall p :: p in s.paid ==> OwnGold(s, p)
  }

  lemma OwnGoldKept(s: State, t: State)
    requires AllOwnGold(s) && KeepsRows(s, t)
    requires t.paid == s.paid || exists p: Payment :: t.paid == s.paid + [p] && OwnGold(t, p)
    ensures AllOwnGold(t)
  {
    forall p | p in t.paid ensures OwnGold(t, p) {
      if p in s.paid {
        assert OwnGold(s, p);
      }
    }
  }

  lemma AwardOwnGold(s: State, u: nat, taskId: int, day: int, now: int)
    requires AllOwnGold(s)
    ensures AllOwnGold(Award(s, u, taskId, day, now)) && AllOwnGold(SignIn(s, u, day, now))
  {
    hide Pay, KeepsRows;
    var key, sign, last := Key(u, taskId, day), Key(u, SIGN_TASK, day), LastSign(s, u, day);
    if u in s.users {
      PayOwnGold(s, key, Lookup(s.events, key).gold, 1, Lookup(s.events, key).eventId, now);
      PayOwnGold(s, sign, Reward(last), last + 1, Lookup(s.events, sign).eventId, now);
    }
  }

  lemma PayOwnGold(s: State, key: Key, gold: int, status: int, eventId: nat, now: int)
    requires AllOwnGold(s) && key.user in s.users && (key.taskId == 3 || gold == Lookup(s.events, key).gold)
    ensures AllOwnGold(Pay(s, key, gold, status, eventId, now))
  {
    hide Pay;
    var t := Pay(s, key, gold, status, eventId, now);
    var p := Daily(key, gold, key in s.events);
    PayKeepsRows(s, key, gold, status, eventId, now);
    PaySettled(s, key, gold, status, eventId, now, key);
    assert OwnGold(t, p);
    OwnGoldKept(s, t);
  }

  lemma ProfileOwnGold(s: State, u: nat, day: int, now: int)
    requires AllOwnGold(s)
    ensures AllOwnGold(UpdateUserData(s, u, day, now))
  {
    hide UpdateUserData;
    ProfileEffect(s, u, day, now);
    var t, key := UpdateUserData(s, u, day, now), Key(u, 2, day);
    if t != s {
      var p := Profile(u, day, s.events[key].gold);
      assert OwnGold(t, p) && t.paid == s.paid + [p];
    }
    OwnGoldKept(s, t);
  }

  lemma FeedbackOwnGold(s: State, u: nat, commit: int, valid: int, op: int, day: int, now: int)
    requires AllOwnGold(s)
    ensures AllOwnGold(EffectiveFeedback(s, u, commit, valid, op, day, now))
  {
    hide EffectiveFeedback;
    ApproveFeedbackEffect(s, u, commit, valid, op, day, now);
    var t := EffectiveFeedback(s, u, commit, valid, op, day, now);
    if t.paid != s.paid {
      var p := t.paid[|s.paid|];
      assert OwnGold(t, p) && t.paid == s.paid + [p];
    }
    OwnGoldKept(s, t);
  }

  lemma StepOwnGold(s: State, step: Step)
    requires Wf(s) && AllOwnGold(s)
    ensures AllOwnGold(Next(s, step))
  {
    hide Register, Login, Award, SignIn, UpdateUserData, EffectiveFeedback, DrainEvent, AllOwnGold, KeepsRows, Wf;
    match step
    case RegisterStep(openId, day, now) => RegisterOwnGold(s, openId, day, now);
    case LoginStep(u, day) => LoginOwnGold(s, u, day);
    case ShareStep(u, day, now) => AwardOwnGold(s, u, 4, day, now);
    case ReadStep(u, taskId, day, now) => AwardOwnGold(s, u, taskId, day, now);
    case SignStep(u, day, now) => AwardOwnGold(s, u, 4, day, now);
    case ProfileStep(u, day, now) => ProfileOwnGold(s, u, day, now);
    case ApproveStep(u, commit, valid, op, day, now) => FeedbackOwnGold(s, u, commit, valid, op, day, now);
    case DrainEventStep =>
      DrainKeepsRows(s);
      DrainEventPaid(s);
      OwnGoldKept(s, DrainEvent(s));
    case _ => PlainOwnGold(s, step);
  }

  lemma DrainEventPaid(s: State)
    ensures DrainEvent(s).paid == s.paid
  {
  }

  lemma RegisterOwnGold(s: State, openId: string, day: int, now: int)
    requires Wf(s) && AllOwnGold(s)
    ensures AllOwnGold(Register(s, openId, day, now))
  {
    hide Register, Wf, AllOwnGold, FirstEntry, RowOf;
    var t := Register(s, openId, day, now);
    forall k | k in s.events ensures k in t.events && t.events[k] == s.events[k] {
      RegisterEffect(s, openId, day, now, k);
    }
    RegisterEffect(s, openId, day, now, Key(0, 0, 0));
    OwnGoldKept(s, t);
  }

  lemma LoginOwnGold(s: State, u: nat, day: int)
    requires AllOwnGold(s)
    ensures AllOwnGold(Login(s, u, day))
  {
    hide AllOwnGold, FirstEntry, RowOf, CreateRows;
    var t := Login(s, u, day);
    if u in s.users {
      forall k | k in s.events ensures k in t.events && t.events[k] == s.events[k] {
        LoginEffect(s, u, day, k);
      }
      LoginEffect(s, u, day, Key(0, 0, 0));
      OwnGoldKept(s, t);
    }
  }

  lemma PlainOwnGold(s: State, step: Step)
    requires AllOwnGold(s) && (step.PostStep? || step.WithdrawStep? || step.HandleStep? || step.DrainGoldStep?)
    ensures AllOwnGold(Next(s, step))
  {
    hide HasPending, WithdrawalTaken, Approve, Trunc, LedgerTaken, AllOwnGold;
    OwnGoldKept(s, Next(s, step));
  }

  /** In every run each reward paid with its row carries that row's gold; the sign-in has its own table. */
  lemma RunOwnGold(tasks: seq<TaskInfo>, steps: seq<Step>)
    ensures var s := Run(Init(tasks), steps);
            forall key, gold :: Daily(key, gold, true) in s.paid && key.taskId != 3 ==>
              key in s.events && s.events[key].gold == gold
    ensures var s := Run(Init(tasks), steps);
            forall u, day, gold :: Profile(u, day, gold) in s.paid ==>
              Key(u, 2, day) in s.events && s.events[Key(u, 2, day)].gold == gold
  {
    RunAllOwnGold(tasks, steps);
    var s := Run(Init(tasks), steps);
    forall key, gold | Daily(key, gold, true) in s.paid && key.taskId != 3
      ensures key in s.events && s.events[key].gold == gold
    {
      assert OwnGold(s, Daily(key, gold, true));
    }
    forall u, day, gold | Profile(u, day, gold) in s.paid
      ensures Key(u, 2, day) in s.events && s.events[Key(u, 2, day)].gold == gold
    {
      assert OwnGold(s, Profile(u, day, gold));
    }
  }

  lemma {:induction false} RunAllOwnGold(tasks: seq<TaskInfo>, steps: seq<Step>)
    ensures AllOwnGold(Run(Init(tasks), steps))
  {
    if steps != [] {
      RunAllOwnGold(tasks, steps[..|steps| - 1]);
      RunShape(tasks, steps[..|steps| - 1]);
      StepOwnGold(Run(Init(tasks), steps[..|steps| - 1]), steps[|steps| - 1]);
    }
  }
}
