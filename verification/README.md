# Models of the redirect compiler, the reward server, the quote feed and their helpers

Each part of the repository that carries an algorithm or a protocol has a module that says what it should do, and,
where the source changes state step by step, a module with classes and loops proved to do just that.

- `Text`, `Regex`, `RegexCounts`, `RedirectEntries`, `RedirectPatterns`, `RedirectLaws`, `RedirectSpecials`,
  `RedirectExact`, `HostRules`, `HostExact`, `RedirectCompiler`: the compiler that turns a `|`-separated line of domains
  and URLs into redirect rules and a DNS rule. Its output strings are read as extended regular expressions (section 9.4
  of IEEE Std 1003.1) that must match the whole string. The laws about lines of any length hold for entries whose
  bucketed parts are free of special characters other than the dot; for lines of one entry, and for hosts, the exact
  condition is proved.
- `LedgerModel`, `LedgerConservation`, `LedgerRuns`, `LedgerExactness`, `LedgerAwards`, `LedgerPayments`, `LedgerOnce`,
  `LedgerDiscipline`, `LedgerStreak`, `LedgerEffects`, `LedgerFailures`, `LedgerServer`: the reward server as a
  transition system over its tables and its two bounded channels. Handlers are atomic; the two consumers interleave
  freely; a send to a full channel waits for its consumer. Primary keys refuse duplicate inserts, which the server only
  logs. `LedgerEffects` says of each step, row by row, what it does.
- `Bytes`, `FeedModel`, `FeedClient`: the length-prefixed quote feed over a socket that delivers arbitrary pieces
  and may be interrupted or fail at any call.
- `CodecModel`, `Codecs`: the padded block codecs over an abstract block cipher (sections 6.1 and 6.2 of NIST SP
  800-38A, section 6.3 of RFC 5652).
- `PoolModel`, `ConnectionPool`: the connection pool.
- `SiteGrouping`: the site cache.

Where the code does not do what it is for, the code is modelled as it is and the exact condition is proved:

- the "https://" loop tests the length of its own accumulator and never emits a rule (`RedirectLaws.RowComplete`,
  `RedirectLaws.HttpsGap`);
- only dots are escaped, so a row of one entry redirects exactly what it lists if and only if the entry has no other
  special character and gets a rule (`RedirectExact.RowExact`); a URL with a query is never redirected by its own rule
  (`RedirectSpecials.QueryLaw`, `RedirectSpecials.QueryGap`);
- a host with a second "www.", with a port, or with a special character other than the dot is not matched as meant
  (`HostExact.WwwHostExact`, `HostExact.PortHostExact`, `HostExact.BareHostExact`);
- the ledger loses a row when a message is taken off the queue, by the consumer's turn or because a reward waits on the
  full queue, in a second that already has a row of that user and taskId (`LedgerExactness.StepExact`,
  `LedgerExactness.RunLossless`), and a withdrawal row is lost likewise (`LedgerExactness.RunCashExact`);
- a sign-in without today's event row pays on every request (`LedgerAwards.SignWithoutRow`), and a reward is paid a
  second time exactly while the first one's announcement is queued (`LedgerDiscipline.PaysAgain`); a run pays nobody
  twice, and nobody without a row, if and only if every request finds its row done or without a queued announcement
  (`LedgerDiscipline.RunAwards`);
- a sign-in keeps the streak if and only if it finds what `LedgerStreak.SignExact` says;
- `LedgerFailures` holds a run from the empty server for each of these failures of ledger, awards and streak;
- a profile is rewarded once per user if and only if profile rows are not created at login
  (`LedgerOnce.ProfileOncePerUser`);
- zero padding restores only some texts (`CodecModel.ZeroRoundTrip`), and padded CBC loses the empty text
  (`CodecModel.CbcPkcsRoundTrip`).

## Model

| member | source | states |
|---|---|---|
| RedirectEntries.ClassifyKeeps | hhhhhhhhh/cms-server/server/ExportConfigJM.go:160-184 | Classification loses nothing but the leading "www." of a three-label entry, and drops exactly the entries without a dot and those whose scheme is not followed by "//" |
| RedirectEntries.SortConserves | hhhhhhhhh/cms-server/server/ExportConfigJM.go:157-186 | After the classification loop each collection holds every kept entry, under its own key, exactly as often as the line lists it, and nothing else |
| RedirectEntries.HeldListed | hhhhhhhhh/cms-server/server/ExportConfigJM.go:157-186 | A value sits in a bucket if and only if some listed entry is classified as that value |
| RedirectEntries.TwoLists | hhhhhhhhh/cms-server/server/ExportConfigJM.go:163-170 | An entry a.b stands for itself and www.a.b |
| RedirectEntries.WwwLists | hhhhhhhhh/cms-server/server/ExportConfigJM.go:171-174 | An entry www.a.b stands for itself and a.b |
| RedirectEntries.LongLists | hhhhhhhhh/cms-server/server/ExportConfigJM.go:175-181 | Any other entry of three or more labels stands for itself alone |
| RedirectEntries.SchemeLists | hhhhhhhhh/cms-server/server/ExportConfigJM.go:161-166 | An entry with a scheme stands for itself, if two slashes follow, else for nothing |
| Regex.ParseExactly | hhhhhhhhh/cms-server/server/ExportConfigJM.go:316-323 | The expression dialect is unambiguous: a text has a given syntax tree if and only if the tree is well-formed and prints as that text |
| RedirectPatterns.CombinedAltText | hhhhhhhhh/cms-server/server/ExportConfigJM.go:436-558 | The string written for the buckets, in any iteration order, is the text of the intended tree: the optional "www." and the outer alternation stay bound to the whole group |
| RedirectPatterns.CombinedAltMeans | hhhhhhhhh/cms-server/server/ExportConfigJM.go:235-323 | That tree matches exactly the bucketed values joined with their keys, the two-label ones also behind "www." |
| RedirectPatterns.CombinedAltStrict | hhhhhhhhh/cms-server/server/ExportConfigJM.go:436-558 | The tree has no empty alternative, so the standard defines its meaning, if and only if no bucket lists an empty name beside others |
| RedirectLaws.CombinedParses | hhhhhhhhh/cms-server/server/ExportConfigJM.go:316-328 | The combined text has exactly one reading, the intended one |
| RedirectLaws.CombinedStrict | hhhhhhhhh/cms-server/server/ExportConfigJM.go:157-328 | For a compiled line: that reading has no empty alternative if and only if no domain ending lists an empty name beside others; in particular when all labels are non-empty |
| RedirectLaws.CombinedLaw | hhhhhhhhh/cms-server/server/ExportConfigJM.go:157-328 | Compiler correctness for every iteration order of both maps: the combined pattern accepts {e, www.e} for two labels, {e, e without www.} for a three-label "www." entry, {e} for longer entries, and nothing else; it is empty exactly when no such entry is listed |
| RedirectLaws.SchemeLaw | hhhhhhhhh/cms-server/server/ExportConfigJM.go:583-603 | A scheme rule accepts exactly the scheme followed by a listed remainder; for "https://" this is what the broken loop is meant to emit |
| RedirectLaws.HttpLaw | hhhhhhhhh/cms-server/server/ExportConfigJM.go:188-207 | The "http://" rule accepts exactly the listed entries with that prefix; it has no empty group if and only if a bare "http://" is not listed |
| RedirectExact.SchemeExact | hhhhhhhhh/cms-server/server/ExportConfigJM.go:583-603 | For every remainder: the rule of a single entry has a reading and accepts exactly the scheme and the remainder if and only if the remainder has no special character other than dots |
| RedirectExact.TwoExact | hhhhhhhhh/cms-server/server/ExportConfigJM.go:504-558 | For every name: the pattern of a single two-label name accepts exactly the name and its "www." form if and only if the name has no special character other than dots |
| RedirectExact.LongExact | hhhhhhhhh/cms-server/server/ExportConfigJM.go:436-502 | The same for a single longer name, which is accepted alone |
| RedirectExact.RowExact | hhhhhhhhh/cms-server/server/ExportConfigJM.go:157-328 | For every row of one entry, of any kind: its rules redirect exactly what the entry lists if and only if the entry has no special character other than dots, is not an "https://" entry and is not a bare "http://" |
| RedirectSpecials.QueryLaw | hhhhhhhhh/cms-server/server/ExportConfigJM.go:583-603 | An instance of the failing side: the rule of a URL with a query accepts exactly the URL without its question mark, with and without the character before it, and never the URL |
| RedirectSpecials.QueryGap | hhhhhhhhh/cms-server/server/ExportConfigJM.go:188-207 | A row that lists one such URL does not redirect it |
| RedirectLaws.RowLaw | hhhhhhhhh/cms-server/server/ExportConfigJM.go:157-328 | The rules written for a row redirect exactly the strings listed by the entries that get a rule: all but the "https://" ones and a lone empty "http://" |
| RedirectLaws.RowComplete | hhhhhhhhh/cms-server/server/ExportConfigJM.go:209-231 | A row redirects everything it lists if and only if each "https://" entry is also listed as a three-label "www." entry and its "http://" entries are not a single empty one |
| RedirectLaws.HttpsGap | hhhhhhhhh/cms-server/server/ExportConfigJM.go:560-581 | Concrete failing input: a row listing only one "https://" entry gets no redirect rule |
| HostExact.BareHostExact | hhhhhhhhh/cms-server/server/ExportConfigJM.go:361-365 | A host without port and leading "www." yields a pattern accepting exactly the host and its "www." form if and only if it has no special character other than dots |
| HostExact.WwwHostExact | hhhhhhhhh/cms-server/server/ExportConfigJM.go:355-366 | A leading "www." gives the same pattern as the bare host if and only if no further "www." occurs; the pattern accepts exactly the two forms if and only if, besides, the host has no special character other than dots |
| HostExact.PortHostExact | hhhhhhhhh/cms-server/server/ExportConfigJM.go:336-354 | With a port, whatever follows the first colon, there is no normalisation: the name is accepted, also with an additional "www." unless it starts with one and two colons follow, and nothing else is, if and only if the name has no special character other than dots |
| RedirectCompiler.BucketMaps.HandleNotStartWithHttp | hhhhhhhhh/cms-server/server/ExportConfigJM.go:401-418 | Adds the entry to the bucket maps as its classification says and touches nothing else |
| RedirectCompiler.HandleStartWithHttp | hhhhhhhhh/cms-server/server/ExportConfigJM.go:420-434 | Appends the remainder to the list of its scheme, or drops a malformed one |
| RedirectCompiler.ClassifyLine | hhhhhhhhh/cms-server/server/ExportConfigJM.go:157-186 | The loop over the pieces of the line leaves the sorted collections of those pieces |
| RedirectCompiler.WriteBuckets | hhhhhhhhh/cms-server/server/ExportConfigJM.go:444-478 | The accumulator loop over a randomly ordered map joins one text per bucket with bars, for the order it met |
| RedirectCompiler.HandleTwoStr | hhhhhhhhh/cms-server/server/ExportConfigJM.go:504-558 | Writes the two-label pattern text for the order met |
| RedirectCompiler.HandleNotTwoStr | hhhhhhhhh/cms-server/server/ExportConfigJM.go:436-502 | Writes the pattern text of the longer domains for the order met |
| RedirectCompiler.DataSlice.HandleHttp | hhhhhhhhh/cms-server/server/ExportConfigJM.go:583-605 | Appends the "http://" rule, or nothing when there is nothing to match |
| RedirectCompiler.DataSlice.HandleHttps | hhhhhhhhh/cms-server/server/ExportConfigJM.go:560-581 | As written appends nothing, for any input |
| RedirectCompiler.DataSlice.HandleHost | hhhhhhhhh/cms-server/server/ExportConfigJM.go:336-366 | Appends the DNS rule of the host, in all its branches |
| RedirectCompiler.DataSlice.CompileRow | hhhhhhhhh/cms-server/server/ExportConfigJM.go:147-366 | Appends the rules of a row, redirects in order and one DNS rule |
| RedirectCompiler.DataSlice.CompileAll | hhhhhhhhh/cms-server/server/ConfigJM.go:423-727 | Whatever an entry of a plain row lists is accepted by the pattern of some rule "pattern->url" to that row's url, an https or bare http entry aside, and a plain row's rules accept nothing else; every row with a redirectUrl or a DNS puts its DNS rule into the list, in row order; a row with neither adds nothing; for rows with special characters the rules written are stated, and what they redirect for rows of one entry |
| LedgerConservation.StepWf | ppserver/eventTable.go:10-34 | Every handler and consumer step keeps the tables well-formed and both channels within their capacity |
| LedgerConservation.StepGap | ppserver/goldCash.go:24-39 | No step creates or destroys gold that ledger, queue and refused inserts do not account for |
| LedgerConservation.StepCash | ppserver/withdrawalData.go:97-129 | No step creates or destroys cash that ledger and withdrawals do not account for |
| LedgerConservation.StepPending | ppserver/withdrawalData.go:97-129 | At most one withdrawal of a user has status 0 after any step |
| LedgerRuns.RunConserves | ppserver/goldCash.go:24-39 | Over all interleavings of atomic handlers and consumers: each user's gold is the sum of ledger rows (registration rows aside), queued messages and refused inserts; cash is ledger cash less withdrawals, recorded or refused; one pending withdrawal at most |
| LedgerRuns.CashSafe | ppserver/register.go:153-166 | No run makes anyone's cash negative, if and only if the configured registration reward is not negative |
| LedgerEffects.AwardEffect | ppserver/event.go:183-216 | A share or read request is paid the gold of its own key's row, 0 without one: balance, announcement with status 1, ledger message with task and row id, and answer agree |
| LedgerEffects.RewardTasksAre | ppserver/event.go:105-181 | Sharing is task 4, reading the task asked for if it is 5 to 8 |
| LedgerEffects.SignEffect | ppserver/sign.go:56-108 | A sign-in pays 10 and 5 more for each day yesterday's row counts, 40 at most, and announces one day more |
| LedgerEffects.ProfileEffect | ppserver/event.go:81-101 | The profile reward is the row's gold; the row is marked at once |
| LedgerEffects.PostEffect | ppserver/feedback.go:38-76 | A feedback is inserted if it has content and its key (user, second) is free |
| LedgerEffects.ApproveFeedbackEffect | ppserver/feedback.go:164-226 | An approval settles that feedback alone and, if valid, pays the gold of today's row of task 9 |
| LedgerEffects.DrainEventEffect | ppserver/eventTable.go:10-34 | The event consumer takes the front message and sets the status of its row, and of no other |
| LedgerEffects.DrainGoldEffect | ppserver/goldCash.go:24-39 | The ledger consumer takes the front message and inserts its row unless one of the same user, taskId and second is there |
| LedgerEffects.SendEventEffect | ppserver/eventTable.go:10-20 | A send appends; a channel that holds 10 is drained by one first |
| LedgerEffects.SendGoldEffect | ppserver/goldCash.go:10-24 | The same for the ledger's channel, which holds 20 |
| LedgerEffects.WithdrawEffect | ppserver/withdrawalData.go:80-142 | A withdrawal is accepted if and only if none of the user waits and 30 to the whole cash is asked for; then the amount leaves the cash |
| LedgerEffects.HandleEffect | ppserver/withdrawalData.go:198-251 | Approval marks exactly the withdrawals of that user and second |
| LedgerEffects.LoginEffect | ppserver/eventTable.go:96-128 | A login gives each task with an enabled daily entry today's row, with status 0 and that entry's gold and cash, unless it has one; nothing else changes |
| LedgerEffects.RegisterEffect | ppserver/register.go:37-175 | A registration adds the next user with today's rows, and for task 1 its cash, ledger row and status; nobody else is touched |
| LedgerEffects.TasksInOrder | ppserver/eventTable.go:36-94 | The entries of a type are all of that type, in configured order |
| LedgerEffects.RunOwnGold | ppserver/event.go:183-216 | In every run each reward paid with its row, sign-in aside, carries the gold of that row |
| LedgerExactness.StepExact | ppserver/goldCash.go:24-39 | Any step keeps the ledger exact for a user if and only if it does not take, by the consumer's turn or by a send to the full queue, a message with that user's gold whose primary key (user, taskId, second) is taken |
| LedgerExactness.RunLossless | ppserver/goldCash.go:24-39 | Over all interleavings: gold equals ledger rows and queue after every step if and only if no step takes such a message |
| LedgerExactness.RunExact | ppserver/goldCash.go:26-36 | At the end of a run the ledger and the queue tell a user's gold if and only if the inserts refused to that user carried no gold in sum |
| LedgerExactness.DrainExact | ppserver/goldCash.go:26-36 | The consumer's turn keeps the ledger exact for the message's user if and only if the primary key is free or the message carries no gold |
| LedgerExactness.RunCashExact | ppserver/withdrawalData.go:97-129 | At the end of a run cash equals ledger cash less recorded withdrawals if and only if no accepted withdrawal of the user met a taken primary key (user, second), that is, none was refused |
| LedgerExactness.WithdrawExact | ppserver/withdrawalData.go:117-129 | An accepted withdrawal leaves the withdrawals table exact if and only if its primary key (user, second) is free; the cash is taken either way |
| LedgerPayments.StepPaid | ppserver/event.go:122-154 | No step changes a balance other than by the rewards it answers |
| LedgerPayments.RunPaid | ppserver/event.go:81-223 | In every reachable state a user's gold is the sum of the rewards answered to that user, so what holds of the rewards holds of the balance |
| LedgerFailures.LedgerLosesRow | ppserver/pp.sql:43-56 | Concrete failing run: two approved feedbacks drained within one second leave the ledger short of one reward |
| LedgerFailures.SharePaidTwice | ppserver/event.go:122-154 | Concrete failing run: sharing twice before the announcement is drained pays twice for one taskId and day |
| LedgerFailures.SignPaidTwice | ppserver/sign.go:38-108 | Concrete failing run: without a row for the day two sign-ins pay twice |
| LedgerFailures.StreakLost | ppserver/sign.go:56-108 | Concrete failing run: two consecutive days signed, the second recorded as a streak of 1 and paid as one |
| LedgerFailures.WithdrawalLost | ppserver/withdrawalData.go:97-129 | Concrete failing run: two withdrawals within one second take cash twice and leave one row |
| LedgerAwards.StepGuarded | ppserver/event.go:122-154 | Every reward paid against an existing event row is, or will be once the queue is drained, visible as a positive status |
| LedgerDiscipline.PaysAgain | ppserver/event.go:183-216 | While nobody has been rewarded twice, a share or read request for a key already paid pays again if and only if the first reward's announcement is still queued; in any state it pays again only then |
| LedgerDiscipline.SignPaysAgain | ppserver/sign.go:38-108 | The same for the sign-in |
| LedgerAwards.SignWithoutRow | ppserver/sign.go:38-108 | Failing family: while today's row does not exist, n sign-ins pay n times and the row stays missing |
| LedgerDiscipline.StepPaidOnce | ppserver/event.go:105-223 | A step leaves everyone rewarded at most once per taskId and day, and with a row, if and only if its request finds its row done or without a queued announcement |
| LedgerDiscipline.RunAwards | ppserver/event.go:105-223 | In every run the guard holds and each queued announcement and each done row has a reward of its own; nobody is rewarded twice for one taskId and day, nor without a row, if and only if every request of the run finds that |
| LedgerOnce.RunOnce | ppserver/feedback.go:164-226 | In every run, whatever the interleaving, each feedback and each profile row is rewarded at most once |
| LedgerOnce.ProfileOnce | ppserver/event.go:81-101 | The profile reward marks its row in the same step |
| LedgerOnce.ProfileOncePerUser | ppserver/event.go:33-103 | No run rewards any user's profile twice, on whatever days, if and only if no enabled profile entry is among those created at login |
| LedgerStreak.SignExact | ppserver/sign.go:56-108 | A sign-in keeps row status equal to the streak and payments equal to the reward table if and only if today's row exists and either reads as signed, or nothing about it is queued, yesterday reads as it will settle, and tomorrow is unsigned |
| LedgerStreak.StepCounts | ppserver/sign.go:56-108 | Of all steps only such a sign-in spoils the count |
| LedgerStreak.RunCounts | ppserver/sign.go:56-108 | After every step of a run the status of the sign-in row of day d will settle at the number of consecutive signed days ending at d and each sign-in was paid its place in the table, if and only if each sign-in finds what `SignExact` says |
| LedgerStreak.StreakEarns | ppserver/sign.go:73-80 | In every such run n consecutive days have put 10n + 5n(n-1)/2 gold for n up to 7, and 175 + 40(n-7) beyond, into the user's balance, on top of what all other rewards paid |
| LedgerStreak.LoginPredicts | ppserver/login.go:28-51 | The count shown at login is the streak that signing in today makes or has made: when the row reads as signed and nothing about it is queued, and when it reads 0, exactly if yesterday reads as it will settle |
| LedgerStreak.UndrainedResets | ppserver/eventTable.go:21-34 | While yesterday's announcement is queued, signing in starts the count again at 1 |
| LedgerServer.Server.UpdateEventTable | ppserver/eventTable.go:21-34 | One turn of the event consumer |
| LedgerServer.Server.SaveGoldAndCash | ppserver/goldCash.go:24-39 | One turn of the ledger consumer; a refused insert is only logged |
| LedgerServer.Server.GetEventMap | ppserver/eventTable.go:130-159 | The row of user, taskId and day, or zeros |
| LedgerServer.Server.GetTaskInfoTable | ppserver/eventTable.go:36-94 | The configured entries of one type, in order |
| LedgerServer.Server.CreateEvent | ppserver/eventTable.go:96-128 | Inserts a row with status 0 for each enabled entry that has none today |
| LedgerServer.Server.UserRegister | ppserver/register.go:37-127 | A known openId changes nothing; a new one gets a new user, its rows and the registration reward |
| LedgerServer.Server.AddRegisterEvent | ppserver/register.go:129-175 | Writes the registration ledger row, credits its cash and marks its event, whichever matching row the query returns |
| LedgerServer.Server.UserLogin | ppserver/login.go:14-76 | Shows the sign-in count and creates today's rows |
| LedgerServer.Server.ShareAppHandler | ppserver/event.go:105-161 | The share step and its answer; the balance grows by the gold answered, which is that of the row of task 4 |
| LedgerServer.Server.ReadAwardHandler | ppserver/event.go:163-223 | The read step for taskIds 5 to 8, nothing for others; the balance grows by the gold answered, which is that of the task's own row |
| LedgerServer.Server.UserSignIn | ppserver/sign.go:18-110 | The sign-in step; the answered count is the one login predicts and the gold is its place in the table |
| LedgerServer.RewardFor | ppserver/sign.go:73-80 | The table lookup is min(40, 10 + 5n) |
| LedgerServer.Server.UpdateUserDataHandler | ppserver/event.go:33-103 | The profile step on whichever row the undated query returns |
| LedgerServer.Server.FeedbackHandler | ppserver/feedback.go:38-76 | Inserts a feedback with content, once per user and second |
| LedgerServer.Server.EffectiveFeedbackHandler | ppserver/feedback.go:141-227 | The approval step and all its answers |
| LedgerServer.Server.GetWithdraw | ppserver/withdrawalData.go:42-78 | The scan finds a waiting withdrawal if and only if there is one |
| LedgerServer.Server.WithdrawalHandler | ppserver/withdrawalData.go:80-142 | The withdrawal step and all its answers |
| LedgerServer.Server.HandleWithdrawalHandler | ppserver/withdrawalData.go:198-251 | The approval of a withdrawal and all its answers |
| LedgerServer.Server.Handle | ppserver/goldCash.go:24-39 | Any request or consumer turn served by the class is one step of the transition system |
| LedgerServer.Serve | ppserver/eventTable.go:21-34 | A server from its start, serving any requests and consumer turns: its state is that of a run, so gold and cash balance, gold is what the rewards paid, one withdrawal waits at most, the once-only guards hold, and under their conditions the awards are single and the streaks counted |
| FeedModel.Digits4Value | socketClient/src/netClient.cpp:185-187 | The four decimal digits of a length read back as that length |
| FeedModel.QuoteBytes | socketClient/src/netClient.cpp:177-199 | A quote frame byte by byte: mark, "0201", four decimal digits of the body length, two bytes of kind, body, trailer |
| FeedModel.BeatBytes | socketClient/src/netClient.cpp:200-206 | A heartbeat is 12 bytes with "0203" after the mark |
| FeedModel.OtherCommand | socketClient/src/netClient.cpp:207-210 | Any other command consumes the 11 bytes of the header and nothing more |
| FeedModel.TooLong | socketClient/src/netClient.cpp:185-194 | A stated length that does not fit the 2480 bytes of the buffer is not followed |
| FeedModel.CStringMeans | socketClient/src/netClient.cpp:194-198 | What is yielded ends before the first NUL |
| FeedModel.ReceiveFrame | socketClient/src/netClient.cpp:177-211 | One call on a frame that fits the buffer and leaves or brings a NUL consumes exactly that frame and yields body and trailer up to the first NUL |
| FeedModel.Synchronised | socketClient/src/netClient.cpp:177-211 | On any sequence of well-formed quotes and heartbeats successive calls consume one frame each, in order, and leave what follows |
| FeedModel.RelayedBody | socketClient/src/main.cpp:69-83 | A quote is sent on as its body if and only if neither body nor trailer holds a NUL |
| FeedModel.RelaysBodies | socketClient/src/main.cpp:69-83 | Exactly the bodies are sent on, in order, whatever heartbeats come between, if and only if no quote holds a NUL |
| FeedClient.NetReadn | socketClient/src/netClient.cpp:75-108 | For every fragmentation and finitely many interruptions: the bytes read are the front of the stream in order, nothing else is consumed, and the count is short only at end of file or after an error |
| FeedClient.NetWriten | socketClient/src/netClient.cpp:110-137 | Sends all bytes in order, or reports failure after a prefix |
| FeedClient.VerifyLogin | socketClient/src/netClient.cpp:139-175 | Unless a call fails, sends the 19 login bytes and succeeds if and only if five bytes arrive of which the last four are "0200"; 12 bytes are consumed |
| FeedClient.RecvData | socketClient/src/netClient.cpp:177-211 | Unless a call fails, the outcome is the one the stream determines, however it was fragmented; in any case the stream is only read from its front |
| FeedClient.Pump | socketClient/src/main.cpp:69-83 | Unless a call fails, any number of turns of the main loop sends on what the stream determines |
| FeedClient.Session | socketClient/src/main.cpp:66-83 | After a 12-byte reply with "0200", unless a call fails, every frame of any well-formed sequence is received and its quote bodies sent on |
| CodecModel.MapInverse | hhhhhhhhh/cms-server/aescrypto/ecb.go:41-77 | Blockwise decryption undoes blockwise encryption on whole blocks |
| CodecModel.MapBlockAt | hhhhhhhhh/cms-server/aescrypto/ecb.go:41-77 | Block j of the result is the cipher of block j |
| CodecModel.EcbBlocks | hhhhhhhhh/cms-server/aescrypto/ecb.go:80-94 | Block j of the ciphertext is the cipher, under the whole key, of block j of the padded text; the empty text and illegal keys are errors |
| CodecModel.EcbTextBlocks | hhhhhhhhh/cms-server/aescrypto/ecb.go:113-126 | Block j of what the padding is removed from is the inverse cipher of block j; partial blocks panic |
| CodecModel.PadBytes | hhhhhhhhh/cms-server/aescrypto/padding.go:9-13 | Padding keeps the text and adds one to 16 bytes, each their number, to whole blocks |
| CodecModel.UnpadBytes | hhhhhhhhh/cms-server/aescrypto/padding.go:16-24 | Removal takes off as many bytes as the last one says and refuses to leave nothing |
| CodecModel.PadExact | hhhhhhhhh/cms-server/aescrypto/padding.go:9-41 | Removing undoes padding if and only if the text is not empty and the padding length fits a byte, for every block size |
| CodecModel.UnpadExact | hhhhhhhhh/cms-server/aescrypto/padding.go:16-24 | Padding restores what removal took off if and only if it was k bytes of value k, 1 to 16 |
| CodecModel.EcbPkcsRoundTrip | hhhhhhhhh/cms-server/aescrypto/ecb.go:80-126 | Every non-empty text comes back from ECB with padding; the empty one is refused |
| CodecModel.EcbPkcsRestores | hhhhhhhhh/cms-server/aescrypto/ecb.go:113-126 | Re-encrypting a decrypted text restores the ciphertext if and only if the decrypted blocks are properly padded |
| CodecModel.CbcInverse | hhhhhhhhh/cms-server/aescrypto/cbc.go:18-20 | Cipher block chaining decrypts what it encrypted, for every permutation and initialisation vector |
| Bytes.XorBit | hhhhhhhhh/cms-server/aescrypto/cbc.go:18-20 | Each binary digit of an exclusive or is 1 if and only if those of its operands differ |
| CodecModel.CbcBlockAt | hhhhhhhhh/cms-server/aescrypto/cbc.go:18-20 | Ciphertext block j is the cipher of the bitwise difference of text block j and ciphertext block j-1, or the initialisation vector |
| CodecModel.CbcTextAt | hhhhhhhhh/cms-server/aescrypto/cbc.go:33-35 | Text block j is the bitwise difference of decrypted block j and ciphertext block j-1, or the initialisation vector |
| CodecModel.CbcUsesIv | hhhhhhhhh/cms-server/aescrypto/cbc.go:15-18 | The vector is the first 16 bytes of the one given, or of the key when none is; a short one panics, an illegal key is an error |
| CodecModel.CbcPkcsRoundTrip | hhhhhhhhh/cms-server/aescrypto/cbc.go:9-41 | Every text encrypts; it comes back if it is not empty, and the empty one is rejected on decryption |
| CodecModel.ChenAgrees | hhhhhhhhh/cms-server/aescrypto/chen.go:8-27 | The append-based encryption agrees with the other implementation on every non-empty text, under the first 16 key bytes |
| CodecModel.ChenBlocks | hhhhhhhhh/cms-server/aescrypto/chen.go:8-48 | Each block is ciphered, or deciphered, under the first 16 bytes of the key; short keys and partial blocks panic |
| CodecModel.ChenRoundTrip | hhhhhhhhh/cms-server/aescrypto/chen.go:8-60 | The append-based pair restores every text, the empty one included |
| CodecModel.ZeroUnpadExact | hhhhhhhhh/cms-server/aesecb/aes.go:42-94 | Removing zeros undoes zero padding exactly on the restorable texts |
| CodecModel.ZeroBlocks | hhhhhhhhh/cms-server/aesecb/aes.go:22-51 | The text is followed by fewer than 16 zeros to whole blocks, and each block ciphered |
| CodecModel.ZeroUnpadBytes | hhhhhhhhh/cms-server/aesecb/aes.go:81-94 | Fewer than 16 bytes, or 16 zeros at the end, are left alone; else exactly the trailing zeros go |
| CodecModel.ZeroRoundTrip | hhhhhhhhh/cms-server/aesecb/aes.go:22-94 | Decryption restores the text if and only if it is empty, its last byte is not zero, or it is whole blocks ending in 16 zero bytes |
| Codecs.CryptBlocks | hhhhhhhhh/cms-server/aescrypto/ecb.go:41-77 | The advancing loop is a per-block map, also in place; refused inputs change nothing |
| Codecs.AesEcbPkcs5Encrypt | hhhhhhhhh/cms-server/aescrypto/ecb.go:80-94 | Computes padding and blockwise encryption, or the error |
| Codecs.AesEcbPkcs5Decrypt | hhhhhhhhh/cms-server/aescrypto/ecb.go:113-126 | Computes blockwise decryption and removal, or the error |
| Codecs.Encrypt | hhhhhhhhh/cms-server/aescrypto/chen.go:8-27 | The append loop with a reused buffer is the per-block map |
| Codecs.Decrypt | hhhhhhhhh/cms-server/aescrypto/chen.go:30-48 | The same for decryption |
| Codecs.ECBUnZeroPadding | hhhhhhhhh/cms-server/aesecb/aes.go:81-94 | The backward scan strips the trailing zeros unless the last 16 bytes are all zero |
| Codecs.ZeroPaddedEncrypt | hhhhhhhhh/cms-server/aesecb/aes.go:22-36 | Zero padding and blockwise encryption, or the error |
| Codecs.ZeroPaddedDecrypt | hhhhhhhhh/cms-server/aesecb/aes.go:68-79 | Blockwise decryption and zero removal, or the error |
| PoolModel.GetOk | DBpool_mysql/Singleton_db_pool/DBPool.cpp:88-136 | Getting a connection keeps the books: the counter is idle plus lent, at most maxSize, nobody owns a connection twice |
| PoolModel.GetHandsOut | DBpool_mysql/Singleton_db_pool/DBPool.cpp:94-129 | A connection handed out was nobody's and not deleted: the first idle one, or a new one |
| PoolModel.GetNull | DBpool_mysql/Singleton_db_pool/DBPool.cpp:113-135 | NULL is returned if and only if all maxSize connections are lent, or a connection had to be created and creation failed |
| PoolModel.ReleaseExact | DBpool_mysql/Singleton_db_pool/DBPool.cpp:139-147 | Releasing keeps the books if and only if the caller held the connection |
| PoolModel.DestroyExact | DBpool_mysql/Singleton_db_pool/DBPool.cpp:149-160 | After destruction the books are right if and only if nothing is still lent |
| PoolModel.RunOk | DBpool_mysql/Singleton_db_pool/DBPool.cpp:88-147 | Every run in which clients release only what they hold keeps the books |
| ConnectionPool.DBPool.InitPool | DBpool_mysql/Singleton_db_pool/DBPool.cpp:24-44 | Tries exactly half of maxSize connections and lists those that opened, in order |
| ConnectionPool.DBPool.InitConnection | DBpool_mysql/Singleton_db_pool/DBPool.cpp:47-67 | The creation loop counts exactly the connections it added |
| ConnectionPool.DBPool.GetConnection | DBpool_mysql/Singleton_db_pool/DBPool.cpp:88-136 | Hands out the first idle connection, a replacement if it is closed, or a new one while fewer than maxSize exist; never a closed one; NULL exactly when all are lent or a needed creation failed; list and counter are stated for each case |
| ConnectionPool.DBPool.ReleaseConnection | DBpool_mysql/Singleton_db_pool/DBPool.cpp:139-147 | Appends the connection at the back of the list; the books stay right exactly for one that was lent |
| ConnectionPool.DBPool.DestroyConnPool | DBpool_mysql/Singleton_db_pool/DBPool.cpp:149-160 | Closes and deletes all idle connections |
| SiteGrouping.GroupedByPosition | hhhhhhhhh/cms-server/server/PullSites.go:207-218 | With distinct ids output entry i carries the i-th active type's name and exactly the items of active sites of that name, in site order |
| SiteGrouping.GroupedInOrder | hhhhhhhhh/cms-server/server/PullSites.go:166-218 | The items of entry i are those at a strictly increasing sequence of positions among the sites, namely all whose type has the i-th name |
| SiteGrouping.AppearsPerName | hhhhhhhhh/cms-server/server/PullSites.go:166-218 | Every active site appears exactly as often as its type name occurs among the active types |
| SiteGrouping.AppearsOnce | hhhhhhhhh/cms-server/server/PullSites.go:166-218 | With distinct ids and names every such site appears exactly once and nothing else appears |
| SiteGrouping.CacheSiteTypes | hhhhhhhhh/cms-server/server/PullSites.go:133-218 | For any iteration order of both maps entry i of the cache is the i-th type's name with exactly the items of the sites of that name, in site order |

## Left out

- HTTP, JSON, SQL text, Redis, MQTT and ActiveMQ calls, logging and time formatting: tables are maps and sequences, dates and seconds are integers, the host of a URL is a field of its row.
- Interleaving inside a handler: `userSignIn` writes an absolute gold value it read earlier (ppserver/sign.go:64 and 93), so conservation needs atomic handlers. A handler that waits on a full channel is taken to wait for one message to be drained.
- float32 cash: amounts are exact reals.
- The exchange of gold for cash: the code that writes transTable is not part of this model.
- RedirectLaws.CombinedLaw: covers entries without special characters other than the dot; the compiler escapes nothing else, and what is exact then is proved for lines of one entry (`RedirectExact`), not for longer ones.
- RedirectLaws.CombinedParses: the same entries.
- RedirectLaws.CombinedStrict: the same entries.
- RedirectLaws.SchemeLaw: the same for remainders.
- RedirectLaws.HttpLaw: the same for remainders.
- RedirectLaws.RowLaw: the same entries.
- RedirectLaws.RowComplete: the same entries.
- RedirectCompiler.DataSlice.CompileAll: for rows of several entries of which one has a special character, it says which rules are written but not what they redirect.
- HostRules.BareHostLaw: the sufficient direction, for hosts without special characters other than the dot, as in `HostRules.WwwHostLaw` and `HostRules.PortHostLaw`; `HostExact` has the exact conditions, for hosts without a bar, which a URL cannot have.
- Repetitions other than the question mark, brackets, anchors and unmatched parentheses: an expression that uses them has no reading in `Regex` and counts as wrong, also where the standard lets an unmatched closing parenthesis stand for itself.
- The platform loop of `CacheConfigJM` (hhhhhhhhh/cms-server/server/ConfigJM.go:374): it repeats the same compilation and wraps it in AES and base64.
- FeedClient.VerifyLogin: does not model the write at index 19 of the 19-byte buffer; the buffer keeps its zero initialiser.
- FeedClient.RecvData: a stated length that does not fit the buffer, or a buffer left without NUL, is reported as undefined; after a call has failed for another reason than interruption nothing is said about frames.
- Frames with unknown commands: they consume the header only, as in the source; nothing further is proved about the stream after them.
- The loops of CBC mode: they are in Go's library, so CBC is modelled as the function section 6.2 defines, and the two wrappers as functions.
- Go slice aliasing: `append` in the padding functions may write behind the caller's slice; values are modelled.
- AES itself, hex and base64, and `AesTool` of the server package.
- ConnectionPool.DBPool.InitPool: models the first initialisation of the pool; calling `initPool` again is not modelled.
- Real thread behaviour of the pool: its lock is modelled as atomic methods. Connections still lent when the pool is destroyed are only shown to break the books.
- The second copies of the codecs and of the pool, pagination, token checks, icons, lists of records and the CRUD handlers.
