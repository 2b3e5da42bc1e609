# ApexBets, verified

A Dafny model of the money path of the betting platform and of two smaller protocols
beside it, with proofs of what they keep.  `dafny verify dfyconfig.toml` checks all of it.

The platform takes a bet over HTTP, decides it in a C++ risk engine, persists the decision
in a settlement database and pays winners when a match is settled.  Messages are delivered
at least once, several threads and workers run side by side, and the payout that the
engine reserves is not the number that settlement multiplies out.  The model follows the
code on each of these points:

- `Money`: the decimal arithmetic of ingress (odds from a payout) and settlement (a payout
  from odds), with Python's 28-digit context.
- `JsonStrings`, `JsonObjects`, `JsonLanguage`, `BetSchema`: the engine's strict JSON
  reader and escaper, index loops proved against functions, and those against a grammar.
- `RiskBooks`, `RiskEngine`, `RiskConcurrency`: the engine as a function, as an object with
  its consume loop, and as a state machine of atomic steps of any number of threads.
- `Ingress`, `IngressWire`, `ResultWire`: cents, odds text, idempotency key, the event and
  its JSON, and the strings of the engine's result.
- `SettlementTables`, `SettlementMeaning`, `SettlementStore`, `SettlementLedger`,
  `SettlementOrder`, `SettlementWorker`, `JavaSettlement`: the database transactions as
  functions, what they answer and write, the same as statements on tables, their
  invariants over all runs, settlement order, the consumer with redelivery, crashes and
  races, and the Java implementation.
- `Pipeline`, `PipelineRuns`: all of it together, tying what settlement pays to what the
  engine reserved, and complete runs that show where promises end.
- `FanOut`: odds broadcasting to clients with bounded queues.
- `OtpProtocol`, `OtpService`: phone verification on timed Redis keys.
- `Permutations`, `Wrappers`: sequences with equal elements; Option and Result.

Where methods change state they are proved against a function of the state before
(`Evaluate`, `ProcessEvent`, `SettleMatch`, `Callback`, `JavaProcess`, ...).  What each of
these means, answers and tables alike, is stated without it (`DecidedAs`, `EventWritten`,
`RowsSettled`, `CallbackTaken`, `JavaWritten`, ...), and the further properties are lemmas
about the runs that they make up.

## Findings

Some promises hold only in part.  What does hold is proved, with the exact condition where
there is one.

- Odds keep four decimals, so a payout survives ingress and settlement unchanged for every
  payout exactly when the stake is at most 100.00, and the exposure cap bounds what is paid
  exactly then, but for stakes so close to 10^18 cents that no payout with higher odds is
  admitted (`Money.ExactForAllPayoutsIff`, `PipelineRuns.CapHoldsIff`).  Above it the
  overshoot is at most S/20000 + 1/2 cents a bet (`Pipeline.PaidWithinExposure`).
- A bet whose payout equals its stake, or exceeds it by less than half a ten-thousandth, has
  odds 1.0000, which settlement's schema refuses (`Pipeline.DeliverableIff`).  Such a
  decision stands behind no bet row in any run (`Pipeline.UndeliverableBacksNothing`), and
  for each such stake and payout there is a run in which the engine accepts the bet,
  reserves its payout, and nothing is written (`PipelineRuns.AcceptedButRefused`).
- docs/architecture.md says that offsets are committed only after a result is produced.
  Both consumers continue behind a message that failed, and the next commit covers it.
  Everything in front of a committed offset has been handled exactly when no message met
  the guard of that branch: a result that could not be produced in the engine
  (`RiskEngine.CommittedIsPublishedIff`); in the worker bytes that are no JSON or an
  accepted bet that its wallet cannot pay (`SettlementWorker.RaisesIff`,
  `SettlementWorker.CommittedIsProcessedIff`).  `RiskEngine.UnproducedResultIsLost` and
  `SettlementWorker.RaisedRecordIsLost` are instances of the loss.
- The engine seeds accounts and the worker opens wallets with 1000.00 each.  That the second
  covers what the first allows holds while no seed is larger and no STK push opened the
  wallet first (`Pipeline.WorkerSeedSuffices`, `PipelineRuns.AcceptedButUnfunded`).
- The Java service saves a bet under an assigned id, which merges into an existing row; the
  Python worker refuses it (`JavaSettlement.AgreeIff`, `JavaSettlement.ReusedIdDiverges`).
- Registration sets the new OTP and then deletes the counter.  Between the two commands
  guesses are charged to a counter that then disappears, so the bound on wrong guesses is
  five for each time that happens, and it is attained (`OtpProtocol.BoundIsAttained`,
  `OtpProtocol.FiveAttemptsIff`).
- The engine accepts an object that is cut off behind `{` or behind a comma
  (`JsonLanguage.TruncatedText`), and limits strings to 128 bytes where ingress and
  docs/schemas.md count characters (`IngressWire.PayloadIsReadIff`).

## Model

| member | source | states |
|---|---|---|
| `Pipeline.PaidWithinExposure` | risk_engine/src/risk_engine.cpp:379-391 | In every state of every run of ingress, its JSON on the topic, engine threads, results log with redelivery and settlement, what an account was paid is at most its reserved exposure plus S/20000 + 1/2 cents per paid bet with a stake above 100.00; exposure is at most the cap; what settlement staked is at most what the engine debited, hence at most the seed |
| `Pipeline.SmallStakesKeepTheCap` | risk_engine/src/risk_engine.cpp:383-387 | While an account's won bets have stakes up to 100.00, its payouts stay within the engine's cap in every run |
| `PipelineRuns.CapHoldsIff` | ingress_service/app/routers/bets.py:23-24 | For every positive stake: some run with that stake alone pays more than the cap exactly when the stake is above 10000 cents and leaves room, below 10^18 cents, for a payout with odds above 1.0000 |
| `PipelineRuns.RunBeyondTheCap` | settlement_service/app/settlement.py:51-69 | The witness: for every such stake a complete run, from request to settled payout, that exceeds the cap |
| `Pipeline.RunInv` | settlement_service/app/worker.py:28-99 | The invariant of the whole pipeline: engine invariant, ledger invariant, and every bet that was not rejected stems from an accepted decision with its key, account, stake and odds |
| `Pipeline.StepInv` | risk_engine/src/main.cpp:475-508 | Every step of any component, redelivery included, keeps that invariant |
| `Pipeline.DeliveryBacked` | settlement_service/app/worker.py:54-74 | A delivered result writes at most one row, backed by the very decision it reports |
| `Pipeline.ReadFromTopic` | risk_engine/src/risk_engine.cpp:221-222 | What the engine reads from the topic is a bet that ingress posted, never another |
| `Pipeline.LogEntry` | risk_engine/src/risk_engine.cpp:425-440 | Each message of the results log is read by settlement as the decision of some task |
| `Pipeline.Covered` | settlement_service/app/models.py:89-95 | Bets with distinct keys inject into accepted decisions, so sums over rows are bounded by sums over decisions |
| `Pipeline.PayoutWithinSlack` | settlement_service/app/settlement.py:27-28 | One bet is settled at most S/20000 + 1/2 cents above its reserved payout, and never above it for stakes up to 100.00 |
| `Pipeline.ClaimsOfRefs` | settlement_service/app/settlement.py:60-67 | A user's stake and payout ledger rows refer to distinct bets of that user with distinct keys, none rejected |
| `Pipeline.DeliverableIff` | settlement_service/app/schemas.py:28 | Settlement's schema takes the result of a bet from ingress, whatever its decision, exactly when S <= 20000 * (P - S) and 20000 * P < 19999999999 * S |
| `Pipeline.UndeliverableBacksNothing` | settlement_service/app/schemas.py:28 | In every state of every run, a decision outside that range stands behind no bet row |
| `PipelineRuns.AcceptedButRefused` | ingress_service/app/schemas/bets.py:38-44 | For every admitted stake and payout outside that range: a run in which the engine accepts the bet and reserves its payout, the result is published and delivered, and the database stays empty |
| `Pipeline.WorkerSeedSuffices` | risk_engine/src/main.cpp:437 | In every run, if the engine's seed of an account is at most 1000.00 and the worker opened its wallet before any STK push, no result for it is refused for want of funds |
| `PipelineRuns.AcceptedButUnfunded` | settlement_service/app/mpesa_routes.py:43-47 | Otherwise it happens: for every deliverable bet whose wallet an STK push opened first, or whose stake is above 1000.00, a run in which the engine accepts it and settlement lacks the funds |
| `RiskConcurrency.RunInv` | risk_engine/src/risk_engine.cpp:250-284 | For any number of threads and any interleaving, spurious CAS failures included: balance + held + spent = seed per account, balance >= 0, exposure = sum of accepted payouts <= cap |
| `RiskConcurrency.StepInv` | risk_engine/src/risk_engine.cpp:341-391 | Each atomic step keeps that invariant, and exposure never shrinks |
| `RiskConcurrency.NoOverflow` | risk_engine/src/risk_engine.cpp:242-277 | No int64 operation of evaluate_json leaves its range in any reachable state |
| `RiskConcurrency.QuiescentEquivalence` | risk_engine/src/risk_engine.cpp:230-284 | When all tasks are decided the books are those of placing only the accepted bets, in any order, and in that order each is accepted |
| `RiskConcurrency.CapRejectionIsFinal` | risk_engine/src/risk_engine.cpp:383-386 | A bet refused for the cap would be refused at any later time of the run |
| `RiskConcurrency.DecisionsAreFinal` | risk_engine/src/risk_engine.cpp:355-369 | A decided task never changes |
| `RiskConcurrency.SoloIsSequential` | risk_engine/src/risk_engine.cpp:250-284 | A task that nothing interleaves with changes the books, and decides, exactly as the sequential engine |
| `RiskEngine.Engine.constructor` | risk_engine/src/risk_engine.cpp:197-202 | An engine starts with no accounts and no exposure |
| `RiskEngine.NewEngine` | risk_engine/src/risk_engine.cpp:199-201 | Construction fails exactly for a cap that is not positive |
| `RiskEngine.Engine.SetBalance` | risk_engine/src/risk_engine.cpp:204-217 | Seeds or overwrites one account and nothing else |
| `RiskEngine.Engine.TryDebitBalance` | risk_engine/src/risk_engine.cpp:341-369 | The CAS loop terminates, debits exactly when the balance covers the stake, and reports what remains |
| `RiskEngine.Engine.CreditBalance` | risk_engine/src/risk_engine.cpp:371-377 | Adds the stake back to an existing account, else nothing |
| `RiskEngine.Engine.TryReserveExposure` | risk_engine/src/risk_engine.cpp:379-391 | Reserves exactly when exposure + amount stays within the cap, without overflow, and reports the total |
| `RiskEngine.Engine.EvaluateJson` | risk_engine/src/risk_engine.cpp:219-285 | One evaluation, from bytes to decision: which of the six decisions, with its remaining balance and exposure, by payload, clock and old books; the object follows the specification Evaluate |
| `RiskBooks.EvaluateMeaning` | risk_engine/src/risk_engine.cpp:219-285 | Accepted exactly when the payload is a bet, fresh, funded and within the cap; then stake and payout of its own account move, otherwise no money does, compensation included |
| `RiskBooks.DecisionTable` | risk_engine/src/risk_engine.cpp:219-285 | The decision table: schema error, stale, unknown account, too little money, over the cap, accepted, each exactly in its case, stale first, with the figures of the result |
| `RiskBooks.ParsedBetsAreWellFormed` | risk_engine/src/risk_engine.cpp:317-320 | Every parsed bet has 0 < stake <= payout and a positive time |
| `RiskEngine.ConsumeLoop` | risk_engine/src/main.cpp:458-509 | The consume, evaluate, produce, flush, commit loop over any polls: every message is evaluated, the log has exactly the produced results, the committed offset is the one behind the last message that was produced, flushed and committed, and the counters are the numbers of acceptances and refusals |
| `RiskEngine.LoopMeaning` | risk_engine/src/main.cpp:475-508 | After any polls: Some(n) is committed exactly when the last poll that was produced, flushed and committed has offset n - 1, none exactly when there is no such poll; counters count decisions; the books are those of all messages in turn |
| `RiskEngine.CommittedIsPublishedIff` | risk_engine/src/main.cpp:496-508 | After any polls with growing offsets, every message in front of the committed offset has its own result in the published log exactly when none of them took the branch for a result that could not be produced |
| `RiskEngine.LogIsProduced` | risk_engine/src/main.cpp:475-498 | The published log is exactly the results of the messages that were produced, each computed on the books at its turn |
| `RiskEngine.CommitFollowsPublication` | risk_engine/src/main.cpp:496-508 | An offset is committed only behind a message whose own result was published; published acceptances never outnumber counted ones |
| `RiskEngine.UnproducedResultIsLost` | risk_engine/src/main.cpp:496-498 | The witness: a result that could not be produced is passed over for good by the next commit, though an acceptance keeps its stake and exposure |
| `JsonStrings.ParseJsonStringToken` | risk_engine/src/risk_engine.cpp:30-65 | Reads within bounds, stops behind the closing quote, and returns exactly what the scanner specification says |
| `JsonStrings.StringLanguage` | risk_engine/src/risk_engine.cpp:30-65 | A string is read, with its value and rest, exactly when the input starts with a token of the grammar for that value |
| `JsonStrings.EscapesAre` | risk_engine/src/risk_engine.cpp:46-56 | The eight escapes and the bytes that they stand for |
| `JsonStrings.JsonEscape` | risk_engine/src/risk_engine.cpp:402-423 | The escaping loop computes the escaped text |
| `JsonStrings.EscapeRoundTrip` | risk_engine/src/risk_engine.cpp:402-423 | Escaped, quoted and read again, any bytes come back whole, with ? for control bytes other than \b \f \n \r \t |
| `JsonStrings.SanitizeIdentityIff` | risk_engine/src/risk_engine.cpp:415-416 | Nothing is replaced by ? exactly when no such control byte occurs |
| `JsonStrings.EchoRoundTrip` | risk_engine/src/risk_engine.cpp:431-440 | Whatever string the engine decoded it echoes faithfully: the ? branch is never taken |
| `JsonObjects.SkipWsAt` | risk_engine/src/risk_engine.cpp:24-28 | Stops at the first byte that is not white space |
| `JsonObjects.ClassesAre` | risk_engine/src/risk_engine.cpp:24-28 | White space, digits, float marks and punctuation, as characters |
| `JsonObjects.ParseValueAt` | risk_engine/src/risk_engine.cpp:98-127 | The value branch reads within bounds what ParseValue says |
| `JsonObjects.ParseMemberAt` | risk_engine/src/risk_engine.cpp:79-127 | Key, duplicate check, colon and value as ParseMember says, each error included |
| `JsonObjects.ParseMembersAt` | risk_engine/src/risk_engine.cpp:78-141 | The member loop terminates and computes ParseMembers, also when the input ends |
| `JsonObjects.ParseObjectAt` | risk_engine/src/risk_engine.cpp:67-149 | parse_object terminates, stays in bounds and computes ParseObject |
| `JsonLanguage.ParserLanguage` | risk_engine/src/risk_engine.cpp:67-149 | A payload is accepted with given fields exactly when it is a rendering of a document of the grammar with distinct keys and exactly those members |
| `JsonLanguage.TruncatedText` | risk_engine/src/risk_engine.cpp:78-142 | An accepted open document is cut off right behind { or behind the comma of its last member, white space apart |
| `JsonLanguage.ClosedTextNotCutOff` | risk_engine/src/risk_engine.cpp:135-147 | A closed document never has that form, so the two kinds of accepted input are disjoint |
| `JsonLanguage.SecondDecode` | risk_engine/src/risk_engine.cpp:161-166 | Every stored string slice decodes again, alone and completely, to the value of its member, the same that it decodes to in place; a stored integer is the text of one |
| `JsonLanguage.ValueErrors` | risk_engine/src/risk_engine.cpp:98-127 | The three errors of a value, each exactly in its case |
| `JsonLanguage.MemberErrors` | risk_engine/src/risk_engine.cpp:79-97 | The errors in front of a value: no string token, a key already present, no colon, end of input |
| `JsonLanguage.MembersErrors` | risk_engine/src/risk_engine.cpp:129-140 | After a member a comma goes on, a brace ends, anything else is the error, and a member's error ends the object |
| `JsonLanguage.ObjectErrors` | risk_engine/src/risk_engine.cpp:67-149 | No opening brace and bytes behind the object are errors; otherwise the members decide |
| `BetSchema.NoEncodingErrors` | risk_engine/src/risk_engine.cpp:161-192 | "invalid string encoding" is dead, and a stored integer is refused exactly when it is outside int64 |
| `BetSchema.RequiredStringOf` | risk_engine/src/risk_engine.cpp:151-172 | required_string with its four errors |
| `BetSchema.ParseBetJson` | risk_engine/src/risk_engine.cpp:287-334 | parse_bet_json: first error in the order of the checks, or the bet |
| `BetSchema.StringErrors` | risk_engine/src/risk_engine.cpp:151-172 | Missing, not a string, empty or over 128 bytes: each error of a required string exactly in its case |
| `BetSchema.NumberErrors` | risk_engine/src/risk_engine.cpp:174-193 | Missing, not an integer, outside int64: each error of a required integer exactly in its case |
| `BetSchema.UnknownComesFirst` | risk_engine/src/risk_engine.cpp:287-303 | A JSON error is passed on as it is; an object with a member outside the eleven is refused for that and nothing else |
| `BetSchema.FirstString` | risk_engine/src/risk_engine.cpp:304-312 | The first of the eight strings that cannot be read, in the order of the source, gives the error |
| `BetSchema.FirstNumber` | risk_engine/src/risk_engine.cpp:313-315 | Behind the strings, the first of the three integers that cannot be read gives the error |
| `BetSchema.FirstFigure` | risk_engine/src/risk_engine.cpp:317-320 | Behind the members: stake, payout, payout below stake, time, each error exactly in its case, and success otherwise |
| `BetSchema.AcceptedPayloads` | risk_engine/src/risk_engine.cpp:287-334 | A payload yields a bet exactly when it renders a document with the eleven members of the schema and the bet's values, in any order, spacing and escaping |
| `Ingress.CentsAreExact` | ingress_service/app/routers/bets.py:18-20 | Neither the 28-digit product nor the half-up quantize changes a validated amount: cents are exact |
| `Ingress.ExactCentsMeaning` | ingress_service/app/routers/bets.py:18-20 | The exact cents of a decimal are its hundredfold, where that is a whole number |
| `Money.DoubleRoundingHarmless` | ingress_service/app/routers/bets.py:23-24 | Rounding payout/stake to 28 digits half-even and then to four places half-up equals rounding the exact quotient once |
| `Ingress.OddsTextRoundTrip` | ingress_service/app/routers/bets.py:24 | The odds text that ingress prints is read back as the same number of ten-thousandths |
| `Ingress.OddsTextMeaning` | ingress_service/app/routers/bets.py:24 | The odds text is the units, a point and four digits of ten-thousandths |
| `Ingress.IntTextMeaning` | ingress_service/app/services/idempotency.py:12 | The decimal text of an integer: its value, its sign and no leading zero |
| `Ingress.DigitsInParts` | risk_engine/src/risk_engine.cpp:187 | A digit string has the value of its front, shifted, plus that of its tail |
| `Ingress.PublishedEvent` | ingress_service/app/routers/bets.py:40-69 | An event is published exactly for a positive time; it has the request's own time, match, market and selection, the user, the exact cents, odds that read back as the exact quotient rounded half-up once, the hash of user:match:milliseconds as its key, and one id, made from the key, as event and bet id |
| `Ingress.CanonicalInjectiveIff` | ingress_service/app/services/idempotency.py:9-13 | For a set of user ids, equal canonical strings mean equal triples, for all matches and times, exactly when no id followed by a colon begins another |
| `Ingress.NoColonIsSeparable` | ingress_service/app/services/idempotency.py:12 | Ids without a colon, such as UUIDs, always qualify |
| `Ingress.SameKeyIff` | ingress_service/app/routers/bets.py:45-51 | Two bets share idempotency key, event id and bet id exactly when user, match and time agree |
| `IngressWire.WireStringIff` | risk_engine/src/risk_engine.cpp:41-62 | A string printed by ingress is read by the engine, as the same bytes, exactly when it has no control byte that prints as \u |
| `IngressWire.PayloadIsReadIff` | ingress_service/app/schemas/events.py:4-21 | The printed event is read by the engine as the same bet exactly when its strings are 1 to 128 bytes without such control bytes |
| `IngressWire.MemberTexts` | ingress_service/app/schemas/events.py:11-21 | Each of the eleven members is printed under its own name, strings quoted and numbers plain |
| `IngressWire.NeverGarbled` | risk_engine/src/risk_engine.cpp:287-334 | A printed event is read as itself or refused, never as another bet |
| `IngressWire.RequestReachesEngine` | ingress_service/app/routers/bets.py:65-69 | What the engine reads from the topic for a validated request with plain ids is the event for that request: its own user, time, ids, cents, odds and key, end to end |
| `ResultWire.ResultIsRead` | risk_engine/src/risk_engine.cpp:425-440 | The strings that to_json escapes are decoded to what they were: settlement reads the decision about a bet with all its identifiers, stake and odds, each in its own member |
| `ResultWire.CodesAre` | risk_engine/src/risk_engine.cpp:227-283 | Each decision reports its own reason code, and no other decision that code |
| `Money.PayoutIsExactProduct` | settlement_service/app/settlement.py:27-28 | Stake times odds fits 28 digits for every admitted stake and odds, so only the half-up rounding remains |
| `Money.SettledPayoutBound` | settlement_service/app/settlement.py:27-28 | 20000 * |settled payout - payout| <= stake + 10000 for every stake and payout |
| `Money.ExactForAllPayoutsIff` | settlement_service/app/settlement.py:27-28 | Odds and back give every payout unchanged, and none too high, exactly when the stake is at most 10000 cents |
| `Money.OverpaidWitness` | settlement_service/app/settlement.py:27-28 | For every larger stake a payout that comes back larger |
| `SettlementStore.Store.constructor` | settlement_service/app/models.py:36-115 | The empty tables |
| `SettlementStore.Store.Rollback` | settlement_service/app/worker.py:142 | Restores the tables of the beginning |
| `SettlementStore.Store.InsertUserAndWallet` | settlement_service/app/worker.py:43-52 | Inserts what is missing, fails only on a taken user name |
| `SettlementStore.Store.DebitWallet` | settlement_service/app/worker.py:55-59 | The guarded update and its row count |
| `SettlementStore.Store.CreditWalletRow` | settlement_service/app/settlement.py:54-58 | The unguarded update and its row count |
| `SettlementStore.Store.InsertBet` | settlement_service/app/models.py:87-95 | Primary key and unique key at flush |
| `SettlementStore.Store.ProcessBetResultEvent` | settlement_service/app/worker.py:28-99 | The transaction statement by statement: which of the four outcomes by key, user name, wallet and bet id; when written, the new row, ledger entry, user and wallet by the members of the event; otherwise nothing is left behind |
| `SettlementStore.Store.SettleMatchOutcome` | settlement_service/app/settlement.py:31-80 | Settles exactly the accepted, unlocked rows of the match, won if their selection is the winner and lost otherwise; every other row stays; wallets, ledger and counters follow the winning rows |
| `SettlementStore.Store.SettleBet` | settlement_service/app/settlement.py:51-72 | One round of the settlement loop changes the status of one row and nothing else about the bets, and moves money and counters as one settled row does |
| `SettlementStore.Store.StkPushDeposit` | settlement_service/app/mpesa_routes.py:37-80 | Both transactions of a push: user and wallet are opened with nothing unless the name is taken; a pending row appears exactly if the gateway accepted with a new checkout id |
| `SettlementStore.Store.MpesaStkCallback` | settlement_service/app/mpesa_routes.py:92-151 | A pending row succeeds exactly on code 0, else fails; it takes code and description, the receipt on success alone, and exactly then the amount reaches the wallet with one deposit entry; every other callback leaves the tables alone, with its own answer |
| `SettlementMeaning.EventMeaning` | settlement_service/app/worker.py:36-99 | The four outcomes of a result event, each exactly in its case, and the written tables member by member |
| `SettlementMeaning.OtherMatchesUntouched` | settlement_service/app/settlement.py:46 | Whatever rows a settlement of a match selects: bets of other matches and bets not accepted stay the same rows, and each new ledger entry is the payout of an accepted bet of that match on the winner |
| `SettlementMeaning.CallbackMeaning` | settlement_service/app/mpesa_routes.py:97-151 | What a callback answers and leaves, by the members of its body and the row: which result code credits, what is stored, and when nothing changes |
| `SettlementMeaning.PushMeaning` | settlement_service/app/mpesa_routes.py:37-80 | What a push leaves, by user, amount and the answer of the gateway |
| `SettlementMeaning.UsernameMeaning` | settlement_service/app/worker.py:45 | A user name is user- and the first eight characters of the id |
| `SettlementMeaning.SharedUsernameIff` | settlement_service/app/worker.py:45 | Ids of at least eight characters share a user name exactly when they share their first eight |
| `SettlementLedger.RunOk` | settlement_service/app/worker.py:43-97 | Every reachable state of the interleaved transactions: ledger exactly as bets and deposits call for, unique keys, owners with wallets, balances >= 0 |
| `SettlementLedger.StepOk` | settlement_service/app/mpesa_routes.py:109-149 | Every transaction keeps that invariant, changes only rows that are not final, appends to the ledger, and keeps every wallet's opening |
| `SettlementLedger.RunEvolves` | settlement_service/app/settlement.py:44-72 | Between any two states of a run rows only move forward: final statuses never change, the ledger is append-only |
| `SettlementLedger.Reconciliation` | settlement_service/app/worker.py:48-52 | Each wallet = 1000.00 if the worker opened it, 0 if an STK push did, + the sum of its ledger amounts; never negative |
| `SettlementLedger.BetLedger` | settlement_service/app/settlement.py:51-72 | REJECTED: no rows; ACCEPTED and LOST: one stake row of -S; WON: also one payout row of the computed amount |
| `SettlementLedger.DepositLedger` | settlement_service/app/mpesa_routes.py:122-149 | SUCCESS: exactly one deposit of amount*100; PENDING and FAILED: none |
| `SettlementLedger.CodesDecideAlways` | settlement_service/app/mpesa_routes.py:119-149 | In every reachable state a SUCCESS row has the code 0, a FAILED row another code, and a PENDING row none |
| `SettlementLedger.UncheckedUpdatesAreSafe` | settlement_service/app/mpesa_routes.py:134-138 | Every bet owner has a wallet, so the unchecked payout update hits a row; the callback's 404 is unreachable |
| `SettlementLedger.RaceIsHarmless` | settlement_service/app/models.py:89 | Losing a race at the unique key leaves the same tables as the early duplicate check |
| `SettlementOrder.OrderIndependence` | settlement_service/app/settlement.py:44-72 | Tables and totals of a settlement depend on which rows were selected, not on their order |
| `SettlementOrder.SplitSettlement` | settlement_service/app/settlement.py:47 | Two settlements over disjoint selections, as skip_locked makes them, compose to one over both, totals added |
| `SettlementOrder.SecondSettlementIsEmpty` | settlement_service/app/settlement.py:46 | After a settlement that skipped nothing the next selects and changes nothing, whatever its winner |
| `SettlementMeaning.MatchMeaning` | settlement_service/app/settlement.py:51-72 | Given rows are won or lost by their own selection, other rows stay, the ledger gains one entry per winning row with its payout, each wallet grows by its owner's winnings, and the counters count |
| `SettlementOrder.TotalPayout` | settlement_service/app/settlement.py:68-79 | total_payout_cents is exactly what the wallets gained together |
| `SettlementWorker.ReplayIsExactlyOnce` | settlement_service/app/worker.py:36-40 | Striking the deliveries that did not return True from any run changes nothing; the others have pairwise distinct keys, exactly those on record |
| `SettlementWorker.WorkersExactlyOnce` | settlement_service/app/worker.py:102-146 | With racing, crashing, restarting workers: the database is that of the effective deliveries in commit order, and no offset is committed before every record in front of it was attempted |
| `SettlementWorker.ProcessRawMessage` | settlement_service/app/worker.py:102-113 | Tables and result for bytes that are no JSON, refused or valid events |
| `SettlementWorker.RawMeaning` | settlement_service/app/worker.py:102-113 | A record returns True exactly if a new event was written, raises exactly for no JSON or lacking funds, and leaves the tables alone unless it returned True |
| `SettlementWorker.RunWorker` | settlement_service/app/worker.py:134-146 | The batch loop with its offset commits, over any batches |
| `SettlementWorker.WorkerMeaning` | settlement_service/app/worker.py:137-146 | After any records the committed offset is the one behind the last record that returned, unchanged if none did, and the tables are those of all records in turn |
| `SettlementWorker.RecordIsRun` | settlement_service/app/worker.py:134-146 | A worker that nothing interleaves with handles a record, in the machine of racing workers, exactly as the batch loop does |
| `SettlementWorker.RaisesIff` | settlement_service/app/worker.py:55-61 | Processing raises exactly for bytes that are no JSON and for an accepted event, not on record, of a user whose wallet, or the seed that would open it, is below the stake; then nothing changes |
| `SettlementWorker.CommittedIsProcessedIff` | settlement_service/app/worker.py:141-146 | After any records with growing offsets, all in front of the committed offset have returned exactly when none of them met that guard in its own state; tables and offset are those of the records that returned |
| `SettlementWorker.OnlyReturnedCount` | settlement_service/app/worker.py:141-146 | Records whose processing raised are passed over for good, as if they had never been in the topic |
| `SettlementWorker.BatchesAreRecords` | settlement_service/app/worker.py:135-137 | How records are cut into batches does not matter |
| `SettlementWorker.RaisedRecordIsLost` | settlement_service/app/worker.py:141-146 | The witness: a raising record in front of one that returns |
| `JavaSettlement.SettlementService.EnsureUserAndWallet` | settlement_service_java/src/main/java/com/platform/settlement/service/SettlementService.java:77-84 | Creates what is missing, fails only on a taken user name |
| `JavaSettlement.SettlementService.AcceptBet` | settlement_service_java/src/main/java/com/platform/settlement/service/SettlementService.java:86-120 | Debits, saves bet and ledger row when the funds suffice, else writes nothing |
| `JavaSettlement.SettlementService.PersistRejectedBet` | settlement_service_java/src/main/java/com/platform/settlement/service/SettlementService.java:122-140 | Saves the rejected row with its reason |
| `JavaSettlement.SettlementService.ProcessBetResult` | settlement_service_java/src/main/java/com/platform/settlement/service/SettlementService.java:47-63 | The transaction with its rollbacks; duplicates exactly by the key check |
| `JavaSettlement.JavaMeaning` | settlement_service_java/src/main/java/com/platform/settlement/service/SettlementService.java:47-141 | The four outcomes, each exactly in its case, and the written tables member by member, a reused bet id included |
| `JavaSettlement.BlankMeaning` | settlement_service_java/src/main/java/com/platform/settlement/service/SettlementService.java:123 | A reason is blank exactly when all its characters are white space |
| `JavaSettlement.AgreeIff` | settlement_service_java/src/main/java/com/platform/settlement/service/SettlementService.java:47-141 | From related tables Java and Python agree on outcome and tables exactly when the event neither reuses a bet id nor brings a blank reason |
| `JavaSettlement.StreamsAgree` | settlement_service_java/src/main/java/com/platform/settlement/service/SettlementService.java:47-63 | On whole streams whose bet ids determine their keys, both report the same outcomes and end with the same tables |
| `JavaSettlement.ReusedIdDiverges` | settlement_service_java/src/main/java/com/platform/settlement/service/SettlementService.java:100-110 | A reused bet id: the worker refuses, Java takes the stake and turns the rejected bet into an accepted one |
| `FanOut.ConnectionManager.Connect` | odds_service/app/services/connection_manager.py:32-38 | Adds one fresh client with an empty queue; the objects show AfterConnect |
| `FanOut.ConnectionManager.Disconnect` | odds_service/app/services/connection_manager.py:40-50 | Removes the client and stops its writer |
| `FanOut.ConnectionManager.Broadcast` | odds_service/app/services/connection_manager.py:52-64 | Offers to every client; exactly those with a full queue are dropped, their queues unchanged |
| `FanOut.ClientConnection.PutNowait` | odds_service/app/services/connection_manager.py:57-59 | Appends unless 256 payloads are queued |
| `FanOut.ConnectionManager.WriterRound` | odds_service/app/services/connection_manager.py:66-69 | One round of the writer sends the oldest queued payload or ends when the send fails: the objects show the machine's state after Take and Send or Fail |
| `FanOut.BroadcastShows` | odds_service/app/services/connection_manager.py:52-64 | After broadcast the objects show the machine's state AfterBroadcast |
| `FanOut.BroadcastIsRun` | odds_service/app/services/connection_manager.py:52-64 | AfterBroadcast is a run of the machine: the payload offered to all, then the awaited disconnects of the full ones |
| `FanOut.ConnectIsRun` | odds_service/app/services/connection_manager.py:32-38 | AfterConnect is a run of the machine |
| `FanOut.DropIsRun` | odds_service/app/services/connection_manager.py:40-48 | AfterDisconnect is a run of the machine |
| `FanOut.DisconnectShows` | odds_service/app/services/connection_manager.py:40-48 | After disconnect the objects show AfterDisconnect |
| `FanOut.RoundIsRun` | odds_service/app/services/connection_manager.py:66-69 | A writer's round is a run of the machine |
| `FanOut.RefinesCursor` | odds_service/app/services/connection_manager.py:32-69 | In every reachable state sent, in-flight and queued payloads are together a gap-free stretch of the log since the client joined; sent is a prefix of it; queues hold at most 256 |
| `FanOut.DropsOnlyLaggards` | odds_service/app/services/connection_manager.py:58-62 | A broadcast drops a client exactly when its queue is full, so at least 256 payloads behind |
| `FanOut.OverlappingBroadcastsSkip` | odds_service/app/services/connection_manager.py:63-64 | Were broadcasts not awaited one by one, a client being dropped could receive a payload behind one it missed |
| `OtpProtocol.WrongGuessesBounded` | ingress_service/app/services/user_service.py:59-103 | In every interleaving of registrations and verifications an OTP is compared wrongly at most 5 * (1 + resets) times, resets counting the times its counter vanished, and one request at most is inside the lock, which expires 30 seconds after it arrived |
| `OtpProtocol.AtomicRegistration` | ingress_service/app/services/user_service.py:38-51 | With registration as one step the counter equals the wrong guesses while the record lives, and each OTP is compared wrongly at most 5 times |
| `OtpProtocol.BoundIsAttained` | ingress_service/app/services/user_service.py:40-51 | As two commands registration lets the bound be attained for every number of resets: a run with exactly 5 * (1 + resets) wrong guesses |
| `OtpProtocol.FiveAttemptsIff` | ingress_service/app/services/user_service.py:13 | A run with a given number of resets and more than five wrong guesses exists exactly when that number is not zero |
| `OtpProtocol.ExclusiveStep` | ingress_service/app/services/redis_service.py:51-55 | While requests finish within 30 seconds the lock is exclusive |
| `OtpProtocol.CountingStep` | ingress_service/app/services/redis_service.py:57-61 | The counter's time to live always outlives the record, so it never vanishes first |
| `OtpService.RedisOTP.SetOtp` | ingress_service/app/services/redis_service.py:33-34 | SET with EX |
| `OtpService.RedisOTP.GetOtp` | ingress_service/app/services/redis_service.py:36-45 | The live JSON object under a key, or none |
| `OtpService.RedisOTP.DeleteKeys` | ingress_service/app/services/redis_service.py:47-49 | Removes exactly the given keys |
| `OtpService.RedisOTP.AcquireLock` | ingress_service/app/services/redis_service.py:51-52 | SET NX EX: succeeds exactly when the key is not live |
| `OtpService.RedisOTP.ReleaseLock` | ingress_service/app/services/redis_service.py:54-55 | Deletes the lock |
| `OtpService.RedisOTP.IncrAttempts` | ingress_service/app/services/redis_service.py:57-61 | INCR keeps a live expiry; the first count gets one |
| `OtpService.RedisOTP.GetAttempts` | ingress_service/app/services/redis_service.py:63-70 | The live count, else 0 |
| `OtpService.UserService.RegisterUser` | ingress_service/app/services/user_service.py:38-51 | Leaves the store in the state of the two registration commands; other phone numbers untouched |
| `OtpService.UserService.CountWrongGuess` | ingress_service/app/services/user_service.py:77-81 | A wrong guess is counted, the fifth answered with too many attempts; the record stays |
| `OtpService.UserService.CheckOtp` | ingress_service/app/services/user_service.py:68-101 | The block under the lock: each answer exactly in its case by count, record, guess and database, and what becomes of record and counter |
| `OtpService.UserService.AnswerOtp` | ingress_service/app/services/user_service.py:68-101 | The statements of that block: answers, and the record gone exactly if the user was created |
| `OtpService.UserService.VerifyOtp` | ingress_service/app/services/user_service.py:59-103 | One verification: in progress exactly if the lock is live, and then nothing changes; otherwise each answer exactly in its case, record and counter gone exactly if the user was created, a wrong guess counted, the lock free again; other phone numbers untouched |
| `OtpService.VerifyIsRun` | ingress_service/app/services/user_service.py:65-103 | One verification is exactly a run of the protocol machine, so its bounds apply |

## Left out

- Kafka, PostgreSQL, Redis, HTTP, SMS and Daraja clients: logs, tables and timed keys are modelled directly, transactions as all-or-nothing at their commit.
- SHA-256, UUID version 5, PBKDF2 and JWT: functions given as parameters; injective, or giving short plain text, only where a lemma says so.
- Amounts of 10^18 cents and more: the request schema's limit of 18 digits refuses them, so the bounds on odds and payouts are stated below it.
- The request schema's own parsing of decimals and its limits on characters: a validated amount is a whole number of cents, and strings are bytes.
- `int(timestamp * 1000)` on a float: the epoch in milliseconds is a parameter.
- A flush of the engine's producer that times out: a result counts as published once it was produced.
- Odds texts in other forms than ingress prints, such as exponents: settlement's decimal parser is foreign code.
- Engine restarts and `release_exposure`, which has no caller: exposure only grows within one lifetime.
- `set_balance` during a run: accounts are seeded before it.
- Memory orders weaker than sequential consistency, and linearizability of concurrent evaluations: a debit that is later compensated can make another bet see insufficient funds.
- That every message is eventually processed: it is not, see the findings.
- Reason texts of the engine's results: in the pipeline rejected rows show the reason code.
- BIGINT overflow of wallet balances and payouts in the database.
- Several partitions of a topic: a consumer's log is one partition, and offsets are committed per partition.
- A system clock that shows a time before 1970.
- The status PENDING of a bet, which nothing writes.
- The object syntax of the engine's results and settlement's own JSON reader: a result is the values of its members with its strings as tokens, and a record of the worker is no JSON, refused by the schema, or an event.
- `int(ResultCode)` that raises, and a callback whose CallbackMetadata is null: the callback body is one of the forms that the handler reads.
- A push callback that arrives before its row exists is acknowledged and never credited; modelled, but no property is claimed about it.
- Settling one match twice with different winners for different rows.
- The order in which tables deliver rows beyond what the queries ask for, and the Java service's own consumer.
- Unicode white space in Java's `isBlank`: reasons are compared as ASCII.
- OtpService.UserService.VerifyOtp: for keys that only this service writes; another program's values under them are covered by GetOtp and GetAttempts alone.
- OTP requests that outlive the lock's 30 seconds or die inside it, clock drift of Redis, and the SMS gateway's failure after registration.
- The web socket's accept and close, and backpressure inside `send_bytes`.
- The Angular frontend, trace, health and metrics endpoints, benchmark harness, configuration and scripts.
