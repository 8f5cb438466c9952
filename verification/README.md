# A verified model of the trading engine's core

This Dafny project models the hard core of the gold trading engine under `src/xauusd` and proves
what the engine's safety rests on. Prices and money are exact reals, times are integer seconds in
UTC, and lots are whole volume steps. A broker, a socket, an operator and a crash are arbitrary:
they answer, deliver or strike as they like, and the theorems hold for all of it.

Two habits run through the modules. A loop or a class of the source is a method or a class here,
proved equal to a function that says what it computes; and the theorems are about that function,
over whole runs. A protocol is a log of events and an automaton that accepts it; the method is
proved to produce accepted logs, and the theorems are about every accepted log.

| module | models |
|---|---|
| Domain, Sequences | the shared vocabulary, the two roundings of the symbol specification, sorting and filtering |
| OrderManager, Preflight, Retcodes | sending one decision over an unreliable broker, and the checks before each send |
| OperatorCommands, CommandLoop | the HALT and FLATTEN queue, its claims and crashes, and what executing a command does |
| BridgeProtocol, BridgeTransport | length-prefixed framing over chunked reads, and the client that pairs requests with responses |
| SimBroker, SimLedger, SimFills | the simulated broker, its conservation laws, and its fills and exits in prices |
| Labeling, LabelAgreement | the triple-barrier labeller, and its agreement with the simulated broker |
| PositionManager, BacktestManage | the two stop ratchets |
| Swings, StructureEvents, BreakReports | swing detection, the break-of-structure walk, and which breaks it reports |
| SwingRevisions, EventRevisions | what later bars can change in swings and events already reported |
| Timeframes, Resample, MarketView | calendar buckets, aggregation and the point-in-time view |
| Liquidity, Sweeps, FairValueGap | equal levels, suppression of pools, sweeps, and the life of a gap |
| PurgedCV, Correlation | purged cross-validation and the correlation budgets |

## Where the code falls short of what one would expect

Each of these is proved, with the exact condition under which the expected law holds or with an
input on which it fails.

- A transient answer to the last send allowed is reported ABANDONED without a lookup, although the
  order may have landed (`order_manager.py:306-308`; OrderManager.WhenAnOrderIsMissed); a job
  can miss one exactly when some quote passes its checks (OrderManager.MissedExactlyWhenAQuotePasses).
  A recovery after an earlier transient answer is reported as filled but the database keeps SENT
  (`order_manager.py:310-323`; OrderManager.QuietRecoveryExactlyWithRetries).
- A broker error during a lookup reads as not found (`order_manager.py:360-363`), so one tag can get
  two orders exactly when retries are configured (OrderManager.DuplicatesExactlyWithRetries).
- Summed net profit equals the balance change exactly when no close leaves a remainder, as it is in
  every backtest (BacktestManage.BacktestBalances): a partial close does not reduce the commission
  carried by the rest (`sim_broker.py:438`; SimLedger.NetPnlMatchesBalance, ClosedInPiecesWitness).
- A stop that rounds to zero counts as missing, and the wider initial stop is put back
  (`position_manager.py:173`). From a grid stop that is the only way the ratchet breaks, and it
  can happen exactly to a short whose break-even level or trail comes within half a quote unit of
  zero (PositionManager.RatchetBreaksExactlyWhen, ZeroStopWitness). Management refuses its own proposal
  exactly for a stop in the half unit next to its looser grid point (PositionManager.RefusalReachableIff);
  the backtester, which sends stops unrounded (`engine.py:540`), loosens such a stop
  (BacktestManage.LoosenedExactlyWhen).
- Four-hour buckets straddle the 22:00 roll, so H4 resamples into neither D1 nor W1 as the finer
  timeframes do (Timeframes.NestingTable). `bars(count)` with a count of zero returns the whole view
  (`series.py:80-81`; MarketView.View.Bars).
- The last detected swing can be rewritten by later bars, and only it (`structure.py:118-120`;
  SwingRevisions.DetectorRevisesOnlyLast). A sweep's displacement grows for five bars after it is
  reported, and the rest of its record changes if a close back inside is not required
  (Sweeps.SweepsAreFinalExactlyWhenCloseRequired). A gap jumped over by bars that never touch it
  stays UNMITIGATED (`fair_value_gap.py:113-114`; FairValueGap.GappingPastIsIgnored).
- FLATTEN makes the position manager forget a position whose close was refused, since only an
  exception keeps it (`orchestrator.py:855-863`; CommandLoop.Engine.ExecuteCommand).
- Of the methods that change money at risk exactly `cancel_order` can be written twice by one call
  (`mt5_broker.py:81`, `bridge_protocol.py:107`; BridgeTransport.WrittenTwiceExactlyWhen).
- Samples are accepted whatever the unstable sort returns exactly when their start times strictly
  increase (`purged_cv.py:36-38`; PurgedCV.AcceptedExactlyWhenStrict).
- Neither caller of the correlation budgets shows models or pools (`orchestrator.py:681-699`,
  `engine.py:464-477`), so the pool, burst and model budgets do not bind
  (Correlation.SetupsSpreadExactlyAsProposed). Nor is the direction cap held against what is at
  risk: the live engine counts the positions of its other engines at the scalp risk, the
  backtester counts none (Correlation.ApprovalKeepsCapExactlyWhen, DefaultsExceedTheCap).
- `normalize_volume` is documented to floor always, but raises a request within half of the eighth
  decimal below a whole step (`types.py:174-181`; Domain.NormalizeVolumeRaisesExactly).

## Model

| member | source | states |
|---|---|---|
| OrderManager.Manager.Execute | src/xauusd/execution/order_manager.py:155-353 | What one call adds to the log is a complete run of the protocol (one duplicate guard, a fresh quote and passing checks before every send, a lookup after a transient answer, only lookups after an ambiguous one, ended only by confirmation, refusal or spent retries), and the outcome, the persisted status and the kill switch are exactly those the run calls for |
| OrderManager.Manager.TryOnce | src/xauusd/execution/order_manager.py:209-275 | One pass of the retry loop: it either leaves a run that may send again with one send more, or ends it with the outcome the run shows |
| OrderManager.Manager.HandleRejection | src/xauusd/execution/order_manager.py:288-341 | A refusal is sent again only for the repricing and fixing codes, or for a transient one after a lookup that found nothing and while attempts are left; fatal and unknown codes trip the kill switch |
| OrderManager.Manager.Reconcile | src/xauusd/execution/order_manager.py:373-445 | After an ambiguous send only lookups follow; the first that finds the order ends in FILLED, and when all the polls are used the kill switch is tripped and the status stays RECONCILING |
| OrderManager.Startup.ReconcileUnresolved | src/xauusd/execution/order_manager.py:449-475 | Start-up asks once per tag of the list, in order: each is marked FILLED or ABANDONED by its answer, and the report says which |
| OrderManager.StartupSettles | src/xauusd/execution/order_manager.py:449-475 | After start-up no listed order is left unfinished, no other is touched, and with truthful lookups an order is FILLED exactly when it landed |
| OrderManager.Manager.ResolveAtStartup | src/xauusd/execution/order_manager.py:460-474 | The same for one tag, as an event of that tag's history |
| OrderManager.AtMostOneOrder | src/xauusd/execution/order_manager.py:155-445 | Whatever the broker answers, with honest replies and truthful lookups a run lands at most one order and sends at most max_send_retries + 1 times, and a run that proves an order landed exactly one |
| OrderManager.LandedByPhase | src/xauusd/execution/order_manager.py:205-341 | Whenever a run may still send, none of its orders has landed |
| OrderManager.SendsAreBounded | src/xauusd/execution/order_manager.py:205-207 | The phase counts the sends, which never exceed the attempts allowed |
| OrderManager.NoSendAfterAmbiguous | src/xauusd/execution/order_manager.py:250-256 | After an ambiguous answer, or a success, nothing is ever sent again in that call |
| OrderManager.AmbiguousIsResolvedOrHalts | src/xauusd/execution/order_manager.py:373-445 | Every call with an ambiguous send ends either recovered by a lookup, or unresolved after exactly all its polls with the kill switch tripped |
| OrderManager.OkMeansConfirmed | src/xauusd/execution/order_manager.py:258-284 | Success is reported exactly when the call's log ends with proof of an order |
| OrderManager.WhenAnOrderIsMissed | src/xauusd/execution/order_manager.py:306-308 | An order that landed is not reported exactly when the call ended on the silent send itself: a transient answer to the last send allowed, or an ambiguous one with no time for a lookup |
| OrderManager.QuietRecoveryExactlyWithRetries | src/xauusd/execution/order_manager.py:310-323 | A call whose quote can pass can report success and leave another status than FILLED in the database exactly when retries are configured |
| OrderManager.AtMostOneOpen | src/xauusd/execution/order_manager.py:172-191 | Over a tag's whole life, with calls cut short by crashes, start-up lookups and broker-side closes, at most one of its orders is ever open if an open order is always seen |
| OrderManager.CallsCompose | src/xauusd/execution/order_manager.py:155-353 | A new call after any earlier history keeps to the protocol and starts afresh |
| OrderManager.CutIsDisciplined | src/xauusd/execution/order_manager.py:155-353 | A call cut short anywhere has kept to the protocol so far |
| OrderManager.DuplicatesExactlyWithRetries | src/xauusd/execution/order_manager.py:357-371 | Because a broker error during a lookup reads as not found, a call whose quote can pass can land two orders, with every reply honest, exactly when max_send_retries is at least one |
| OrderManager.MissedLookupRun | src/xauusd/execution/order_manager.py:306-329 | The run that does it: a transient answer hides an order that landed, the lookup misses it, and the second send is confirmed |
| OrderManager.MissedOrderRun | src/xauusd/execution/order_manager.py:306-308 | Every job with a passing quote has an honest, truthful, finished run whose order landed and which reports it abandoned |
| OrderManager.MissedExactlyWhenAQuotePasses | src/xauusd/execution/order_manager.py:306-308 | With an honest broker and truthful lookups, some finished call of a job lands an order without reporting it exactly when some quote passes the job's checks, whatever its retries and polls |
| OrderManager.EveryRequestHonoursFloor | src/xauusd/execution/order_manager.py:218-248 | Every request of every call has grid prices, the decision's volume and direction, a target at least the floor times its stop distance away, and both distances beyond the stops level |
| OrderManager.SendsExactlyAtSoundQuotes | src/xauusd/execution/order_manager.py:209-248 | Every send follows at once on a sound quote: not too old, spread and drift within their limits, the stop kept on its side, the rounded trade worth taking and the volume at least the smallest; its request is the decision rounded at that quote; and a finished call that ends on a quote ends there because that quote was not sound |
| OrderManager.AfterRefusal | src/xauusd/execution/retcodes.py:64-105 | By return code: after a requote, a moved price or an order to be fixed the call may only ask for a new quote; after a time-out, a lost connection or too many requests only look the order up, if an attempt is left; after any other code it is over |
| OrderManager.OutcomeMeans | src/xauusd/execution/order_manager.py:155-445 | A finished call reports filled exactly with proof of an order, reconciling exactly with an ambiguous send no lookup resolved, raises exactly after a broker fault or a timely quote beyond the stop, and is abandoned otherwise; trading is halted exactly when it is left reconciling or ended on a refusal nothing explains |
| OrderManager.PersistedMeans | src/xauusd/execution/order_manager.py:190-341 | The database is left with what is reported, except that an order found by the lookup after a transient answer is left SENT, and that an escaping exception leaves whether anything was sent |
| Preflight.PassHonoursFloor | src/xauusd/execution/order_manager.py:94-151 | A plan that passes yields a request that still meets the reward floor and the stops level after its prices are rounded, with the stop on the losing side |
| Preflight.PassesExactlyWhen | src/xauusd/execution/order_manager.py:94-151 | A quote passes exactly when it is no older than the limit, its spread and its drift from the plan's entry are within theirs, the stop stays on its side, both rounded distances exceed the stops level, the rounded reward meets the floor and the volume is at least the smallest; repricing raises exactly for a timely quote beyond the stop |
| Preflight.RaisesExactlyFromOneR | src/xauusd/execution/order_manager.py:106-117 | Some quote makes repricing raise exactly when the drift limit is one R or more |
| Preflight.DriftBelowOneKeepsSide | src/xauusd/domain/types.py:648-655 | Repricing by less than one R keeps the stop on its side of the entry, so the plan stays constructible |
| Domain.NormalizeMonotone | src/xauusd/domain/types.py:171-172 | Rounding to the quote grid respects the order of prices |
| Domain.NormalizeFixesGrid | src/xauusd/domain/types.py:171-172 | Rounding lands on the grid and leaves exactly the grid points alone |
| Domain.NormalizeError | src/xauusd/domain/types.py:171-172 | Rounding moves a price by at most half a quote unit |
| Domain.NormalizeVolumeFloors | src/xauusd/domain/types.py:174-181 | The volume in whole steps exceeds the request by at most the eight-decimal rounding and never falls short by a whole step more than that |
| Domain.NormalizeVolumeRaisesExactly | src/xauusd/domain/types.py:174-181 | A request is raised exactly when it lies within half of the eighth decimal below a whole step; otherwise the result is its floor |
| Domain.RaisedVolumeWitness | src/xauusd/domain/types.py:174-181 | A request of 0.999999996 steps becomes one step |
| OperatorCommands.OperatorCommandRepository.Queue | src/xauusd/database/repositories.py:777-783 | An unknown command is refused and changes nothing; a known one is appended as QUEUED |
| OperatorCommands.OperatorCommandRepository.ClaimPending | src/xauusd/database/repositories.py:785-811 | Marks exactly the oldest queued commands, up to the limit, and returns them oldest first |
| OperatorCommands.OperatorCommandRepository.SelectQueued | src/xauusd/database/repositories.py:792-805 | The selection is oldest first, complete below the limit, and passes over a command only for ones at least as old |
| OperatorCommands.OperatorCommandRepository.RequeueStaleClaims | src/xauusd/database/repositories.py:813-830 | Every CLAIMED command returns to QUEUED, its ids are returned, and no other row changes |
| OperatorCommands.OperatorCommandRepository.Complete | src/xauusd/database/repositories.py:832-838 | Records DONE or FAILED on one row; a missing row is ignored |
| OperatorCommands.CommandsAreAccountedFor | src/xauusd/engine/orchestrator.py:805-830 | Over every trace with crashes anywhere: DONE or FAILED implies attempted, one engine life attempts a command at most once, and every further attempt needs a start-up that found it claimed but not completed |
| OperatorCommands.TallyHolds | src/xauusd/engine/orchestrator.py:805-830 | The counts behind it hold after every event: claims are requeues plus the current claim, and a command waiting in memory has not been attempted in this life |
| OperatorCommands.NothingIsLost | src/xauusd/database/repositories.py:785-838 | No queued command is ever lost or altered, and a DONE or FAILED row never changes again, over every continuation of every trace |
| OperatorCommands.StartupRequeues | src/xauusd/engine/orchestrator.py:236-240 | After the requeue step no row is CLAIMED, every formerly claimed one waits again, and the others are untouched |
| OperatorCommands.ClaimedIsInHand | src/xauusd/engine/orchestrator.py:805-830 | While an engine runs and no recording has failed, the claimed commands are exactly those it holds in memory |
| OperatorCommands.ClaimTakesItOrComesNearer | src/xauusd/database/repositories.py:785-811 | A claim either takes a queued command or brings it exactly a full batch of older ones nearer to the front |
| OperatorCommands.NextClaimTakesIt | src/xauusd/database/repositories.py:785-811 | A queued command with fewer than a batch ahead of it is in the next claim |
| CommandLoop.Engine.Startup | src/xauusd/engine/orchestrator.py:236-246 | Start-up is the requeue transaction and reports the stranded commands |
| CommandLoop.Engine.DrainCommands | src/xauusd/engine/orchestrator.py:805-830 | The drain is a trace of claim, attempt and record transactions; every command tried does what its kind demands and is recorded as it ended, and a failed recording drops the rest of the batch |
| CommandLoop.Engine.HandleCommand | src/xauusd/engine/orchestrator.py:812-829 | One attempt and one recording, or an abort that leaves the row claimed |
| CommandLoop.Engine.ExecuteCommand | src/xauusd/engine/orchestrator.py:832-874 | HALT trips the kill switch; FLATTEN trips it before anything else, tries every position and succeeds only if all closed; positions whose close raised nothing are forgotten, refused or not |
| CommandLoop.Engine.CloseAll | src/xauusd/engine/orchestrator.py:853-863 | Every position is tried in order whatever happened to the ones before |
| BridgeProtocol.FramingRoundTrip | src/xauusd/execution/bridge_protocol.py:55-77 | Any list of payloads within the size limit, encoded, joined and read back, is the same list |
| BridgeProtocol.PackRoundTrip | src/xauusd/execution/bridge_protocol.py:55-59 | The four-byte big-endian length reads back as itself |
| BridgeProtocol.HeadersCompareAsLengths | src/xauusd/execution/bridge_protocol.py:55-59 | The most significant byte comes first: headers compare byte by byte exactly as the lengths do |
| BridgeProtocol.ReadsBack | src/xauusd/execution/bridge_protocol.py:55-77 | One encoded frame reads back as its payload and leaves what follows it |
| BridgeProtocol.CutFrameIsIncomplete | src/xauusd/execution/bridge_protocol.py:62-69 | A frame cut short anywhere is never read as a frame |
| BridgeProtocol.StreamsAreInjective | src/xauusd/execution/bridge_protocol.py:55-77 | Different lists of payloads never give the same bytes |
| BridgeProtocol.Socket.RecvExact | src/xauusd/execution/bridge_protocol.py:62-69 | Exactly the next bytes are returned whatever chunks arrive; only a failed read gives up, and loses fewer bytes than were asked for |
| BridgeProtocol.Socket.ReadFrame | src/xauusd/execution/bridge_protocol.py:72-77 | A frame returned is the next frame of the stream, however it was chunked, and only a failed read gives none |
| BridgeProtocol.Socket.ReadFrames | src/xauusd/execution/mt5_bridge.py:559-565 | Reading in a loop until the first failed read yields a prefix of what was sent, all of it exactly when no byte is left unread, and never a framing error |
| BridgeTransport.Transport.Call | src/xauusd/execution/mt5_broker.py:61-94 | A call goes through attempts of the form the retry loop allows; a result is returned exactly with an answer that carries it, a missing answer is reported as an unknown outcome for the methods that send, close or modify and as a failure for the others, and what the server refuses is passed on as it was meant; every answer is the one to its own request although ids are never compared; the request is handed over once per attempt that got that far; and the socket is kept exactly when the last attempt did not fail |
| BridgeTransport.ReportsWhatHappened | src/xauusd/execution/mt5_broker.py:61-95 | The same of the attempts alone; a guarded call that was handed over reports a failure only when an answer says so |
| BridgeTransport.WrittenTwiceExactlyWhen | src/xauusd/execution/mt5_broker.py:81-88 | A request can be handed over twice exactly when its method is not guarded; among the methods that change money at risk that is exactly cancel_order |
| BridgeTransport.Transport.Exchange | src/xauusd/execution/mt5_broker.py:76-79 | A written request whose answer is read leaves the socket with nothing unread; any failure drops it |
| BridgeTransport.Transport.Attempt | src/xauusd/execution/mt5_broker.py:73-88 | How one attempt ends: no connection, a request too large that is never written, a loss after the request was handed over, or the answer to it; the socket is dropped exactly on a failure |
| BridgeTransport.KeptAnswerGoesToTheNextCall | src/xauusd/execution/mt5_broker.py:78-79 | Why the socket is dropped: kept after an unread answer, the next call would take that answer as its own |
| SimBroker.Broker.AdvanceClock | src/xauusd/execution/sim_broker.py:126-133 | Only the clock, the bar and the spread change |
| SimBroker.Broker.SendMarket | src/xauusd/execution/sim_broker.py:200-269 | Each refusal in the source's order leaves the book alone; a fill charges the entry commission and adds one position at the slipped price |
| SimBroker.Broker.ModifyPosition | src/xauusd/execution/sim_broker.py:271-285 | A missing ticket is refused; otherwise the given levels are rounded and set, and nothing else changes |
| SimBroker.Broker.CloseInternal | src/xauusd/execution/sim_broker.py:427-469 | The realised profit and fee are booked, one trade is recorded, and the position shrinks or goes |
| SimBroker.Broker.CloseTicket | src/xauusd/execution/sim_broker.py:287-295 | A missing ticket is refused; otherwise the position is closed at the quote's exit side |
| SimBroker.Broker.Step | src/xauusd/execution/sim_broker.py:321-371 | One bar ages every position and resolves stops and targets, stop first unless one-minute data says otherwise |
| SimBroker.Broker.CloseEverything | src/xauusd/execution/sim_broker.py:373-377 | Every position is closed for the given reason |
| SimFills.MarketAround | src/xauusd/execution/sim_broker.py:126-133 | The quote lies around the bar's close, apart by the spread given, or the bar's, or the default one, times the run's multiplier |
| SimFills.SlippageHurts | src/xauusd/execution/sim_broker.py:200-258 | A fill is the grid point at most half a unit from the side asked for, moved against the trade by the slippage drawn |
| SimFills.FilledExactlyWhen | src/xauusd/execution/sim_broker.py:200-269 | An order is filled exactly when its volume is in bounds, the slip is within the request's limit, both levels are outside the stops level and the margin is free; otherwise the first that fails names the code; a fill opens a position with exactly the requested levels |
| SimFills.ExitPrices | src/xauusd/execution/sim_broker.py:321-371 | A target is paid exactly; a stop is paid at its price moved against the trade by the slippage, but not beyond the bar's far end |
| SimFills.StopReasonMeans | src/xauusd/execution/sim_broker.py:387-408 | A stop exit is a trail beyond a tenth of the risk past the entry, break-even within a tenth, and a plain stop loss below or if the stop was never moved |
| SimFills.ModifiedExactlyWhen | src/xauusd/execution/sim_broker.py:271-285 | Levels are set exactly when the ticket is open and the stop is far enough from the mid price, and nothing else of any position changes |
| SimFills.ClosedAtTheQuote | src/xauusd/execution/sim_broker.py:287-295 | A close leaves by the opposite side of the market and books the directed move for the volume asked, or all of it |
| SimFills.TradeMeans | src/xauusd/execution/sim_broker.py:427-469 | A trade records the directed move, the money risked and the excursions in units of the initial risk |
| SimFills.EquityIsWhatClosingLeaves | src/xauusd/execution/sim_broker.py:144-161 | Without a spread, closing the whole book changes the balance by the unrealised profit less the exit fees |
| SimFills.OpeningTakesMargin | src/xauusd/execution/sim_broker.py:144-161 | Opening a position takes its fee, a hundredth of its value at the entry and what it stands at off the free margin |
| SimLedger.MoneyConservation | src/xauusd/execution/sim_broker.py:237-258 | After any operations the balance is the starting balance plus the gross of all trades minus the fee on everything filled and closed, and what was filled is what is open plus what was closed |
| SimLedger.ApplyConserves | src/xauusd/execution/sim_broker.py:427-469 | Every single operation keeps the balance law and the volume law |
| SimLedger.CloseCharges | src/xauusd/execution/sim_broker.py:438-446 | A trade carries the exit fee and its share, by volume still open, of an entry commission that is never reduced: the first close of a ticket is charged fairly, a later one too much |
| SimLedger.NetPnlMatchesBalance | src/xauusd/backtesting/engine.py:605-641 | With a flat book the summed net profit never exceeds the balance change, and equals it exactly when commission is free or no operation asked to close more than nothing and less than the whole of the position it met, which is exactly when no ticket was closed twice |
| SimLedger.FullClosesBalance | src/xauusd/execution/sim_broker.py:427-446 | If every close asks for the whole position, the net profits of a flat book add up to the balance change |
| SimLedger.ApplyWhole | src/xauusd/execution/sim_broker.py:427-469 | Every single operation keeps the ledger without a ticket closed twice or closed and still open, exactly unless it is a close that leaves a remainder |
| SimLedger.NetShortfall | src/xauusd/domain/types.py:942-943 | The net profits fall short of gross minus two fees exactly when commission is charged and a ticket was closed twice |
| SimLedger.ClosedInPiecesWitness | src/xauusd/execution/sim_broker.py:427-446 | Two lots bought and closed one at a time leave a flat book whose reported net profit is one fee short of the balance change |
| Labeling.TripleBarrier | src/xauusd/ml/labeling.py:47-98 | The loop with its early returns computes the first touch in the horizon, its side, age and excursions, the time-out at the end, or nothing when data runs out |
| Labeling.LabelMeans | src/xauusd/ml/labeling.py:47-126 | There is a label exactly when the risk is positive and a bar of the horizon touches a level or the horizon is complete; it is a win of the target's R when the target comes first on the first such bar and a loss of one R otherwise, and a time-out is worth the directed move to the last close, a win exactly if positive |
| Labeling.ResolveLoop | src/xauusd/ml/labeling.py:101-126 | The one-minute scan decides a bar that touches both barriers |
| LabelAgreement.LabelIsFinal | src/xauusd/ml/labeling.py:47-126 | A label once returned never changes when bars and one-minute bars are appended |
| LabelAgreement.LabellerAgreesWithBroker | src/xauusd/execution/sim_broker.py:321-425 | Stepping the broker closes the position on exactly the bar and side the labeller names, once, with equal bars held and excursions in R, and keeps it open on every other bar of the horizon; the outcome is 1 exactly when the trade closed at its target, and without slippage the trade's gross is the labelled R times the money risked |
| LabelAgreement.SameResolution | src/xauusd/execution/sim_broker.py:410-425 | On one bar both implementations stay, or exit on the same side |
| LabelAgreement.GrossIsLabelledR | src/xauusd/execution/sim_broker.py:427-446 | Without slippage the trade's gross is exactly the labelled R multiple of its risk |
| LabelAgreement.StepFromOwn | src/xauusd/execution/sim_broker.py:321-371 | What a bar does to one position does not depend on the others in the book |
| LabelAgreement.StepFromOthers | src/xauusd/execution/sim_broker.py:321-371 | Resolving later positions leaves earlier ones and other tickets' trades alone |
| PositionManager.Manager.Adopt | src/xauusd/execution/position_manager.py:98-112 | The broker's stop is taken over, or the plan's when there is none, and is the initial stop |
| PositionManager.Manager.Manage | src/xauusd/execution/position_manager.py:153-246 | Each listed position takes exactly one step, in order, up to the first whose step would widen its stop; that one keeps what it had done before the refusal, and the ones after are untouched |
| PositionManager.ClosedExactlyWhen | src/xauusd/execution/position_manager.py:217-246 | A cycle closes a position exactly when the broker accepts and its bars have reached the limit while it is up less than the minimum R, its premise broke at a bar close with that exit on, or the weekend is near and positions are flattened for it; one without a stop exactly when the initial stop cannot be put back |
| PositionManager.KeptRecords | src/xauusd/execution/position_manager.py:153-208 | A kept position counts one more bar if one closed, its best and worst profit so far, and the part closed exactly when a partial is due, large enough and accepted |
| PositionManager.StopMoves | src/xauusd/execution/position_manager.py:182-280 | Where the stop is left: the break-even move first, then the trail a tenth of the initial risk behind the nearest swing, each only if due, better, outside the stops and freeze levels and accepted |
| PositionManager.RefusedLeaves | src/xauusd/execution/position_manager.py:119-216 | A refused cycle keeps the bar and the profit it observed and, if the break-even move was not what was refused, that move and the partial |
| PositionManager.NearestSwingMeans | src/xauusd/execution/position_manager.py:306-329 | The swing trailed behind is the nearest low below the price for a long, or high above it for a short, if there is one |
| PositionManager.RatchetOverRuns | src/xauusd/execution/position_manager.py:119-280 | From a stop set on the grid, while zero is out of reach of the prices, no sequence of cycles and broker answers raises the refusal or increases the risk to the current stop, and the stop stays set |
| PositionManager.RatchetBreaksExactlyWhen | src/xauusd/execution/position_manager.py:119-304 | For prices above any floor: some run has a cycle that is refused or loosens the stop, and some run stores a stop of zero, both exactly for a short with a risk whose break-even is still due, in profit above the floor and within half a unit of zero, or whose trail is in profit above the floor with a tenth of the risk leaving room below half a unit |
| PositionManager.ManageRatchets | src/xauusd/execution/position_manager.py:153-246 | One cycle from a nonzero grid stop only tightens it, and to a rounded proposal of that cycle |
| PositionManager.RestoreIsTheOnlyWidening | src/xauusd/execution/position_manager.py:173-180 | From a grid stop no cycle is refused, and a cycle loosens the stop exactly when it restores the initial stop because the current one is zero |
| PositionManager.ZeroStopWitness | src/xauusd/execution/position_manager.py:282-304 | A concrete such run: a stop that rounds to zero is replaced by the wider initial one in the next cycle |
| PositionManager.RefusalReachableIff | src/xauusd/execution/position_manager.py:119-280 | Some valid configuration and cycle are refused exactly when the position has an initial risk and its stop is set and lies in the half unit where an improving level rounds back past it |
| PositionManager.TrailingReachesRefusalIff | src/xauusd/execution/position_manager.py:210-216 | With trailing on that is so under every valid configuration |
| PositionManager.RoundingKeepsImprovement | src/xauusd/execution/position_manager.py:248-280 | A better level never rounds to one worse than a stop on the grid |
| BacktestManage.Manage | src/xauusd/backtesting/engine.py:565-603 | The loop over the listing taken before the first change equals the per-ticket specification |
| BacktestManage.ManagedAs | src/xauusd/backtesting/engine.py:565-603 | A cycle leaves a position without a stop alone, closes one held for its limit without being up enough, and otherwise asks for the best of break-even and the trail of its risk, each if due, when that is strictly better than the stop |
| BacktestManage.CycleRatchets | src/xauusd/backtesting/engine.py:565-603 | After a cycle over any book every open position was open before, with at most its stop moved; a stop is loosened only from inside the half unit next to its looser grid point and, under valid settings at the broker's price, only where a level in reach clears the stops level |
| BacktestManage.BacktestKeepsStops | src/xauusd/backtesting/engine.py:565-603 | Over any backtest a stop is the one sent, or on the grid and no looser than that one's rounding |
| BacktestManage.LoosenedAtMostHalfAUnit | src/xauusd/backtesting/engine.py:540-540 | Over any backtest a stop is loosened by at most half a quote unit in total, and not at all from an initial stop on the grid |
| BacktestManage.LoosenedExactlyWhen | src/xauusd/backtesting/engine.py:589-603 | Some valid configuration and bar make a cycle loosen a position's stop exactly when the stop lies in that half unit and a level in reach clears the stops level, as a trail by its risk or a break-even level does |
| BacktestManage.BacktestBalances | src/xauusd/backtesting/engine.py:605-641 | Over any backtest that ends flat, the net profits reported add up to the change in balance, since every close is of a whole position |
| BacktestManage.LoosenedWitness | src/xauusd/backtesting/engine.py:596-603 | A long from 20 with its stop at 10.4 on whole units: a trail to 10.45 stores 10 |
| BacktestManage.ImprovementRounds | src/xauusd/backtesting/engine.py:595-603 | An improving level, once rounded, is no looser than the rounding of the current stop |
| Swings.HighMaskMeaning | src/xauusd/core/structure.py:58-68 | The windowed mask selects exactly the bars strictly above their left neighbours and at least as high as their right ones |
| Swings.LowMaskMeaning | src/xauusd/core/structure.py:58-72 | The same for lows, without the bars already taken as highs |
| Swings.CandidatesMeaning | src/xauusd/core/structure.py:74-97 | Sorting the two lists gives every masked bar exactly once, in bar order |
| Swings.AlternateLoop | src/xauusd/core/structure.py:110-121 | The loop that rewrites its last entry computes the collapse |
| Swings.AlternateNormalForm | src/xauusd/core/structure.py:110-121 | The i-th element kept is the first most extreme of the i-th maximal same-kind run |
| Swings.AlternateOrder | src/xauusd/core/structure.py:110-121 | The kept swings strictly alternate and keep the bar order |
| Swings.AlternateRepaintsOnlyLast | src/xauusd/core/structure.py:110-121 | Later swings can rewrite only the last kept one |
| SwingRevisions.LastStaysExactlyWhen | src/xauusd/core/structure.py:110-121 | The last kept swing stays exactly when no swing of the leading same-kind stretch of what follows is more extreme |
| SwingRevisions.CandidatesGrow | src/xauusd/core/structure.py:42-97 | Cutting the data keeps a prefix of the masked bars, and every later one is confirmed at or after the cut |
| SwingRevisions.DetectorRevisesOnlyLast | src/xauusd/core/structure.py:42-100 | Detected on a cut, every swing but the last is final, flag included; the last is final exactly when no later candidate of its kind overtakes it first; and everything else is confirmed at or after the cut |
| SwingRevisions.RevisedByABar | src/xauusd/core/structure.py:118-120 | Five bars on which the last swing of the first four is rewritten |
| Swings.SwingNormalForm | src/xauusd/core/structure.py:42-100 | The detector's result is the collapse of the masked bars, alternating, in order, and confirmed inside the data |
| Swings.StructuralExactlyWhen | src/xauusd/core/structure.py:96-109 | A swing is structural exactly when there is no threshold, it is the first, or it lies at least the threshold from the one before |
| Swings.CandidatesAreCausal | src/xauusd/core/structure.py:42-97 | Cutting the data keeps exactly the candidates confirmed by then |
| StructureEvents.DetectEvents | src/xauusd/core/structure.py:135-245 | The forward walk with its two stacks, pointer and bias equals the step-by-step specification |
| BreakReports.ReportsExactlyTheBreaks | src/xauusd/core/structure.py:156-243 | Completeness: bar k is reported exactly when its body ratio suffices and it breaks the latest structural high not yet taken, or failing that the latest such low, by the displacement; the one event names that swing, side, close and displacement, and is a BOS unless the event before it was one to the other side, when it is an MSS from the larger displacement on and a CHOCH below |
| StructureEvents.NoBreakCascade | src/xauusd/core/structure.py:156-243 | After a break closing at c, every later break in that direction of a swing already confirmed has a reference strictly beyond c, although the stack is not sorted |
| StructureEvents.SwingsBreakOnce | src/xauusd/core/structure.py:156-243 | Every event refers to a confirmed structural swing of its side, no swing is referred to twice, bars strictly increase, and events never outnumber swings |
| StructureEvents.PointerRefinesFilter | src/xauusd/core/structure.py:124-170 | The swings pushed after bar k are exactly the structural swings visible at bar k |
| StructureEvents.OrderedFixesConfirmationOrder | src/xauusd/core/structure.py:156-160 | Swings already in confirmation order are not reordered |
| StructureEvents.EventsAreCausal | src/xauusd/core/structure.py:156-243 | For fixed swings, events on a series cut after bar k are exactly the full run's events dated at or before k |
| EventRevisions.EventsReviseOnlyThroughLastSwing | src/xauusd/core/structure.py:385-391 | With swings detected anew on each cut and one range estimate, the full run's events up to a bar are those of the cut, without its last swing exactly when a later candidate overtakes that one |
| StructureEvents.BiasNeverFlips | src/xauusd/core/structure.py:185-243 | An event continues the trend exactly when the previous one did not establish the opposite side, and the bias is the one read off the last event |
| StructureEvents.RunKeeps | src/xauusd/core/structure.py:156-243 | After every bar, the swing each stack exposes among those confirmed by an earlier break lies strictly beyond that break's close, no broken swing is left on it, and the pointer stands at the bar's confirmations |
| Timeframes.BucketClosedForm | src/xauusd/data/resample.py:26-48 | The daily and weekly calendar branches equal floor arithmetic from an anchor |
| Timeframes.BucketBounds | src/xauusd/data/resample.py:26-48 | A bucket contains its instants and fixes its own start |
| Timeframes.BucketMonotone | src/xauusd/data/resample.py:26-48 | Bucket starts are monotone, and two different ones are a full width apart |
| Timeframes.NestingTable | src/xauusd/domain/enums.py:15-61 | Every finer timeframe nests in every coarser one, except H4 in D1 and W1 |
| Resample.SegmentsAreStream | src/xauusd/data/resample.py:51-94 | Reducing the segments between bucket boundaries equals absorbing the bars one at a time |
| Resample.StreamFuses | src/xauusd/data/resample.py:51-94 | Where the middle timeframe nests, absorbing its bars absorbs the base bars |
| Resample.FusionExactlyWhenNested | src/xauusd/data/resample.py:51-94 | Resampling in two stages equals resampling directly, for every history, exactly when the middle timeframe nests |
| Resample.StraddlingWitness | src/xauusd/data/resample.py:26-48 | Two bars of one H4 bucket around the 22:00 roll show that H4 does not fuse into D1 or W1 |
| Resample.VolumeConserved | src/xauusd/data/resample.py:76-90 | Tick volume is conserved |
| Resample.ResampledMeans | src/xauusd/data/resample.py:51-94 | The output is in time order, each bar has the first open, highest high, lowest low, last close, total volume and widest spread of exactly the bars of its bucket, and every base bar is in one |
| Resample.PartialDroppedExactlyWhen | src/xauusd/data/resample.py:51-94 | Resampling is refused exactly to a timeframe that is not higher, and the last bar is dropped exactly on request when the base bars do not reach the end of its bucket |
| MarketView.VisibleMeaning | src/xauusd/data/marketview.py:112-127 | The visible bars are exactly those that have closed by now |
| MarketView.FutureIsInvisible | src/xauusd/data/marketview.py:112-127 | Bars that have not closed cannot change a view |
| MarketView.VisibleGrows | src/xauusd/data/marketview.py:106-127 | A later view extends an earlier one |
| MarketView.SearchRight | src/xauusd/data/marketview.py:119-122 | The binary search counts the bars opening at or before a time |
| MarketView.SearchLeft | src/xauusd/data/marketview.py:155-167 | The left search counts the bars opening before a time |
| MarketView.View.VisibleBars | src/xauusd/data/marketview.py:112-127 | Whatever the cache holds, the visible part of the full series is returned, and the cache keeps its promise |
| MarketView.View.Bars | src/xauusd/data/marketview.py:129-139 | The last `count` closed bars, or all of them for a count of zero or less or not below their number |
| MarketView.View.BarsBetween | src/xauusd/data/marketview.py:155-169 | The visible bars of a range |
| MarketView.BetweenMeaning | src/xauusd/data/marketview.py:155-169 | A range query returns exactly the closed bars that open in the range, in time order, whatever end is asked for |
| MarketView.AlignedBarsNest | src/xauusd/data/resample.py:26-48 | Bars that open on their own grid nest in every timeframe theirs nests in |
| MarketView.ResamplingCommutesWithCut | src/xauusd/data/marketview.py:112-139 | Resampling what is visible now is a prefix of what is visible now in the resampled history, shorter by exactly one bar exactly when history goes on and the last visible bar leaves a gap before the end of a bucket that is over |
| MarketView.VisibleBucketsAreClosed | src/xauusd/data/marketview.py:112-139 | Every visible higher-timeframe bar aggregates only base bars closed by now |
| Liquidity.EqualLevels | src/xauusd/core/liquidity.py:34-82 | Highs then lows of the look-back window, clustered greedily from the most extreme in whatever order the sort gives ties |
| Liquidity.ClusterSide | src/xauusd/core/liquidity.py:60-81 | The loop with its mask updated in place equals the greedy specification |
| Liquidity.ClusteringIsSound | src/xauusd/core/liquidity.py:60-81 | Every cluster has enough members, all within the tolerance of its first bar, which is its extreme and its price; clusters are disjoint and more than the tolerance apart; every bar visited is used up |
| Liquidity.StartsExactlyWhen | src/xauusd/core/liquidity.py:60-81 | A bar starts a pool exactly when it was not used up and enough bars not used up lie within the tolerance, and the pool takes all of those |
| Liquidity.UsedMeans | src/xauusd/core/liquidity.py:60-81 | A bar is used up exactly when it was visited or taken into a pool |
| Liquidity.EqualLevelsAreSeparate | src/xauusd/core/liquidity.py:52-82 | The pools of one side count at least the required touches, open at their earliest touch, price their most extreme one, are as strong as their touches up to five, and lie pairwise more than the tolerance apart |
| Liquidity.Dedupe | src/xauusd/core/liquidity.py:397-413 | The loop that grows the kept pools equals the specification |
| Liquidity.DedupeIsDominance | src/xauusd/core/liquidity.py:397-413 | What is kept is in price order, pairwise separated per side, and every dropped pool has a kept one of its side within the tolerance at least as strong in strength and touches |
| Liquidity.DedupeKeepsScattered | src/xauusd/core/liquidity.py:397-413 | Pools already separated are all kept |
| Sweeps.DetectSweeps | src/xauusd/core/liquidity.py:188-289 | For each pool the first qualifying take in the window, with its displacement so far, in time order |
| Sweeps.SweepsExactlyWhen | src/xauusd/core/liquidity.py:221-287 | A bar sweeps a pool exactly when it penetrates it by an admissible amount and rejects it, by closing back inside with a large enough wick, by one of the next bars allowed closing back inside, or, where none is required, by the wick alone |
| Sweeps.DisplacementMeans | src/xauusd/core/liquidity.py:291-309 | The displacement is the furthest reversal of the next five bars in ATR, and zero without one |
| Sweeps.ScanFindsFirst | src/xauusd/core/liquidity.py:209-287 | The scan of a pool finds the first bar that sweeps it |
| Sweeps.ScannedExactlyWhen | src/xauusd/core/liquidity.py:199-212 | Scanned are the bars of the look-back window after the pool formed, and never the first bar |
| Sweeps.CollectMeaning | src/xauusd/core/liquidity.py:188-289 | The list holds exactly what is reported for each of the pools |
| Sweeps.ScanPool | src/xauusd/core/liquidity.py:221-287 | The nested scan finds the first bar that qualifies, with the close that proves it and the displacement after it |
| Sweeps.SweepsAreFinalExactlyWhenCloseRequired | src/xauusd/core/liquidity.py:188-309 | What is reported for a pool, over every series and every later bars, is reported again exactly until the look-back window has moved past it, up to a displacement that only grows, if and only if a close back inside is required |
| Sweeps.DisplacementGrows | src/xauusd/core/liquidity.py:291-309 | The displacement is not negative, never falls as bars arrive, and is final once five later bars are in |
| Sweeps.ReplacedOnlyByLater | src/xauusd/core/liquidity.py:199-201 | A sweep the window has passed can only be replaced by a later one of its pool |
| Sweeps.ScanStays | src/xauusd/core/liquidity.py:188-289 | With that setting, a scan of a longer series from the same start finds the same sweep |
| Sweeps.SweptBeforeSweep | src/xauusd/core/liquidity.py:168-186 | A sweep is dated no earlier than the bar that marks its pool taken, which does not change either |
| FairValueGap.Lifecycle | src/xauusd/core/fair_value_gap.py:99-135 | The loop with its early return computes the state, fill and first touch of the bars since the gap completed |
| FairValueGap.LifecycleOnlyAdvances | src/xauusd/core/fair_value_gap.py:99-135 | As bars arrive the state never moves back, the fill stays in [0, 1] and never falls, the first touch never changes once set, and INVERTED is absorbing |
| FairValueGap.WalkMeaning | src/xauusd/core/fair_value_gap.py:99-135 | Inverted exactly when some bar reached the gap and closed through it; otherwise the fill is the deepest penetration of the bars that reached it |
| FairValueGap.GappingPastIsIgnored | src/xauusd/core/fair_value_gap.py:113-114 | After any number of bars wholly past the zone, on either side, each closing through it, the gap still counts as untouched |
| FairValueGap.Detect | src/xauusd/core/fair_value_gap.py:36-71 | Every gap in the age window, bullish looked for first, with its life so far |
| FairValueGap.GapMeans | src/xauusd/core/fair_value_gap.py:48-97 | A bar leaves a gap exactly when its neighbours do not overlap, by enough, around a large enough body, bullish if the later lies above the earlier |
| FairValueGap.ListedExactlyWhen | src/xauusd/core/fair_value_gap.py:36-71 | Listed are exactly the gaps of the bars that have a later neighbour and are not older than the limit |
| FairValueGap.LifeMeans | src/xauusd/core/fair_value_gap.py:99-135 | A gap is inverted exactly when a bar enters it and closes on its far side; otherwise its state and fill are those of the deepest any bar entered it, and the touch is the first bar that did |
| FairValueGap.DetectionOnlyAdvances | src/xauusd/core/fair_value_gap.py:36-135 | A gap reported once is reported again until it ages out, with the same zone and a life that has only advanced |
| PurgedCV.Split | src/xauusd/ml/purged_cv.py:31-67 | Too few or unsorted samples are refused; otherwise the folds are those of the blocks, each mask cleared in place |
| PurgedCV.BlocksPartition | src/xauusd/ml/purged_cv.py:41-41 | Each sample lies in exactly one test block, and every block has at least two |
| PurgedCV.EveryBlockIsTested | src/xauusd/ml/purged_cv.py:41-67 | Every block that some sample outside it neither follows within the embargo nor reaches into is the test block of a fold, and the folds come in block order |
| PurgedCV.SplitIsLeakless | src/xauusd/ml/purged_cv.py:31-67 | In every fold each training outcome is disjoint from every test outcome, nothing embargoed or tested is trained on, and nothing is dropped but what reaches into the test span |
| PurgedCV.FoldIsLeakless | src/xauusd/ml/purged_cv.py:49-67 | The same of one fold |
| PurgedCV.AcceptedExactlyWhenStrict | src/xauusd/ml/purged_cv.py:36-38 | Every order the unstable sort may return is accepted exactly when the start times are strictly increasing |
| PurgedCV.LeakageReport | src/xauusd/ml/purged_cv.py:70-85 | The totals are the numbers of samples outside the test block and of samples trained on, over all folds; purging only removes, and the fraction removed lies in [0, 1] |
| Correlation.ApprovedMeaning | src/xauusd/risk/correlation.py:76-184 | A trade is approved exactly when all four budgets hold |
| Correlation.ApprovedExactlyWhen | src/xauusd/risk/correlation.py:76-184 | A trade is approved exactly when the risk facing its way stays within the share of the total, no open position has its stop in the zone, its target in the same pool or its model inside the window, and its model has room |
| Correlation.BlockingNames | src/xauusd/risk/correlation.py:94-184 | A refusal names exactly the budgets that fail, whatever the others say |
| Correlation.BookStaysDiversified | src/xauusd/risk/correlation.py:76-184 | Over every run of approved entries, unjudged entries of other engines, exits and stop moves: the judged risk per direction stays within its cap unless the backtester shows the book; while no stop is moved a judged one stays clear of every earlier one, live up to half a quote unit; pools, bursts and model counts are kept if positions are shown as proposed |
| Correlation.AllJudged | src/xauusd/risk/correlation.py:76-184 | Without entries of other engines the judged positions are the whole book |
| Correlation.ApprovalKeepsCapExactlyWhen | src/xauusd/engine/orchestrator.py:681-699 | An approval keeps the real risk facing its way within the cap, over all books of positions risking at most m each: always when shown as proposed; in the live engine exactly when floor((cap - risk) / risk) positions at m fit beside the trade; in the backtester exactly when m is zero |
| Correlation.DefaultsExceedTheCap | src/xauusd/engine/orchestrator.py:681-699 | With the default settings a third long is approved beside an A+ trade at 2% and an A trade at 1%, which alone fill the cap of 3% |
| Correlation.SetupsSpreadExactlyAsProposed | src/xauusd/engine/orchestrator.py:681-699 | The pool, burst and model budgets hold of every run exactly when the book is shown as proposed, which neither caller does |
| Correlation.DirectionCappedExactlyUnlessBacktested | src/xauusd/backtesting/engine.py:464-477 | For the judged positions alone the direction cap holds of every run exactly unless the backtester shows the book |
| Correlation.StopMoveUndoesZones | src/xauusd/engine/orchestrator.py:681-699 | Moving a stop while its position is open can put two stops in one zone |
| Correlation.CallersSeeDirectionAndStops | src/xauusd/engine/orchestrator.py:681-699 | For a trade of a named model, both callers leave only the direction cap, against the shown risks, and the zone of the current stops |
| Correlation.ExitKeepsApproval | src/xauusd/risk/correlation.py:76-184 | Closing a position never turns an approval into a refusal |
| Correlation.StopsInRange | src/xauusd/risk/correlation.py:112-116 | A price range of width L holds at most floor(L / gap) + 1 judged stops of a book whose stops are that gap apart |
| Correlation.BacktesterSeesOnlyStops | src/xauusd/backtesting/engine.py:464-477 | With the exposures the backtester passes in, approval depends only on the trade's own risk and the zone check |

## Left out

- Floating point: every formula is exact real arithmetic, so tolerances such as the 1e-9 dust on volumes, stops and margins are kept only where they decide a branch.
- Time zones, daylight saving and clocks: times are UTC integers and a step takes the time it is given; sleeps between retries are left out and the polls of a reconciliation are a number.
- The MN1 timeframe: its length is a fixed 30 days, so its visibility is an approximation in the source itself; `build_timeframes` is a loop of independent `resample` calls.
- The MetaTrader terminal, the bridge server's worker thread and its time-outs: only what the transport and the order manager see of them is modelled, as arbitrary answers.
- JSON encoding, tags, hashes and comments: an encoding is any reversible function, and one log is the history of one tag.
- SQL, sessions and the lock: a repository method is one atomic transaction, one engine runs at a time, and ids are positions of a table from which nothing is deleted.
- The text of reasons, results, alerts and journal entries, and every log line.
- The kill switch is a flag that can be tripped; risk gates, sizing, scoring, strategies and drawdown rules are inputs or absent.
- OrderManager.Manager.Execute: magic numbers, slippage points and comments of a request are left out; `persist` is a field holding the last status, as one writer would leave it.
- OrderManager.AtMostOneOpen: a lookup by tag is assumed to see an open order; the time window of the deal history behind it (`mt5_broker.py:207-235`) is not modelled.
- CommandLoop.Engine.DrainCommands: commands queued by the dashboard while a batch is being executed are covered by the traces of OperatorCommands, not by this method; timestamps within a drain are one instant.
- BridgeTransport.Transport.Call: the lock, the per-call time-out and the retry delay; calls are one after the other.
- SimBroker.Broker.SendMarket: the reject-next hook, magic numbers and comments; the random slippage draw is a parameter. Positions are values in a sequence, so two references to one position object are not modelled.
- SimBroker.Broker.Step: swap, which the source keeps at zero.
- PositionManager.Manager.Manage: managed positions are values in a map, and invalidation, session and weekend exits are inputs of the cycle.
- BacktestManage.Manage: the bar loop, decisions and order construction around it (`BacktestEngine.run`, `_execute`); an order's stop is any real, as `_execute` does not round it.
- LabelAgreement.LabellerAgreesWithBroker: the exit price on a stop includes slippage in the broker and not in the labeller, so equality of the R multiple is stated without slippage (LabelAgreement.GrossIsLabelledR).
- StructureEvents: `classify_strength`, `bias_from`, `dealing_range` and `analyze` are selections and scores over the events and swings modelled here.
- Liquidity.EqualLevels: swing, session and period pools, the draw-on-liquidity filters and `is_false_breakout`.
- Sweeps.DetectSweeps: the pools it is given carry the position they formed at; a caller that drops old bars from the front of its series shifts those positions.
- Sweeps.SweepsAreFinalExactlyWhenCloseRequired: the range estimate (ATR) and the pools are fixed while bars are appended; the source recomputes both.
- EventRevisions.EventsReviseOnlyThroughLastSwing: the range estimate (ATR) is fixed, where the source recomputes it for each cut; `analyze`, which besides keeps only the last swings up to a configured number, is not modelled.
- FairValueGap.DetectionOnlyAdvances: the range estimate (ATR) is fixed; the source may recompute it from the series.
- PurgedCV.Split: the embargo is the number of samples the percentage truncates to, and the bounds are exact fractions.
- OrderManager: a success code without `ok`, which neither broker of the repository sends in use, is followed but nothing is stated about it.
- PositionManager.RatchetBreaksExactlyWhen: the position is one with a positive initial stop and a current stop of at least the 1e-9 tolerance, below which a move to zero is taken for no move.
- Correlation.BookStaysDiversified: a judged position is held to the risk it was proposed with, though the sizing after the budgets may apply another; limits and range estimate are fixed over the run; a live position without a stop, for which `orchestrator.py:693` reads a field that positions do not have, is not modelled.
- BacktestManage.LoosenedExactlyWhen: the book of the existence half holds that one position; that the condition is necessary is stated for every position of every book by BacktestManage.CycleRatchets.
