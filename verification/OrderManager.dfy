/** The order manager (src/xauusd/execution/order_manager.py): the only component that sends
    orders, over a broker whose answers may be lost.  The broker is an arbitrary environment;
    what it answered is recorded in a log, and the log is what the theorems are about. */
module OrderManager {
  import opened Domain
  import opened Retcodes
  import opened Preflight

  // A send can lose its answer, fail outright, or be answered with a return code.
  datatype Reply = Ambiguous | Fault | Answer(code: int, ok: bool)

  /** What happened to the orders of one tag, in order.  None stands for a broker that could not
      be asked, except that a failed lookup reads as not found, as the source treats it.
      `landed` is the truth about a send that only the broker knows. */
  datatype Event =
    | Guarded(seen: Option<bool>)
    | Quoted(quote: Option<Quote>)
    | Sent(request: Request, reply: Reply, landed: bool)
    | Looked(found: bool)
    | LookedAtStartup(found: bool)
    | ClosedByBroker

  datatype Status = Intent | SentOut | Reconciling | Filled | Abandoned

  // Raised: an exception other than the ambiguous one escapes.
  datatype Outcome = Done(ok: bool, status: Status, reconciled: bool) | Raised

  datatype Decision = Decision(plan: Plan, approved: bool, lots: real, floor: real)

  /** What one call works on.  `polls` is how many lookups fit in the reconciliation time-out. */
  datatype Job = Job(cfg: Settings, decision: Decision, spec: SymbolSpec, now: int, polls: nat) {
    function Max(): nat { cfg.maxSendRetries + 1 }

    function Verdict(q: Quote): Verdict
      requires ValidSpec(spec)
    {
      Check(cfg, decision.floor, decision.plan, decision.lots, spec, q, now)
    }
  }

  // ---------------------------------------------------------------- the protocol

  /** Where a run stands: how many sends were made and what it may do next. */
  datatype Phase =
    | Idle                               // nothing in flight: finished, or not started
    | Ready(sends: nat)                  // may ask for a quote
    | Priced(sends: nat, quote: Quote)   // may send at this quote
    | MustLook(sends: nat)               // a transient answer: ask before sending again
    | Polling(asked: nat)                // an ambiguous answer: ask, never send

  function AfterSend(reply: Reply, sends: nat, max: nat): Phase {
    match reply
    case Ambiguous => Polling(0)
    case Fault => Idle
    case Answer(code, ok) =>
      if ok then Idle
      else if ResendsBlindly(code) then Ready(sends)
      else if Classify(code) == RetryTransient && sends < max then MustLook(sends)
      else Idle
  }

  // The events a run may produce; None is a step the protocol forbids.
  function Next(phase: Phase, e: Event, max: nat): Option<Phase> {
    match e
    case Guarded(seen) => Some(if seen == Some(false) then Ready(0) else Idle)
    case Quoted(quote) =>
      if phase.Ready? && phase.sends < max then
        Some(if quote == None then Idle else Priced(phase.sends, quote.value))
      else None
    case Sent(_, reply, _) =>
      if phase.Priced? then Some(AfterSend(reply, phase.sends + 1, max)) else None
    case Looked(found) =>
      (match phase
       case MustLook(sends) => Some(if found then Idle else Ready(sends))
       case Polling(asked) => Some(if found then Idle else Polling(asked + 1))
       case _ => None)
    case LookedAtStartup(_) => Some(Idle)
    case ClosedByBroker => Some(phase)
  }

  // None once a forbidden step was taken.
  function Follow(log: seq<Event>, max: nat): Option<Phase> {
    if log == [] then Some(Idle)
    else
      match Follow(log[..|log| - 1], max)
      case None => None
      case Some(phase) => Next(phase, log[|log| - 1], max)
  }

  predicate Disciplined(log: seq<Event>, max: nat) {
    Follow(log, max).Some?
  }

  lemma FollowPush(log: seq<Event>, e: Event, max: nat)
    ensures Follow(log + [e], max) == match Follow(log, max) case None => None case Some(phase) => Next(phase, e, max)
  {
    assert (log + [e])[..|log|] == log;
  }

  // ---------------------------------------------------------------- the environment

  class Broker {
    ghost var log: seq<Event>

    constructor ()
      ensures log == []
    {
      log := [];
    }

    // Whether an open position carries the tag.
    method HasPosition() returns (seen: Option<bool>)
      modifies this
      ensures log == old(log) + [Guarded(seen)]
    {
      seen := *;
      log := log + [Guarded(seen)];
    }

    method FetchQuote() returns (quote: Option<Quote>)
      modifies this
      ensures log == old(log) + [Quoted(quote)]
    {
      quote := *;
      log := log + [Quoted(quote)];
    }

    method SendMarket(request: Request) returns (reply: Reply)
      modifies this
      ensures exists landed :: log == old(log) + [Sent(request, reply, landed)]
    {
      reply := *;
      ghost var landed: bool := *;
      log := log + [Sent(request, reply, landed)];
    }

    // Find an order by tag; a broker error reads as not found.
    method FindByTag(ghost atStartup: bool) returns (found: bool)
      modifies this
      ensures log == old(log) + [if atStartup then LookedAtStartup(found) else Looked(found)]
    {
      found := *;
      log := log + [if atStartup then LookedAtStartup(found) else Looked(found)];
    }
  }

  // ---------------------------------------------------------------- what a call's log says about it

  predicate IsTransient(e: Event) {
    e.Sent? && e.reply.Answer? && !e.reply.ok && Classify(e.reply.code) == RetryTransient
  }

  predicate TripsKillSwitch(e: Event) {
    e.Sent? && e.reply.Answer? && !e.reply.ok && Classify(e.reply.code) in {KillSwitch, Unknown}
  }

  // The run's last event proves an order exists.
  predicate Confirmed(run: seq<Event>) {
    run != [] && var e := run[|run| - 1]; (e.Sent? && e.reply.Answer? && e.reply.ok) || (e.Looked? && e.found)
  }

  // Recovered by the lookup after a transient answer, the one success that is not persisted.
  predicate RecoveredQuietly(run: seq<Event>) {
    |run| >= 2 && run[|run| - 1] == Looked(true) && IsTransient(run[|run| - 2])
  }

  // The guard comes first and only once.
  ghost predicate OneRun(run: seq<Event>) {
    && (forall i :: 0 < i < |run| ==> !run[i].Guarded?)
    && (run != [] ==> run[0].Guarded?)
  }

  // What one call of `Execute` adds to the log: one run, over as soon as an order is confirmed.
  ghost predicate OneCall(run: seq<Event>) {
    && OneRun(run)
    && (forall i :: 0 < i < |run| ==> !Confirmed(run[..i]))
    && (forall i :: 0 <= i < |run| ==> !run[i].ClosedByBroker? && !run[i].LookedAtStartup?)
  }

  // A request goes out only at a quote that passed the checks, priced from that quote.
  predicate SentAsChecked(job: Job, quoted: Event, request: Request)
    requires ValidSpec(job.spec)
  {
    && quoted.Quoted? && quoted.quote.Some? && job.Verdict(quoted.quote.value).Pass?
    && request == RequestFor(job.Verdict(quoted.quote.value).plan, job.decision.lots, job.spec, quoted.quote.value)
  }

  ghost predicate SendsAsChecked(job: Job, run: seq<Event>)
    requires ValidSpec(job.spec)
  {
    forall i :: 0 <= i < |run| && run[i].Sent? ==> i > 0 && SentAsChecked(job, run[i - 1], run[i].request)
  }

  /** The protocol lets the run end here: every retry is used, the quote does not pass, every
      poll is used, or nothing is in flight. */
  ghost predicate Over(job: Job, run: seq<Event>)
    requires ValidSpec(job.spec)
  {
    match Follow(run, job.Max())
    case None => false
    case Some(Idle) => true
    case Some(Ready(sends)) => sends == job.Max()
    case Some(Priced(_, quote)) => !job.Verdict(quote).Pass?
    case Some(MustLook(_)) => false
    case Some(Polling(asked)) => asked == job.polls
  }

  const GAVE_UP := Done(false, Abandoned, false)

  // What a call reports, read off its log.
  ghost function OutcomeOf(job: Job, run: seq<Event>): Outcome
    requires ValidSpec(job.spec)
  {
    match Follow(run, job.Max())
    case Some(Priced(_, quote)) => if job.Verdict(quote).Raise? then Raised else GAVE_UP
    case Some(Polling(_)) => Done(false, Reconciling, false)
    case Some(Idle) =>
      if run == [] then GAVE_UP
      else
        (match run[|run| - 1]
         case Sent(_, Fault, _) => Raised
         case Sent(_, Answer(_, ok), _) => if ok then Done(true, Filled, false) else GAVE_UP
         case Looked(found) => if found then Done(true, Filled, true) else GAVE_UP
         case _ => GAVE_UP)
    case _ => GAVE_UP
  }

  // The call stops all trading: polls ran out, or the return code says so.
  ghost predicate Halts(run: seq<Event>, max: nat) {
    match Follow(run, max)
    case Some(Polling(_)) => true
    case Some(Idle) => run != [] && TripsKillSwitch(run[|run| - 1])
    case _ => false
  }

  function Pending(sends: nat): Option<Status> {
    Some(if sends == 0 then Intent else SentOut)
  }

  // The status left in the database, `before` if the call wrote none.
  ghost function PersistedOf(job: Job, run: seq<Event>, before: Option<Status>): Option<Status>
    requires ValidSpec(job.spec)
  {
    if run == [] || run[0] != Guarded(Some(false)) then before
    else
      match OutcomeOf(job, run)
      case Raised =>
        (match Follow(run, job.Max())
         case Some(Priced(sends, _)) => Pending(sends)
         case _ => Some(SentOut))
      case Done(_, status, _) => Some(if RecoveredQuietly(run) then SentOut else status)
  }

  // A finished call: its log is a complete run, and the outcome is the one the log shows.
  ghost predicate Finished(job: Job, run: seq<Event>, outcome: Outcome)
    requires ValidSpec(job.spec)
  {
    OneCall(run) && Over(job, run) && SendsAsChecked(job, run) && outcome == OutcomeOf(job, run)
  }

  // A run that may still send, having sent this often.
  ghost predicate Unfinished(job: Job, run: seq<Event>, sends: nat)
    requires ValidSpec(job.spec)
  {
    && run != [] && run[0] == Guarded(Some(false)) && OneCall(run) && SendsAsChecked(job, run)
    && Follow(run, job.Max()) == Some(Ready(sends)) && !Confirmed(run)
  }

  // ---------------------------------------------------------------- the manager

  // What one pass of the retry loop decides.
  datatype Step = Again | GiveUp | Finish(outcome: Outcome)

  class Manager {
    const cfg: Settings
    const broker: Broker
    var killSwitch: bool
    var persisted: Option<Status>

    constructor (cfg: Settings, broker: Broker)
      ensures this.cfg == cfg && this.broker == broker && !killSwitch && persisted == None
    {
      this.cfg, this.broker, killSwitch, persisted := cfg, broker, false, None;
    }

    /** Send one decision under its tag.  `run` is what this call adds to the log. */
    method Execute(decision: Option<Decision>, spec: SymbolSpec, now: int, polls: nat)
      returns (outcome: Outcome, ghost run: seq<Event>)
      requires ValidSpec(spec)
      modifies this, broker
      ensures broker.log == old(broker.log) + run
      ensures run == [] <==> decision == None || !decision.value.approved
      ensures run == [] ==> outcome == GAVE_UP && killSwitch == old(killSwitch) && persisted == old(persisted)
      ensures run != [] ==>
                var job := Job(cfg, decision.value, spec, now, polls);
                && Finished(job, run, outcome)
                && (killSwitch <==> old(killSwitch) || Halts(run, job.Max()))
                && persisted == PersistedOf(job, run, old(persisted))
    {
      hide Follow, Check, RequestFor, OneCall, SendsAsChecked;
      run := [];
      if decision == None || !decision.value.approved {
        return GAVE_UP, run;
      }
      var job := Job(cfg, decision.value, spec, now, polls);
      var seen := broker.HasPosition();
      run := [Guarded(seen)];
      GuardAlone(job, seen);
      if seen != Some(false) {
        return GAVE_UP, run;
      }
      persisted := Some(Intent);
      var attempt := 1;
      while attempt <= job.Max()
        invariant 1 <= attempt <= job.Max() + 1
        invariant broker.log == old(broker.log) + run
        invariant Unfinished(job, run, attempt - 1)
        invariant killSwitch == old(killSwitch)
        invariant persisted == Pending(attempt - 1)
      {
        var step: Step;
        step, run := TryOnce(job, attempt, run);
        if step.Finish? {
          return step.outcome, run;
        }
        if step == GiveUp {
          break;
        }
        attempt := attempt + 1;
      }
      persisted := Some(Abandoned);
      outcome := GAVE_UP;
    }

    // One pass of the retry loop: quote, preflight, send, and what the answer allows.
    method TryOnce(job: Job, attempt: nat, ghost before: seq<Event>) returns (step: Step, ghost run: seq<Event>)
      requires ValidSpec(job.spec) && 1 <= attempt <= job.Max()
      requires Unfinished(job, before, attempt - 1) && persisted == Pending(attempt - 1)
      modifies this, broker
      ensures before <= run && broker.log == old(broker.log) + run[|before|..]
      ensures step == Again ==> Unfinished(job, run, attempt)
                                && killSwitch == old(killSwitch) && persisted == Pending(attempt)
      ensures step == GiveUp ==> Finished(job, run, GAVE_UP) && !RecoveredQuietly(run)
      ensures step.Finish? ==> Finished(job, run, step.outcome) && persisted == PersistedOf(job, run, None)
      ensures step != Again ==> (killSwitch <==> old(killSwitch) || Halts(run, job.Max()))
    {
      hide Follow, Check, RequestFor, OneCall, SendsAsChecked;
      var quote := broker.FetchQuote();
      Push(job, before, Quoted(quote));
      run := before + [Quoted(quote)];
      if quote == None {
        return GiveUp, run;
      }
      var verdict := job.Verdict(quote.value);
      if verdict.Raise? {
        return Finish(Raised), run;
      }
      if verdict.Reject? {
        persisted := Some(Abandoned);
        return Finish(GAVE_UP), run;
      }
      var request := RequestFor(verdict.plan, job.decision.lots, job.spec, quote.value);
      persisted := Some(SentOut);
      var reply := broker.SendMarket(request);
      ghost var sent := broker.log[|broker.log| - 1];
      Push(job, run, sent);
      run := run + [sent];
      if reply == Fault {
        return Finish(Raised), run;
      }
      if reply == Ambiguous {
        var outcome: Outcome;
        outcome, run := Reconcile(job, run);
        return Finish(outcome), run;
      }
      if reply.ok {
        persisted := Some(Filled);
        return Finish(Done(true, Filled, false)), run;
      }
      step, run := HandleRejection(job, attempt, reply.code, run);
    }

    // What the return code of an unsuccessful send allows.
    method HandleRejection(job: Job, attempt: nat, code: int, ghost before: seq<Event>)
      returns (step: Step, ghost run: seq<Event>)
      requires ValidSpec(job.spec) && 1 <= attempt <= job.Max()
      requires |before| >= 2 && OneCall(before) && SendsAsChecked(job, before) && before[0] == Guarded(Some(false))
      requires before[|before| - 1].Sent? && before[|before| - 1].reply == Answer(code, false)
      requires Follow(before, job.Max()) == Some(AfterSend(Answer(code, false), attempt, job.Max()))
      requires persisted == Some(SentOut)
      modifies this, broker
      ensures before <= run && broker.log == old(broker.log) + run[|before|..]
      ensures step == Again ==> Unfinished(job, run, attempt)
                                && killSwitch == old(killSwitch) && persisted == Pending(attempt)
      ensures step == GiveUp ==> Finished(job, run, GAVE_UP) && !RecoveredQuietly(run)
      ensures step.Finish? ==> Finished(job, run, step.outcome) && persisted == PersistedOf(job, run, None)
      ensures step != Again ==> (killSwitch <==> old(killSwitch) || Halts(run, job.Max()))
    {
      hide Follow, Check, RequestFor, OneCall, SendsAsChecked;
      run := before;
      var action := Classify(code);
      if action == Success || action == RetryReprice || action == FixAndRetry {
        return Again, run;
      }
      if action == RetryTransient {
        if attempt >= job.Max() {
          return GiveUp, run;
        }
        var found := broker.FindByTag(false);
        Push(job, run, Looked(found));
        run := run + [Looked(found)];
        return if found then Finish(Done(true, Filled, true)) else Again, run;
      }
      if action == KillSwitch || action == Unknown {
        killSwitch := true;
      }
      return GiveUp, run;
    }

    /** After an ambiguous send: ask until found or out of time, then stop everything. */
    method Reconcile(job: Job, ghost before: seq<Event>) returns (outcome: Outcome, ghost run: seq<Event>)
      requires ValidSpec(job.spec) && |before| >= 2 && OneCall(before) && SendsAsChecked(job, before)
      requires before[0] == Guarded(Some(false))
      requires before[|before| - 1].Sent? && before[|before| - 1].reply == Ambiguous
      requires Follow(before, job.Max()) == Some(Polling(0))
      modifies this, broker
      ensures before <= run && broker.log == old(broker.log) + run[|before|..]
      ensures Finished(job, run, outcome) && outcome.Done?
      ensures killSwitch <==> old(killSwitch) || Halts(run, job.Max())
      ensures persisted == PersistedOf(job, run, None)
    {
      hide Follow, Check, RequestFor, OneCall, SendsAsChecked;
      run := before;
      persisted := Some(Reconciling);
      var poll := 0;
      while poll < job.polls
        invariant poll <= job.polls
        invariant before <= run && broker.log == old(broker.log) + run[|before|..]
        invariant OneCall(run) && SendsAsChecked(job, run) && !Confirmed(run)
        invariant Follow(run, job.Max()) == Some(Polling(poll))
        invariant run[|run| - 1] == if poll == 0 then before[|before| - 1] else Looked(false)
        invariant killSwitch == old(killSwitch) && persisted == Some(Reconciling)
      {
        poll := poll + 1;
        var found := broker.FindByTag(false);
        Push(job, run, Looked(found));
        run := run + [Looked(found)];
        if found {
          persisted := Some(Filled);
          return Done(true, Filled, true), run;
        }
      }
      killSwitch := true;
      outcome := Done(false, Reconciling, false);
    }

    /** At startup an order left unfinished is resolved by asking the broker once. */
    method ResolveAtStartup() returns (found: bool)
      modifies this`persisted, broker
      ensures broker.log == old(broker.log) + [LookedAtStartup(found)]
      ensures persisted == Some(if found then Filled else Abandoned)
    {
      found := broker.FindByTag(true);
      persisted := Some(if found then Filled else Abandoned);
    }
  }

  // What one lookup per tag, in order, leaves in the database; a tag listed twice takes its last answer.
  function Resolved(table: map<string, Status>, tags: seq<string>, found: seq<bool>): map<string, Status>
    requires |tags| == |found|
  {
    if tags == [] then table
    else
      var n := |tags| - 1;
      Resolved(table, tags[..n], found[..n])[tags[n] := if found[n] then Filled else Abandoned]
  }

  /** The start-up pass over every order left unfinished. */
  class Startup {
    var table: map<string, Status>

    constructor (table: map<string, Status>)
      ensures this.table == table
    {
      this.table := table;
    }

    // Find an order by tag; a broker error reads as not found.
    method Find(tag: string) returns (found: bool)
    {
      found := *;
    }

    method ReconcileUnresolved(tags: seq<string>) returns (report: map<string, bool>, ghost found: seq<bool>)
      modifies this
      ensures |found| == |tags| && table == Resolved(old(table), tags, found)
      ensures forall tag :: tag in report <==> tag in tags
      ensures forall tag :: tag in report ==> tag in table && (report[tag] <==> table[tag] == Filled)
    {
      report, found := map[], [];
      for i := 0 to |tags|
        invariant |found| == i && table == Resolved(old(table), tags[..i], found)
        invariant forall tag :: tag in report <==> tag in tags[..i]
        invariant forall tag :: tag in report ==> tag in table && (report[tag] <==> table[tag] == Filled)
      {
        var seen := Find(tags[i]);
        assert tags[..i + 1] == tags[..i] + [tags[i]] && (found + [seen])[..i] == found;
        found := found + [seen];
        table := table[tags[i] := if seen then Filled else Abandoned];
        report := report[tags[i] := seen];
      }
      assert tags[..|tags|] == tags;
    }
  }

  /** After start-up no listed order is left unfinished and no other is touched; and if the lookups
      tell the truth, an order is marked filled exactly when it landed. */
  lemma {:induction false} StartupSettles(table: map<string, Status>, tags: seq<string>, found: seq<bool>,
                                          landed: string -> bool, tag: string)
    requires |tags| == |found|
    ensures var now := Resolved(table, tags, found);
            && (tag in tags ==> tag in now && now[tag] in {Filled, Abandoned})
            && (tag !in tags ==> (tag in now <==> tag in table) && (tag in table ==> now[tag] == table[tag]))
            && (tag in tags && (forall i :: 0 <= i < |tags| ==> (found[i] <==> landed(tags[i]))) ==>
                  (now[tag] == Filled <==> landed(tag)))
  {
    if tags != [] {
      var n := |tags| - 1;
      assert tags == tags[..n] + [tags[n]];
      StartupSettles(table, tags[..n], found[..n], landed, tag);
      assert forall i :: 0 <= i < n ==> tags[..n][i] == tags[i] && found[..n][i] == found[i];
    }
  }

  lemma GuardAlone(job: Job, seen: Option<bool>)
    requires ValidSpec(job.spec)
    ensures var run := [Guarded(seen)];
            && OneCall(run) && SendsAsChecked(job, run) && !Confirmed(run)
            && Follow(run, job.Max()) == Some(if seen == Some(false) then Ready(0) else Idle)
  {
    FollowPush([], Guarded(seen), job.Max());
    assert [] + [Guarded(seen)] == [Guarded(seen)];
  }

  // An event that goes on with a run: a quote, a request made from the quote before it, or a lookup.
  lemma Push(job: Job, run: seq<Event>, e: Event)
    requires ValidSpec(job.spec) && run != [] && OneCall(run) && !Confirmed(run) && SendsAsChecked(job, run)
    requires e.Quoted? || e.Looked? || (e.Sent? && SentAsChecked(job, run[|run| - 1], e.request))
    ensures OneCall(run + [e]) && SendsAsChecked(job, run + [e])
    ensures Follow(run + [e], job.Max())
            == match Follow(run, job.Max()) case None => None case Some(phase) => Next(phase, e, job.Max())
  {
    hide OneCall, SendsAsChecked, Confirmed, SentAsChecked, Follow;
    FollowPush(run, e, job.Max());
    OneCallPush(run, e);
    SendsPush(job, run, e);
  }

  lemma OneCallPush(run: seq<Event>, e: Event)
    requires run != [] && OneCall(run) && !Confirmed(run) && (e.Quoted? || e.Sent? || e.Looked?)
    ensures OneCall(run + [e])
  {
    hide Confirmed;
    var longer := run + [e];
    assert forall i :: 0 <= i < |run| ==> longer[i] == run[i];
    assert forall i :: 0 < i <= |run| ==> longer[..i] == run[..i];
    assert run[..|run|] == run;
  }

  lemma SendsPush(job: Job, run: seq<Event>, e: Event)
    requires ValidSpec(job.spec) && run != [] && SendsAsChecked(job, run)
    requires e.Sent? ==> SentAsChecked(job, run[|run| - 1], e.request)
    ensures SendsAsChecked(job, run + [e])
  {
    hide SentAsChecked;
    var longer := run + [e];
    assert longer[|run|] == e;
    assert forall i :: 0 <= i < |run| ==> longer[i] == run[i];
  }

  // ---------------------------------------------------------------- assumptions on the broker

  function Landed(log: seq<Event>): nat {
    if log == [] then 0
    else Landed(log[..|log| - 1]) + (if log[|log| - 1].Sent? && log[|log| - 1].landed then 1 else 0)
  }

  // Orders landed and not yet closed.
  function Open(log: seq<Event>): int {
    if log == [] then 0
    else
      var e := log[|log| - 1];
      Open(log[..|log| - 1])
      + (if e.Sent? && e.landed then 1 else if e.ClosedByBroker? then -1 else 0)
  }

  /** `ok` comes exactly with a success code, a successful order landed, and only transient or
      ambiguous answers can hide an order that landed. */
  predicate HonestReply(e: Event) {
    e.Sent? ==>
      match e.reply
      case Ambiguous => true
      case Fault => !e.landed
      case Answer(code, ok) =>
        && (ok <==> Classify(code) == Success)
        && (ok ==> e.landed)
        && (e.landed ==> ok || Classify(code) == RetryTransient)
  }

  ghost predicate HonestReplies(log: seq<Event>) {
    forall i :: 0 <= i < |log| ==> HonestReply(log[i])
  }

  // Looking up the tag tells the truth about this run: found exactly when an order of it landed.
  ghost predicate TruthfulLookups(run: seq<Event>) {
    forall i :: 0 <= i < |run| && run[i].Looked? ==> (run[i].found <==> Landed(run[..i]) > 0)
  }

  // Over a tag's whole history it is enough that an open order is always seen.
  ghost predicate OpenOrdersAreSeen(log: seq<Event>) {
    && (forall i :: 0 <= i < |log| && log[i].Looked? && !log[i].found ==> Open(log[..i]) == 0)
    && (forall i :: 0 <= i < |log| && log[i] == Guarded(Some(false)) ==> Open(log[..i]) == 0)
    && (forall i :: 0 <= i < |log| && log[i].ClosedByBroker? ==> Open(log[..i]) > 0)
  }

  // ---------------------------------------------------------------- at most one order

  lemma {:induction false} SendsAreBounded(run: seq<Event>, max: nat)
    requires Disciplined(run, max) && OneRun(run)
    ensures Sends(run) <= max
    ensures match Follow(run, max).value
            case Ready(sends) => sends == Sends(run)
            case Priced(sends, _) => sends == Sends(run) < max
            case MustLook(sends) => sends == Sends(run) < max
            case _ => true
  {
    if run != [] {
      var front, e := run[..|run| - 1], run[|run| - 1];
      assert forall i :: 0 <= i < |front| ==> front[i] == run[i];
      SendsAreBounded(front, max);
      if front == [] {
        assert run[0].Guarded?;
      }
    }
  }

  function Sends(run: seq<Event>): nat {
    if run == [] then 0 else Sends(run[..|run| - 1]) + (if run[|run| - 1].Sent? then 1 else 0)
  }

  lemma HonestFront(log: seq<Event>)
    requires log != [] && HonestReplies(log)
    ensures HonestReplies(log[..|log| - 1]) && HonestReply(log[|log| - 1])
  {
    hide HonestReply;
    assert forall i :: 0 <= i < |log| - 1 ==> log[..|log| - 1][i] == log[i];
  }

  lemma TruthfulFront(run: seq<Event>)
    requires run != [] && TruthfulLookups(run)
    ensures TruthfulLookups(run[..|run| - 1])
    ensures run[|run| - 1].Looked? ==> (run[|run| - 1].found <==> Landed(run[..|run| - 1]) > 0)
  {
    hide Landed;
    var front := run[..|run| - 1];
    assert forall i :: 0 <= i < |front| ==> front[..i] == run[..i];
  }

  lemma OneRunFront(run: seq<Event>)
    requires run != [] && OneRun(run)
    ensures OneRun(run[..|run| - 1])
    ensures |run| == 1 <==> run[|run| - 1].Guarded?
  {
    assert run[0] == run[|run| - |run|];
  }

  // While a run may still send, nothing of it has landed.
  lemma {:induction false} LandedByPhase(run: seq<Event>, max: nat)
    requires Disciplined(run, max) && OneRun(run) && HonestReplies(run) && TruthfulLookups(run)
    ensures Landed(run) <= 1
    ensures Follow(run, max).value.Ready? || Follow(run, max).value.Priced? ==> Landed(run) == 0
    ensures Confirmed(run) ==> Landed(run) == 1
  {
    if run != [] {
      hide TruthfulLookups, HonestReplies, OneRun;
      HonestFront(run);
      TruthfulFront(run);
      OneRunFront(run);
      LandedByPhase(run[..|run| - 1], max);
    }
  }

  /** At most one order per tag.  Every run the manager can produce, whatever the broker does,
      lands at most one order and sends at most `max` times, given honest replies and truthful
      lookups; and a run reported successful landed exactly one. */
  lemma AtMostOneOrder(run: seq<Event>, max: nat)
    requires Disciplined(run, max) && OneRun(run) && HonestReplies(run) && TruthfulLookups(run)
    ensures Landed(run) <= 1 && Sends(run) <= max
    ensures Confirmed(run) ==> Landed(run) == 1
  {
    LandedByPhase(run, max);
    SendsAreBounded(run, max);
  }

  /** Every request of a call, whatever its quotes and answers, honours the floor after rounding. */
  lemma EveryRequestHonoursFloor(job: Job, run: seq<Event>, i: nat)
    requires ValidSpec(job.spec) && SendsAsChecked(job, run) && i < |run| && run[i].Sent?
    ensures HonoursFloor(job.spec, job.decision.floor, run[i].request)
    ensures run[i].request.volume == job.decision.lots && run[i].request.direction == job.decision.plan.direction
  {
    hide HonoursFloor;
    var q := run[i - 1].quote.value;
    PassHonoursFloor(job.cfg, job.decision.floor, job.decision.plan, job.decision.lots, job.spec, q, job.now);
  }

  // A quote an order may be sent at, said of its own numbers.
  ghost predicate Sound(job: Job, q: Quote)
    requires ValidSpec(job.spec)
  {
    var d := job.decision;
    && Timely(job.cfg, d.plan, job.spec, q, job.now) && KeepsSide(d.plan, q)
    && Worthwhile(d.floor, d.plan, job.spec, q) && d.lots >= job.spec.volumeMin as real
  }

  // The decision itself at a sound quote, rounded to the grid.
  ghost predicate SoundOrder(job: Job, q: Quote, r: Request)
    requires ValidSpec(job.spec)
  {
    var plan, unit := job.decision.plan, job.spec.unit;
    && Sound(job, q) && r.direction == plan.direction && r.volume == job.decision.lots
    && r.price == NormalizePrice(if plan.direction == Long then q.ask else q.bid, unit)
    && r.stop == NormalizePrice(plan.stop, unit) && r.target == NormalizePrice(plan.target, unit)
  }

  lemma PassIsSound(job: Job, q: Quote)
    requires ValidSpec(job.spec)
    ensures job.Verdict(q).Pass? <==> Sound(job, q)
    ensures job.Verdict(q).Pass? ==>
              job.Verdict(q).plan
              == job.decision.plan.(entry := if job.decision.plan.direction == Long then q.ask else q.bid)
  {
    hide Timely, KeepsSide, Worthwhile, Check;
    PassesExactlyWhen(job.cfg, job.decision.floor, job.decision.plan, job.decision.lots, job.spec, q, job.now);
  }

  /** Exactly at which quotes a call sends.  Every send follows at once on a sound quote, and its
      request is the decision rounded to the grid, priced at that quote; and a finished call that
      ends on a quote ends there because that quote was not sound. */
  lemma SendsExactlyAtSoundQuotes(job: Job, run: seq<Event>)
    requires ValidSpec(job.spec) && OneCall(run) && Over(job, run) && SendsAsChecked(job, run)
    ensures forall i :: 0 <= i < |run| && run[i].Sent? ==>
              && i > 0 && run[i - 1].Quoted? && run[i - 1].quote.Some?
              && SoundOrder(job, run[i - 1].quote.value, run[i].request)
    ensures run != [] && run[|run| - 1].Quoted? && run[|run| - 1].quote.Some? ==>
              !Sound(job, run[|run| - 1].quote.value)
  {
    hide Sound, Check;
    forall i | 0 <= i < |run| && run[i].Sent?
      ensures i > 0 && run[i - 1].Quoted? && run[i - 1].quote.Some?
      ensures SoundOrder(job, run[i - 1].quote.value, run[i].request)
    {
      assert SentAsChecked(job, run[i - 1], run[i].request);
      PassIsSound(job, run[i - 1].quote.value);
    }
    if run != [] && run[|run| - 1].Quoted? && run[|run| - 1].quote.Some? {
      PassIsSound(job, run[|run| - 1].quote.value);
    }
  }

  /** What a refusal leads to, by its return code.  After a requote, a moved price, or an order the
      broker could not accept as it was, the call may only ask for a new quote; after a time-out, a
      lost connection or too many requests it may only look the order up, if an attempt is left;
      after any other code it is over. */
  lemma AfterRefusal(run: seq<Event>, request: Request, code: int, landed: bool, sends: nat, q: Quote, max: nat)
    requires Follow(run, max) == Some(Priced(sends, q)) && sends < max
    ensures var now := Follow(run + [Sent(request, Answer(code, false), landed)], max);
            if code in {10004, 10020, 10021, 10014, 10015, 10016, 10030, 10008, 10009, 10010}
            then now == Some(Ready(sends + 1))
            else if code in {10012, 10024, 10031} && sends + 1 < max then now == Some(MustLook(sends + 1))
            else now == Some(Idle)
  {
    hide Follow;
    FollowPush(run, Sent(request, Answer(code, false), landed), max);
  }

  // Refusals that say why, or that trading stops: all others trip the kill switch.
  predicate Explained(code: int) {
    || code == 10004 || 10006 <= code <= 10010 || 10012 <= code <= 10025
    || 10030 <= code <= 10036 || 10038 <= code <= 10040
  }

  predicate BeyondStop(job: Job, q: Quote) {
    Timely(job.cfg, job.decision.plan, job.spec, q, job.now) && !KeepsSide(job.decision.plan, q)
  }

  // No lookup found what an ambiguous send may have left.
  ghost predicate Unresolved(run: seq<Event>) {
    !Confirmed(run) && exists i :: 0 <= i < |run| && run[i].Sent? && run[i].reply == Ambiguous
  }

  /** What a finished call reports, read off its last event.  It is filled exactly with proof of an
      order, and marked as found exactly if a lookup gave it; left reconciling exactly with an
      ambiguous send no lookup resolved; an exception escapes exactly after a broker fault or a
      timely quote beyond the stop; and otherwise it is abandoned.  Trading is halted exactly when
      it is left reconciling or ended on a refusal nothing explains. */
  lemma OutcomeMeans(job: Job, run: seq<Event>)
    requires ValidSpec(job.spec) && OneCall(run) && Over(job, run) && run != []
    ensures var outcome, last := OutcomeOf(job, run), run[|run| - 1];
            && (outcome == Raised <==>
                  || (last.Sent? && last.reply == Fault)
                  || (last.Quoted? && last.quote.Some? && BeyondStop(job, last.quote.value)))
            && (outcome.Done? ==>
                  && (outcome.ok <==> Confirmed(run)) && (outcome.reconciled <==> last == Looked(true))
                  && (outcome.status == Filled <==> outcome.ok)
                  && (outcome.status == Reconciling <==> Unresolved(run))
                  && outcome.status in {Filled, Reconciling, Abandoned})
    ensures var last := run[|run| - 1];
            Halts(run, job.Max()) <==>
              || Unresolved(run)
              || (last.Sent? && last.reply.Answer? && !last.reply.ok && !Explained(last.reply.code))
  {
    hide Timely, KeepsSide, Worthwhile, Check;
    var last := run[|run| - 1];
    var d := job.decision;
    OneCallFront(run);
    OkMeansConfirmed(job, run);
    if last.Quoted? && last.quote.Some? {
      PassesExactlyWhen(job.cfg, d.floor, d.plan, d.lots, job.spec, last.quote.value, job.now);
    }
    if i :| 0 <= i < |run| && run[i].Sent? && run[i].reply == Ambiguous {
      AfterAmbiguous(run, job.Max(), i);
    } else {
      NeverPolls(run, job.Max());
    }
  }

  /** What a finished call leaves in the database: what it reports, except that an order found by the
      lookup after a time-out, a lost connection or too many requests is left as sent; and when an
      exception escapes, whether anything was sent. */
  lemma PersistedMeans(job: Job, run: seq<Event>, before: Option<Status>)
    requires ValidSpec(job.spec) && OneCall(run) && Over(job, run) && run != []
    ensures var outcome, after, n := OutcomeOf(job, run), PersistedOf(job, run, before), |run|;
            if run[0] != Guarded(Some(false)) then after == before
            else if outcome == Raised then after == Some(if Sends(run) > 0 then SentOut else Intent)
            else
              after == Some(if outcome.reconciled && n >= 2 && run[n - 2].Sent? && run[n - 2].reply.Answer?
                               && !run[n - 2].reply.ok && run[n - 2].reply.code in {10012, 10024, 10031}
                            then SentOut else outcome.status)
  {
    hide Timely, KeepsSide, Worthwhile, Check;
    OutcomeMeans(job, run);
    OneCallIsOneRun(run);
    SendsAreBounded(run, job.Max());
  }

  // Polling comes only from an ambiguous send.
  lemma {:induction false} NeverPolls(run: seq<Event>, max: nat)
    requires Disciplined(run, max) && forall i :: 0 <= i < |run| && run[i].Sent? ==> run[i].reply != Ambiguous
    ensures !Follow(run, max).value.Polling?
  {
    if run != [] {
      NeverPolls(run[..|run| - 1], max);
    }
  }

  /** Never sends after an ambiguous answer, nor after any success: once such a send is in the
      run, every later event is a lookup or a close. */
  lemma {:induction false} NoSendAfterAmbiguous(run: seq<Event>, max: nat, i: nat)
    requires Disciplined(run, max) && OneRun(run)
    requires i < |run| && run[i].Sent? && (run[i].reply == Ambiguous || (run[i].reply.Answer? && run[i].reply.ok))
    ensures forall j :: i < j < |run| ==> !run[j].Sent?
    ensures Follow(run, max).value.Idle? || Follow(run, max).value.Polling?
  {
    var n := |run| - 1;
    OneRunFront(run);
    if i < n {
      NoSendAfterAmbiguous(run[..n], max, i);
      assert forall j :: i < j < n ==> run[..n][j] == run[j];
      OneRunGuard(run, n);
    }
  }

  lemma OneRunGuard(run: seq<Event>, i: nat)
    requires OneRun(run) && 0 < i < |run|
    ensures !run[i].Guarded?
  {
  }

  /** What an ambiguous send leads to: every call that has one ends either recovered by a lookup,
      or unresolved after all its polls with the kill switch tripped. */
  lemma AmbiguousIsResolvedOrHalts(job: Job, run: seq<Event>, i: nat)
    requires ValidSpec(job.spec) && OneCall(run) && Over(job, run)
    requires i < |run| && run[i].Sent? && run[i].reply == Ambiguous
    ensures OutcomeOf(job, run) == Done(true, Filled, true)
            || (OutcomeOf(job, run) == Done(false, Reconciling, false) && Halts(run, job.Max())
                && |run| == i + 1 + job.polls)
    ensures OutcomeOf(job, run).ok ==> Confirmed(run)
  {
    AfterAmbiguous(run, job.Max(), i);
  }

  lemma {:induction false} AfterAmbiguous(run: seq<Event>, max: nat, i: nat)
    requires Disciplined(run, max) && OneCall(run)
    requires i < |run| && run[i].Sent? && run[i].reply == Ambiguous
    ensures Follow(run, max).value == Polling(|run| - 1 - i)
            || (Follow(run, max).value == Idle && run[|run| - 1] == Looked(true))
  {
    var n := |run| - 1;
    if i < n {
      OneRunFront(run);
      OneCallFront(run);
      AfterAmbiguous(run[..n], max, i);
      OneRunGuard(run, n);
    }
  }

  lemma OneCallFront(run: seq<Event>)
    requires run != [] && OneCall(run)
    ensures OneCall(run[..|run| - 1]) && !run[|run| - 1].ClosedByBroker? && !run[|run| - 1].LookedAtStartup?
    ensures |run| > 1 ==> !Confirmed(run[..|run| - 1])
  {
    hide Confirmed;
    var front := run[..|run| - 1];
    OneRunFront(run);
    assert forall i :: 0 < i < |front| ==> front[..i] == run[..i];
  }

  // Success is reported exactly when the log ends with proof of an order.
  lemma OkMeansConfirmed(job: Job, run: seq<Event>)
    requires ValidSpec(job.spec) && OneCall(run) && Over(job, run)
    ensures OutcomeOf(job, run).Done? && OutcomeOf(job, run).ok <==> Confirmed(run)
    ensures OutcomeOf(job, run).Done? && OutcomeOf(job, run).status == Reconciling ==> Halts(run, job.Max())
  {
    if run != [] {
      OneCallFront(run);
      var front := run[..|run| - 1];
      assert Follow(front, job.Max()).Some?;
    }
  }

  /** When an order is missed: a finished call that landed one and is not reported successful is
      exactly one that ended on the silent send itself, and that is either an ambiguous send
      with no time for a lookup or a transient answer to the last send allowed. */
  lemma {:induction false} WhenAnOrderIsMissed(job: Job, run: seq<Event>)
    requires ValidSpec(job.spec) && OneCall(run) && Over(job, run) && HonestReplies(run) && TruthfulLookups(run)
    ensures Landed(run) == 1 && !Confirmed(run)
            <==> run != [] && MissedSend(run[|run| - 1])
    ensures run != [] && MissedSend(run[|run| - 1]) ==> Sends(run) == job.Max() || job.polls == 0
  {
    hide TruthfulLookups, HonestReplies;
    var max := job.Max();
    LandedByPhase(run, max);
    if run != [] {
      var front := run[..|run| - 1];
      HonestFront(run);
      TruthfulFront(run);
      OneRunFront(run);
      LandedByPhase(front, max);
      SendsAreBounded(front, max);
      assert !run[|run| - 1].ClosedByBroker? && !run[|run| - 1].LookedAtStartup?;
    }
  }

  predicate MissedSend(e: Event) {
    e.Sent? && e.landed && (e.reply == Ambiguous || IsTransient(e))
  }

  // ---------------------------------------------------------------- a tag's whole history

  lemma SeenFront(log: seq<Event>)
    requires log != [] && OpenOrdersAreSeen(log)
    ensures OpenOrdersAreSeen(log[..|log| - 1])
    ensures var e, open := log[|log| - 1], Open(log[..|log| - 1]);
            && (e.Looked? && !e.found ==> open == 0)
            && (e == Guarded(Some(false)) ==> open == 0)
            && (e.ClosedByBroker? ==> open > 0)
  {
    hide Open;
    var front := log[..|log| - 1];
    assert forall i :: 0 <= i < |front| ==> front[..i] == log[..i] && front[i] == log[i];
  }

  /** At most one open order for a tag at any time of its life: calls may follow one another,
      each cut short by a crash anywhere, with start-up lookups and broker-side closes between. */
  lemma {:induction false} AtMostOneOpen(log: seq<Event>, max: nat)
    requires Disciplined(log, max) && HonestReplies(log) && OpenOrdersAreSeen(log)
    ensures 0 <= Open(log) <= 1
    ensures Follow(log, max).value.Ready? || Follow(log, max).value.Priced? ==> Open(log) == 0
  {
    if log != [] {
      hide OpenOrdersAreSeen, HonestReplies;
      HonestFront(log);
      SeenFront(log);
      AtMostOneOpen(log[..|log| - 1], max);
    }
  }

  // A call cut short anywhere by a crash has kept the discipline so far,
  lemma {:induction false} CutIsDisciplined(run: seq<Event>, n: nat, max: nat)
    requires Disciplined(run, max) && n <= |run|
    ensures Disciplined(run[..n], max)
    decreases |run|
  {
    if n == |run| {
      assert run[..n] == run;
    } else {
      var front := run[..|run| - 1];
      assert front[..n] == run[..n];
      CutIsDisciplined(front, n, max);
    }
  }

  // and a new call may follow at any point.
  lemma {:induction false} CallsCompose(log: seq<Event>, run: seq<Event>, max: nat)
    requires Disciplined(log, max) && Disciplined(run, max) && OneRun(run)
    ensures Disciplined(log + run, max)
    ensures run != [] ==> Follow(log + run, max) == Follow(run, max)
  {
    if run == [] {
      assert log + run == log;
    } else {
      hide Follow, OneRun;
      var front, e := run[..|run| - 1], run[|run| - 1];
      OneRunFront(run);
      CutIsDisciplined(run, |run| - 1, max);
      CallsCompose(log, front, max);
      assert log + run == (log + front) + [e] && run == front + [e];
      FollowPush(log + front, e, max);
      FollowPush(front, e, max);
    }
  }

  // ---------------------------------------------------------------- what honest brokers can still do

  /** A run of a call so far: where it stands and how many orders landed, with honest replies. */
  ghost predicate Standing(job: Job, run: seq<Event>, phase: Phase, landed: nat)
    requires ValidSpec(job.spec)
  {
    && run != [] && OneCall(run) && SendsAsChecked(job, run) && HonestReplies(run) && !Confirmed(run)
    && Follow(run, job.Max()) == Some(phase) && Landed(run) == landed
  }

  lemma Goes(job: Job, run: seq<Event>, phase: Phase, landed: nat, e: Event)
    requires ValidSpec(job.spec) && Standing(job, run, phase, landed) && HonestReply(e)
    requires e.Quoted? || e.Looked? || (e.Sent? && SentAsChecked(job, run[|run| - 1], e.request))
    ensures OneCall(run + [e]) && SendsAsChecked(job, run + [e]) && HonestReplies(run + [e])
    ensures Follow(run + [e], job.Max()) == Next(phase, e, job.Max())
    ensures Landed(run + [e]) == landed + if e.Sent? && e.landed then 1 else 0
  {
    hide OneCall, SendsAsChecked, Confirmed, SentAsChecked, HonestReply, Next;
    Push(job, run, e);
    assert (run + [e])[..|run|] == run;
    assert forall i :: 0 <= i < |run| ==> (run + [e])[i] == run[i];
  }

  // Asking for a quote that passes and sending at it.
  lemma SendsAt(job: Job, q: Quote, run: seq<Event>, sends: nat, landed: nat, reply: Reply, lands: bool)
    returns (sent: seq<Event>)
    requires ValidSpec(job.spec) && job.Verdict(q).Pass? && sends < job.Max()
    requires Standing(job, run, Ready(sends), landed)
    requires forall request :: HonestReply(Sent(request, reply, lands))
    ensures |sent| == |run| + 2 && run <= sent && sent[|run|].Quoted?
    ensures sent[|run| + 1].Sent? && sent[|run| + 1].reply == reply && sent[|run| + 1].landed == lands
    ensures OneCall(sent) && SendsAsChecked(job, sent) && HonestReplies(sent)
    ensures Follow(sent, job.Max()) == Some(AfterSend(reply, sends + 1, job.Max()))
    ensures Landed(sent) == landed + if lands then 1 else 0
  {
    hide Follow, Check, RequestFor, OneCall, SendsAsChecked, HonestReplies, Landed, AfterSend;
    Goes(job, run, Ready(sends), landed, Quoted(Some(q)));
    var quoted := run + [Quoted(Some(q))];
    var request := RequestFor(job.Verdict(q).plan, job.decision.lots, job.spec, q);
    var e := Sent(request, reply, lands);
    assert Standing(job, quoted, Priced(sends, q), landed);
    Goes(job, quoted, Priced(sends, q), landed, e);
    sent := quoted + [e];
  }

  // A call whose first sends were all requoted may still send, with nothing landed and nothing looked up.
  lemma {:induction false} Requoted(job: Job, q: Quote, n: nat) returns (run: seq<Event>)
    requires ValidSpec(job.spec) && job.Verdict(q).Pass? && n <= job.Max()
    ensures Standing(job, run, Ready(n), 0) && forall i :: 0 <= i < |run| ==> !run[i].Looked?
  {
    hide Follow, Check, OneCall, SendsAsChecked, HonestReplies, Landed;
    if n == 0 {
      run := [Guarded(Some(false))];
      GuardAlone(job, Some(false));
      NothingLandedYet();
    } else {
      var before := Requoted(job, q, n - 1);
      run := SendsAt(job, q, before, n - 1, 0, Answer(10004, false), false);
      assert forall i :: 0 <= i < |run| ==> run[i] == if i < |before| then before[i] else run[i];
    }
  }

  lemma NothingLandedYet()
    ensures Landed([Guarded(Some(false))]) == 0 && HonestReplies([Guarded(Some(false))])
  {
    assert [Guarded(Some(false))][..0] == [];
  }

  /** An order can be missed in every job that has a passing quote: after requotes to all but the
      last send, a transient answer to that one hides an order that landed, and the call reports
      it abandoned.  Replies are honest and no lookup lied. */
  lemma MissedOrderRun(job: Job, q: Quote) returns (run: seq<Event>)
    requires ValidSpec(job.spec) && job.Verdict(q).Pass?
    ensures OneCall(run) && Over(job, run) && SendsAsChecked(job, run) && HonestReplies(run) && TruthfulLookups(run)
    ensures Landed(run) == 1 && OutcomeOf(job, run) == GAVE_UP && MissedSend(run[|run| - 1])
  {
    hide Follow, Check, OneCall, SendsAsChecked, HonestReplies, Landed;
    var before := Requoted(job, q, job.Max() - 1);
    run := SendsAt(job, q, before, job.Max() - 1, 0, Answer(10012, false), true);
    assert forall i :: 0 <= i < |run| ==> run[i] == if i < |before| then before[i] else run[i];
  }

  // A finished call, honest and truthful throughout, that landed an order and does not report it.
  ghost predicate Missed(job: Job, run: seq<Event>)
    requires ValidSpec(job.spec)
  {
    && OneCall(run) && Over(job, run) && SendsAsChecked(job, run) && HonestReplies(run) && TruthfulLookups(run)
    && Landed(run) == 1 && !Confirmed(run)
  }

  lemma {:induction false} LandedWasSent(run: seq<Event>) returns (i: nat)
    requires Landed(run) > 0
    ensures i < |run| && run[i].Sent?
  {
    var n := |run| - 1;
    if run[n].Sent? {
      i := n;
    } else {
      i := LandedWasSent(run[..n]);
    }
  }

  /** An honest broker and truthful lookups do not rule a missed order out: a job can miss one
      exactly when some quote passes its checks, whatever its configured retries and polls. */
  lemma MissedExactlyWhenAQuotePasses(job: Job)
    requires ValidSpec(job.spec)
    ensures (exists run :: Missed(job, run)) <==> (exists q :: job.Verdict(q).Pass?)
  {
    hide Follow, Check, OneCall, SendsAsChecked, HonestReplies, Landed, TruthfulLookups, Job.Verdict;
    if q :| job.Verdict(q).Pass? {
      var run := MissedOrderRun(job, q);
      WhenAnOrderIsMissed(job, run);
      assert Missed(job, run);
    }
    if run :| Missed(job, run) {
      var i := LandedWasSent(run);
      var q := SentAtPassingQuote(job, run, i);
    }
  }

  lemma SentAtPassingQuote(job: Job, run: seq<Event>, i: nat) returns (q: Quote)
    requires ValidSpec(job.spec) && SendsAsChecked(job, run) && i < |run| && run[i].Sent?
    ensures job.Verdict(q).Pass?
  {
    hide Job.Verdict;
    assert SentAsChecked(job, run[i - 1], run[i].request);
    q := run[i - 1].quote.value;
  }

  // A finished call that reports success and leaves another status in the database.
  ghost predicate Unpersisted(job: Job, run: seq<Event>)
    requires ValidSpec(job.spec)
  {
    var outcome := OutcomeOf(job, run);
    && OneCall(run) && Over(job, run) && SendsAsChecked(job, run) && HonestReplies(run) && TruthfulLookups(run)
    && outcome.Done? && outcome.ok && PersistedOf(job, run, None) != Some(Filled)
  }

  /** Success can be left unrecorded exactly when retries are configured: the lookup after a
      transient answer finds the order, and nothing is written. */
  lemma QuietRecoveryExactlyWithRetries(job: Job, q: Quote)
    requires ValidSpec(job.spec) && job.Verdict(q).Pass?
    ensures (exists run :: Unpersisted(job, run)) <==> job.cfg.maxSendRetries >= 1
  {
    hide Follow, Check, OneCall, SendsAsChecked, HonestReplies, Landed, TruthfulLookups;
    if job.cfg.maxSendRetries >= 1 {
      var guarded := Requoted(job, q, 0);
      var sent := SendsAt(job, q, guarded, 0, 0, Answer(10012, false), true);
      Goes(job, sent, MustLook(1), 1, Looked(true));
      var run := sent + [Looked(true)];
      OnlyLookupIsTrue(sent, guarded);
      FirstIsKept(guarded, sent);
      assert Unpersisted(job, run);
    }
    if run :| Unpersisted(job, run) {
      QuietNeedsRetry(job, run);
    }
  }

  lemma OnlyLookupIsTrue(sent: seq<Event>, guarded: seq<Event>)
    requires guarded <= sent && |sent| == |guarded| + 2 && Landed(sent) == 1
    requires sent[|guarded|].Quoted? && sent[|guarded| + 1].Sent?
    requires forall i :: 0 <= i < |guarded| ==> !guarded[i].Looked?
    ensures TruthfulLookups(sent + [Looked(true)])
  {
    hide Landed;
    var run := sent + [Looked(true)];
    assert forall i :: 0 <= i < |guarded| ==> run[i] == guarded[i];
    assert run[..|sent|] == sent;
  }

  lemma FirstIsKept(before: seq<Event>, now: seq<Event>)
    requires before != [] && before <= now && OneCall(before) && OneCall(now)
    ensures now[0] == before[0]
  {
  }

  // A call goes on only if its guard saw no position.
  lemma GoesOnFromFreeGuard(run: seq<Event>, max: nat)
    requires OneCall(run) && Disciplined(run, max) && |run| >= 2
    ensures run[0] == Guarded(Some(false))
  {
    CutIsDisciplined(run, 2, max);
    var two, one := run[..2], run[..1];
    assert two[..1] == one && one == [] + [run[0]] && two == one + [run[1]];
    FollowPush([], run[0], max);
    FollowPush(one, run[1], max);
    assert !run[1].Guarded? && !run[1].ClosedByBroker? && !run[1].LookedAtStartup?;
  }

  lemma QuietNeedsRetry(job: Job, run: seq<Event>)
    requires ValidSpec(job.spec) && Unpersisted(job, run)
    ensures job.Max() >= 2
  {
    OkMeansConfirmed(job, run);
    OneCallFront(run);
    if |run| >= 2 {
      GoesOnFromFreeGuard(run, job.Max());
    }
    assert RecoveredQuietly(run);
    var front := run[..|run| - 1];
    OneCallFront(front);
    OneCallIsOneRun(front);
    SendsAreBounded(front, job.Max());
    assert Follow(front, job.Max()).Some?;
  }

  // A call the manager can make that lands two orders although every reply is honest.
  ghost predicate Duplicates(job: Job, run: seq<Event>)
    requires ValidSpec(job.spec)
  {
    OneCall(run) && Over(job, run) && SendsAsChecked(job, run) && HonestReplies(run) && Landed(run) >= 2
  }

  lemma {:induction false} LandedWereSent(run: seq<Event>)
    ensures Landed(run) <= Sends(run)
  {
    if run != [] {
      LandedWereSent(run[..|run| - 1]);
    }
  }

  /** Without truthful lookups one tag can get two orders exactly when retries are configured: a
      lookup that misses an order which landed, as one cut off by a broker error does, lets the
      second send out.  With no retries at most one order lands whatever the lookups say. */
  lemma DuplicatesExactlyWithRetries(job: Job, q: Quote)
    requires ValidSpec(job.spec) && job.Verdict(q).Pass?
    ensures (exists run :: Duplicates(job, run)) <==> job.cfg.maxSendRetries >= 1
  {
    hide Follow, Check, OneCall, SendsAsChecked, HonestReplies, Landed;
    if job.cfg.maxSendRetries >= 1 {
      var run := MissedLookupRun(job, q);
      assert Duplicates(job, run);
    }
    if run :| Duplicates(job, run) {
      LandedWereSent(run);
      OneCallIsOneRun(run);
      SendsAreBounded(run, job.Max());
    }
  }

  lemma OneCallIsOneRun(run: seq<Event>)
    requires OneCall(run)
    ensures OneRun(run)
  {
  }

  lemma MissedLookupRun(job: Job, q: Quote) returns (run: seq<Event>)
    requires ValidSpec(job.spec) && job.Verdict(q).Pass? && job.Max() >= 2
    ensures Duplicates(job, run) && !TruthfulLookups(run) && Confirmed(run)
  {
    hide Follow, Check, OneCall, SendsAsChecked, HonestReplies, Landed;
    var guarded := Requoted(job, q, 0);
    var first := SendsAt(job, q, guarded, 0, 0, Answer(10012, false), true);
    Goes(job, first, MustLook(1), 1, Looked(false));
    var looked := first + [Looked(false)];
    run := SendsAt(job, q, looked, 1, 1, Answer(10009, true), true);
    assert run[|first|] == Looked(false) && run[..|first|] == first;
  }
}
