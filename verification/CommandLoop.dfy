/** The engine's side of the operator commands (src/xauusd/engine/orchestrator.py): start-up,
    the drain of the queue and the execution of one command.  Every transaction is recorded in
    `trace`, so that a crash between two of them leaves a prefix of it. */
module CommandLoop {
  import opened Domain
  import opened OperatorCommands

  // How a close ended: accepted, refused by the broker, or an exception.
  datatype CloseReply = Closed | Refused | Threw

  // Tickets are None when the broker could not be asked.
  datatype Effect = Tripped | Asked(tickets: Option<seq<int>>) | CloseTried(ticket: int, reply: CloseReply)

  class Account {
    var effects: seq<Effect>

    constructor ()
      ensures effects == []
    {
      effects := [];
    }

    // The engine's open positions; None when the broker cannot be reached.
    method OurPositions() returns (tickets: Option<seq<int>>)
      modifies this
      ensures effects == old(effects) + [Asked(tickets)]
    {
      tickets := *;
      effects := effects + [Asked(tickets)];
    }

    method ClosePosition(ticket: int) returns (reply: CloseReply)
      modifies this
      ensures effects == old(effects) + [CloseTried(ticket, reply)]
    {
      reply := *;
      effects := effects + [CloseTried(ticket, reply)];
    }

    method Trip()
      modifies this
      ensures effects == old(effects) + [Tripped]
    {
      effects := effects + [Tripped];
    }
  }

  // Every position is tried, in order, whatever happens to the ones before.
  predicate TriesAll(tickets: seq<int>, effects: seq<Effect>) {
    |effects| == |tickets| && forall i :: 0 <= i < |tickets| ==>
            effects[i].CloseTried? && effects[i].ticket == tickets[i]
  }

  predicate AllClosed(effects: seq<Effect>) {
    forall i :: 0 <= i < |effects| ==> effects[i].CloseTried? && effects[i].reply == Closed
  }

  // Some close of this ticket came back without an exception.
  predicate Answered(effects: seq<Effect>, ticket: int) {
    exists i :: 0 <= i < |effects| && effects[i].CloseTried? && effects[i].ticket == ticket && effects[i].reply != Threw
  }

  /** What executing a command does: HALT trips the kill switch; FLATTEN trips it before anything
      else, tries to close every position, and succeeds only if all of them closed. */
  ghost predicate Executes(command: string, a: Attempt) {
    if command == "HALT" then a.ok && a.effects == [Tripped]
    else if command == "FLATTEN" then
      if a.effects == [Tripped, Asked(None)] then !a.ok
      else
        && |a.effects| >= 2 && a.effects[0] == Tripped && a.effects[1].Asked? && a.effects[1].tickets.Some?
        && TriesAll(a.effects[1].tickets.value, a.effects[2..])
        && (a.ok <==> AllClosed(a.effects[2..]))
    else !a.ok && a.effects == []
  }

  // One executed command: whether it raised, and what it did.
  datatype Attempt = Attempt(ok: bool, effects: seq<Effect>)

  function AllEffects(attempts: seq<Attempt>): seq<Effect> {
    if attempts == [] then []
    else AllEffects(attempts[..|attempts| - 1]) + attempts[|attempts| - 1].effects
  }

  lemma AllEffectsPush(attempts: seq<Attempt>, a: Attempt)
    ensures AllEffects(attempts + [a]) == AllEffects(attempts) + a.effects
  {
    assert (attempts + [a])[..|attempts|] == attempts;
  }

  /** The outcome of a batch: each command tried did what `Executes` says, the first `n` are
      recorded as they ended, and no row outside the batch changed. */
  ghost predicate Handled(before: Rows, now: Rows, ids: seq<int>, attempts: seq<Attempt>, n: int) {
    && |now| == |before| && n <= |attempts| <= |ids|
    && (forall i :: 0 <= i < |ids| ==> 0 <= ids[i] < |before|)
    && (forall c :: 0 <= c < |before| ==> now[c].command == before[c].command)
    && (forall c :: 0 <= c < |before| && c !in ids ==> now[c] == before[c])
    && (forall i :: 0 <= i < |attempts| ==> Executes(before[ids[i]].command, attempts[i]))
    && (forall i :: 0 <= i < n ==> now[ids[i]].status == if attempts[i].ok then Done else Failed)
  }

  lemma NothingHandled(before: Rows, ids: seq<int>, at: int)
    requires forall i :: 0 <= i < |ids| ==> IsQueued(before, ids[i])
    ensures Handled(before, ClaimRows(before, ids, at), ids, [], 0)
  {
  }

  lemma HandledBounds(before: Rows, now: Rows, ids: seq<int>, attempts: seq<Attempt>, n: int)
    requires Handled(before, now, ids, attempts, n) && 0 <= n < |ids|
    ensures 0 <= ids[n] < |now| == |before| && now[ids[n]].command == before[ids[n]].command
  {
  }

  lemma HandledPush(before: Rows, last: Rows, now: Rows, ids: seq<int>, attempts: seq<Attempt>, a: Attempt,
      recorded: bool)
    requires Handled(before, last, ids, attempts, |attempts|) && |attempts| < |ids|
    requires forall i, j :: 0 <= i < j < |ids| ==> ids[i] != ids[j]
    requires Executes(before[ids[|attempts|]].command, a)
    requires if recorded then
               && |now| == |last| && now == last[ids[|attempts|] := now[ids[|attempts|]]]
               && now[ids[|attempts|]].command == last[ids[|attempts|]].command
               && now[ids[|attempts|]].status == if a.ok then Done else Failed
             else now == last
    ensures Handled(before, now, ids, attempts + [a], if recorded then |attempts| + 1 else |attempts|)
  {
    hide Executes;
    var longer := attempts + [a];
    assert forall i :: 0 <= i < |attempts| ==> longer[i] == attempts[i] && ids[i] != ids[|attempts|];
  }

  lemma ClaimIsOrdered(rows: Rows, ids: seq<int>)
    requires OldestFirst(rows, ids, CLAIM_LIMIT)
    ensures forall i :: 0 <= i < |ids| ==> IsQueued(rows, ids[i])
    ensures forall i, j :: 0 <= i < j < |ids| ==> ids[i] != ids[j]
  {
  }

  class Engine {
    const repo: OperatorCommandRepository
    const account: Account
    var managed: set<int>
    ghost var trace: seq<Event>

    // The table is the one the trace leads to.
    ghost predicate InStep(engine: OperatorCommands.Engine)
      reads this, repo
    {
      After(trace) == Some(System(repo.rows, engine))
    }

    constructor (repo: OperatorCommandRepository, account: Account)
      requires repo.rows == []
      ensures this.repo == repo && this.account == account && InStep(Down)
    {
      this.repo, this.account, managed, trace := repo, account, {}, [];
    }

    // The requeue step of start-up.
    method Startup() returns (stranded: seq<int>)
      requires InStep(Down)
      modifies this`trace, repo
      ensures trace == old(trace) + [Started] && InStep(Up([], false))
      ensures forall c :: c in stranded <==> IsClaimed(old(repo.rows), c)
    {
      stranded := repo.RequeueStaleClaims();
      AfterPush(trace, Started);
      trace := trace + [Started];
    }

    /** Claim, execute and record.  None when a recording failed, which drops the rest of the
        batch; otherwise the number of commands handled. */
    method DrainCommands(at: int) returns (handled: Option<nat>, ghost ids: seq<int>, ghost attempts: seq<Attempt>)
      requires InStep(Up([], false)) && repo as object != account as object
      modifies this, repo, account
      ensures InStep(Up([], false)) && old(trace) + [Drained(ids, at)] <= trace
      ensures OldestFirst(old(repo.rows), ids, CLAIM_LIMIT)
      ensures if handled.Some? then handled.value == |attempts| == |ids|
              else |attempts| <= |ids| && trace[|trace| - 1] == Aborted
      ensures account.effects == old(account.effects) + AllEffects(attempts)
      ensures Handled(old(repo.rows), repo.rows, ids, attempts, if handled.Some? then |ids| else |attempts| - 1)
    {
      hide After, Executes, OldestFirst, Handled, ClaimRows;
      ghost var before := repo.rows;
      var claimed := repo.ClaimPending(CLAIM_LIMIT, at);
      ids, attempts := claimed, [];
      ClaimIsOrdered(before, ids);
      NothingHandled(before, ids, at);
      AfterPush(trace, Drained(ids, at));
      trace := trace + [Drained(ids, at)];
      assert ids[0..] == ids;
      var i := 0;
      while i < |claimed|
        invariant i == |attempts| <= |claimed|
        invariant InStep(Up(ids[i..], false)) && old(trace) + [Drained(ids, at)] <= trace
        invariant account.effects == old(account.effects) + AllEffects(attempts)
        invariant Handled(before, repo.rows, ids, attempts, i)
      {
        var recorded: bool;
        ghost var attempt;
        ghost var rows := repo.rows;
        HandledBounds(before, rows, ids, attempts, i);
        recorded, attempt := HandleCommand(claimed[i], at, ids[i..]);
        HandledPush(before, rows, repo.rows, ids, attempts, attempt, recorded);
        AllEffectsPush(attempts, attempt);
        attempts := attempts + [attempt];
        if !recorded {
          return None, ids, attempts;
        }
        assert ids[i..][1..] == ids[i + 1..];
        i := i + 1;
      }
      assert ids[i..] == [];
      handled := Some(|claimed|);
    }

    // Execute the first command in memory and record the result; false when recording failed.
    method HandleCommand(id: int, at: int, ghost todo: seq<int>) returns (recorded: bool, ghost attempt: Attempt)
      requires todo != [] && todo[0] == id && InStep(Up(todo, false)) && 0 <= id < |repo.rows|
      requires repo as object != account as object
      modifies this, repo, account
      ensures old(trace) <= trace && |trace| == |old(trace)| + 2
      ensures InStep(if recorded then Up(todo[1..], false) else Up([], false))
      ensures !recorded ==> trace[|trace| - 1] == Aborted && repo.rows == old(repo.rows)
      ensures recorded ==> |repo.rows| == |old(repo.rows)| && repo.rows == old(repo.rows)[id := repo.rows[id]]
                           && repo.rows[id].command == old(repo.rows)[id].command
                           && repo.rows[id].status == if attempt.ok then Done else Failed
      ensures account.effects == old(account.effects) + attempt.effects
      ensures Executes(old(repo.rows)[id].command, attempt)
    {
      hide After, Executes;
      var ok: bool;
      ghost var effects;
      ok, effects := ExecuteCommand(repo.rows[id].command);
      attempt := Attempt(ok, effects);
      AfterPush(trace, Attempted(id));
      trace := trace + [Attempted(id)];
      recorded := *;
      if !recorded {
        AfterPush(trace, Aborted);
        trace := trace + [Aborted];
        return;
      }
      var result := if ok then "done" else "error";
      repo.Complete(id, result, ok, at);
      AfterPush(trace, Recorded(id, ok, result, at));
      trace := trace + [Recorded(id, ok, result, at)];
    }

    // Returns whether it ended without an exception.
    method ExecuteCommand(command: string) returns (ok: bool, ghost effects: seq<Effect>)
      modifies this`managed, account
      ensures account.effects == old(account.effects) + effects && Executes(command, Attempt(ok, effects))
      ensures forall t :: t in managed <==> t in old(managed) && !Answered(effects, t)
    {
      effects := [];
      if command == "HALT" {
        account.Trip();
        return true, [Tripped];
      }
      if command == "FLATTEN" {
        account.Trip();
        var tickets := account.OurPositions();
        if tickets == None {
          return false, [Tripped, Asked(None)];
        }
        ghost var tries;
        ok, tries := CloseAll(tickets.value);
        effects := [Tripped, Asked(tickets)] + tries;
        assert effects[0] == Tripped && effects[1] == Asked(tickets) && effects[2..] == tries;
        assert account.effects == old(account.effects) + effects;
        return;
      }
      ok := false;
    }

    method CloseAll(tickets: seq<int>) returns (ok: bool, ghost tries: seq<Effect>)
      modifies this`managed, account
      ensures account.effects == old(account.effects) + tries
      ensures TriesAll(tickets, tries) && (ok <==> AllClosed(tries))
      ensures forall t :: t in managed <==> t in old(managed) && !Answered(tries, t)
    {
      var closed, failed := [], [];
      tries := [];
      for i := 0 to |tickets|
        invariant account.effects == old(account.effects) + tries
        invariant TriesAll(tickets[..i], tries) && (failed == [] <==> AllClosed(tries))
        invariant forall t :: t in managed <==> t in old(managed) && !Answered(tries, t)
      {
        var reply := account.ClosePosition(tickets[i]);
        ghost var tried := CloseTried(tickets[i], reply);
        TryPush(tries, tried);
        tries := tries + [tried];
        if reply == Closed {
          closed := closed + [tickets[i]];
        } else {
          failed := failed + [tickets[i]];
        }
        if reply != Threw {
          managed := managed - {tickets[i]};
        }
      }
      assert tickets[..|tickets|] == tickets;
      ok := failed == [];
    }
  }

  lemma TryPush(tries: seq<Effect>, e: Effect)
    requires e.CloseTried?
    ensures AllClosed(tries + [e]) <==> AllClosed(tries) && e.reply == Closed
    ensures forall t :: Answered(tries + [e], t) <==> Answered(tries, t) || (e.ticket == t && e.reply != Threw)
  {
    var longer := tries + [e];
    assert longer[|tries|] == e;
    assert forall i :: 0 <= i < |tries| ==> longer[i] == tries[i];
  }
}
