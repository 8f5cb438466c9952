/** The queue of operator commands (HALT and FLATTEN) that the dashboard writes and the engine
    executes (src/xauusd/database/repositories.py, OperatorCommandRepository).  Each method is one
    transaction.  The module ends with the system those transactions make together, in which the
    engine may crash between any two of them. */
module OperatorCommands {
  import opened Domain

  datatype Status = Queued | Claimed | Done | Failed

  datatype Row = Row(command: string, queuedAt: int, status: Status, claimedAt: Option<int>,
                     completedAt: Option<int>, result: Option<string>)
  {
    predicate Closed() { status == Done || status == Failed }
  }

  // The table: ids are handed out in order and rows are never deleted, so an id is a position.
  type Rows = seq<Row>

  const CLAIM_LIMIT: nat := 10

  predicate Known(command: string) {
    command == "HALT" || command == "FLATTEN"
  }

  function NewRow(command: string, at: int): Row {
    Row(command, at, Queued, None, None, None)
  }

  predicate Present(rows: Rows, c: int) {
    0 <= c < |rows|
  }

  predicate IsQueued(rows: Rows, c: int) {
    0 <= c < |rows| && rows[c].status == Queued
  }

  predicate IsClaimed(rows: Rows, c: int) {
    0 <= c < |rows| && rows[c].status == Claimed
  }

  // ---------------------------------------------------------------- what each transaction does

  /** A choice a claim may return: queued rows, oldest first, as many as the limit allows.  Rows
      queued at the same time may come in any order. */
  ghost predicate OldestFirst(rows: Rows, ids: seq<int>, limit: nat) {
    && |ids| <= limit
    && (forall i :: 0 <= i < |ids| ==> IsQueued(rows, ids[i]))
    && (forall i, j :: 0 <= i < j < |ids| ==> ids[i] != ids[j] && rows[ids[i]].queuedAt <= rows[ids[j]].queuedAt)
    && (forall c :: IsQueued(rows, c) && c !in ids ==> PassedOver(rows, ids, limit, c))
  }

  // Left in the queue: the limit was reached with rows at least as old.
  ghost predicate PassedOver(rows: Rows, ids: seq<int>, limit: nat, c: int) {
    && |ids| == limit && IsQueued(rows, c)
    && forall i :: 0 <= i < |ids| ==> IsQueued(rows, ids[i]) && rows[ids[i]].queuedAt <= rows[c].queuedAt
  }

  function ClaimRow(row: Row, at: int): Row {
    row.(status := Claimed, claimedAt := Some(at))
  }

  function ClaimRows(rows: Rows, ids: seq<int>, at: int): (r: Rows)
    ensures |r| == |rows|
  {
    seq(|rows|, i requires 0 <= i < |rows| => if i in ids then ClaimRow(rows[i], at) else rows[i])
  }

  function RequeueRow(row: Row): Row {
    if row.status == Claimed then row.(status := Queued, claimedAt := None) else row
  }

  function RequeueRows(rows: Rows): (r: Rows)
    ensures |r| == |rows|
  {
    seq(|rows|, i requires 0 <= i < |rows| => RequeueRow(rows[i]))
  }

  // Completing a missing row does nothing.
  function CompleteRow(rows: Rows, id: int, ok: bool, result: string, at: int): Rows {
    if id < 0 || id >= |rows| then rows
    else
      rows[id := rows[id].(status := if ok then Done else Failed, result := Some(result), completedAt := Some(at))]
  }

  class OperatorCommandRepository {
    var rows: Rows

    constructor ()
      ensures rows == []
    {
      rows := [];
    }

    // None is the error for an unknown command.
    method Queue(command: string, at: int) returns (id: Option<int>)
      modifies this
      ensures id == if Known(command) then Some(|old(rows)|) else None
      ensures rows == if Known(command) then old(rows) + [NewRow(command, at)] else old(rows)
      ensures id.Some? <==> command in ["HALT", "FLATTEN"]
      ensures id.Some? ==>
                && id.value == |old(rows)| && |rows| == |old(rows)| + 1 && old(rows) <= rows
                && rows[id.value].command == command && rows[id.value].queuedAt == at
                && rows[id.value].status == Queued && rows[id.value].claimedAt == None
                && rows[id.value].completedAt == None && rows[id.value].result == None
    {
      if !Known(command) {
        return None;
      }
      id := Some(|rows|);
      rows := rows + [NewRow(command, at)];
    }

    // Select the queued rows in order, then mark each.
    method ClaimPending(limit: nat, at: int) returns (ids: seq<int>)
      modifies this
      ensures OldestFirst(old(rows), ids, limit) && rows == ClaimRows(old(rows), ids, at)
      ensures |rows| == |old(rows)| && forall c :: 0 <= c < |rows| ==>
                rows[c] == if c in ids then old(rows)[c].(status := Claimed, claimedAt := Some(at)) else old(rows)[c]
    {
      hide PassedOver;
      ids := SelectQueued(limit);
      var i := 0;
      while i < |ids|
        invariant i <= |ids| && rows == ClaimRows(old(rows), ids[..i], at)
      {
        assert IsQueued(old(rows), ids[i]) && ids[i] !in ids[..i];
        rows := rows[ids[i] := ClaimRow(rows[ids[i]], at)];
        assert ids[..i + 1] == ids[..i] + [ids[i]];
        i := i + 1;
      }
      assert ids[..i] == ids;
    }

    method SelectQueued(limit: nat) returns (ids: seq<int>)
      ensures OldestFirst(rows, ids, limit)
    {
      ids := [];
      while |ids| < limit
        invariant |ids| <= limit
        invariant forall i :: 0 <= i < |ids| ==> IsQueued(rows, ids[i])
        invariant forall i, j :: 0 <= i < j < |ids| ==>
                      ids[i] != ids[j] && rows[ids[i]].queuedAt <= rows[ids[j]].queuedAt
        invariant forall i, c :: 0 <= i < |ids| && IsQueued(rows, c) && c !in ids ==>
                      rows[ids[i]].queuedAt <= rows[c].queuedAt
      {
        var oldest := Oldest(ids);
        if oldest == None {
          return;
        }
        ids := ids + [oldest.value];
      }
    }

    // The oldest queued row not taken yet.
    method Oldest(taken: seq<int>) returns (oldest: Option<int>)
      ensures oldest == None ==> forall c :: IsQueued(rows, c) ==> c in taken
      ensures oldest.Some? ==>
                && IsQueued(rows, oldest.value) && oldest.value !in taken
                && forall c :: IsQueued(rows, c) && c !in taken ==> rows[oldest.value].queuedAt <= rows[c].queuedAt
    {
      oldest := None;
      for c := 0 to |rows|
        invariant oldest == None ==> forall d :: 0 <= d < c && IsQueued(rows, d) ==> d in taken
        invariant oldest.Some? ==>
                    && IsQueued(rows, oldest.value) && oldest.value !in taken
                    && forall d :: 0 <= d < c && IsQueued(rows, d) && d !in taken ==>
                            rows[oldest.value].queuedAt <= rows[d].queuedAt
      {
        if rows[c].status == Queued && c !in taken
            && (oldest == None || rows[c].queuedAt < rows[oldest.value].queuedAt) {
          oldest := Some(c);
        }
      }
    }

    /** Claims left by an engine that died go back to the queue; `ids` lists them. */
    method RequeueStaleClaims() returns (ids: seq<int>)
      modifies this
      ensures rows == RequeueRows(old(rows))
      ensures forall c :: c in ids <==> IsClaimed(old(rows), c)
      ensures |rows| == |old(rows)| && forall c :: 0 <= c < |rows| ==>
                rows[c] == if c in ids then old(rows)[c].(status := Queued, claimedAt := None) else old(rows)[c]
    {
      ids := [];
      for c := 0 to |rows|
        invariant |rows| == |old(rows)|
        invariant forall d :: 0 <= d < |rows| ==> rows[d] == if d < c then RequeueRow(old(rows)[d]) else old(rows)[d]
        invariant forall d :: d in ids <==> d < c && IsClaimed(old(rows), d)
      {
        if rows[c].status == Claimed {
          rows := rows[c := rows[c].(status := Queued, claimedAt := None)];
          ids := ids + [c];
        }
      }
    }

    method Complete(id: int, result: string, ok: bool, at: int)
      modifies this
      ensures rows == CompleteRow(old(rows), id, ok, result, at)
      ensures |rows| == |old(rows)| && forall c :: 0 <= c < |rows| ==>
                if c != id then rows[c] == old(rows)[c]
                else
                  && rows[c].command == old(rows)[c].command && rows[c].queuedAt == old(rows)[c].queuedAt
                  && rows[c].claimedAt == old(rows)[c].claimedAt && rows[c].completedAt == Some(at)
                  && rows[c].result == Some(result) && rows[c].status == if ok then Done else Failed
    {
      if 0 <= id < |rows| {
        var status := if ok then Done else Failed;
        rows := rows[id := rows[id].(status := status, result := Some(result), completedAt := Some(at))];
      }
    }
  }

  // ---------------------------------------------------------------- the system

  /** One engine at a time.  `todo` are the claimed commands it holds in memory, and `attempted`
      says that the first of them has been executed but not recorded yet. */
  datatype Engine = Down | Up(todo: seq<int>, attempted: bool)

  datatype System = System(rows: Rows, engine: Engine)

  datatype Event =
    | QueuedUp(command: string, at: int)          // the dashboard, at any time
    | Started                                     // start-up, with its requeue step
    | Drained(ids: seq<int>, at: int)             // a claim
    | Attempted(id: int)
    | Recorded(id: int, ok: bool, result: string, at: int)
    | Aborted                                     // recording failed: the rest of the batch is dropped
    | Crashed

  // None when the event cannot happen in this state.
  ghost function Step(s: System, e: Event): Option<System> {
    match e
    case QueuedUp(command, at) =>
      if Known(command) then Some(s.(rows := s.rows + [NewRow(command, at)])) else None
    case Started =>
      if s.engine.Down? then Some(System(RequeueRows(s.rows), Up([], false))) else None
    case Drained(ids, at) =>
      if s.engine == Up([], false) && OldestFirst(s.rows, ids, CLAIM_LIMIT) then
        Some(System(ClaimRows(s.rows, ids, at), Up(ids, false)))
      else None
    case Attempted(id) =>
      if s.engine.Up? && !s.engine.attempted && s.engine.todo != [] && s.engine.todo[0] == id then
        Some(s.(engine := Up(s.engine.todo, true)))
      else None
    case Recorded(id, ok, result, at) =>
      if s.engine.Up? && s.engine.attempted && s.engine.todo != [] && s.engine.todo[0] == id then
        Some(System(CompleteRow(s.rows, id, ok, result, at), Up(s.engine.todo[1..], false)))
      else None
    case Aborted =>
      if s.engine.Up? && s.engine.attempted then Some(s.(engine := Up([], false))) else None
    case Crashed =>
      if s.engine.Up? then Some(s.(engine := Down)) else None
  }

  // The state after a trace, from an empty table; None for a trace that cannot happen.
  ghost function After(trace: seq<Event>): Option<System> {
    if trace == [] then Some(System([], Down))
    else
      match After(trace[..|trace| - 1])
      case None => None
      case Some(s) => Step(s, trace[|trace| - 1])
  }

  lemma AfterPush(trace: seq<Event>, e: Event)
    ensures After(trace + [e]) == match After(trace) case None => None case Some(s) => Step(s, e)
  {
    assert (trace + [e])[..|trace|] == trace;
  }

  // ---------------------------------------------------------------- what happened to one command

  /** How often a command was claimed, found claimed by a start-up, attempted, and attempted since
      the last start-up. */
  datatype Tally = Tally(claims: nat, requeues: nat, attempts: nat, thisLife: nat)

  ghost function Count(s: System, t: Tally, e: Event, c: int): Tally {
    match e
    case Started => t.(requeues := t.requeues + (if IsClaimed(s.rows, c) then 1 else 0), thisLife := 0)
    case Drained(ids, _) => if c in ids then t.(claims := t.claims + 1) else t
    case Attempted(id) => if id == c then t.(attempts := t.attempts + 1, thisLife := t.thisLife + 1) else t
    case _ => t
  }

  ghost function TallyOf(trace: seq<Event>, c: int): Tally
    requires After(trace).Some?
  {
    if trace == [] then Tally(0, 0, 0, 0)
    else
      var front := trace[..|trace| - 1];
      Count(After(front).value, TallyOf(front, c), trace[|trace| - 1], c)
  }

  // Held in memory and not executed yet.
  ghost predicate Waiting(engine: Engine, c: int) {
    engine.Up? && exists i :: 0 <= i < |engine.todo| && engine.todo[i] == c && (i > 0 || !engine.attempted)
  }

  // The commands in memory are claimed, each once.
  ghost predicate Coherent(s: System) {
    s.engine.Up? ==>
      var todo := s.engine.todo;
      && (s.engine.attempted ==> todo != [])
      && (forall i :: 0 <= i < |todo| ==> IsClaimed(s.rows, todo[i]))
      && (forall i, j :: 0 <= i < j < |todo| ==> todo[i] != todo[j])
  }

  ghost predicate Tallied(s: System, t: Tally, c: int) {
    && (!Present(s.rows, c) ==> t == Tally(0, 0, 0, 0))
    && t.claims == t.requeues + (if Present(s.rows, c) && s.rows[c].status != Queued then 1 else 0)
    && t.attempts <= t.claims && t.thisLife <= 1
    && (IsQueued(s.rows, c) ==> t.thisLife == 0)
    && (Present(s.rows, c) && s.rows[c].Closed() ==> t.attempts >= 1)
    && (Waiting(s.engine, c) ==> t.thisLife == 0 && t.attempts < t.claims)
    && (s.engine.Up? && s.engine.attempted && s.engine.todo != [] && s.engine.todo[0] == c ==> t.attempts >= 1)
  }

  lemma StepKeepsCoherence(s: System, e: Event)
    requires Coherent(s) && Step(s, e).Some?
    ensures Coherent(Step(s, e).value)
  {
    hide PassedOver;
    if e.Drained? {
      assert forall i :: 0 <= i < |e.ids| ==> IsQueued(s.rows, e.ids[i]);
    }
  }

  lemma StepKeepsTally(s: System, e: Event, t: Tally, c: int)
    requires Coherent(s) && Step(s, e).Some? && Tallied(s, t, c)
    ensures Tallied(Step(s, e).value, Count(s, t, e, c), c)
  {
    hide PassedOver;
    match e
    case Drained(ids, _) =>
      if c in ids {
        assert IsQueued(s.rows, c);
      }
    case Attempted(id) =>
      assert Waiting(s.engine, s.engine.todo[0]);
    case Recorded(id, _, _, _) =>
      assert forall i :: 0 <= i < |s.engine.todo[1..]| ==> s.engine.todo[1..][i] == s.engine.todo[i + 1];
    case _ =>
  }

  lemma {:induction false} TallyHolds(trace: seq<Event>, c: int)
    requires After(trace).Some?
    ensures Coherent(After(trace).value) && Tallied(After(trace).value, TallyOf(trace, c), c)
  {
    if trace != [] {
      hide Coherent, Tallied, Step, Count;
      var front := trace[..|trace| - 1];
      TallyHolds(front, c);
      StepKeepsCoherence(After(front).value, trace[|trace| - 1]);
      StepKeepsTally(After(front).value, trace[|trace| - 1], TallyOf(front, c), c);
    }
  }

  // ---------------------------------------------------------------- what survives every crash

  /** Over every trace, crashes anywhere: a closed command was attempted; every claim but a current
      one was returned by a start-up that found it unfinished; so a command is attempted at most
      once in one engine life and a second time only after such a return. */
  lemma CommandsAreAccountedFor(trace: seq<Event>, c: int)
    requires After(trace).Some? && Present(After(trace).value.rows, c)
    ensures var row, t := After(trace).value.rows[c], TallyOf(trace, c);
            && (row.Closed() ==> t.attempts >= 1)
            && t.claims == t.requeues + (if row.status == Queued then 0 else 1)
            && t.attempts <= t.claims <= t.requeues + 1
            && t.thisLife <= 1
            && (t.attempts >= 2 ==> t.requeues >= 1)
  {
    TallyHolds(trace, c);
  }

  // The same command, and if it was closed the same row.
  predicate Continues(before: Rows, now: Rows, c: int) {
    Present(before, c) ==>
      && Present(now, c) && now[c].command == before[c].command && now[c].queuedAt == before[c].queuedAt
      && (before[c].Closed() ==> now[c] == before[c])
  }

  lemma StepContinues(s: System, e: Event, c: int)
    requires Coherent(s) && Step(s, e).Some?
    ensures Continues(s.rows, Step(s, e).value.rows, c)
  {
    hide PassedOver;
    match e
    case Drained(ids, _) =>
      assert forall i :: 0 <= i < |ids| ==> IsQueued(s.rows, ids[i]);
    case Recorded(id, _, _, _) =>
      assert IsClaimed(s.rows, s.engine.todo[0]);
    case _ =>
  }

  /** No queued command is ever lost, and a closed one never changes again. */
  lemma {:induction false} NothingIsLost(trace: seq<Event>, more: seq<Event>, c: int)
    requires After(trace + more).Some?
    ensures After(trace).Some? && Continues(After(trace).value.rows, After(trace + more).value.rows, c)
    decreases |more|
  {
    if more == [] {
      assert trace + more == trace;
    } else {
      hide Step, Coherent;
      var front, e := more[..|more| - 1], more[|more| - 1];
      assert trace + more == (trace + front) + [e];
      AfterPush(trace + front, e);
      NothingIsLost(trace, front, c);
      TallyHolds(trace + front, c);
      StepContinues(After(trace + front).value, e, c);
    }
  }

  /** After the requeue step of a start-up nothing is claimed, what was claimed waits again, and
      every other row is untouched. */
  lemma StartupRequeues(trace: seq<Event>, c: int)
    requires After(trace + [Started]).Some?
    ensures var before, now := After(trace).value.rows, After(trace + [Started]).value.rows;
            && !IsClaimed(now, c)
            && (Present(before, c) ==> (IsQueued(now, c) <==> IsQueued(before, c) || IsClaimed(before, c)))
            && (Present(before, c) && !IsClaimed(before, c) ==> now[c] == before[c])
  {
    AfterPush(trace, Started);
  }

  // No recording failed in the current engine life.
  ghost predicate Unaborted(trace: seq<Event>) {
    if trace == [] then true
    else
      var e := trace[|trace| - 1];
      e.Started? || (!e.Aborted? && Unaborted(trace[..|trace| - 1]))
  }

  lemma StepKeepsInHand(s: System, e: Event, c: int)
    requires Coherent(s) && Step(s, e).Some? && !e.Aborted?
    requires e.Started? || s.engine.Down? || (IsClaimed(s.rows, c) <==> c in s.engine.todo)
    ensures var now := Step(s, e).value; now.engine.Up? ==> (IsClaimed(now.rows, c) <==> c in now.engine.todo)
  {
    hide PassedOver;
    match e
    case Recorded(id, _, _, _) =>
      assert s.engine.todo == [s.engine.todo[0]] + s.engine.todo[1..];
      assert forall i :: 0 <= i < |s.engine.todo[1..]| ==> s.engine.todo[1..][i] == s.engine.todo[i + 1];
    case Drained(ids, _) =>
      assert forall i :: 0 <= i < |ids| ==> IsQueued(s.rows, ids[i]);
    case _ =>
  }

  /** While an engine runs, a claimed command is one it holds in memory: nothing is stranded
      except by a crash, until the next start, or by a failure to record. */
  lemma {:induction false} ClaimedIsInHand(trace: seq<Event>, c: int)
    requires After(trace).Some? && Unaborted(trace)
    ensures var s := After(trace).value; s.engine.Up? ==> (IsClaimed(s.rows, c) <==> c in s.engine.todo)
  {
    if trace != [] {
      hide Step, Coherent;
      var front, e := trace[..|trace| - 1], trace[|trace| - 1];
      TallyHolds(front, c);
      if !e.Started? {
        ClaimedIsInHand(front, c);
      }
      StepKeepsInHand(After(front).value, e, c);
    }
  }

  // ---------------------------------------------------------------- bounded waiting

  // The other queued commands at least as old.
  ghost function Ahead(rows: Rows, c: int): set<int>
    requires Present(rows, c)
  {
    set i | 0 <= i < |rows| && i != c && rows[i].status == Queued && rows[i].queuedAt <= rows[c].queuedAt
  }

  lemma {:induction false} DistinctCount(ids: seq<int>)
    requires forall i, j :: 0 <= i < j < |ids| ==> ids[i] != ids[j]
    ensures |set id | id in ids| == |ids|
  {
    if ids == [] {
      assert (set id | id in ids) == {};
    } else {
      var front, last := ids[..|ids| - 1], ids[|ids| - 1];
      DistinctCount(front);
      assert last !in front;
      assert (set id | id in ids) == (set id | id in front) + {last};
    }
  }

  /** A claim takes a queued command or brings it exactly a full batch nearer: `CLAIM_LIMIT`
      commands at least as old go first. */
  lemma ClaimTakesItOrComesNearer(rows: Rows, ids: seq<int>, at: int, c: int)
    requires OldestFirst(rows, ids, CLAIM_LIMIT) && IsQueued(rows, c)
    ensures c in ids
            || (IsQueued(ClaimRows(rows, ids, at), c)
                && |Ahead(ClaimRows(rows, ids, at), c)| == |Ahead(rows, c)| - CLAIM_LIMIT)
  {
    if c !in ids {
      assert PassedOver(rows, ids, CLAIM_LIMIT, c);
      assert forall i :: 0 <= i < |ids| ==> IsQueued(rows, ids[i]);
      var taken := set id | id in ids;
      DistinctCount(ids);
      assert Ahead(ClaimRows(rows, ids, at), c) == Ahead(rows, c) - taken;
      assert taken <= Ahead(rows, c);
    }
  }

  // With fewer than a batch ahead of it, a queued command is in the next claim.
  lemma NextClaimTakesIt(rows: Rows, ids: seq<int>, at: int, c: int)
    requires OldestFirst(rows, ids, CLAIM_LIMIT) && IsQueued(rows, c) && |Ahead(rows, c)| < CLAIM_LIMIT
    ensures c in ids
  {
    ClaimTakesItOrComesNearer(rows, ids, at, c);
  }
}
