/** Correlation budgets (src/xauusd/risk/correlation.py): a proposed trade is judged against the
    open book, and the question is what the book can come to look like over any run of entries so
    approved, entries of the other engines that no budget judges, and exits at any time. */
module Correlation {
  import opened Domain
  import opened Sequences

  // One open position, or a proposed one opening now.  Only the scalp engine's trades are judged by
  // the budgets; the others on the book are opened by the other engines of the account.
  datatype Exposure = Exposure(direction: Direction, risk: real, stop: real, openedAt: int, model: string,
      pool: Option<real>, judged: bool)

  datatype Limits = Limits(totalRisk: real, directionShare: real, zoneAtr: real, window: int, maxSameModel: nat) {
    function DirectionCap(): real { totalRisk * directionShare }
  }

  // ---------------------------------------------------------------- one decision

  function Facing(book: seq<Exposure>, d: Direction): real {
    if book == [] then 0.0
    else Facing(book[..|book| - 1], d) + if book[|book| - 1].direction == d then book[|book| - 1].risk else 0.0
  }

  function CountModel(book: seq<Exposure>, model: string): nat {
    if book == [] then 0
    else CountModel(book[..|book| - 1], model) + if book[|book| - 1].model == model then 1 else 0
  }

  predicate SameZone(limits: Limits, atr: real, a: Exposure, b: Exposure) {
    Abs(a.stop - b.stop) <= limits.zoneAtr * atr
  }

  predicate SamePool(atr: real, a: Exposure, b: Exposure) {
    a.pool.Some? && b.pool.Some? && Abs(a.pool.value - b.pool.value) <= 0.25 * atr
  }

  // Opened by the same model and still inside the burst window when `b` opens.
  predicate SameBurst(limits: Limits, a: Exposure, b: Exposure) {
    a.model == b.model && a.openedAt >= b.openedAt - limits.window
  }

  // The checks corr.same_direction, corr.same_zone, corr.same_pool and corr.same_setup.
  datatype Budget = DirectionShare | StopZone | OneTarget | SetupBurst

  // The budgets in the order they are checked; each one is checked even after another failed.
  function Blocking(limits: Limits, atr: real, book: seq<Exposure>, p: Exposure): seq<Budget> {
    (if Facing(book, p.direction) + p.risk <= limits.DirectionCap() then [] else [DirectionShare])
    + (if exists i :: 0 <= i < |book| && SameZone(limits, atr, book[i], p) then [StopZone] else [])
    + (if exists i :: 0 <= i < |book| && SamePool(atr, book[i], p) then [OneTarget] else [])
    + (if (forall i :: 0 <= i < |book| ==> !SameBurst(limits, book[i], p))
        && CountModel(book, p.model) < limits.maxSameModel
       then [] else [SetupBurst])
  }

  predicate Approved(limits: Limits, atr: real, book: seq<Exposure>, p: Exposure) {
    Blocking(limits, atr, book, p) == []
  }

  lemma ApprovedMeaning(limits: Limits, atr: real, book: seq<Exposure>, p: Exposure)
    ensures Approved(limits, atr, book, p) <==>
            && Facing(book, p.direction) + p.risk <= limits.DirectionCap()
            && (forall i :: 0 <= i < |book| ==> !SameZone(limits, atr, book[i], p))
            && (forall i :: 0 <= i < |book| ==> !SamePool(atr, book[i], p))
            && (forall i :: 0 <= i < |book| ==> !SameBurst(limits, book[i], p))
            && CountModel(book, p.model) < limits.maxSameModel
  {
    hide SameZone, SamePool, SameBurst, Facing, CountModel;
  }

  // Stops within the zone; targets in one pool; one model inside the window.
  predicate StopsNear(limits: Limits, atr: real, a: Exposure, p: Exposure) {
    -(limits.zoneAtr * atr) <= a.stop - p.stop <= limits.zoneAtr * atr
  }

  predicate OnePool(atr: real, a: Exposure, p: Exposure) {
    a.pool.Some? && p.pool.Some? && -0.25 * atr <= a.pool.value - p.pool.value <= 0.25 * atr
  }

  predicate OneBurst(limits: Limits, a: Exposure, p: Exposure) {
    a.model == p.model && p.openedAt - a.openedAt <= limits.window
  }

  // A trade this near an open one is the same bet.
  predicate SameBet(limits: Limits, atr: real, a: Exposure, p: Exposure) {
    StopsNear(limits, atr, a, p) || OnePool(atr, a, p) || OneBurst(limits, a, p)
  }

  /** Approval in numbers: the risk facing the trade's way stays within the share of the total, no
      open position is the same bet, and its model has room for one more. */
  lemma ApprovedExactlyWhen(limits: Limits, atr: real, book: seq<Exposure>, p: Exposure)
    ensures Approved(limits, atr, book, p) <==>
            && Facing(book, p.direction) + p.risk <= limits.totalRisk * limits.directionShare
            && (forall i :: 0 <= i < |book| ==> !SameBet(limits, atr, book[i], p))
            && CountModel(book, p.model) < limits.maxSameModel
  {
    hide Approved, Facing, CountModel;
    ApprovedMeaning(limits, atr, book, p);
  }

  // Which budgets a refusal names: each one that fails, whatever the others say.
  lemma BlockingNames(limits: Limits, atr: real, book: seq<Exposure>, p: Exposure)
    ensures var blocking := Blocking(limits, atr, book, p);
            && (DirectionShare in blocking <==>
                  Facing(book, p.direction) + p.risk > limits.totalRisk * limits.directionShare)
            && (StopZone in blocking <==> exists i :: 0 <= i < |book| && StopsNear(limits, atr, book[i], p))
            && (OneTarget in blocking <==> exists i :: 0 <= i < |book| && OnePool(atr, book[i], p))
            && (SetupBurst in blocking <==>
                  || CountModel(book, p.model) >= limits.maxSameModel
                  || exists i :: 0 <= i < |book| && OneBurst(limits, book[i], p))
  {
    hide Facing, CountModel, Blocking, SameZone, SamePool, SameBurst, StopsNear, OnePool, OneBurst;
    NamesOf(limits, atr, book, p);
    forall i | 0 <= i < |book|
      ensures SameZone(limits, atr, book[i], p) <==> StopsNear(limits, atr, book[i], p)
      ensures SamePool(atr, book[i], p) <==> OnePool(atr, book[i], p)
      ensures SameBurst(limits, book[i], p) <==> OneBurst(limits, book[i], p)
    {
      SameAsNear(limits, atr, book[i], p);
    }
  }

  lemma SameAsNear(limits: Limits, atr: real, a: Exposure, p: Exposure)
    ensures SameZone(limits, atr, a, p) <==> StopsNear(limits, atr, a, p)
    ensures SamePool(atr, a, p) <==> OnePool(atr, a, p)
    ensures SameBurst(limits, a, p) <==> OneBurst(limits, a, p)
  {
  }

  lemma NamesOf(limits: Limits, atr: real, book: seq<Exposure>, p: Exposure)
    ensures var blocking := Blocking(limits, atr, book, p);
            && (DirectionShare in blocking <==> Facing(book, p.direction) + p.risk > limits.DirectionCap())
            && (StopZone in blocking <==> exists i :: 0 <= i < |book| && SameZone(limits, atr, book[i], p))
            && (OneTarget in blocking <==> exists i :: 0 <= i < |book| && SamePool(atr, book[i], p))
            && (SetupBurst in blocking <==>
                  || CountModel(book, p.model) >= limits.maxSameModel
                  || exists i :: 0 <= i < |book| && SameBurst(limits, book[i], p))
  {
    hide Facing, CountModel, SameZone, SamePool, SameBurst, Limits.DirectionCap;
  }

  // ---------------------------------------------------------------- how the callers show the book

  /** What a caller of the budgets passes in for its open positions: the exposures as they were
      proposed; as the live engine shows them, every position of every engine with the one risk
      configured for scalps, no model and no pool (src/xauusd/engine/orchestrator.py); or as the
      backtester does, without even a risk (src/xauusd/backtesting/engine.py).  The live engine's
      orders carry a stop rounded to the quote unit, the backtester's the stop as judged. */
  datatype View = AsProposed | AsLive(risk: real, unit: real) | AsBacktested {
    predicate Valid() {
      AsLive? ==> risk > 0.0 && unit > 0.0
    }

    function Show(e: Exposure): Exposure {
      match this
      case AsProposed => e
      case AsLive(risk, _) => e.(risk := risk, model := "", pool := None)
      case AsBacktested => e.(risk := 0.0, model := "", pool := None)
    }

    function Book(book: seq<Exposure>): (r: seq<Exposure>)
      ensures |r| == |book|
    {
      seq(|book|, i requires 0 <= i < |book| => Show(book[i]))
    }

    // The position an approved proposal becomes.
    function Filled(p: Exposure): Exposure
      requires Valid()
    {
      if AsLive? then p.(stop := NormalizePrice(p.stop, unit)) else p
    }

    // How far apart two judged stops are sure to be, once filled.
    function Gap(limits: Limits, atr: real): real {
      limits.zoneAtr * atr - if AsLive? then 0.5 * unit else 0.0
    }
  }

  // Positions facing a direction.
  function CountFacing(book: seq<Exposure>, d: Direction): nat {
    if book == [] then 0
    else CountFacing(book[..|book| - 1], d) + if book[|book| - 1].direction == d then 1 else 0
  }

  lemma ShownPush(view: View, front: seq<Exposure>, last: Exposure)
    ensures view.Book(front + [last]) == view.Book(front) + [view.Show(last)]
    ensures view.Book([]) == []
  {
    hide View.Show;
    assert view.Book([]) == [];
    forall i | 0 <= i <= |front|
      ensures view.Book(front + [last])[i] == (view.Book(front) + [view.Show(last)])[i]
    {
    }
  }

  lemma CountFacingPush(front: seq<Exposure>, last: Exposure, d: Direction)
    ensures CountFacing(front + [last], d) == CountFacing(front, d) + if last.direction == d then 1 else 0
  {
    assert (front + [last])[..|front|] == front;
  }

  lemma {:induction false} ShownCount(view: View, book: seq<Exposure>, d: Direction)
    requires view.AsLive?
    ensures Facing(view.Book(book), d) == CountFacing(book, d) as real * view.risk
  {
    hide View.Book, Facing, CountFacing;
    if book == [] {
      NothingShown(view, d, "");
    } else {
      var front, last := book[..|book| - 1], book[|book| - 1];
      assert book == front + [last];
      ShownCount(view, front, d);
      ShownPush(view, front, last);
      CountFacingPush(front, last, d);
      TotalsAppend(view.Book(front), [view.Show(last)], d, "");
      TotalsOne(view.Show(last), d, "");
    }
  }

  lemma NothingShown(view: View, d: Direction, m: string)
    ensures view.Book([]) == [] && Facing([], d) == 0.0 && CountModel([], m) == 0 && CountFacing([], d) == 0
    ensures Judged([]) == []
  {
    assert view.Book([]) == [];
  }

  lemma {:induction false} ShownTotals(view: View, book: seq<Exposure>, d: Direction, m: string)
    ensures view == AsProposed ==> view.Book(book) == book
    ensures view.AsLive? ==> Facing(view.Book(book), d) == CountFacing(book, d) as real * view.risk
    ensures view == AsBacktested ==> Facing(view.Book(book), d) == 0.0
    ensures view != AsProposed && m != "" ==> CountModel(view.Book(book), m) == 0
  {
    hide View.Book, Facing, CountModel, CountFacing;
    if view.AsLive? {
      ShownCount(view, book, d);
    }
    if book == [] {
      NothingShown(view, d, m);
    } else {
      var front, last := book[..|book| - 1], book[|book| - 1];
      assert book == front + [last];
      ShownTotals(view, front, d, m);
      ShownPush(view, front, last);
      TotalsAppend(view.Book(front), [view.Show(last)], d, m);
      TotalsOne(view.Show(last), d, m);
    }
  }

  /** Neither caller shows models or pools, so for a trade of a named model only two budgets look
      at the book: the direction cap, against the shown risks, and the zone of the current stops. */
  lemma CallersSeeDirectionAndStops(limits: Limits, atr: real, view: View, book: seq<Exposure>, p: Exposure)
    requires view != AsProposed && p.model != "" && limits.maxSameModel > 0
    ensures Approved(limits, atr, view.Book(book), p) <==>
            && Facing(view.Book(book), p.direction) + p.risk <= limits.DirectionCap()
            && (forall i :: 0 <= i < |book| ==> !SameZone(limits, atr, book[i], p))
    ensures view == AsBacktested ==> Facing(view.Book(book), p.direction) == 0.0
  {
    hide Facing, CountModel, Blocking, Approved;
    var seen := view.Book(book);
    ApprovedMeaning(limits, atr, seen, p);
    ShownTotals(view, book, p.direction, p.model);
    assert forall i :: 0 <= i < |book| ==> SameZone(limits, atr, seen[i], p) == SameZone(limits, atr, book[i], p);
  }

  /** In the backtester the book counts only through its stops: approval depends on the trade's own
      risk and on the zone check, whatever else is open. */
  lemma BacktesterSeesOnlyStops(limits: Limits, atr: real, book: seq<Exposure>, p: Exposure)
    requires p.model != "" && limits.maxSameModel > 0
    ensures Approved(limits, atr, AsBacktested.Book(book), p) <==>
            && p.risk <= limits.DirectionCap()
            && (forall i :: 0 <= i < |book| ==> !SameZone(limits, atr, book[i], p))
  {
    hide Approved, SameZone;
    CallersSeeDirectionAndStops(limits, atr, AsBacktested, book, p);
  }

  // ---------------------------------------------------------------- every run

  // A judged trade is proposed; an unjudged one of another engine just opens.
  datatype Event = Enter(p: Exposure) | Opened(p: Exposure) | Leave(at: nat) | StopMoved(at: nat, stop: real)

  function Remove(book: seq<Exposure>, at: nat): seq<Exposure> {
    if at < |book| then book[..at] + book[at + 1..] else book
  }

  function StepBook(limits: Limits, atr: real, view: View, book: seq<Exposure>, e: Event): seq<Exposure>
    requires view.Valid()
  {
    match e
    case Enter(p) => if Approved(limits, atr, view.Book(book), p) then book + [view.Filled(p)] else book
    case Opened(p) => book + [p]
    case Leave(at) => Remove(book, at)
    case StopMoved(at, stop) => if at < |book| then book[at := book[at].(stop := stop)] else book
  }

  function BookAfter(limits: Limits, atr: real, view: View, events: seq<Event>): seq<Exposure>
    requires view.Valid()
  {
    if events == [] then []
    else StepBook(limits, atr, view, BookAfter(limits, atr, view, events[..|events| - 1]), events[|events| - 1])
  }

  // A position with a risk; a judged one has a named model and, in the live engine, the risk
  // configured for scalps, which is what the pipeline proposes it with.
  predicate SaneTrade(view: View, p: Exposure) {
    p.risk >= 0.0 && (p.judged ==> p.model != "" && (view.AsLive? ==> p.risk == view.risk))
  }

  ghost predicate Sane(view: View, events: seq<Event>) {
    forall i :: 0 <= i < |events| ==>
      && (events[i].Enter? ==> events[i].p.judged && SaneTrade(view, events[i].p))
      && (events[i].Opened? ==> !events[i].p.judged && SaneTrade(view, events[i].p))
  }

  // No stop was moved while its position was open.
  ghost predicate StopsHeld(events: seq<Event>) {
    forall i :: 0 <= i < |events| ==> !events[i].StopMoved?
  }

  ghost predicate NoOtherEngine(events: seq<Event>) {
    forall i :: 0 <= i < |events| ==> !events[i].Opened?
  }

  function Judged(book: seq<Exposure>): seq<Exposure> {
    Filter(book, (e: Exposure) => e.judged)
  }

  // What the direction budget is for.
  ghost predicate DirectionCapped(limits: Limits, book: seq<Exposure>) {
    forall d :: Facing(book, d) <= limits.DirectionCap()
  }

  // What the zone budget is for: a judged stop is further than `gap` from every earlier one.
  ghost predicate StopsApart(gap: real, book: seq<Exposure>) {
    forall i, j :: 0 <= i < j < |book| && book[j].judged ==> Abs(book[i].stop - book[j].stop) > gap
  }

  // What the pool and setup budgets are for; the later of two positions against the earlier.
  predicate DistinctSetups(limits: Limits, atr: real, a: Exposure, b: Exposure) {
    && (a.pool.Some? && b.pool.Some? ==> Abs(a.pool.value - b.pool.value) > 0.25 * atr)
    && (a.model == b.model ==> b.openedAt - a.openedAt > limits.window)
  }

  ghost predicate SetupsApart(limits: Limits, atr: real, book: seq<Exposure>) {
    forall i, j :: 0 <= i < j < |book| && book[j].judged ==> DistinctSetups(limits, atr, book[i], book[j])
  }

  ghost predicate ModelsCapped(limits: Limits, book: seq<Exposure>) {
    forall m :: CountModel(book, m) <= limits.maxSameModel
  }

  ghost predicate SetupsSpread(limits: Limits, atr: real, book: seq<Exposure>) {
    ModelsCapped(limits, Judged(book)) && SetupsApart(limits, atr, book)
  }

  ghost predicate Traded(view: View, book: seq<Exposure>) {
    forall i :: 0 <= i < |book| ==> SaneTrade(view, book[i])
  }

  lemma {:induction false} TotalsAppend(a: seq<Exposure>, b: seq<Exposure>, d: Direction, m: string)
    ensures Facing(a + b, d) == Facing(a, d) + Facing(b, d)
    ensures CountModel(a + b, m) == CountModel(a, m) + CountModel(b, m)
  {
    if b == [] {
      assert a + b == a;
    } else {
      assert (a + b)[..|a + b| - 1] == a + b[..|b| - 1];
      TotalsAppend(a, b[..|b| - 1], d, m);
    }
  }

  lemma TotalsOne(e: Exposure, d: Direction, m: string)
    ensures Facing([e], d) == if e.direction == d then e.risk else 0.0
    ensures CountModel([e], m) == if e.model == m then 1 else 0
    ensures Facing([], d) == 0.0 && CountModel([], m) == 0
    ensures Judged([e]) == (if e.judged then [e] else []) && Judged([]) == []
  {
    assert [e][..0] == [];
    JudgedPush([], e);
    assert [] + [e] == [e];
  }

  // Putting `rest` in the place of one position.
  lemma Replaced(book: seq<Exposure>, at: nat, rest: seq<Exposure>, d: Direction, m: string)
    requires at < |book|
    ensures var now := book[..at] + rest + book[at + 1..];
            && Facing(now, d) == Facing(book, d) - Facing([book[at]], d) + Facing(rest, d)
            && CountModel(now, m) == CountModel(book, m) - CountModel([book[at]], m) + CountModel(rest, m)
            && Facing(Judged(now), d)
               == Facing(Judged(book), d) - Facing(Judged([book[at]]), d) + Facing(Judged(rest), d)
            && CountModel(Judged(now), m)
               == CountModel(Judged(book), m) - CountModel(Judged([book[at]]), m) + CountModel(Judged(rest), m)
  {
    hide Facing, CountModel, Judged;
    assert book == book[..at] + [book[at]] + book[at + 1..];
    Around(book[..at], [book[at]], book[at + 1..], d, m);
    Around(book[..at], rest, book[at + 1..], d, m);
  }

  lemma Around(a: seq<Exposure>, b: seq<Exposure>, c: seq<Exposure>, d: Direction, m: string)
    ensures Facing(a + b + c, d) == Facing(a, d) + Facing(b, d) + Facing(c, d)
    ensures CountModel(a + b + c, m) == CountModel(a, m) + CountModel(b, m) + CountModel(c, m)
    ensures Facing(Judged(a + b + c), d) == Facing(Judged(a), d) + Facing(Judged(b), d) + Facing(Judged(c), d)
    ensures CountModel(Judged(a + b + c), m)
            == CountModel(Judged(a), m) + CountModel(Judged(b), m) + CountModel(Judged(c), m)
  {
    hide Facing, CountModel;
    var keep := (e: Exposure) => e.judged;
    TotalsAppend(a + b, c, d, m);
    TotalsAppend(a, b, d, m);
    FilterAppend(a + b, c, keep);
    FilterAppend(a, b, keep);
    TotalsAppend(Judged(a) + Judged(b), Judged(c), d, m);
    TotalsAppend(Judged(a), Judged(b), d, m);
  }

  lemma JudgedPush(book: seq<Exposure>, p: Exposure)
    ensures Judged(book + [p]) == Judged(book) + if p.judged then [p] else []
  {
    assert (book + [p])[..|book|] == book;
  }

  // Whatever leaves, moves or opens unjudged, the judged totals do not rise.
  lemma OneTotalKept(limits: Limits, atr: real, view: View, book: seq<Exposure>, e: Event, d: Direction, m: string)
    requires view.Valid() && !e.Enter? && (e.Opened? ==> !e.p.judged) && Traded(view, book)
    ensures var now := StepBook(limits, atr, view, book, e);
            && Facing(Judged(now), d) <= Facing(Judged(book), d)
            && CountModel(Judged(now), m) <= CountModel(Judged(book), m)
  {
    hide Facing, CountModel, Approved, Judged;
    if e.Opened? {
      JudgedPush(book, e.p);
      assert Judged(book) + [] == Judged(book);
    } else if e.at < |book| {
      var rest := if e.Leave? then [] else [book[e.at].(stop := e.stop)];
      assert StepBook(limits, atr, view, book, e) == book[..e.at] + rest + book[e.at + 1..];
      Replaced(book, e.at, rest, d, m);
      TotalsOne(book[e.at], d, m);
      TotalsOne(book[e.at].(stop := if e.StopMoved? then e.stop else 0.0), d, m);
    }
  }

  lemma TotalsKept(limits: Limits, atr: real, view: View, book: seq<Exposure>, e: Event)
    requires view.Valid() && !e.Enter? && Traded(view, book)
    requires e.Opened? ==> !e.p.judged && SaneTrade(view, e.p)
    ensures var now := StepBook(limits, atr, view, book, e);
            && (DirectionCapped(limits, Judged(book)) ==> DirectionCapped(limits, Judged(now)))
            && (ModelsCapped(limits, Judged(book)) ==> ModelsCapped(limits, Judged(now)))
            && Traded(view, now)
  {
    hide Facing, CountModel, Approved, Judged;
    var now := StepBook(limits, atr, view, book, e);
    forall d
      ensures Facing(Judged(now), d) <= Facing(Judged(book), d)
    {
      OneTotalKept(limits, atr, view, book, e, d, "");
    }
    forall m
      ensures CountModel(Judged(now), m) <= CountModel(Judged(book), m)
    {
      OneTotalKept(limits, atr, view, book, e, Long, m);
    }
  }

  // The shown totals cover the judged ones, whatever else is open.
  lemma {:induction false} JudgedWithinShown(view: View, book: seq<Exposure>, d: Direction, m: string)
    requires view.Valid() && Traded(view, book)
    ensures view != AsBacktested ==> Facing(Judged(book), d) <= Facing(view.Book(book), d)
    ensures view == AsProposed ==> CountModel(Judged(book), m) <= CountModel(view.Book(book), m)
  {
    if book == [] {
      NothingShown(view, d, m);
    } else {
      hide Facing, CountModel, Judged, View.Book, Traded;
      var front, last := book[..|book| - 1], book[|book| - 1];
      TradedFront(view, book);
      assert book == front + [last];
      JudgedWithinShown(view, front, d, m);
      JudgedPush(front, last);
      ShownPush(view, front, last);
      TotalsAppend(view.Book(front), [view.Show(last)], d, m);
      TotalsAppend(Judged(front), if last.judged then [last] else [], d, m);
      TotalsOne(last, d, m);
      TotalsOne(view.Show(last), d, m);
    }
  }

  lemma TradedFront(view: View, book: seq<Exposure>)
    requires Traded(view, book) && book != []
    ensures Traded(view, book[..|book| - 1]) && SaneTrade(view, book[|book| - 1])
  {
    hide SaneTrade;
    assert forall i :: 0 <= i < |book| - 1 ==> book[..|book| - 1][i] == book[i];
  }

  lemma EnterKeepsDirection(limits: Limits, atr: real, view: View, book: seq<Exposure>, p: Exposure)
    requires view.Valid() && view != AsBacktested && Traded(view, book) && p.judged && SaneTrade(view, p)
    requires DirectionCapped(limits, Judged(book)) && Approved(limits, atr, view.Book(book), p)
    ensures DirectionCapped(limits, Judged(book + [view.Filled(p)]))
  {
    hide Facing, CountModel, Blocking, Approved, SameZone, SamePool, SameBurst, Judged, NormalizePrice;
    ApprovedMeaning(limits, atr, view.Book(book), p);
    JudgedWithinShown(view, book, p.direction, p.model);
    JudgedPush(book, view.Filled(p));
    forall d
      ensures Facing(Judged(book) + [view.Filled(p)], d) <= limits.DirectionCap()
    {
      TotalsAppend(Judged(book), [view.Filled(p)], d, "");
      TotalsOne(view.Filled(p), d, "");
    }
  }

  lemma EnterKeepsStopsApart(limits: Limits, atr: real, view: View, book: seq<Exposure>, p: Exposure)
    requires view.Valid() && StopsApart(view.Gap(limits, atr), book) && Approved(limits, atr, view.Book(book), p)
    ensures StopsApart(view.Gap(limits, atr), book + [view.Filled(p)])
  {
    hide Blocking, Approved, View.Book, View.Filled, View.Gap, Abs;
    forall i | 0 <= i < |book|
      ensures Abs(book[i].stop - view.Filled(p).stop) > view.Gap(limits, atr)
    {
      FilledClearOf(limits, atr, view, book, p, i);
    }
  }

  // Filling moves a judged stop towards an earlier one by half a unit at most.
  lemma FilledClearOf(limits: Limits, atr: real, view: View, book: seq<Exposure>, p: Exposure, i: nat)
    requires view.Valid() && Approved(limits, atr, view.Book(book), p) && i < |book|
    ensures Abs(book[i].stop - view.Filled(p).stop) > view.Gap(limits, atr)
  {
    hide Facing, CountModel, Blocking, Approved, SamePool, SameBurst, NormalizePrice;
    var seen := view.Book(book);
    ApprovedMeaning(limits, atr, seen, p);
    assert seen[i].stop == book[i].stop && !SameZone(limits, atr, seen[i], p);
    if view.AsLive? {
      NormalizeError(p.stop, view.unit);
    }
  }

  lemma EnterKeepsSetups(limits: Limits, atr: real, book: seq<Exposure>, p: Exposure)
    requires SetupsSpread(limits, atr, book) && Approved(limits, atr, book, p) && p.judged && Traded(AsProposed, book)
    ensures SetupsSpread(limits, atr, book + [p])
  {
    hide Facing, CountModel, Blocking, Approved, SameZone, Judged;
    ApprovedMeaning(limits, atr, book, p);
    var now := book + [p];
    JudgedPush(book, p);
    forall m
      ensures CountModel(Judged(now), m) <= limits.maxSameModel
    {
      TotalsAppend(Judged(book), [p], Long, m);
      TotalsOne(p, Long, m);
      JudgedWithinShown(AsProposed, book, Long, m);
      ShownTotals(AsProposed, book, Long, m);
    }
    forall i, j | 0 <= i < j < |now| && now[j].judged
      ensures DistinctSetups(limits, atr, now[i], now[j])
    {
      if j == |book| {
        assert !SameBurst(limits, book[i], p) && !SamePool(atr, book[i], p);
      }
    }
  }

  // Leaving and opening unjudged, and for setups moving, keeps what is said of pairs.
  lemma PairsKept(limits: Limits, atr: real, view: View, book: seq<Exposure>, e: Event, gap: real)
    requires view.Valid() && !e.Enter? && (e.Opened? ==> !e.p.judged)
    ensures var now := StepBook(limits, atr, view, book, e);
            && (!e.StopMoved? && StopsApart(gap, book) ==> StopsApart(gap, now))
            && (SetupsApart(limits, atr, book) ==> SetupsApart(limits, atr, now))
  {
    hide StopsApart, SetupsApart, Approved;
    match e
    case Opened(p) => OpeningKeepsPairs(limits, atr, book, p, gap);
    case Leave(at) =>
      if at < |book| {
        LeavingKeepsPairs(limits, atr, book, at, gap);
      }
    case StopMoved(at, stop) =>
      if at < |book| {
        MovingKeepsSetups(limits, atr, book, at, stop);
      }
  }

  lemma OpeningKeepsPairs(limits: Limits, atr: real, book: seq<Exposure>, p: Exposure, gap: real)
    requires !p.judged
    ensures StopsApart(gap, book) ==> StopsApart(gap, book + [p])
    ensures SetupsApart(limits, atr, book) ==> SetupsApart(limits, atr, book + [p])
  {
    hide Abs, DistinctSetups;
    assert forall i :: 0 <= i < |book| ==> (book + [p])[i] == book[i];
  }

  lemma LeavingKeepsPairs(limits: Limits, atr: real, book: seq<Exposure>, at: nat, gap: real)
    requires at < |book|
    ensures StopsApart(gap, book) ==> StopsApart(gap, Remove(book, at))
    ensures SetupsApart(limits, atr, book) ==> SetupsApart(limits, atr, Remove(book, at))
  {
    hide Abs, DistinctSetups;
    assert forall i :: 0 <= i < |book| - 1 ==> Remove(book, at)[i] == book[if i < at then i else i + 1];
  }

  lemma MovingKeepsSetups(limits: Limits, atr: real, book: seq<Exposure>, at: nat, stop: real)
    requires at < |book|
    ensures SetupsApart(limits, atr, book) ==> SetupsApart(limits, atr, book[at := book[at].(stop := stop)])
  {
    var now := book[at := book[at].(stop := stop)];
    if SetupsApart(limits, atr, book) {
      forall i, j | 0 <= i < j < |now| && now[j].judged
        ensures DistinctSetups(limits, atr, now[i], now[j])
      {
        assert DistinctSetups(limits, atr, book[i], book[j]);
      }
    }
  }

  lemma SaneFront(view: View, events: seq<Event>)
    requires events != [] && Sane(view, events)
    ensures Sane(view, events[..|events| - 1])
    ensures var e := events[|events| - 1];
            (e.Enter? ==> e.p.judged && SaneTrade(view, e.p)) && (e.Opened? ==> !e.p.judged && SaneTrade(view, e.p))
    ensures StopsHeld(events) ==> StopsHeld(events[..|events| - 1]) && !events[|events| - 1].StopMoved?
    ensures NoOtherEngine(events) ==> NoOtherEngine(events[..|events| - 1]) && !events[|events| - 1].Opened?
  {
    assert forall i :: 0 <= i < |events| - 1 ==> events[..|events| - 1][i] == events[i];
  }

  // What one caller's book keeps, while stops are held or not.
  ghost predicate Diversified(limits: Limits, atr: real, view: View, held: bool, book: seq<Exposure>) {
    && Traded(view, book)
    && (view != AsBacktested ==> DirectionCapped(limits, Judged(book)))
    && (held ==> StopsApart(view.Gap(limits, atr), book))
    && (view == AsProposed ==> SetupsSpread(limits, atr, book))
  }

  lemma StepStaysDiversified(limits: Limits, atr: real, view: View, held: bool, book: seq<Exposure>, e: Event)
    requires view.Valid() && Diversified(limits, atr, view, held, book)
    requires e.Enter? ==> e.p.judged && SaneTrade(view, e.p)
    requires e.Opened? ==> !e.p.judged && SaneTrade(view, e.p)
    requires held ==> !e.StopMoved?
    ensures Diversified(limits, atr, view, held, StepBook(limits, atr, view, book, e))
  {
    hide DirectionCapped, ModelsCapped, StopsApart, SetupsApart, Approved, Judged, View.Gap, View.Book, NormalizePrice;
    if !e.Enter? {
      TotalsKept(limits, atr, view, book, e);
      PairsKept(limits, atr, view, book, e, view.Gap(limits, atr));
    } else if Approved(limits, atr, view.Book(book), e.p) {
      ShownTotals(view, book, Long, "");
      if view != AsBacktested {
        EnterKeepsDirection(limits, atr, view, book, e.p);
      }
      if held {
        EnterKeepsStopsApart(limits, atr, view, book, e.p);
      }
      if view == AsProposed {
        EnterKeepsSetups(limits, atr, book, e.p);
      }
    }
  }

  /** What the book keeps over every run of approved entries, entries of other engines, exits and
      stop moves, caller by caller.  The risk of the judged positions in each direction stays
      within its cap unless the backtester shows the book; a judged stop stays clear of every
      earlier one as long as none is moved, in the live engine up to half a quote unit; and pools,
      bursts and model counts are kept only when the positions are shown as they were proposed,
      which neither caller does. */
  lemma BookStaysDiversified(limits: Limits, atr: real, view: View, events: seq<Event>)
    requires view.Valid() && Sane(view, events) && limits.DirectionCap() >= 0.0
    ensures var book := BookAfter(limits, atr, view, events);
            && Traded(view, book)
            && (view != AsBacktested ==> DirectionCapped(limits, Judged(book)))
            && (StopsHeld(events) ==> StopsApart(view.Gap(limits, atr), book))
            && (view == AsProposed ==> SetupsSpread(limits, atr, book))
  {
    assert Diversified(limits, atr, view, StopsHeld(events), BookAfter(limits, atr, view, events)) by {
      RunStaysDiversified(limits, atr, view, StopsHeld(events), events);
    }
  }

  lemma {:induction false} RunStaysDiversified(limits: Limits, atr: real, view: View, held: bool, events: seq<Event>)
    requires view.Valid() && Sane(view, events) && limits.DirectionCap() >= 0.0 && (held ==> StopsHeld(events))
    ensures Diversified(limits, atr, view, held, BookAfter(limits, atr, view, events))
  {
    if events == [] {
      assert Judged([]) == [];
    } else {
      hide Diversified, StepBook, Sane, StopsHeld, SaneTrade;
      var front := events[..|events| - 1];
      SaneFront(view, events);
      RunStaysDiversified(limits, atr, view, held, front);
      StepStaysDiversified(limits, atr, view, held, BookAfter(limits, atr, view, front), events[|events| - 1]);
    }
  }

  // Without other engines the judged positions are the book.
  lemma {:induction false} AllJudged(limits: Limits, atr: real, view: View, events: seq<Event>)
    requires view.Valid() && Sane(view, events) && NoOtherEngine(events)
    ensures var book := BookAfter(limits, atr, view, events);
            Judged(book) == book && forall i :: 0 <= i < |book| ==> book[i].judged
  {
    var book := BookAfter(limits, atr, view, events);
    if events != [] {
      hide Approved, Sane, NoOtherEngine, NormalizePrice, Judged;
      var front := events[..|events| - 1];
      SaneFront(view, events);
      AllJudged(limits, atr, view, front);
      StepJudged(limits, atr, view, BookAfter(limits, atr, view, front), events[|events| - 1]);
    }
    FilterAll(book, (e: Exposure) => e.judged);
  }

  lemma StepJudged(limits: Limits, atr: real, view: View, book: seq<Exposure>, e: Event)
    requires view.Valid() && !e.Opened? && (e.Enter? ==> e.p.judged)
    requires forall i :: 0 <= i < |book| ==> book[i].judged
    ensures var now := StepBook(limits, atr, view, book, e); forall i :: 0 <= i < |now| ==> now[i].judged
  {
    hide Approved, NormalizePrice;
  }

  /** Closing a position never turns an approval into a refusal. */
  lemma ExitKeepsApproval(limits: Limits, atr: real, book: seq<Exposure>, at: nat, p: Exposure)
    requires Approved(limits, atr, book, p) && forall i :: 0 <= i < |book| ==> book[i].risk >= 0.0
    ensures Approved(limits, atr, Remove(book, at), p)
  {
    hide SameZone, SamePool, SameBurst, Facing, CountModel, Blocking, Approved, Judged;
    ApprovedMeaning(limits, atr, book, p);
    ApprovedMeaning(limits, atr, Remove(book, at), p);
    if at < |book| {
      Replaced(book, at, [], p.direction, p.model);
      assert Remove(book, at) == book[..at] + [] + book[at + 1..];
      TotalsOne(book[at], p.direction, p.model);
      assert forall i :: 0 <= i < |Remove(book, at)| ==> Remove(book, at)[i] == book[if i < at then i else i + 1];
    }
  }

  // ---------------------------------------------------------------- what the callers lose

  // Risks of at most `most` a position, whoever opened it.
  ghost predicate RisksWithin(book: seq<Exposure>, most: real) {
    forall i :: 0 <= i < |book| ==> 0.0 <= book[i].risk <= most
  }

  ghost predicate LetThrough(limits: Limits, atr: real, view: View, risk: real, most: real, book: seq<Exposure>,
      p: Exposure)
  {
    RisksWithin(book, most) && p.risk == risk && p.model != "" && Approved(limits, atr, view.Book(book), p)
  }

  // Under this view an approved trade of this risk keeps the real risk facing its way within the
  // cap, over all books of positions risking at most `most` each.
  ghost predicate ApprovalKeepsCap(limits: Limits, atr: real, view: View, risk: real, most: real) {
    forall book, p :: LetThrough(limits, atr, view, risk, most, book, p) ==>
                        Facing(book, p.direction) + risk <= limits.DirectionCap()
  }

  // How many positions the live engine lets face one way before a trade of this risk.
  function Room(limits: Limits, risk: real): int
    requires risk > 0.0
  {
    ((limits.DirectionCap() - risk) / risk).Floor
  }

  /** The direction cap, against what is really at risk.  Shown as proposed, an approval always
      keeps it.  The live engine counts every position, those of the other engines included, at
      the risk configured for scalps, so there it is kept exactly when the positions it lets
      through would fit at the largest risk on the account.  In the backtester, which shows no
      risk, it is kept exactly when positions have none. */
  lemma ApprovalKeepsCapExactlyWhen(limits: Limits, atr: real, view: View, risk: real, most: real)
    requires view.Valid() && risk > 0.0 && most >= 0.0 && limits.maxSameModel > 0
    requires view.AsLive? ==> view.risk == risk
    ensures ApprovalKeepsCap(limits, atr, view, risk, most) <==>
            || risk > limits.DirectionCap()
            || (match view
                case AsProposed => true
                case AsLive(_, _) => Room(limits, risk) as real * most + risk <= limits.DirectionCap()
                case AsBacktested => most == 0.0)
  {
    hide Approved, Facing, CountFacing, Limits.DirectionCap, SameZone;
    if !ApprovalKeepsCap(limits, atr, view, risk, most) {
      var book, p :| LetThrough(limits, atr, view, risk, most, book, p)
                     && Facing(book, p.direction) + risk > limits.DirectionCap();
      ExceededOnlyWhen(limits, atr, view, book, p, most);
    } else if view.AsLive? && risk <= limits.DirectionCap() {
      RoomIsExact(limits, risk, Room(limits, risk));
      CrowdApproved(limits, atr, view, risk, Room(limits, risk), most);
    } else if view == AsBacktested && risk <= limits.DirectionCap() && most > 0.0 {
      var n := ((limits.DirectionCap() - risk) / most).Floor + 1;
      FloorBelow(limits.DirectionCap() - risk, most);
      CrowdApproved(limits, atr, view, risk, n, most);
    }
  }

  // One more than fit do not fit.
  lemma FloorBelow(room: real, most: real)
    requires most > 0.0 && room >= 0.0
    ensures (room / most).Floor >= 0 && ((room / most).Floor + 1) as real * most > room
  {
    var q := room / most;
    QuotientTimes(room, most);
    assert q < 0.0 ==> q * most < 0.0;
    MulLess(q, (q.Floor + 1) as real, most);
  }

  // As many as Room says fit beside the trade at its own risk, and no more.
  lemma RoomIsExact(limits: Limits, risk: real, n: int)
    requires risk > 0.0 && risk <= limits.DirectionCap()
    ensures Room(limits, risk) >= 0
    ensures n as real * risk + risk <= limits.DirectionCap() <==> n <= Room(limits, risk)
  {
    hide Limits.DirectionCap;
    var room := limits.DirectionCap() - risk;
    var q := room / risk;
    QuotientTimes(room, risk);
    assert q < 0.0 ==> q * risk < 0.0;
    assert n as real <= q <==> n as real * risk <= room by {
      if n as real <= q {
        MulMonotone(n as real, q, risk);
      } else {
        MulLess(q, n as real, risk);
      }
    }
  }

  lemma {:induction false} FacingAtMost(book: seq<Exposure>, d: Direction, most: real)
    requires RisksWithin(book, most)
    ensures 0.0 <= Facing(book, d) <= CountFacing(book, d) as real * most
  {
    hide Facing, CountFacing, RisksWithin;
    if book == [] {
      NothingShown(AsProposed, d, "");
    } else {
      var front, last := book[..|book| - 1], book[|book| - 1];
      assert book == front + [last];
      RisksFront(book, most);
      FacingAtMost(front, d, most);
      TotalsAppend(front, [last], d, "");
      TotalsOne(last, d, "");
      CountFacingPush(front, last, d);
      OneMore(CountFacing(front, d), most);
    }
  }

  lemma RisksFront(book: seq<Exposure>, most: real)
    requires RisksWithin(book, most) && book != []
    ensures RisksWithin(book[..|book| - 1], most) && 0.0 <= book[|book| - 1].risk <= most
  {
    assert forall i :: 0 <= i < |book| - 1 ==> book[..|book| - 1][i] == book[i];
  }

  lemma OneMore(n: nat, most: real)
    ensures (n + 1) as real * most == n as real * most + most
  {
  }

  lemma ExceededOnlyWhen(limits: Limits, atr: real, view: View, book: seq<Exposure>, p: Exposure, most: real)
    requires view.Valid() && RisksWithin(book, most) && p.risk > 0.0 && p.model != "" && most >= 0.0
    requires (view.AsLive? ==> view.risk == p.risk) && Approved(limits, atr, view.Book(book), p)
    requires Facing(book, p.direction) + p.risk > limits.DirectionCap()
    ensures p.risk <= limits.DirectionCap() && view != AsProposed
    ensures view.AsLive? ==> Room(limits, p.risk) as real * most + p.risk > limits.DirectionCap()
    ensures view == AsBacktested ==> most > 0.0
  {
    hide Approved, Facing, CountFacing, Limits.DirectionCap, SameZone, SamePool, SameBurst, Room;
    var n := CountFacing(book, p.direction);
    ApprovedMeaning(limits, atr, view.Book(book), p);
    ShownTotals(view, book, p.direction, p.model);
    FacingAtMost(book, p.direction, most);
    if view.AsLive? {
      assert n as real * p.risk >= 0.0;
      RoomIsExact(limits, p.risk, n);
      MulMonotone(n as real, Room(limits, p.risk) as real, most);
    }
  }

  // So many longs of one risk, their stops clear of zero.
  function Crowd(limits: Limits, atr: real, n: nat, risk: real): seq<Exposure> {
    seq(n, _ => Exposure(Long, risk, Abs(limits.zoneAtr * atr) + 1.0, 0, "other", None, false))
  }

  lemma {:induction false} CrowdFacing(limits: Limits, atr: real, n: nat, risk: real)
    ensures Facing(Crowd(limits, atr, n, risk), Long) == n as real * risk
    ensures CountFacing(Crowd(limits, atr, n, risk), Long) == n
  {
    if n > 0 {
      assert Crowd(limits, atr, n, risk)[..n - 1] == Crowd(limits, atr, n - 1, risk);
      CrowdFacing(limits, atr, n - 1, risk);
    }
  }

  // A trade the caller approves beside the crowd.
  lemma CrowdApproved(limits: Limits, atr: real, view: View, risk: real, n: nat, most: real)
    requires view.Valid() && view != AsProposed && risk > 0.0 && most >= 0.0 && limits.maxSameModel > 0
    requires if view.AsLive? then view.risk == risk && n as real * risk + risk <= limits.DirectionCap()
             else risk <= limits.DirectionCap()
    ensures ApprovalKeepsCap(limits, atr, view, risk, most) ==> n as real * most + risk <= limits.DirectionCap()
  {
    hide Approved, Facing, CountFacing, Limits.DirectionCap;
    var book := Crowd(limits, atr, n, most);
    var p := Exposure(Long, risk, 0.0, 0, "model", None, true);
    CrowdFacing(limits, atr, n, most);
    ShownTotals(view, book, Long, p.model);
    CallersSeeDirectionAndStops(limits, atr, view, book, p);
    assert LetThrough(limits, atr, view, risk, most, book, p);
  }

  // The limits and risks the configuration has by default, and one A+ and one A trade open.
  const DEFAULT_LIMITS := Limits(0.05, 0.6, 1.0, 300, 3)

  /** With the default settings the live engine approves a third long beside trades at 2% and 1%,
      although those alone are at the cap of 3%. */
  lemma DefaultsExceedTheCap(book: seq<Exposure>, p: Exposure)
    requires |book| == 2 && book[0].direction == book[1].direction == p.direction == Long
    requires book[0].risk == 0.02 && book[1].risk == 0.01 && p.risk == 0.0015 && p.model != ""
    requires forall i :: 0 <= i < |book| ==> !SameZone(DEFAULT_LIMITS, 1.0, book[i], p)
    ensures Approved(DEFAULT_LIMITS, 1.0, AsLive(0.0015, 0.01).Book(book), p)
    ensures Facing(book, Long) + p.risk > DEFAULT_LIMITS.DirectionCap()
  {
    hide Approved, SameZone;
    var view := AsLive(0.0015, 0.01);
    CallersSeeDirectionAndStops(DEFAULT_LIMITS, 1.0, view, book, p);
    ShownTotals(view, book, Long, p.model);
    assert book[..1] == [book[0]] && book[..1][..0] == [];
    assert CountFacing(book[..1], Long) == 1 && Facing(book[..1], Long) == 0.02;
    assert CountFacing(book, Long) == 2;
  }

  // Limits that allow two trades of this risk in one direction, a model twice, and have a zone.
  predicate Roomy(limits: Limits, atr: real, risk: real) {
    && risk >= 0.0 && 2.0 * risk <= limits.DirectionCap() && limits.maxSameModel > 0 && limits.window >= 0
    && limits.zoneAtr * atr >= 0.0
  }

  // Two trades of one model at one instant, their stops a unit more than the zone apart.
  function Twins(limits: Limits, atr: real, risk: real): (Exposure, Exposure) {
    (Exposure(Long, risk, 0.0, 0, "model", None, true),
     Exposure(Long, risk, limits.zoneAtr * atr + 1.0, 0, "model", None, true))
  }

  lemma TwinsEnter(limits: Limits, atr: real, view: View, risk: real)
    requires view.Valid() && view != AsProposed && (view.AsLive? ==> view.risk == risk)
    requires risk >= 0.0 && limits.maxSameModel > 0 && limits.zoneAtr * atr >= 0.0
    requires (if view.AsLive? then 2.0 * risk else risk) <= limits.DirectionCap()
    ensures var (p, q) := Twins(limits, atr, risk);
            BookAfter(limits, atr, view, [Enter(p), Enter(q)]) == [p, view.Filled(q)] && view.Filled(p) == p
  {
    hide Approved, BookAfter, NormalizePrice;
    var (p, q) := Twins(limits, atr, risk);
    ZeroIsFilled(view, p);
    CallersSeeDirectionAndStops(limits, atr, view, [], p);
    CallersSeeDirectionAndStops(limits, atr, view, [p], q);
    TotalsOne(view.Show(p), Long, "");
    assert view.Book([p]) == [view.Show(p)] && view.Book([]) == [];
    BookPush(limits, atr, view, [], Enter(p));
    BookPush(limits, atr, view, [Enter(p)], Enter(q));
    BookStarts(limits, atr, view);
    assert [] + [Enter(p)] == [Enter(p)] && [Enter(p)] + [Enter(q)] == [Enter(p), Enter(q)];
    assert [] + [p] == [p] && [p] + [view.Filled(q)] == [p, view.Filled(q)];
  }

  lemma ZeroIsFilled(view: View, p: Exposure)
    requires view.Valid() && p.stop == 0.0
    ensures view.Filled(p) == p
  {
    if view.AsLive? {
      assert 0.0 / view.unit == 0.0;
      RoundEvenFixesIntegers(0);
    }
  }

  lemma BookStarts(limits: Limits, atr: real, view: View)
    requires view.Valid()
    ensures BookAfter(limits, atr, view, []) == []
  {
  }

  lemma BookPush(limits: Limits, atr: real, view: View, events: seq<Event>, e: Event)
    requires view.Valid()
    ensures BookAfter(limits, atr, view, events + [e])
            == StepBook(limits, atr, view, BookAfter(limits, atr, view, events), e)
  {
    assert (events + [e])[..|events|] == events;
  }

  /** The setup budgets hold of every run exactly when the book is shown as proposed: under either
      caller one model can enter twice at one instant. */
  lemma SetupsSpreadExactlyAsProposed(limits: Limits, atr: real, view: View, risk: real)
    requires view.Valid() && Roomy(limits, atr, risk) && (view.AsLive? ==> view.risk == risk)
    ensures (forall events :: Sane(view, events) ==> SetupsSpread(limits, atr, BookAfter(limits, atr, view, events)))
            <==> view == AsProposed
  {
    hide BookAfter, SetupsSpread, NormalizePrice;
    if view == AsProposed {
      forall events | Sane(view, events)
        ensures SetupsSpread(limits, atr, BookAfter(limits, atr, view, events))
      {
        BookStaysDiversified(limits, atr, view, events);
      }
    } else {
      var (p, q) := Twins(limits, atr, risk);
      TwinsEnter(limits, atr, view, risk);
      assert Sane(view, [Enter(p), Enter(q)]);
      TwinsClash(limits, atr, p, view.Filled(q));
    }
  }

  lemma TwinsClash(limits: Limits, atr: real, p: Exposure, q: Exposure)
    requires p.model == q.model && p.openedAt == q.openedAt && limits.window >= 0 && q.judged
    ensures !SetupsSpread(limits, atr, [p, q])
  {
    assert !DistinctSetups(limits, atr, [p, q][0], [p, q][1]);
  }

  /** For the judged positions alone the direction cap holds of every run exactly when the shown
      risks are not zero: in the backtester each trade is held against the cap alone. */
  lemma DirectionCappedExactlyUnlessBacktested(limits: Limits, atr: real, view: View, risk: real)
    requires view.Valid() && risk > 0.0 && risk <= limits.DirectionCap() < 2.0 * risk && limits.maxSameModel > 0
    requires limits.zoneAtr * atr >= 0.0 && (view.AsLive? ==> view.risk == risk)
    ensures (forall events :: Sane(view, events) ==>
                DirectionCapped(limits, Judged(BookAfter(limits, atr, view, events))))
            <==> view != AsBacktested
  {
    hide BookAfter, DirectionCapped, Judged, NormalizePrice;
    if view != AsBacktested {
      forall events | Sane(view, events)
        ensures DirectionCapped(limits, Judged(BookAfter(limits, atr, view, events)))
      {
        BookStaysDiversified(limits, atr, view, events);
      }
    } else {
      var (p, q) := Twins(limits, atr, risk);
      TwinsEnter(limits, atr, view, risk);
      assert Sane(view, [Enter(p), Enter(q)]);
      TwinsExceed(limits, p, q);
    }
  }

  lemma TwinsExceed(limits: Limits, p: Exposure, q: Exposure)
    requires p.direction == q.direction == Long && p.risk + q.risk > limits.DirectionCap() && p.judged && q.judged
    ensures !DirectionCapped(limits, Judged([p, q]))
  {
    hide Judged;
    assert [p] + [q] == [p, q];
    JudgedPush([p], q);
    TotalsOne(p, Long, "");
    TotalsOne(q, Long, "");
    TotalsAppend([p], [q], Long, "");
  }

  /** Moving a stop can undo the zone budget: the second of two separated stops is moved onto the first. */
  lemma StopMoveUndoesZones(limits: Limits, atr: real, view: View, risk: real)
    requires view.Valid() && Roomy(limits, atr, risk) && view != AsProposed && (view.AsLive? ==> view.risk == risk)
    ensures var (p, q) := Twins(limits, atr, risk);
            var book := BookAfter(limits, atr, view, [Enter(p), Enter(q), StopMoved(1, p.stop)]);
            |book| == 2 && book[1].judged && SameZone(limits, atr, book[0], book[1])
  {
    hide BookAfter, NormalizePrice;
    var (p, q) := Twins(limits, atr, risk);
    TwinsEnter(limits, atr, view, risk);
    BookPush(limits, atr, view, [Enter(p), Enter(q)], StopMoved(1, p.stop));
    assert [Enter(p), Enter(q)] + [StopMoved(1, p.stop)] == [Enter(p), Enter(q), StopMoved(1, p.stop)];
    var book := BookAfter(limits, atr, view, [Enter(p), Enter(q), StopMoved(1, p.stop)]);
    assert book == [p, view.Filled(q).(stop := p.stop)];
  }

  // ---------------------------------------------------------------- how crowded a price range can get

  // Which stretch of one zone's width a stop falls in, counted from `low`.
  function Bucket(low: real, zone: real, stop: real): int
    requires zone > 0.0
  {
    ((stop - low) / zone).Floor
  }

  lemma ApartInBuckets(low: real, zone: real, a: real, b: real)
    requires zone > 0.0 && Abs(a - b) > zone
    ensures Bucket(low, zone, a) != Bucket(low, zone, b)
  {
    var x, y := (a - low) / zone, (b - low) / zone;
    assert x * zone == a - low && y * zone == b - low;
    assert (x - y) * zone == a - b;
    if x.Floor == y.Floor {
      assert -1.0 < x - y < 1.0;
      WithinOne(x - y, zone);
      assert false;
    }
  }

  lemma WithinOne(r: real, zone: real)
    requires -1.0 <= r <= 1.0 && zone > 0.0
    ensures Abs(r * zone) <= zone
  {
    NonNegative(1.0 - r, zone);
    NonNegative(1.0 + r, zone);
    assert (1.0 - r) * zone == zone - r * zone && (1.0 + r) * zone == zone + r * zone;
  }

  lemma NonNegative(x: real, y: real)
    requires x >= 0.0 && y >= 0.0
    ensures x * y >= 0.0
  {
  }

  lemma BucketRange(low: real, width: real, zone: real, stop: real)
    requires zone > 0.0 && low <= stop <= low + width
    ensures 0 <= Bucket(low, zone, stop) <= (width / zone).Floor
  {
    var x, top := (stop - low) / zone, width / zone;
    assert x * zone == stop - low && top * zone == width;
    assert x < 0.0 ==> x * zone < 0.0;
    assert x > top ==> (x - top) * zone > 0.0;
  }

  /** Any price range of a given width holds at most one judged stop per gap that fits in it, plus
      one, of a book whose stops are that gap apart. */
  lemma StopsInRange(gap: real, book: seq<Exposure>, low: real, width: real, picks: seq<nat>)
    requires StopsApart(gap, book) && gap > 0.0 && width >= 0.0
    requires forall k :: 0 <= k < |picks| ==>
               picks[k] < |book| && book[picks[k]].judged && low <= book[picks[k]].stop <= low + width
    requires forall k, l :: 0 <= k < l < |picks| ==> picks[k] < picks[l]
    ensures |picks| <= (width / gap).Floor + 1
  {
    hide Facing, CountModel, Bucket, Abs;
    var buckets := seq(|picks|, k requires 0 <= k < |picks| => Bucket(low, gap, book[picks[k]].stop));
    forall k | 0 <= k < |picks|
      ensures 0 <= buckets[k] <= (width / gap).Floor
    {
      BucketRange(low, width, gap, book[picks[k]].stop);
    }
    forall k, l | 0 <= k < l < |picks|
      ensures buckets[k] != buckets[l]
    {
      ApartInBuckets(low, gap, book[picks[k]].stop, book[picks[l]].stop);
    }
    WidthNotNegative(width, gap);
    DistinctBelow(buckets, (width / gap).Floor + 1);
  }

  lemma WidthNotNegative(width: real, zone: real)
    requires width >= 0.0 && zone > 0.0
    ensures (width / zone).Floor >= 0
  {
    BucketRange(0.0, width, zone, 0.0);
  }
}
