/** What later bars can change in the structure events already reported (src/xauusd/core/structure.py).
    The engine detects its swings anew on every cut of the data, so the events of a cut and those
    of the full run can differ, but only through the last swing. */
module EventRevisions {
  import opened Domain
  import opened Sequences
  import opened Swings
  import opened SwingRevisions
  import opened StructureEvents

  // ---------------------------------------------------------------- swings confirmed too late

  lemma {:induction false} PushIgnoresLater(o: seq<RawSwing>, later: seq<RawSwing>, w: Walk, k: int)
    requires Inside(o, w) && forall i :: 0 <= i < |later| ==> later[i].confirmed > k
    ensures Inside(o + later, w) && PushConfirmed(o + later, w, k) == PushConfirmed(o, w, k)
    decreases |o| - w.ptr
  {
    if w.ptr < |o| && o[w.ptr].confirmed <= k {
      var next := if o[w.ptr].kind == High then w.(highs := w.highs + [w.ptr], ptr := w.ptr + 1)
                  else w.(lows := w.lows + [w.ptr], ptr := w.ptr + 1);
      PushIgnoresLater(o, later, next, k);
    }
  }

  lemma {:induction false} PopIgnoresLater(o: seq<RawSwing>, later: seq<RawSwing>, stack: seq<nat>, d: Direction,
      c: real)
    requires forall i :: 0 <= i < |stack| ==> stack[i] < |o|
    ensures PopTaken(o + later, stack, d, c) == PopTaken(o, stack, d, c)
  {
    if stack != [] {
      PopIgnoresLater(o, later, stack[..|stack| - 1], d, c);
    }
  }

  lemma StepIgnoresLater(o: seq<RawSwing>, later: seq<RawSwing>, cfg: Config, atr: real, w: Walk, b: Bar, k: nat)
    requires Inside(o, w) && atr > 0.0 && forall i :: 0 <= i < |later| ==> later[i].confirmed > k
    ensures Inside(o + later, w) && Step(o + later, cfg, atr, w, b, k) == Step(o, cfg, atr, w, b, k)
  {
    hide PushConfirmed, PopTaken;
    PushIgnoresLater(o, later, w, k);
    var p := PushConfirmed(o, w, k);
    PopIgnoresLater(o, later, p.highs, Long, b.close);
    PopIgnoresLater(o, later, p.lows, Short, b.close);
  }

  // Swings confirmed after the data ends leave the walk as it is.
  lemma {:induction false} RunIgnoresLater(series: seq<Bar>, o: seq<RawSwing>, later: seq<RawSwing>, cfg: Config,
      atr: real, k: nat)
    requires k <= |series| && atr > 0.0 && forall i :: 0 <= i < |later| ==> later[i].confirmed >= |series|
    ensures Run(series, o + later, cfg, atr, k) == Run(series, o, cfg, atr, k)
  {
    hide Step;
    if k > 0 {
      RunIgnoresLater(series, o, later, cfg, atr, k - 1);
      StepIgnoresLater(o, later, cfg, atr, Run(series, o, cfg, atr, k - 1), series[k - 1], k - 1);
    }
  }

  // ---------------------------------------------------------------- the order of detected swings

  // Swings in bar order, each confirmed the same number of bars later.
  ghost predicate Lagged(swings: seq<RawSwing>, lookback: nat) {
    InOrder(swings) && forall i :: 0 <= i < |swings| ==> swings[i].confirmed == swings[i].index + lookback
  }

  lemma {:induction false} FilterKeepsLag(swings: seq<RawSwing>, lookback: nat)
    requires Lagged(swings, lookback)
    ensures Lagged(Filter(swings, (s: RawSwing) => s.structural), lookback)
  {
    if swings != [] {
      var front, last := swings[..|swings| - 1], swings[|swings| - 1];
      FilterKeepsLag(front, lookback);
      var kept := Filter(front, (s: RawSwing) => s.structural);
      forall i | 0 <= i < |kept|
        ensures kept[i].index < last.index
      {
        assert kept[i] in kept;
        var j :| 0 <= j < |front| && front[j] == kept[i];
        assert swings[j] == front[j];
      }
    }
  }

  lemma DetectedIsLagged(series: seq<Bar>, lookback: nat, minLegAtr: real, atr: real)
    ensures Lagged(DetectSwings(series, lookback, minLegAtr, atr), lookback)
  {
    hide NormalForm;
    var out := DetectSwings(series, lookback, minLegAtr, atr);
    if |series| >= 2 * lookback + 1 {
      SwingNormalForm(series, lookback, minLegAtr, atr);
      NormalFormOrder(Candidates(series, lookback), out);
      assert forall i :: 0 <= i < |out| ==> out[i] in out;
    }
  }

  lemma NormalFormOrder(c: seq<RawSwing>, out: seq<RawSwing>)
    requires NormalForm(c, out)
    ensures InOrder(out)
  {
  }

  // For such swings the walk's order is that of their structural ones.
  lemma LaggedIsOrdered(swings: seq<RawSwing>, lookback: nat)
    requires Lagged(swings, lookback)
    ensures Ordered(swings) == Filter(swings, (s: RawSwing) => s.structural)
  {
    FilterKeepsLag(swings, lookback);
    OrderedFixesConfirmationOrder(swings);
  }

  lemma LaggedPrefix(swings: seq<RawSwing>, lookback: nat, n: nat)
    requires Lagged(swings, lookback) && n <= |swings|
    ensures Lagged(swings[..n], lookback)
  {
  }

  // ---------------------------------------------------------------- events of a cut

  /** The swings of the cut that the full series keeps: all of them, or all but the last when a
      later candidate overtakes it. */
  function Settled(before: seq<RawSwing>, after: seq<RawSwing>): (r: seq<RawSwing>)
    ensures r <= before
  {
    if before == [] || (|before| <= |after| && after[|before| - 1] == before[|before| - 1]) then before
    else before[..|before| - 1]
  }

  lemma EventsOfPrefix(series: seq<Bar>, swings: seq<RawSwing>, n: nat, lookback: nat, cfg: Config, atr: real)
    requires Lagged(swings, lookback) && n <= |swings|
    requires forall i :: n <= i < |swings| ==> swings[i].confirmed >= |series|
    ensures Events(series, swings, cfg, atr) == Events(series, swings[..n], cfg, atr)
  {
    hide Run, Ordered;
    var early, late := swings[..n], swings[n..];
    var keep := (s: RawSwing) => s.structural;
    assert swings == early + late;
    LaggedPrefix(swings, lookback, n);
    LaggedIsOrdered(swings, lookback);
    LaggedIsOrdered(early, lookback);
    FilterAppend(early, late, keep);
    var later := Filter(late, keep);
    forall i | 0 <= i < |later|
      ensures later[i].confirmed >= |series|
    {
      assert later[i] in later;
    }
    if atr > 0.0 {
      RunIgnoresLater(series, Ordered(early), later, cfg, atr, |series|);
    }
  }

  /** Events detected on the data up to bar m - 1, from swings detected on that data, are the full
      run's events dated by then, except through one swing: the full run sees them as the cut
      would without its last swing if a later candidate overtakes that, and exactly as the cut
      reported them otherwise. */
  lemma EventsReviseOnlyThroughLastSwing(
    series: seq<Bar>, lookback: nat, minLegAtr: real, swingAtr: real, cfg: Config, atr: real, m: nat)
    requires 0 < m <= |series| && cfg.bosAtr >= 0.0
    ensures var before, after := DetectSwings(series[..m], lookback, minLegAtr, swingAtr),
                                 DetectSwings(series, lookback, minLegAtr, swingAtr);
            && Filter(Events(series, after, cfg, atr), (e: Event) => e.bar <= m - 1)
               == Events(series[..m], Settled(before, after), cfg, atr)
            && (before != [] ==>
                  (Settled(before, after) == before <==>
                     !Overtaken(before[|before| - 1].(structural := true), LaterCandidates(series, lookback, m))))
  {
    hide DetectSwings, Events, Filter, Overtaken, LaterCandidates;
    var cut := series[..m];
    var before := DetectSwings(cut, lookback, minLegAtr, swingAtr);
    var after := DetectSwings(series, lookback, minLegAtr, swingAtr);
    DetectorRevisesOnlyLast(series, lookback, minLegAtr, swingAtr, m);
    DetectedIsLagged(series, lookback, minLegAtr, swingAtr);
    var settled := Settled(before, after);
    assert after[..|settled|] == settled;
    EventsOfPrefix(cut, after, |settled|, lookback, cfg, atr);
    EventsAreCausal(series, after, cfg, atr, m - 1);
  }
}
