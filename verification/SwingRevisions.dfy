/** What later bars can change in the swings already detected (src/xauusd/core/structure.py):
    the collapse rewrites its last entry, and this says exactly when. */
module SwingRevisions {
  import opened Domain
  import opened Sequences
  import opened Swings

  // ---------------------------------------------------------------- the last entry of a collapse

  // How many leading swings are of this kind.
  function Leading(more: seq<RawSwing>, kind: Kind): (n: nat)
    ensures n <= |more| && (forall i :: 0 <= i < n ==> more[i].kind == kind)
    ensures n < |more| ==> more[n].kind != kind
  {
    if more == [] || more[0].kind != kind then 0 else 1 + Leading(more[1..], kind)
  }

  // A swing of the same kind follows, before any of the other kind, that is more extreme.
  predicate Overtaken(last: RawSwing, more: seq<RawSwing>) {
    exists i :: 0 <= i < Leading(more, last.kind) && Better(more[i], last)
  }

  function LastOf(swings: seq<RawSwing>): RawSwing
    requires swings != []
  {
    swings[|swings| - 1]
  }

  lemma {:induction false} CollapseNotEmpty(swings: seq<RawSwing>)
    ensures Alternate(swings) == [] <==> swings == []
  {
    if swings != [] {
      CollapseNotEmpty(swings[..|swings| - 1]);
    }
  }

  lemma AlternatePush(swings: seq<RawSwing>, s: RawSwing)
    ensures Alternate(swings + [s]) == AlternateStep(Alternate(swings), s)
  {
    assert (swings + [s])[..|swings|] == swings;
  }

  // More swings of the last kind change the last entry only, and only for a more extreme one.
  lemma {:induction false} SameKindChangesLast(swings: seq<RawSwing>, a: seq<RawSwing>)
    requires swings != [] && Alternate(swings) != []
    requires forall i :: 0 <= i < |a| ==> a[i].kind == LastOf(Alternate(swings)).kind
    ensures var before, after := Alternate(swings), Alternate(swings + a);
            && |after| == |before| && LastOf(after).kind == LastOf(before).kind
            && if exists i :: 0 <= i < |a| && Better(a[i], LastOf(before)) then Better(LastOf(after), LastOf(before))
               else LastOf(after) == LastOf(before)
  {
    hide Alternate;
    if a == [] {
      assert swings + a == swings;
    } else {
      var front, s := a[..|a| - 1], a[|a| - 1];
      SameKindChangesLast(swings, front);
      assert swings + a == (swings + front) + [s];
      AlternatePush(swings + front, s);
      assert forall i :: 0 <= i < |front| ==> front[i] == a[i];
      var last := LastOf(Alternate(swings));
      if exists i :: 0 <= i < |front| && Better(front[i], last) {
        var i :| 0 <= i < |front| && Better(front[i], last);
        assert Better(a[i], last);
      }
    }
  }

  /** The last collapsed entry stays exactly when no swing of the leading same-kind stretch of what
      follows is more extreme. */
  lemma LastStaysExactlyWhen(swings: seq<RawSwing>, more: seq<RawSwing>)
    requires swings != []
    ensures var before, after := Alternate(swings), Alternate(swings + more);
            && before != [] && |before| <= |after|
            && (after[|before| - 1] == LastOf(before) <==> !Overtaken(LastOf(before), more))
  {
    hide Alternate, Better;
    CollapseNotEmpty(swings);
    var before := Alternate(swings);
    var last := LastOf(before);
    var n := Leading(more, last.kind);
    var a := more[..n];
    SameKindChangesLast(swings, a);
    OvertakenInStretch(last, more, a);
    var reached := Alternate(swings + a);
    if n == |more| {
      assert a == more;
    } else {
      var s := more[n];
      OtherKindAppends(swings + a, s);
      AlternateRepaintsOnlyLast(swings + a + [s], more[n + 1..]);
      assert swings + more == swings + a + [s] + more[n + 1..];
    }
    NeverBetterThanItself(last);
    assert LastOf(reached) == last <==> !Overtaken(last, more);
  }

  lemma NeverBetterThanItself(s: RawSwing)
    ensures !Better(s, s)
  {
  }

  lemma OvertakenInStretch(last: RawSwing, more: seq<RawSwing>, a: seq<RawSwing>)
    requires a == more[..Leading(more, last.kind)]
    ensures Overtaken(last, more) <==> exists i :: 0 <= i < |a| && Better(a[i], last)
  {
    hide Better, Leading;
    assert forall i :: 0 <= i < |a| ==> a[i] == more[i];
  }

  lemma OtherKindAppends(swings: seq<RawSwing>, s: RawSwing)
    requires Alternate(swings) != [] && LastOf(Alternate(swings)).kind != s.kind
    ensures Alternate(swings + [s]) == Alternate(swings) + [s]
  {
    AlternatePush(swings, s);
  }

  // What a collapse holds from its former last place on is that last entry or comes from the new swings.
  lemma {:induction false} NewEntriesAreNew(swings: seq<RawSwing>, more: seq<RawSwing>)
    ensures var before, after := Alternate(swings), Alternate(swings + more);
            && |before| <= |after| && (forall i :: |before| <= i < |after| ==> after[i] in more)
            && (before != [] ==> after[|before| - 1] == LastOf(before) || after[|before| - 1] in more)
  {
    hide Alternate, Better;
    if more == [] {
      assert swings + more == swings;
    } else {
      var front, s := more[..|more| - 1], more[|more| - 1];
      NewEntriesAreNew(swings, front);
      assert swings + more == (swings + front) + [s] && more == front + [s];
      AlternatePush(swings + front, s);
    }
  }

  // ---------------------------------------------------------------- the candidates of a cut series

  lemma {:induction false} AscendingGrows(hm: seq<bool>, lm: seq<bool>, hs: seq<real>, ls: seq<real>, lookback: nat,
      from: nat, upto: nat)
    requires from <= upto <= |hm| == |lm| == |hs| == |ls|
    ensures var a, b := Ascending(hm, lm, hs, ls, lookback, from), Ascending(hm, lm, hs, ls, lookback, upto);
            a <= b && forall i :: |a| <= i < |b| ==> b[i].index >= from && b[i].confirmed == b[i].index + lookback
    decreases upto
  {
    if from < upto {
      AscendingGrows(hm, lm, hs, ls, lookback, from, upto - 1);
    }
  }

  lemma {:induction false} AscendingAgrees(
    hm: seq<bool>, lm: seq<bool>, hs: seq<real>, ls: seq<real>,
    hm': seq<bool>, lm': seq<bool>, hs': seq<real>, ls': seq<real>, lookback: nat, upto: nat)
    requires upto <= |hm| == |lm| == |hs| == |ls| && upto <= |hm'| == |lm'| == |hs'| == |ls'|
    requires forall i :: 0 <= i < upto ==> hm[i] == hm'[i] && lm[i] == lm'[i] && hs[i] == hs'[i] && ls[i] == ls'[i]
    ensures Ascending(hm, lm, hs, ls, lookback, upto) == Ascending(hm', lm', hs', ls', lookback, upto)
  {
    if upto > 0 {
      AscendingAgrees(hm, lm, hs, ls, hm', lm', hs', ls', lookback, upto - 1);
    }
  }

  lemma {:induction false} AscendingUnmasked(hm: seq<bool>, lm: seq<bool>, hs: seq<real>, ls: seq<real>,
      lookback: nat, from: nat, upto: nat)
    requires from <= upto <= |hm| == |lm| == |hs| == |ls|
    requires forall i :: from <= i < upto ==> !hm[i] && !lm[i]
    ensures Ascending(hm, lm, hs, ls, lookback, upto) == Ascending(hm, lm, hs, ls, lookback, from)
    decreases upto
  {
    if from < upto {
      AscendingUnmasked(hm, lm, hs, ls, lookback, from, upto - 1);
    }
  }

  // The candidates found later than a cut.
  function LaterCandidates(series: seq<Bar>, lookback: nat, m: nat): seq<RawSwing>
    requires m <= |series|
  {
    var all, n := Candidates(series, lookback), |Candidates(series[..m], lookback)|;
    if n <= |all| then all[n..] else []
  }

  /** Cutting the data keeps a prefix of the candidates, and every one after it is confirmed at or
      after the cut. */
  lemma CandidatesGrow(series: seq<Bar>, lookback: nat, m: nat)
    requires m <= |series|
    ensures Candidates(series, lookback) == Candidates(series[..m], lookback) + LaterCandidates(series, lookback, m)
    ensures forall s :: s in LaterCandidates(series, lookback, m) ==> s.confirmed >= m
  {
    hide Candidates, Mask;
    var cut := series[..m];
    var sure := if m >= lookback then m - lookback else 0;
    CandidatesAscend(series, lookback);
    CandidatesAscend(cut, lookback);
    var hm, lm, hs, ls := Mask(series, lookback, High), Mask(series, lookback, Low), Highs(series), Lows(series);
    var hm', lm', hs', ls' := Mask(cut, lookback, High), Mask(cut, lookback, Low), Highs(cut), Lows(cut);
    forall i | 0 <= i < m
      ensures hm'[i] == (hm[i] && i < sure) && lm'[i] == (lm[i] && i < sure)
    {
      MaskReadsOnlyItsWindow(series, lookback, m, i, High);
      MaskReadsOnlyItsWindow(series, lookback, m, i, Low);
    }
    AscendingUnmasked(hm', lm', hs', ls', lookback, sure, m);
    AscendingAgrees(hm, lm, hs, ls, hm', lm', hs', ls', lookback, sure);
    AscendingGrows(hm, lm, hs, ls, lookback, sure, |series|);
  }

  // ---------------------------------------------------------------- the detector

  /** Detection on a cut series: every swing but the last is final, and the last one, before the
      significance flag, is exactly as long as no later candidate of its kind overtakes it before
      one of the other kind appears.  Everything after it is confirmed at or after the cut. */
  lemma DetectorRevisesOnlyLast(series: seq<Bar>, lookback: nat, minLegAtr: real, atr: real, m: nat)
    requires m <= |series|
    ensures var before := DetectSwings(series[..m], lookback, minLegAtr, atr);
            var after := DetectSwings(series, lookback, minLegAtr, atr);
            var n := |before|;
            && n <= |after| && (forall i :: 0 <= i < n - 1 ==> after[i] == before[i])
            && (forall i :: n <= i < |after| ==> after[i].confirmed >= m)
            && (n > 0 ==>
                  && (after[n - 1] == before[n - 1] <==>
                        !Overtaken(before[n - 1].(structural := true), LaterCandidates(series, lookback, m)))
                  && (after[n - 1] == before[n - 1] || after[n - 1].confirmed >= m))
  {
    hide Candidates, LaterCandidates, Alternate, Overtaken, DetectSwings;
    var cut := series[..m];
    var c, rest := Candidates(cut, lookback), LaterCandidates(series, lookback, m);
    var before, after := Alternate(c), Alternate(c + rest);
    CandidatesGrow(series, lookback, m);
    PlainRevision(c, rest, m);
    CandidatesAreStructural(cut, lookback);
    DetectorFlags(cut, lookback, minLegAtr, atr);
    DetectorFlags(series, lookback, minLegAtr, atr);
    CandidatesAreStructural(series, lookback);
    forall i | 0 <= i < |before|
      ensures before[i].structural && after[i].structural
    {
      assert before[i] in before && after[i] in after;
    }
    if before != [] {
      FlagsAgree(before, after, |before| - 1, minLegAtr, atr);
    }
  }

  lemma FlagsAgree(a: seq<RawSwing>, b: seq<RawSwing>, i: nat, minLegAtr: real, atr: real)
    requires i < |a| && i < |b| && a[i].structural && b[i].structural && (i > 0 ==> a[i - 1] == b[i - 1])
    ensures Flagged(a, i, minLegAtr, atr) == Flagged(b, i, minLegAtr, atr) <==> a[i] == b[i]
    ensures Flagged(a, i, minLegAtr, atr).(structural := true) == a[i]
    ensures Flagged(b, i, minLegAtr, atr).confirmed == b[i].confirmed
  {
  }

  // The same of the collapse alone.
  lemma PlainRevision(c: seq<RawSwing>, rest: seq<RawSwing>, m: int)
    requires forall s :: s in rest ==> s.confirmed >= m
    ensures var before, after := Alternate(c), Alternate(c + rest);
            var n := |before|;
            && n <= |after| && (forall i :: 0 <= i < n - 1 ==> after[i] == before[i])
            && (forall i :: n <= i < |after| ==> after[i].confirmed >= m)
            && (n > 0 ==>
                  && (after[n - 1] == before[n - 1] <==> !Overtaken(before[n - 1], rest))
                  && (after[n - 1] == before[n - 1] || after[n - 1].confirmed >= m))
  {
    hide Alternate, Overtaken;
    AlternateRepaintsOnlyLast(c, rest);
    NewEntriesAreNew(c, rest);
    CollapseNotEmpty(c);
    if c != [] {
      LastStaysExactlyWhen(c, rest);
    }
  }

  // The detector is the collapse of its candidates, each flagged by its own leg alone.
  lemma DetectorFlags(series: seq<Bar>, lookback: nat, minLegAtr: real, atr: real)
    ensures var plain, out := Alternate(Candidates(series, lookback)), DetectSwings(series, lookback, minLegAtr, atr);
            && |out| == |plain|
            && forall i :: 0 <= i < |out| ==> out[i] == Flagged(plain, i, minLegAtr, atr)
  {
    hide Candidates, Alternate;
    CandidatesAreStructural(series, lookback);
    var plain := Alternate(Candidates(series, lookback));
    assert forall i :: 0 <= i < |plain| ==> plain[i] in plain;
    if |series| < 2 * lookback + 1 {
      NoCandidates(series, lookback);
      CollapseNotEmpty([]);
    }
  }

  function Flagged(plain: seq<RawSwing>, i: nat, minLegAtr: real, atr: real): RawSwing
    requires i < |plain|
  {
    plain[i].(structural := !(minLegAtr > 0.0 && atr > 0.0) || LegAtLeast(plain, i, minLegAtr * atr))
  }

  // Every collapsed candidate still carries the initial flag.
  lemma CandidatesAreStructural(series: seq<Bar>, lookback: nat)
    ensures forall s :: s in Alternate(Candidates(series, lookback)) ==> s.structural
  {
    hide Candidates;
    CandidatesShape(series, lookback);
    AlternateOrder(Candidates(series, lookback));
  }

  lemma NoCandidates(series: seq<Bar>, lookback: nat)
    requires |series| < 2 * lookback + 1
    ensures Candidates(series, lookback) == []
  {
    CandidatesAscend(series, lookback);
    AscendingUnmasked(Mask(series, lookback, High), Mask(series, lookback, Low), Highs(series), Lows(series),
                      lookback, 0, |series|);
  }

  // ---------------------------------------------------------------- a series that revises

  // Two rising peaks on level lows.
  const PEAKS := [
    Bar(0, 0.0, 1.0, 0.0, 0.0, 0, 0.0), Bar(1, 0.0, 3.0, 0.0, 0.0, 0, 0.0), Bar(2, 0.0, 2.0, 0.0, 0.0, 0, 0.0),
    Bar(3, 0.0, 4.0, 0.0, 0.0, 0, 0.0), Bar(4, 0.0, 2.0, 0.0, 0.0, 0, 0.0)]

  lemma PeakMasks(series: seq<Bar>)
    requires series <= PEAKS && |series| >= 4
    ensures forall i :: 0 <= i < |series| ==> Mask(series, 1, High)[i] == (i == 1 || (i == 3 && |series| == 5))
    ensures forall i :: 0 <= i < |series| ==> !Mask(series, 1, Low)[i]
  {
    forall i | 0 <= i < |series|
      ensures Mask(series, 1, High)[i] == (i == 1 || (i == 3 && |series| == 5)) && !Mask(series, 1, Low)[i]
    {
      if InWindow(|series|, 1, i) {
        HighMaskMeaning(series, 1, i);
        LowMaskMeaning(series, 1, i);
        assert series[i - 1].low == series[i].low && series[i - 1] == PEAKS[i - 1] && series[i + 1] == PEAKS[i + 1];
      }
    }
  }

  // One masked bar more, or one bar past it.
  lemma AscendingOne(hm: seq<bool>, lm: seq<bool>, hs: seq<real>, ls: seq<real>, n: nat)
    requires n < |hm| == |lm| == |hs| == |ls| && !lm[n]
    ensures Ascending(hm, lm, hs, ls, 1, n + 1)
            == Ascending(hm, lm, hs, ls, 1, n) + if hm[n] then [SwingAt(hs, 1, n, High)] else []
  {
  }

  lemma PeakCandidates(series: seq<Bar>)
    requires series <= PEAKS && |series| >= 4
    ensures var first, second := RawSwing(1, 2, 3.0, High, true), RawSwing(3, 4, 4.0, High, true);
            Candidates(series, 1) == if |series| == 5 then [first, second] else [first]
  {
    hide Mask, Candidates, Ascending;
    PeakMasks(series);
    CandidatesAscend(series, 1);
    var hm, lm, hs, ls := Mask(series, 1, High), Mask(series, 1, Low), Highs(series), Lows(series);
    AscendingUnmasked(hm, lm, hs, ls, 1, 0, 1);
    AscendingEmpty(hm, lm, hs, ls);
    AscendingOne(hm, lm, hs, ls, 1);
    AscendingUnmasked(hm, lm, hs, ls, 1, 2, 3);
    AscendingOne(hm, lm, hs, ls, 3);
    assert hs[1] == 3.0 && hs[3] == 4.0;
    if |series| == 5 {
      AscendingUnmasked(hm, lm, hs, ls, 1, 4, 5);
    }
  }

  lemma AscendingEmpty(hm: seq<bool>, lm: seq<bool>, hs: seq<real>, ls: seq<real>)
    requires |hm| == |lm| == |hs| == |ls|
    ensures Ascending(hm, lm, hs, ls, 1, 0) == []
  {
  }

  /** The last swing really is rewritten: a bar that completes the second peak replaces the first. */
  lemma RevisedByABar()
    ensures DetectSwings(PEAKS[..4], 1, 0.0, 0.0) == [RawSwing(1, 2, 3.0, High, true)]
    ensures DetectSwings(PEAKS, 1, 0.0, 0.0) == [RawSwing(3, 4, 4.0, High, true)]
  {
    hide Candidates, Alternate;
    var first, second := RawSwing(1, 2, 3.0, High, true), RawSwing(3, 4, 4.0, High, true);
    PeakCandidates(PEAKS[..4]);
    PeakCandidates(PEAKS);
    AlternatePush([], first);
    AlternatePush([first], second);
    CollapseNotEmpty([]);
    assert [] + [first] == [first] && [first] + [second] == [first, second];
  }
}
