/** The arithmetic of the ritual's ledger (xtask/src/ritual.rs), with each row's
    stamp already read: the code's count against the rule in its comments. The
    code measures a hold from the LAST row, the rule from the last COUNTED one. */
module TickRule {
  import opened Wrappers

  const NIGHT_SECONDS: int := 12 * 60 * 60

  /** A ledger row: the time its stamp reads as, whether its verdict is HOLDS, its count. */
  datatype Tick = Tick(time: Option<int>, holds: bool, count: nat)

  /** The seconds between two stamps, or 0 when either cannot be read. */
  function Gap(from: Option<int>, to: Option<int>): int {
    if from.Some? && to.Some? then to.value - from.value else 0
  }

  predicate NightApart(from: Tick, to: Tick) {
    Gap(from.time, to.time) >= NIGHT_SECONDS
  }

  function NextCount(tail: Option<Tick>, time: Option<int>, holds: bool): nat {
    if !holds then 0
    else if tail.None? || !tail.value.holds || tail.value.count == 0 then 1
    else if Gap(tail.value.time, time) >= NIGHT_SECONDS then tail.value.count + 1
    else tail.value.count
  }

  function Last<T>(s: seq<T>): Option<T> {
    if s == [] then None else Some(s[|s| - 1])
  }

  /** Every row was computed from the one before it. */
  ghost predicate Written(es: seq<Tick>) {
    forall i :: 0 <= i < |es| ==> es[i].count == NextCount(Last(es[..i]), es[i].time, es[i].holds)
  }

  /** The stamps were taken in order: the readable ones never go back, and an
      unreadable one (a year too wide for its columns) is followed by no other. */
  predicate NotBefore(from: Option<int>, to: Option<int>) {
    to.None? || (from.Some? && from.value <= to.value)
  }

  ghost predicate Chronological(es: seq<Tick>) {
    forall i, j :: 0 <= i < j < |es| ==> NotBefore(es[i].time, es[j].time)
  }

  /** Holds of one unbroken run, in order, any two of them at least a night apart. */
  ghost predicate Separated(es: seq<Tick>, idx: seq<nat>) {
    && (forall a :: 0 <= a < |idx| ==> idx[a] < |es|)
    && (forall a, b :: 0 <= a < b < |idx| ==> idx[a] < idx[b] && NightApart(es[idx[a]], es[idx[b]]))
    && (idx != [] ==> Unbroken(es, idx[0]))
  }

  ghost predicate Unbroken(es: seq<Tick>, i: nat) {
    forall j :: i <= j < |es| ==> es[j].holds
  }

  /** The holds the comments' rule counts: the first of a run of holds, then
      each one at least a night after the last COUNTED one. */
  function Counted(es: seq<Tick>): (idx: seq<nat>)
    ensures forall a :: 0 <= a < |idx| ==> idx[a] < |es|
  {
    if es == [] then []
    else
      var n := |es| - 1;
      var idx := Counted(es[..n]);
      if !es[n].holds then []
      else if idx == [] || NightApart(es[idx[|idx| - 1]], es[n]) then idx + [n]
      else idx
  }

  lemma CountedWhenHeld(es: seq<Tick>)
    requires es != []
    ensures Counted(es) != [] <==> es[|es| - 1].holds
  {
  }

  lemma {:induction false} CountedIsSeparated(es: seq<Tick>)
    requires Chronological(es)
    ensures Separated(es, Counted(es))
  {
    if es != [] {
      var n := |es| - 1;
      CountedIsSeparated(es[..n]);
      if es[n].holds {
        SeparatedExtends(es, Counted(es[..n]));
      }
    }
  }

  lemma SeparatedExtends(es: seq<Tick>, idx: seq<nat>)
    requires es != [] && Chronological(es) && Separated(es[..|es| - 1], idx)
    requires es[|es| - 1].holds
    ensures var n := |es| - 1;
            Separated(es, idx) &&
            (idx == [] || NightApart(es[idx[|idx| - 1]], es[n]) ==> Separated(es, idx + [n]))
  {
    var n := |es| - 1;
    if idx != [] && NightApart(es[idx[|idx| - 1]], es[n]) {
      var c := |idx| - 1;
      forall a | 0 <= a < c ensures NightApart(es[idx[a]], es[n]) {
        assert NightApart(es[..n][idx[a]], es[..n][idx[c]]);
      }
    }
  }

  /** No choice of separated holds is larger than the rule's, and none as
      large as the rule's ends earlier. */
  lemma {:induction false} CountedIsLargest(es: seq<Tick>, idx: seq<nat>)
    requires Chronological(es) && Separated(es, idx)
    ensures |idx| <= |Counted(es)|
    ensures idx != [] && |idx| == |Counted(es)| ==> Counted(es)[|idx| - 1] <= idx[|idx| - 1]
  {
    if idx != [] {
      var n, k := |es| - 1, |idx| - 1;
      ChronologicalBefore(es);
      if idx[k] < n {
        SeparatedBefore(es, idx);
        CountedIsLargest(es[..n], idx);
        CountedGrows(es);
      } else {
        var shorter := idx[..k];
        SeparatedWithoutLast(es, idx, shorter);
        CountedIsLargest(es[..n], shorter);
        if k > 0 {
          LargestStep(es, Counted(es[..n]), k, shorter[k - 1]);
        }
      }
    }
  }

  lemma ChronologicalBefore(es: seq<Tick>)
    requires es != [] && Chronological(es)
    ensures Chronological(es[..|es| - 1])
  {
  }

  lemma CountedGrows(es: seq<Tick>)
    requires es != [] && es[|es| - 1].holds
    ensures var best := Counted(es[..|es| - 1]);
            Counted(es) == best || Counted(es) == best + [|es| - 1]
  {
  }

  lemma SeparatedBefore(es: seq<Tick>, idx: seq<nat>)
    requires Separated(es, idx) && idx != [] && idx[|idx| - 1] < |es| - 1
    ensures Separated(es[..|es| - 1], idx) && es[|es| - 1].holds
  {
    forall a | 0 <= a < |idx| ensures idx[a] < |es| - 1 {
      assert a < |idx| - 1 ==> idx[a] < idx[|idx| - 1];
    }
  }

  lemma SeparatedWithoutLast(es: seq<Tick>, idx: seq<nat>, shorter: seq<nat>)
    requires Separated(es, idx) && idx != [] && idx[|idx| - 1] == |es| - 1
    requires shorter == idx[..|idx| - 1]
    ensures Separated(es[..|es| - 1], shorter) && es[|es| - 1].holds
    ensures shorter != [] ==> var last := shorter[|shorter| - 1];
                              last < |es| - 1 && NightApart(es[last], es[|es| - 1])
  {
    var k := |idx| - 1;
    assert forall a :: 0 <= a < k ==> idx[a] < idx[k] && NightApart(es[idx[a]], es[idx[k]]);
  }

  lemma LargestStep(es: seq<Tick>, best: seq<nat>, k: nat, last: nat)
    requires es != [] && Chronological(es) && best == Counted(es[..|es| - 1]) && es[|es| - 1].holds
    requires 0 < k <= |best| && (k == |best| ==> best[k - 1] <= last)
    requires last < |es| - 1 && NightApart(es[last], es[|es| - 1])
    ensures k + 1 <= |Counted(es)| && Counted(es)[|Counted(es)| - 1] <= |es| - 1
  {
    hide NightApart;
    if |best| == k {
      EarlierIsFurther(es, best[k - 1], last, |es| - 1);
    }
  }

  lemma EarlierIsFurther(es: seq<Tick>, b: nat, c: nat, n: nat)
    requires Chronological(es) && b <= c < n < |es| && NightApart(es[c], es[n])
    ensures NightApart(es[b], es[n])
  {
    assert b == c || NotBefore(es[b].time, es[c].time);
  }

  function Count(es: seq<Tick>): nat {
    if es == [] then 0 else es[|es| - 1].count
  }

  /** A hold that the rule counts and the code does not: a re-render came in between. */
  ghost predicate Missed(es: seq<Tick>, i: nat)
    requires i < |es|
  {
    var counted := Counted(es[..i]);
    && es[i].holds && counted != []
    && NightApart(es[counted[|counted| - 1]], es[i]) && !NightApart(es[i - 1], es[i])
  }

  ghost predicate NoneMissed(es: seq<Tick>) {
    forall i: nat :: i < |es| && Unbroken(es, i) ==> !Missed(es, i)
  }

  lemma NoneMissedStep(es: seq<Tick>)
    requires es != []
    ensures var n := |es| - 1;
            NoneMissed(es) <==> (es[n].holds ==> NoneMissed(es[..n]) && !Missed(es, n))
  {
    var n := |es| - 1;
    forall i: nat | i < n
      ensures Missed(es[..n], i) == Missed(es, i)
      ensures Unbroken(es, i) == (es[n].holds && Unbroken(es[..n], i)) {
      assert es[..n][..i] == es[..i];
    }
    assert Unbroken(es, n) == es[n].holds;
    if es[n].holds && NoneMissed(es[..n]) && !Missed(es, n) {
      forall i: nat | i < |es| && Unbroken(es, i) ensures !Missed(es, i) {
        assert i < n ==> Unbroken(es[..n], i);
      }
    }
    if es[n].holds && NoneMissed(es) {
      forall i: nat | i < n && Unbroken(es[..n], i) ensures !Missed(es[..n], i) {
        assert Unbroken(es, i);
      }
    }
    if !es[n].holds {
      assert forall i: nat :: i < |es| ==> !Unbroken(es, i);
    }
  }

  lemma WrittenPrefix(es: seq<Tick>)
    requires es != [] && Written(es)
    ensures var n := |es| - 1;
            Written(es[..n]) && es[n].count == NextCount(Last(es[..n]), es[n].time, es[n].holds)
  {
    var n := |es| - 1;
    assert forall i :: 0 <= i < n ==> es[..n][..i] == es[..i];
  }

  /** The recorded count never exceeds the rule's, and equals it exactly when
      the current run of holds has no missed one. */
  lemma {:induction false} CountAgainstRule(es: seq<Tick>)
    requires Written(es) && Chronological(es)
    ensures Count(es) <= |Counted(es)| && (Counted(es) != [] ==> Count(es) > 0)
    ensures Count(es) == |Counted(es)| <==> NoneMissed(es)
  {
    if es != [] {
      var n := |es| - 1;
      WrittenPrefix(es);
      CountAgainstRule(es[..n]);
      NoneMissedStep(es);
      var counted := Counted(es[..n]);
      if n > 0 {
        CountedWhenHeld(es[..n]);
      }
      if counted != [] && NightApart(es[n - 1], es[n]) {
        EarlierIsFurther(es, counted[|counted| - 1], n - 1, n);
      }
    }
  }

  /** A recorded count of `k` rests on `k` holds, unbroken up to this row, any
      two of them at least twelve hours apart; no larger choice exists than the rule's. */
  lemma CountIsEarned(es: seq<Tick>) returns (idx: seq<nat>)
    requires Written(es) && Chronological(es)
    ensures |idx| == Count(es) && Separated(es, idx)
  {
    CountAgainstRule(es);
    CountedIsSeparated(es);
    idx := Counted(es)[..Count(es)];
  }

  /** Holds at 0 h, 11 h and 22 h: the code counts one night, where two are earned. */
  lemma CountCanFallShort() returns (es: seq<Tick>)
    ensures es == [Tick(Some(0), true, 1), Tick(Some(39_600), true, 1), Tick(Some(79_200), true, 1)]
    ensures Written(es) && Chronological(es)
    ensures Count(es) == 1 && Separated(es, [0, 2])
  {
    es := [Tick(Some(0), true, 1), Tick(Some(39_600), true, 1), Tick(Some(79_200), true, 1)];
    assert es[..0] == [] && es[..1] == [es[0]] && es[..2] == [es[0], es[1]];
  }
}
