/** The choice of the peer that provides the full state (lib/cluster/command.js:168-208). */
module Command {
  import opened Wrappers

  function Next(i: nat, count: nat): (r: nat)
    requires i < count
    ensures r == if i + 1 == count then 0 else i + 1
  {
    assert i + 1 < count ==> (i + 1) / count == 0;
    (i + 1) % count
  }

  /** The position reached `steps` nodes after `start`, going round the `count` nodes. */
  function After(start: nat, steps: nat, count: nat): (i: nat)
    requires start < count
    ensures i < count
  {
    if steps == 0 then start else Next(After(start, steps - 1, count), count)
  }

  lemma {:induction false} AfterIsRotation(start: nat, steps: nat, count: nat)
    requires start < count && steps < count
    ensures After(start, steps, count) == if start + steps < count then start + steps else start + steps - count
  {
    if steps > 0 {
      AfterIsRotation(start, steps - 1, count);
    }
  }

  /** The number of steps from `start` to the i-th node. */
  function StepsTo(start: nat, i: nat, count: nat): (q: nat)
    requires start < count && i < count
    ensures q < count
  {
    if i >= start then i - start else i + count - start
  }

  /** A full turn meets each node once. */
  lemma FullTurn(start: nat, count: nat)
    requires start < count
    ensures forall p, q :: 0 <= p < q < count ==> After(start, p, count) != After(start, q, count)
    ensures forall i :: 0 <= i < count ==> After(start, StepsTo(start, i, count), count) == i
  {
    forall p, q | 0 <= p < q < count ensures After(start, p, count) != After(start, q, count) {
      AfterIsRotation(start, p, count);
      AfterIsRotation(start, q, count);
    }
    forall i | 0 <= i < count ensures After(start, StepsTo(start, i, count), count) == i {
      AfterIsRotation(start, StepsTo(start, i, count), count);
    }
  }

  /** The nodes asked in `steps` steps from `start`. */
  function Turn(start: nat, steps: nat, count: nat): (asked: seq<nat>)
    requires start < count
    ensures |asked| == steps && forall q :: 0 <= q < steps ==> asked[q] == After(start, q, count)
  {
    if steps == 0 then [] else Turn(start, steps - 1, count) + [After(start, steps - 1, count)]
  }

  /**
   * `answers[i]` is what the i-th node answers when it is asked, if anything; `start` was drawn at
   * random. The first answer on the way round is the one kept; nodes are asked one after the other,
   * each at most once, and there is no full state exactly when none of them answers.
   */
  method GetFullState<T(0)>(answers: seq<Option<T>>, start: nat) returns (fullState: Option<T>, asked: seq<nat>)
    requires |answers| > 0 ==> start < |answers|
    ensures fullState.None? <==> forall i :: 0 <= i < |answers| ==> answers[i].None?
    ensures forall q :: 0 <= q < |asked| ==> asked[q] < |answers|
    ensures forall p, q :: 0 <= p < q < |asked| ==> asked[p] != asked[q]
    ensures |answers| > 0 ==> asked == Turn(start, |asked|, |answers|)
    ensures forall q :: 0 <= q < |asked| - 1 ==> answers[asked[q]].None?
    ensures fullState.Some? ==> asked != [] && fullState == answers[asked[|asked| - 1]]
  {
    var idx := start;
    fullState := None;
    asked := [];
    if |answers| == 0 {
      return;
    }
    while fullState.None? && |asked| < |answers|
      invariant |asked| <= |answers| && asked == Turn(start, |asked|, |answers|)
      invariant fullState.None? ==> idx == After(start, |asked|, |answers|)
      invariant forall q :: 0 <= q < |asked| && (q < |asked| - 1 || fullState.None?) ==> answers[asked[q]].None?
      invariant fullState.Some? ==> asked != [] && fullState == answers[asked[|asked| - 1]]
    {
      asked := asked + [idx];
      fullState := answers[idx];
      if fullState.None? {
        idx := Next(idx, |answers|);
      }
    }
    AskedOnce(asked, start, |answers|);
    if fullState.None? {
      NobodyAnswers(answers, start);
    }
  }

  lemma AskedOnce(asked: seq<nat>, start: nat, count: nat)
    requires start < count && |asked| <= count && forall q :: 0 <= q < |asked| ==> asked[q] == After(start, q, count)
    ensures forall p, q :: 0 <= p < q < |asked| ==> asked[p] != asked[q]
  {
    FullTurn(start, count);
  }

  lemma NobodyAnswers<T>(answers: seq<Option<T>>, start: nat)
    requires start < |answers| && forall q :: 0 <= q < |answers| ==> answers[After(start, q, |answers|)].None?
    ensures forall i :: 0 <= i < |answers| ==> answers[i].None?
  {
    forall i | 0 <= i < |answers| ensures answers[i].None? {
      FullTurn(start, |answers|);
      assert After(start, StepsTo(start, i, |answers|), |answers|) == i;
    }
  }
}
