/** The early-stopping state machine of utils/get_model_unlearn.py (class
    EarlyStopper): it remembers the smallest validation loss seen, counts the
    calls whose loss is worse than that minimum by more than `min_delta`, and
    asks to stop once that count reaches `patience`. */
module EarlyStopperModel {

  /** The recorded minimum; `Infinity` is the initial `float('inf')`. */
  datatype MinLoss = Infinity | Loss(value: real)

  /** The whole state of an EarlyStopper object. */
  datatype Stopper = Stopper(patience: int, minDelta: real, counter: nat, minLoss: MinLoss)

  /** The three ways a call can classify the loss it is given. */
  datatype Outcome = Improvement | WithinTolerance | Worsening

  /** The state right after `EarlyStopper(patience, min_delta)`. */
  function Fresh(patience: int, minDelta: real): (s: Stopper)
  {
    Stopper(patience, minDelta, 0, Infinity)
  }

  /** `loss < m`; every real is below the unset (+inf) minimum. */
  predicate Below(loss: real, m: MinLoss)
  {
    m.Infinity? || loss < m.value
  }

  /** `a <= b` on recorded minima. */
  predicate AtMost(a: MinLoss, b: MinLoss)
  {
    b.Infinity? || (a.Loss? && a.value <= b.value)
  }

  /** Which branch of `early_stop` a loss takes. */
  function Classify(s: Stopper, loss: real): (o: Outcome)
    ensures o == Improvement <==> Below(loss, s.minLoss)
    ensures o == WithinTolerance <==>
      s.minLoss.Loss? && s.minLoss.value <= loss <= s.minLoss.value + s.minDelta
    ensures o == Worsening <==>
      s.minLoss.Loss? && s.minLoss.value <= loss && loss > s.minLoss.value + s.minDelta
  {
    if Below(loss, s.minLoss) then Improvement
    else if loss > s.minLoss.value + s.minDelta then Worsening
    else WithinTolerance
  }

  /** One call of `early_stop`: the state afterwards and the value returned. */
  function Step(s: Stopper, loss: real): (r: (Stopper, bool))
    ensures r.0.patience == s.patience && r.0.minDelta == s.minDelta
    ensures AtMost(r.0.minLoss, s.minLoss)
    ensures r.0.minLoss.Loss? && r.0.minLoss.value <= loss
    ensures r.0.minLoss == s.minLoss || r.0.minLoss == Loss(loss)
    ensures r.1 ==> Classify(s, loss) == Worsening && r.0.counter >= s.patience
  {
    match Classify(s, loss)
    case Improvement => (s.(minLoss := Loss(loss), counter := 0), false)
    case WithinTolerance => (s, false)
    case Worsening => var c := s.counter + 1; (s.(counter := c), c >= s.patience)
  }

  lemma ImprovementResets(s: Stopper, loss: real)
    requires Below(loss, s.minLoss)
    ensures Step(s, loss) == (s.(minLoss := Loss(loss), counter := 0), false)
  {
  }

  lemma ToleranceChangesNothing(s: Stopper, loss: real)
    requires s.minLoss.Loss? && s.minLoss.value <= loss <= s.minLoss.value + s.minDelta
    ensures Step(s, loss) == (s, false)
  {
  }

  lemma WorseningCounts(s: Stopper, loss: real)
    requires s.minLoss.Loss? && s.minLoss.value <= loss && loss > s.minLoss.value + s.minDelta
    ensures Step(s, loss).0 == s.(counter := s.counter + 1)
    ensures Step(s, loss).1 <==> s.counter + 1 >= s.patience
  {
  }

  /** Starting from +inf, the first loss is always recorded as the minimum. */
  lemma FirstLossImproves(patience: int, minDelta: real, loss: real)
    ensures Step(Fresh(patience, minDelta), loss) == (Stopper(patience, minDelta, 0, Loss(loss)), false)
  {
  }

  /** A sequence of calls, one per loss: the final state and the values returned. */
  function Run(s: Stopper, losses: seq<real>): (r: (Stopper, seq<bool>))
    ensures |r.1| == |losses|
    decreases |losses|
  {
    if losses == [] then (s, [])
    else
      var prev := Run(s, losses[..|losses| - 1]);
      var next := Step(prev.0, losses[|losses| - 1]);
      (next.0, prev.1 + [next.1])
  }

  /** After any non-empty run the recorded minimum is a loss no larger than
      the starting minimum nor than any loss seen, and it is either one of
      those losses or the starting minimum itself; `patience` and
      `min_delta` are untouched. */
  lemma {:induction false} RunTracksMinimum(s: Stopper, losses: seq<real>)
    requires |losses| > 0
    ensures var t := Run(s, losses).0;
      && t.patience == s.patience && t.minDelta == s.minDelta
      && t.minLoss.Loss?
      && AtMost(t.minLoss, s.minLoss)
      && (forall i :: 0 <= i < |losses| ==> t.minLoss.value <= losses[i])
      && (t.minLoss == s.minLoss || exists i :: 0 <= i < |losses| && t.minLoss.value == losses[i])
  {
    var init := losses[..|losses| - 1];
    var last := losses[|losses| - 1];
    if |init| == 0 {
      assert Run(s, init).0 == s;
    } else {
      RunTracksMinimum(s, init);
      var t := Run(s, init).0;
      var u := Step(t, last).0;
      assert Run(s, losses).0 == u;
      forall i | 0 <= i < |losses|
        ensures u.minLoss.value <= losses[i]
      {
        if i < |init| {
          assert losses[i] == init[i];
        }
      }
      if u.minLoss != s.minLoss && u.minLoss != Loss(last) {
        assert u.minLoss == t.minLoss;
        var j :| 0 <= j < |init| && t.minLoss.value == init[j];
        assert losses[j] == init[j];
      }
    }
  }

  /** The counter can grow by at most one per call. */
  lemma {:induction false} RunCounterBound(s: Stopper, losses: seq<real>)
    ensures Run(s, losses).0.counter <= s.counter + |losses|
    decreases |losses|
  {
    if losses != [] {
      RunCounterBound(s, losses[..|losses| - 1]);
    }
  }

  /** Consecutive losses all worse than the minimum by more than `min_delta`
      raise the counter by one each, leave the minimum alone, and the i-th of
      them asks to stop exactly when the counter has reached `patience`. */
  lemma {:induction false} SustainedWorseningStops(s: Stopper, m: real, losses: seq<real>)
    requires s.minLoss == Loss(m)
    requires forall i :: 0 <= i < |losses| ==> m <= losses[i] && losses[i] > m + s.minDelta
    ensures Run(s, losses).0 == s.(counter := s.counter + |losses|)
    ensures forall i :: 0 <= i < |losses| ==> (Run(s, losses).1[i] <==> s.counter + i + 1 >= s.patience)
    decreases |losses|
  {
    if losses != [] {
      var init := losses[..|losses| - 1];
      SustainedWorseningStops(s, m, init);
      var flags := Run(s, losses).1;
      assert flags == Run(s, init).1 + [Step(Run(s, init).0, losses[|losses| - 1]).1];
      forall i | 0 <= i < |losses|
        ensures flags[i] <==> s.counter + i + 1 >= s.patience
      {
        if i < |init| {
          assert flags[i] == Run(s, init).1[i];
        }
      }
    }
  }

  /** utils/get_model_unlearn.py, class EarlyStopper. */
  class EarlyStopper {
    var patience: int
    var minDelta: real
    var counter: nat
    var minValidationLoss: MinLoss

    /** The object's fields as a Stopper value. */
    function State(): (s: Stopper)
      reads this
    {
      Stopper(patience, minDelta, counter, minValidationLoss)
    }

    constructor(patience: int, minDelta: real)
      ensures State() == Fresh(patience, minDelta)
    {
      this.patience := patience;
      this.minDelta := minDelta;
      counter := 0;
      minValidationLoss := Infinity;
    }

    /** `early_stop(validation_loss)`. */
    method EarlyStop(validationLoss: real) returns (stop: bool)
      modifies this`counter, this`minValidationLoss
      ensures (State(), stop) == Step(old(State()), validationLoss)
      ensures patience == old(patience) && minDelta == old(minDelta)
      ensures Below(validationLoss, old(minValidationLoss)) ==>
        minValidationLoss == Loss(validationLoss) && counter == 0 && !stop
      ensures Classify(old(State()), validationLoss) == WithinTolerance ==>
        unchanged(this) && !stop
      ensures Classify(old(State()), validationLoss) == Worsening ==>
        && counter == old(counter) + 1
        && minValidationLoss == old(minValidationLoss)
        && (stop <==> counter >= patience)
    {
      if Below(validationLoss, minValidationLoss) {
        minValidationLoss := Loss(validationLoss);
        counter := 0;
      } else if validationLoss > minValidationLoss.value + minDelta {
        counter := counter + 1;
        if counter >= patience {
          return true;
        }
      }
      return false;
    }
  }
}
