/**
 How one day of a calibration run of scripts/calibrate_fill_model.py ends, pass by pass, and what its samples
 come to.
 */
module CalibrationDays {
  import opened Calibration
  import opened CalibrationTotals
  import opened Common

  // ---------------------------------------------------------------- how a day ends

  /** No query the pass reaches raises: on an empty session only the load is reached, else all eleven. */
  predicate Clean(a: Attempt) {
    a.failure == None || a.failure.value.query >= if a.facts.ticks == 0 then 1 else 11
  }

  /** What a clean pass makes of the day. */
  function EndsAs(f: Facts): Ending {
    if f.ticks == 0 then Skipped(NoSessionTicks) else Read(f)
  }

  function Shortened(text: string): string {
    if |text| > 200 then text[..200] else text
  }

  /**
   A day is passed over exactly when the switch is on and the session is still loose. Otherwise the first
   clean one of three passes decides it, and with none the third one's exception does.
   */
  lemma {:induction false} EndingIs(ar: Archive, only: bool, day: Day)
    ensures EndingOf(ar, only, day) ==
            if only && !ar.scope(day).compacted then Skipped(NotCompacted)
            else if Clean(ar.attempt(day, 1)) then EndsAs(ar.attempt(day, 1).facts)
            else if Clean(ar.attempt(day, 2)) then EndsAs(ar.attempt(day, 2).facts)
            else if Clean(ar.attempt(day, 3)) then EndsAs(ar.attempt(day, 3).facts)
            else Skipped(DuckdbError(Shortened("duckdb_error: " + ar.attempt(day, 3).failure.value.message)))
  {
    assert forall i: nat :: Clean(ar.attempt(day, i)) <==> Succeeds(ar.attempt(day, i));
    assert FirstSuccess(ar, day, 4) == None;
  }

  // ---------------------------------------------------------------- what the samples come to

  /** The positions of the samples without a fill, and of those filled without a positive sigma. */
  function Unfilled(samples: seq<Sample>): set<int> {
    set i | 0 <= i < |samples| && !samples[i].filled
  }

  function WithoutSigma(samples: seq<Sample>): set<int> {
    set i | 0 <= i < |samples| && samples[i].filled
            && (samples[i].sigma.None? || samples[i].sigma.value <= 0.0)
  }

  lemma {:induction false} OneMoreSample(samples: seq<Sample>, x: Sample)
    ensures CountNoFill(samples + [x]) == CountNoFill(samples) + if x.filled then 0 else 1
    ensures CountNoSigma(samples + [x]) ==
            CountNoSigma(samples) + if x.filled && (x.sigma.None? || x.sigma.value <= 0.0) then 1 else 0
  {
    if samples != [] {
      OneMoreSample(samples[1..], x);
      assert (samples + [x])[1..] == samples[1..] + [x];
    } else {
      assert ([x])[1..] == [];
    }
  }

  lemma {:induction false} OneMoreUnfilled(samples: seq<Sample>, x: Sample)
    ensures |Unfilled(samples + [x])| == |Unfilled(samples)| + if x.filled then 0 else 1
  {
    var n, all := |samples|, samples + [x];
    if x.filled {
      assert Unfilled(all) == Unfilled(samples);
    } else {
      assert Unfilled(all) == Unfilled(samples) + {n};
    }
  }

  lemma {:induction false} OneMoreWithoutSigma(samples: seq<Sample>, x: Sample)
    ensures |WithoutSigma(samples + [x])| ==
            |WithoutSigma(samples)| + if x.filled && (x.sigma.None? || x.sigma.value <= 0.0) then 1 else 0
  {
    var n, all := |samples|, samples + [x];
    if x.filled && (x.sigma.None? || x.sigma.value <= 0.0) {
      assert WithoutSigma(all) == WithoutSigma(samples) + {n};
    } else {
      assert WithoutSigma(all) == WithoutSigma(samples);
    }
  }

  /** The two drop counts count the samples without a fill, and the filled ones without a positive sigma. */
  lemma {:induction false} DropsAre(samples: seq<Sample>)
    ensures CountNoFill(samples) == |Unfilled(samples)| && CountNoSigma(samples) == |WithoutSigma(samples)|
  {
    if samples == [] {
      assert Unfilled(samples) == {} && WithoutSigma(samples) == {};
    } else {
      hide CountNoFill, CountNoSigma, Unfilled, WithoutSigma;
      var front, x := samples[..|samples| - 1], samples[|samples| - 1];
      DropsAre(front);
      OneMoreSample(front, x);
      OneMoreUnfilled(front, x);
      OneMoreWithoutSigma(front, x);
      assert samples == front + [x];
    }
  }

  /** A bucket's block is the z of its filled samples with a positive sigma, in the samples' order. */
  lemma {:induction false} BlockIs(samples: seq<Sample>, bucket: Bucket, x: Sample)
    ensures Block([], bucket) == []
    ensures Block(samples + [x], bucket) == Block(samples, bucket) +
            if x.bucket == bucket && x.filled && x.sigma.Some? && x.sigma.value > 0.0 then [x.z] else []
  {
    if samples != [] {
      BlockIs(samples[1..], bucket, x);
      assert (samples + [x])[1..] == samples[1..] + [x];
    } else {
      assert ([x])[1..] == [];
    }
  }
}
