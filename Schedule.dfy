/**
 * The training schedule of trunk/source/OMLT/OMLT/include/TrainingSchedule.h:
 * a list of (training configuration, epoch count) pairs walked through one
 * epoch at a time. index is a uint32 that starts at -1, that is U32_MAX.
 */
module Schedule {
  import opened Bytes

  /** The two counters NextEpoch updates. */
  datatype Progress = Progress(index: u32, epochs: u32)

  datatype StepResult = StepResult(next: Progress, loaded: bool)

  const FRESH: Progress := Progress(U32_MAX, 0)

  /** Only a fresh schedule is before the first configuration; otherwise index never passes the list length n. */
  predicate InRange(p: Progress, n: nat)
  {
    p.index == U32_MAX || p.index <= n
  }

  predicate Complete(p: Progress, n: nat)
  {
    p.index == n && p.epochs == 0
  }

  /**
   * NextEpoch on the counters, given the epoch counts of the n
   * configurations: one epoch is used up (saturating at 0); when none is
   * left the index moves on (from -1 it wraps to 0) without passing n, and
   * the next configuration's epochs are loaded if there is one.
   */
  function Step(p: Progress, counts: seq<u32>): (r: StepResult)
    ensures r.loaded <==> p.epochs <= 1 && Wrap32(p.index + 1) < |counts|
    ensures r.loaded ==> r.next.index == Wrap32(p.index + 1) && r.next.epochs == counts[r.next.index]
    ensures !r.loaded ==> r.next.epochs == (if p.epochs == 0 then 0 else p.epochs - 1)
    ensures r.next.index <= |counts| || r.next.index == p.index
  {
    var epochs := if p.epochs == 0 then 0 else p.epochs - 1;
    if epochs != 0 then StepResult(Progress(p.index, epochs), false)
    else
      var next := Wrap32(p.index + 1);
      if next < |counts| then StepResult(Progress(next, counts[next]), true)
      else StepResult(Progress(|counts|, 0), false)
  }

  /** How far a schedule is from being complete: stages left, then epochs left in the current one. */
  function Measure(p: Progress, n: nat): nat
    requires InRange(p, n) && n < U32_MAX
  {
    (if p.index == U32_MAX then n + 1 else n - p.index) * TWO32 + p.epochs
  }

  /** A schedule that is not complete gets strictly closer to completion on every NextEpoch. */
  lemma StepProgresses(p: Progress, counts: seq<u32>)
    requires |counts| < U32_MAX && InRange(p, |counts|) && !Complete(p, |counts|)
    ensures InRange(Step(p, counts).next, |counts|)
    ensures Measure(Step(p, counts).next, |counts|) < Measure(p, |counts|)
  {
    var n := |counts|;
    var q := Step(p, counts).next;
    if p.epochs <= 1 {
      if p.index == U32_MAX {
        assert Wrap32(p.index + 1) == 0;
        assert q.index == 0 && Measure(q, n) == n * TWO32 + q.epochs;
      } else if p.index < n {
        assert Wrap32(p.index + 1) == p.index + 1;
        assert q.index == p.index + 1;
      } else {
        assert Wrap32(p.index + 1) == p.index + 1;
        assert q == Progress(n, 0);
      }
    }
  }

  /** A complete schedule stays complete and loads nothing. */
  lemma CompleteStays(p: Progress, counts: seq<u32>)
    requires |counts| < U32_MAX && Complete(p, |counts|)
    ensures Step(p, counts) == StepResult(p, false)
  {
    assert Wrap32(p.index + 1) == p.index + 1;
  }

  /** The first NextEpoch on a fresh schedule loads configuration 0, if there is one. */
  lemma FirstStep(counts: seq<u32>)
    requires |counts| < U32_MAX
    ensures |counts| > 0 ==> Step(FRESH, counts) == StepResult(Progress(0, counts[0]), true)
    ensures |counts| == 0 ==> Step(FRESH, counts) == StepResult(Progress(0, 0), false) && Complete(Progress(0, 0), 0)
  {
    assert Wrap32(U32_MAX + 1) == 0;
  }

  /** The epoch counts of the stored pairs. */
  function Counts<C>(configs: seq<(C, u32)>): (r: seq<u32>)
    ensures |r| == |configs| && forall k :: 0 <= k < |r| ==> r[k] == configs[k].1
  {
    seq(|configs|, k requires 0 <= k < |configs| => configs[k].1)
  }

  class TrainingSchedule<M, C> {
    const modelConfig: M
    const minibatchSize: u32
    var configs: seq<(C, u32)>
    var epochsRemaining: u32
    var index: u32

    function Current(): Progress
      reads this
    {
      Progress(index, epochsRemaining)
    }

    ghost predicate Valid()
      reads this
    {
      |configs| < U32_MAX && InRange(Current(), |configs|)
    }

    constructor(model: M, minibatch: u32)
      ensures Valid() && Current() == FRESH && configs == []
      ensures modelConfig == model && minibatchSize == minibatch
    {
      modelConfig := model;
      minibatchSize := minibatch;
      configs := [];
      epochsRemaining := 0;
      index := U32_MAX;
    }

    method AddTrainingConfig(config: C, epochs: u32)
      requires Valid() && |configs| + 1 < U32_MAX
      modifies this
      ensures Valid() && configs == old(configs) + [(config, epochs)] && Current() == old(Current())
    {
      configs := configs + [(config, epochs)];
    }

    /** Done: past the last configuration with no epochs left. */
    predicate TrainingComplete()
      reads this
    {
      Complete(Current(), |configs|)
    }

    /** Returns whether a new configuration was loaded into config; out is returned unchanged otherwise. */
    method NextEpoch(out: C) returns (loaded: bool, config: C)
      requires Valid()
      modifies this
      ensures Valid() && configs == old(configs)
      ensures Step(old(Current()), Counts(configs)) == StepResult(Current(), loaded)
      ensures loaded ==> index < |configs| && config == configs[index].0 && epochsRemaining == configs[index].1
      ensures !loaded ==> config == out
    {
      epochsRemaining := if epochsRemaining == 0 then 0 else epochsRemaining - 1;
      if epochsRemaining == 0 {
        var next := Wrap32(index + 1);
        index := if next < |configs| then next else |configs|;
        if index == |configs| {
          return false, out;
        }
        config := configs[index].0;
        epochsRemaining := configs[index].1;
        return true, config;
      }
      return false, out;
    }
  }
}
