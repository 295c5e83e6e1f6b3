/**
 * The command line of the cltrain tool (source/Tools/cltrain/cltrain.cpp):
 * handle_arguments, which collects the flag values and validates them, and
 * GetOptimalParitioning, which splits the data atlas between two data sets.
 * Reading, loading and opening files, parsing the schedule and the imported
 * model, and the OpenGL size limit are outside the model: their outcomes are
 * the fields of Environment. sscanf("%u") is the `scan` parameter.
 */
module Cltrain {
  import opened Bytes
  import opened Wrappers
  import opened FlagTable

  const TRAINING_DATA: nat := 0
  const TRAINING_LABELS: nat := 1
  const VALIDATION_DATA: nat := 2
  const VALIDATION_LABELS: nat := 3
  const SCHEDULE: nat := 4
  const IMPORT: nat := 5
  const EXPORT: nat := 6
  const QUIET: nat := 7
  const ATLAS_SIZE: nat := 8
  const COUNT: nat := 9

  /** The flag strings, in the order of the Arguments enumeration. */
  function Flag(j: nat): string
    requires j < COUNT
  {
    match j
    case 0 => "-trainingData="
    case 1 => "-trainingLabels="
    case 2 => "-validationData="
    case 3 => "-validationLabels="
    case 4 => "-schedule="
    case 5 => "-import="
    case 6 => "-export="
    case 7 => "-quiet"
    case _ => "-atlasSize="
  }

  const DEFAULT_ATLAS_SIZE: nat := 512
  const MIN_ATLAS_SIZE: nat := 128

  function Flags(): (r: seq<string>)
    ensures |r| == COUNT && forall j :: 0 <= j < COUNT ==> r[j] == Flag(j)
  {
    seq(COUNT, j requires 0 <= j < COUNT => Flag(j))
  }

  datatype ModelType = Rbm | AutoEncoder | Mlp

  /**
   * The outcomes of the steps that read files: the model type of the first
   * schedule parse that succeeds (None: unreadable or no parse), whether its
   * minibatch size fits the texture limit, whether each IDX file loads and
   * passes its row-length test, whether the imported model parses with the
   * schedule's model type, and whether the export file opens.
   */
  datatype Environment = Environment(
    schedule: Option<ModelType>, minibatchFits: bool,
    trainingData: bool, trainingLabels: bool, validationData: bool, validationLabels: bool,
    importMatches: bool, exportOpens: bool)

  datatype Settings = Settings(model: ModelType, quiet: bool, atlasSize: u32)

  /** The atlas size: 512 without the flag, otherwise its %u value, which must be at least 128. */
  function AtlasSize(value: Option<string>, scan: string -> Option<u32>): (r: Option<u32>)
    ensures value.None? ==> r == Some(DEFAULT_ATLAS_SIZE)
    ensures value.Some? ==> (r.Some? <==> scan(value.value).Some? && scan(value.value).value >= MIN_ATLAS_SIZE)
    ensures r.Some? ==> r.value >= MIN_ATLAS_SIZE
    ensures value.Some? && r.Some? ==> r == scan(value.value)
  {
    if value.None? then Some(DEFAULT_ATLAS_SIZE)
    else if scan(value.value).Some? && scan(value.value).value >= MIN_ATLAS_SIZE then scan(value.value)
    else None
  }

  /**
   * What the checks after the flag loop demand: a schedule, training data
   * and an export name are given; labels are given exactly for an MLP;
   * validation labels only with validation data; every file step succeeds;
   * and the atlas size is valid. Validation labels for a model that is not
   * an MLP are never loaded and so never checked.
   */
  predicate Acceptable(v: seq<Option<string>>, env: Environment, scan: string -> Option<u32>)
    requires |v| == COUNT
  {
    v[SCHEDULE].Some? && env.schedule.Some? && env.minibatchFits &&
    v[TRAINING_DATA].Some? &&
    (v[TRAINING_LABELS].Some? <==> env.schedule.value == Mlp) &&
    v[EXPORT].Some? &&
    env.trainingData &&
    (env.schedule.value == Mlp ==> env.trainingLabels) &&
    (v[VALIDATION_DATA].Some? ==> env.validationData) &&
    (v[VALIDATION_DATA].Some? && env.schedule.value == Mlp && v[VALIDATION_LABELS].Some? ==> env.validationLabels) &&
    (v[VALIDATION_DATA].None? ==> v[VALIDATION_LABELS].None?) &&
    (v[IMPORT].Some? ==> env.importMatches) &&
    env.exportOpens &&
    AtlasSize(v[ATLAS_SIZE], scan).Some?
  }

  datatype Handled = Success(settings: Settings) | Error

  /** handle_arguments: the flag loop, then the checks in the source's order. */
  method HandleArguments(args: seq<string>, env: Environment, scan: string -> Option<u32>) returns (r: Handled)
    ensures r.Success? <==> Collect(Flags(), true, args).Values? && Acceptable(Collect(Flags(), true, args).values, env, scan)
    ensures r.Success? ==>
      Collect(Flags(), true, args).Values? && env.schedule.Some? &&
      r.settings == Settings(env.schedule.value, Collect(Flags(), true, args).values[QUIET].Some?,
        AtlasSize(Collect(Flags(), true, args).values[ATLAS_SIZE], scan).value)
  {
    var collected := CollectFlags(Flags(), args);
    if !collected.Values? {
      return Error;
    }
    var v := collected.values;
    if v[SCHEDULE].None? || env.schedule.None? || !env.minibatchFits {
      return Error;
    }
    var model := env.schedule.value;
    if v[TRAINING_DATA].None? {
      return Error;
    }
    if model == Mlp && v[TRAINING_LABELS].None? {
      return Error;
    } else if model != Mlp && v[TRAINING_LABELS].Some? {
      return Error;
    }
    if v[EXPORT].None? {
      return Error;
    }
    if !env.trainingData {
      return Error;
    }
    if model == Mlp && !env.trainingLabels {
      return Error;
    }
    if v[VALIDATION_DATA].Some? {
      if !env.validationData {
        return Error;
      }
      if model == Mlp && v[VALIDATION_LABELS].Some? && !env.validationLabels {
        return Error;
      }
    } else if v[VALIDATION_LABELS].Some? {
      return Error;
    }
    if v[IMPORT].Some? && !env.importMatches {
      return Error;
    }
    if !env.exportOpens {
      return Error;
    }
    var quiet := v[QUIET].Some?;
    var atlas := AtlasSize(v[ATLAS_SIZE], scan);
    if atlas.None? {
      return Error;
    }
    r := Success(Settings(model, quiet, atlas.value));
  }

  /**
   * Accepted arguments name a schedule, training data and an export file;
   * they carry -trainingLabels= exactly for an MLP schedule, and
   * -validationLabels= only beside -validationData=.
   */
  lemma AcceptedArguments(args: seq<string>, env: Environment, scan: string -> Option<u32>)
    requires Collect(Flags(), true, args).Values? && Acceptable(Collect(Flags(), true, args).values, env, scan)
    ensures Given(Flags(), args, SCHEDULE) && Given(Flags(), args, TRAINING_DATA) && Given(Flags(), args, EXPORT)
    ensures Given(Flags(), args, TRAINING_LABELS) <==> env.schedule == Some(Mlp)
    ensures Given(Flags(), args, VALIDATION_LABELS) ==> Given(Flags(), args, VALIDATION_DATA)
  {
    CollectValues(Flags(), true, args);
  }

  /** GetOptimalParitioning's test size / float(total) > 0.75, on exact values: 4 * size > 3 * total. */
  predicate Large(size: u32, total: u32)
  {
    4 * size > 3 * total
  }

  /** The integer test is the ratio test on exact rationals. */
  lemma LargeIsRatio(size: u32, total: u32)
    requires total > 0
    ensures Large(size, total) <==> (size as real) / (total as real) > 0.75
  {
    var m, t := size as real, total as real;
    assert (m / t) * t == m;
    ScaledTest(m / t, t, m);
  }

  lemma ScaledTest(q: real, t: real, m: real)
    requires t > 0.0 && q * t == m
    ensures q > 0.75 <==> 4.0 * m > 3.0 * t
  {
    assert (q - 0.75) * t == m - 0.75 * t;
    if q > 0.75 {
      assert (q - 0.75) * t > 0.0;
    } else {
      assert (0.75 - q) * t >= 0.0;
    }
  }

  /** For one total, the larger ratio belongs to the larger size. */
  lemma RatioOrder(a: u32, b: u32, total: u32)
    requires total > 0
    ensures a > b <==> (a as real) / (total as real) > (b as real) / (total as real)
  {
    var qa, qb := (a as real) / (total as real), (b as real) / (total as real);
    assert qa * (total as real) == a as real;
    assert qb * (total as real) == b as real;
  }

  /** The two atlas sizes GetOptimalParitioning writes. */
  datatype Shares = Shares(a: u32, b: u32)

  /**
   * GetOptimalParitioning as written: the "both fit" test adds the sizes in
   * uint32, and two large data sets get 256 each whatever the total.
   */
  function PartitionAsWritten(total: u32, a: u32, b: u32): Shares
  {
    if Wrap32(a + b) < total then Shares(a, b)
    else if Large(a, total) && Large(b, total) then Shares(256, 256)
    else if Large(a, total) then Shares(Wrap32(total - b), b)
    else if Large(b, total) then Shares(a, Wrap32(total - a))
    else if a > b then Shares(Wrap32(total - b), b)
    else Shares(a, Wrap32(total - a))
  }

  /** With a total of 256 (the default atlas halved) two large data sets get 512 between them. */
  lemma FixedHalvesOverflowTotal()
    ensures PartitionAsWritten(256, 1000, 1000) == Shares(256, 256)
  {
  }

  /** Two 2^31 MB data sets wrap their sum to 0 and are both "fitted" into 512 MB. */
  lemma WrappedSumFits()
    ensures PartitionAsWritten(512, 0x8000_0000, 0x8000_0000) == Shares(0x8000_0000, 0x8000_0000)
  {
    assert Wrap32(0x8000_0000 + 0x8000_0000) == 0;
  }

  /**
   * GetOptimalParitioning with the sum taken exactly and the 50:50 split
   * taken of the total. Two data sets that fit keep their sizes; otherwise
   * the whole atlas is shared out, neither gets more than its size, and
   * outside the 50:50 case one of the two is held entirely.
   */
  function Partition(total: u32, a: u32, b: u32): (r: Shares)
    ensures a + b < total ==> r == Shares(a, b)
    ensures a + b >= total ==> r.a + r.b == total && r.a <= a && r.b <= b
    ensures a + b >= total && !(Large(a, total) && Large(b, total)) ==> r.a == a || r.b == b
  {
    if a + b < total then Shares(a, b)
    else if Large(a, total) && Large(b, total) then Shares(total / 2, total - total / 2)
    else if Large(a, total) then Shares(total - b, b)
    else if Large(b, total) then Shares(a, total - a)
    else if a > b then Shares(total - b, b)
    else Shares(a, total - a)
  }

  /** The two agree whenever the sum does not wrap and the split is not 50:50. */
  lemma PartitionsAgree(total: u32, a: u32, b: u32)
    requires a + b < TWO32 && !(a + b >= total && Large(a, total) && Large(b, total))
    ensures PartitionAsWritten(total, a, b) == Partition(total, a, b)
  {
  }
}
