/**
 * The contrastive-divergence schedule reader of
 * trunk/source/OMLT/OMLT/source/TrainingSchedule.cpp. The cJSON tree is
 * modelled as the fields the reader asks for: a field that is absent is None.
 * A document cJSON could not parse is a None document.
 */
module CdSchedule {
  import opened Wrappers
  import opened Enums

  datatype CdEntry = CdEntry(
    epochs: Option<int>,
    learningRate: Option<real>,
    momentum: Option<real>,
    l1Regularization: Option<real>,
    l2Regularization: Option<real>,
    visibleDropout: Option<real>,
    hiddenDropout: Option<real>)

  datatype CdDocument = CdDocument(
    modelType: Option<string>,
    visibleType: Option<string>,
    hiddenType: Option<string>,
    hiddenCount: Option<int>,
    minibatchSize: Option<int>,
    schedule: Option<seq<CdEntry>>)

  datatype TrainingConfig = TrainingConfig(
    learningRate: real,
    momentum: real,
    l1Regularization: real,
    l2Regularization: real,
    visibleDropout: real,
    hiddenDropout: real)

  /** TrainingConfig's constructor zeroes every field. */
  const DEFAULT_CONFIG := TrainingConfig(0.0, 0.0, 0.0, 0.0, 0.0, 0.0)

  datatype ModelConfig = ModelConfig(visibleUnits: nat, visibleType: ActivationFunction, hiddenUnits: nat, hiddenType: ActivationFunction)

  datatype Parsed = Parsed(model: ModelConfig, minibatchSize: nat, entries: seq<(TrainingConfig, nat)>)

  predicate InUnit(x: real)
  {
    0.0 <= x < 1.0
  }

  predicate NonNegative(x: Option<real>)
  {
    x.Some? ==> x.value >= 0.0
  }

  predicate Fraction(x: Option<real>)
  {
    x.Some? ==> InUnit(x.value)
  }

  /** What an entry must satisfy: Epochs present and positive, and every present field in its range. */
  predicate EntryValid(e: CdEntry)
  {
    e.epochs.Some? && e.epochs.value > 0 &&
    NonNegative(e.learningRate) && Fraction(e.momentum) &&
    NonNegative(e.l1Regularization) && NonNegative(e.l2Regularization) &&
    Fraction(e.visibleDropout) && Fraction(e.hiddenDropout)
  }

  predicate TypeAccepted(t: Option<string>)
  {
    t.Some? && (t.value == "RBM" || t.value == "RestrictedBoltzmannMachine")
  }

  /** The whole admission rule of FromJSON. */
  predicate DocumentValid(d: CdDocument)
  {
    TypeAccepted(d.modelType) &&
    d.visibleType.Some? && d.hiddenType.Some? && d.hiddenCount.Some? && d.minibatchSize.Some? && d.schedule.Some? &&
    FunctionNamed(d.visibleType.value) != Invalid && FunctionNamed(d.hiddenType.value) != Invalid &&
    d.hiddenCount.value > 0 && d.minibatchSize.value > 0 &&
    |d.schedule.value| > 0 && forall k :: 0 <= k < |d.schedule.value| ==> EntryValid(d.schedule.value[k])
  }

  function Keep(field: Option<real>, previous: real): real
  {
    if field.Some? then field.value else previous
  }

  /** train_config after one entry: present fields overwrite, omitted ones keep the previous entry's value. */
  function Override(previous: TrainingConfig, e: CdEntry): TrainingConfig
  {
    TrainingConfig(
      Keep(e.learningRate, previous.learningRate),
      Keep(e.momentum, previous.momentum),
      Keep(e.l1Regularization, previous.l1Regularization),
      Keep(e.l2Regularization, previous.l2Regularization),
      Keep(e.visibleDropout, previous.visibleDropout),
      Keep(e.hiddenDropout, previous.hiddenDropout))
  }

  /** The schedule from the entries, with train_config carried from one entry to the next. */
  function ScheduleFrom(entries: seq<CdEntry>, previous: TrainingConfig): (r: Option<seq<(TrainingConfig, nat)>>)
    ensures r.Some? ==> |r.value| == |entries|
  {
    if entries == [] then Some([])
    else if !EntryValid(entries[0]) then None
    else
      var config := Override(previous, entries[0]);
      match ScheduleFrom(entries[1..], config)
      case None => None
      case Some(rest) => Some([(config, entries[0].epochs.value as nat)] + rest)
  }

  function ParseDocument(d: Option<CdDocument>): Option<Parsed>
  {
    if d.None? || !TypeAccepted(d.value.modelType) then None
    else
      var doc := d.value;
      if doc.visibleType.None? || doc.hiddenType.None? || doc.hiddenCount.None? || doc.minibatchSize.None? || doc.schedule.None? then None
      else
        var visible := FunctionNamed(doc.visibleType.value);
        var hidden := FunctionNamed(doc.hiddenType.value);
        if visible == Invalid || hidden == Invalid || doc.hiddenCount.value <= 0 || doc.minibatchSize.value <= 0 || |doc.schedule.value| == 0 then None
        else
          match ScheduleFrom(doc.schedule.value, DEFAULT_CONFIG)
          case None => None
          case Some(entries) =>
            Some(Parsed(ModelConfig(0, visible, doc.hiddenCount.value as nat, hidden), doc.minibatchSize.value as nat, entries))
  }

  lemma {:induction false} ScheduleAccepts(entries: seq<CdEntry>, previous: TrainingConfig)
    ensures ScheduleFrom(entries, previous).Some? <==> forall k :: 0 <= k < |entries| ==> EntryValid(entries[k])
  {
    if entries != [] {
      ScheduleAccepts(entries[1..], Override(previous, entries[0]));
      assert forall k :: 1 <= k < |entries| ==> entries[k] == entries[1..][k - 1];
    }
  }

  /** A document is accepted exactly when it satisfies every rule. */
  lemma Accepts(d: CdDocument)
    ensures ParseDocument(Some(d)).Some? <==> DocumentValid(d)
  {
    if d.schedule.Some? {
      ScheduleAccepts(d.schedule.value, DEFAULT_CONFIG);
    }
  }

  /** The configuration in force before entry k: that of entry k - 1, or the zeroed default for the first. */
  function Before(entries: seq<(TrainingConfig, nat)>, k: nat): TrainingConfig
    requires k <= |entries|
  {
    if k == 0 then DEFAULT_CONFIG else entries[k - 1].0
  }

  lemma {:induction false} ScheduleEntries(entries: seq<CdEntry>, previous: TrainingConfig)
    requires ScheduleFrom(entries, previous).Some?
    ensures forall k :: 0 <= k < |entries| ==> EntryValid(entries[k])
    ensures var r := ScheduleFrom(entries, previous).value;
      forall k :: 0 <= k < |r| ==>
        entries[k].epochs == Some(r[k].1 as int) && r[k].0 == Override(if k == 0 then previous else r[k - 1].0, entries[k])
  {
    ScheduleAccepts(entries, previous);
    if entries != [] {
      var config := Override(previous, entries[0]);
      ScheduleEntries(entries[1..], config);
      var r := ScheduleFrom(entries, previous).value;
      var rest := ScheduleFrom(entries[1..], config).value;
      assert r == [(config, entries[0].epochs.value as nat)] + rest;
      assert forall k :: 1 <= k < |r| ==> r[k] == rest[k - 1] && entries[k] == entries[1..][k - 1];
    }
  }

  /**
   * Each accepted entry carries its own epochs and, field by field, its own
   * value where present and the previous entry's value where omitted.
   */
  lemma Inherits(d: CdDocument)
    requires ParseDocument(Some(d)).Some?
    ensures d.schedule.Some? && forall k :: 0 <= k < |d.schedule.value| ==> EntryValid(d.schedule.value[k])
    ensures var p := ParseDocument(Some(d)).value;
      |p.entries| == |d.schedule.value| && forall k :: 0 <= k < |p.entries| ==>
        d.schedule.value[k].epochs == Some(p.entries[k].1 as int) && p.entries[k].0 == Override(Before(p.entries, k), d.schedule.value[k])
  {
    ScheduleEntries(d.schedule.value, DEFAULT_CONFIG);
  }

  predicate ConfigInRange(c: TrainingConfig)
  {
    c.learningRate >= 0.0 && InUnit(c.momentum) && c.l1Regularization >= 0.0 && c.l2Regularization >= 0.0 &&
    InUnit(c.visibleDropout) && InUnit(c.hiddenDropout)
  }

  lemma {:induction false} ScheduleInRange(entries: seq<CdEntry>, previous: TrainingConfig)
    requires ScheduleFrom(entries, previous).Some? && ConfigInRange(previous)
    ensures var r := ScheduleFrom(entries, previous).value;
      forall k :: 0 <= k < |r| ==> ConfigInRange(r[k].0) && r[k].1 > 0
  {
    if entries != [] {
      var config := Override(previous, entries[0]);
      ScheduleInRange(entries[1..], config);
      var r := ScheduleFrom(entries, previous).value;
      assert forall k :: 1 <= k < |r| ==> r[k] == ScheduleFrom(entries[1..], config).value[k - 1];
    }
  }

  /** Every accepted schedule is non-empty, and every configuration in it is in range with a positive epoch count. */
  lemma ParsedInRange(d: Option<CdDocument>)
    requires ParseDocument(d).Some?
    ensures var p := ParseDocument(d).value;
      |p.entries| > 0 && p.model.hiddenUnits > 0 && p.minibatchSize > 0 &&
      p.model.visibleType != Invalid && p.model.hiddenType != Invalid &&
      forall k :: 0 <= k < |p.entries| ==> ConfigInRange(p.entries[k].0) && p.entries[k].1 > 0
  {
    ScheduleInRange(d.value.schedule.value, DEFAULT_CONFIG);
  }

  /** The schedule built so far followed by what the remaining entries give. */
  function Continue(schedule: seq<(TrainingConfig, nat)>, rest: Option<seq<(TrainingConfig, nat)>>): Option<seq<(TrainingConfig, nat)>>
  {
    match rest
    case None => None
    case Some(tail) => Some(schedule + tail)
  }

  /** One iteration of the loop: a valid entry moves from the remaining entries to the schedule. */
  lemma ContinueStep(schedule: seq<(TrainingConfig, nat)>, entries: seq<CdEntry>, config: TrainingConfig)
    requires entries != []
    ensures !EntryValid(entries[0]) ==> Continue(schedule, ScheduleFrom(entries, config)) == None
    ensures EntryValid(entries[0]) ==>
      var next := Override(config, entries[0]);
      Continue(schedule, ScheduleFrom(entries, config)) ==
      Continue(schedule + [(next, entries[0].epochs.value as nat)], ScheduleFrom(entries[1..], next))
  {
    if EntryValid(entries[0]) {
      var next := Override(config, entries[0]);
      var head := [(next, entries[0].epochs.value as nat)];
      if ScheduleFrom(entries[1..], next).Some? {
        var tail := ScheduleFrom(entries[1..], next).value;
        assert schedule + (head + tail) == (schedule + head) + tail;
      }
    }
  }

  /** The loop of FromJSON: entries are checked in order and train_config lives across iterations. */
  method FromJson(d: Option<CdDocument>) returns (r: Option<Parsed>)
    ensures r == ParseDocument(d)
  {
    if d.None? || !TypeAccepted(d.value.modelType) {
      return None;
    }
    var doc := d.value;
    if doc.visibleType.None? || doc.hiddenType.None? || doc.hiddenCount.None? || doc.minibatchSize.None? || doc.schedule.None? {
      return None;
    }
    var visible := ParseFunction(doc.visibleType.value);
    var hidden := ParseFunction(doc.hiddenType.value);
    if visible == Invalid || hidden == Invalid || doc.hiddenCount.value <= 0 || doc.minibatchSize.value <= 0 {
      return None;
    }
    var entries := doc.schedule.value;
    if |entries| == 0 {
      return None;
    }
    var schedule: seq<(TrainingConfig, nat)> := [];
    var config := DEFAULT_CONFIG;
    var k := 0;
    assert entries[0..] == entries;
    if ScheduleFrom(entries, config).Some? {
      assert [] + ScheduleFrom(entries, config).value == ScheduleFrom(entries, config).value;
    }
    while k < |entries|
      invariant 0 <= k <= |entries|
      invariant ScheduleFrom(entries, DEFAULT_CONFIG) == Continue(schedule, ScheduleFrom(entries[k..], config))
    {
      var e := entries[k];
      ContinueStep(schedule, entries[k..], config);
      assert entries[k..][0] == e && entries[k..][1..] == entries[k + 1..];
      if !EntryValid(e) {
        return None;
      }
      config := Override(config, e);
      schedule := schedule + [(config, e.epochs.value as nat)];
      k := k + 1;
    }
    assert entries[k..] == [];
    assert schedule + [] == schedule;
    r := Some(Parsed(ModelConfig(0, visible, doc.hiddenCount.value as nat, hidden), doc.minibatchSize.value as nat, schedule));
  }
}
