/**
 * The decision rule of the video classifier (app_fixed.py, lines 40-41 and
 * 113-136): an ordered chain of count thresholds, the first that holds wins.
 */
module Decision {

  /** The emergency categories the classifier can report. */
  datatype Situation = Flood | Fire | Earthquake | PowerOutage | Accident | General

  datatype Confidence = High | Medium

  datatype Detection = Detection(situation: Situation, confidence: Confidence)

  /**
   * The tallies of one analysis: frames analysed, and how many of them showed
   * water, fire, darkness and motion against the previous analysed frame.
   */
  datatype Counts = Counts(frames: nat, water: nat, fire: nat, dark: nat, motion: nat)

  const FloodThreshold := 5
  const FireThreshold := 4
  const EarthquakeThreshold := 8
  const PowerOutageThreshold := 10
  const AccidentThreshold := 4

  /** The result the analysis starts from, and keeps when nothing else applies. */
  const Default := Detection(General, Medium)

  /**
   * The if/elif chain over the tallies. Confidence is High exactly for flood
   * and fire, and the result is the default exactly when no threshold is met.
   */
  function Classify(c: Counts): (d: Detection)
    ensures d.confidence == High <==> d.situation == Flood || d.situation == Fire
    ensures d == Default <==>
      c.water < FloodThreshold && c.fire < FireThreshold && c.motion < AccidentThreshold
      && c.dark < PowerOutageThreshold
  {
    if c.water >= FloodThreshold then Detection(Flood, High)
    else if c.fire >= FireThreshold then Detection(Fire, High)
    else if c.motion >= EarthquakeThreshold then Detection(Earthquake, Medium)
    else if c.dark >= PowerOutageThreshold then Detection(PowerOutage, Medium)
    else if c.motion >= AccidentThreshold then Detection(Accident, Medium)
    else Default
  }

  /** The position of a situation in the priority order: 0 is checked first. */
  function Priority(s: Situation): nat {
    match s
    case Flood => 0
    case Fire => 1
    case Earthquake => 2
    case PowerOutage => 3
    case Accident => 4
    case General => 5
  }

  /** The counter a situation is decided by and the threshold it must reach. */
  function Evidence(s: Situation, c: Counts): nat {
    match s
    case Flood => c.water
    case Fire => c.fire
    case Earthquake => c.motion
    case PowerOutage => c.dark
    case Accident => c.motion
    case General => 0
  }

  function Threshold(s: Situation): nat {
    match s
    case Flood => FloodThreshold
    case Fire => FireThreshold
    case Earthquake => EarthquakeThreshold
    case PowerOutage => PowerOutageThreshold
    case Accident => AccidentThreshold
    case General => 0
  }

  /**
   * The chosen situation is the first in priority order whose counter
   * reaches its threshold: its own threshold is met and no earlier one is.
   */
  lemma FirstMatchWins(c: Counts)
    ensures Evidence(Classify(c).situation, c) >= Threshold(Classify(c).situation)
    ensures forall s: Situation :: Priority(s) < Priority(Classify(c).situation) ==>
      Evidence(s, c) < Threshold(s)
  {
  }

  /**
   * More evidence of every kind never moves the result later in the
   * priority order.
   */
  lemma ClassifyMonotone(c: Counts, more: Counts)
    requires c.water <= more.water && c.fire <= more.fire
    requires c.dark <= more.dark && c.motion <= more.motion
    ensures Priority(Classify(more).situation) <= Priority(Classify(c).situation)
  {
  }

  /** Concrete cases: priority beats magnitude, and the flood boundary sits at five. */
  lemma ClassifyExamples()
    ensures Classify(Counts(15, 6, 5, 0, 0)) == Detection(Flood, High)
    ensures Classify(Counts(15, 4, 0, 0, 0)) == Default
    ensures Classify(Counts(15, 5, 0, 0, 0)) == Detection(Flood, High)
    ensures Classify(Counts(15, 0, 0, 0, 9)) == Detection(Earthquake, Medium)
    ensures Classify(Counts(15, 0, 0, 10, 5)) == Detection(PowerOutage, Medium)
  {
  }
}
