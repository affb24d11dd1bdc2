/** The calibration data: one table per dial, from checkpoint to duty cycle. */
module CalibrationStore {
  import opened Hardware

  /** One dial's anchors: checkpoint (written as its decimal string in the
      file) to duty cycle. */
  type Table = map<int, int>

  /** The whole document, keyed by dial label. */
  type CalibrationData = map<string, Table>

  /** Every entry of a dial's table is a valid duty cycle. */
  predicate DutyTable(t: Table) {
    forall k :: k in t ==> InDutyRange(t[k])
  }

  /** Every table of the document holds only valid duty cycles. */
  predicate DutyData(data: CalibrationData) {
    forall l :: l in data ==> DutyTable(data[l])
  }

  const SecondsLabel: string := "seconds"
  const MinutesLabel: string := "minutes"
  const HoursLabel: string := "hours"

  /** What reading the calibration file gives. */
  datatype Loaded = Found(data: CalibrationData) | NotFound

  /** The document a calibration session starts from when there is no file:
      three empty tables. */
  function EmptyCalibration(): (d: CalibrationData)
    ensures d.Keys == {SecondsLabel, MinutesLabel, HoursLabel}
    ensures forall l :: l in d ==> d[l] == map[]
  {
    map[SecondsLabel := map[], MinutesLabel := map[], HoursLabel := map[]]
  }

  /** The document a calibration session works on. */
  function StartingData(loaded: Loaded): CalibrationData {
    match loaded
    case Found(data) => data
    case NotFound => EmptyCalibration()
  }

  /** A session starts with the dials of the file, or with the three dials
      when there is none; it starts with valid duty cycles whenever the file
      holds only valid ones, and always when there is no file. */
  lemma StartingDataShape(loaded: Loaded)
    ensures var d := StartingData(loaded);
      && d.Keys == (if loaded.Found? then loaded.data.Keys else {SecondsLabel, MinutesLabel, HoursLabel})
      && (loaded.NotFound? ==> forall l :: l in d ==> d[l] == map[])
      && (loaded.Found? ==> forall l :: l in d ==> d[l] == loaded.data[l])
      && (loaded.NotFound? || DutyData(loaded.data) ==> DutyData(d))
  {
  }
}
