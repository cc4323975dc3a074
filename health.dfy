/** The hardware-health data that one scrape reads from the iLO controller,
    as plain values. Dictionaries of the controller's answer become sequences
    of entries in the order Python iterates them (insertion order). */
module Health {

  /** A reading as the controller reports it and as it is handed to a gauge.
      The float conversion the gauge applies is not part of this model. */
  datatype Value = Number(n: int) | Text(s: string)

  /** A temperature field: the sentinel "N/A", or a sequence whose first
      element is the reading (the controller sends a (value, unit) pair). */
  datatype Field = NA | Readings(values: seq<Value>)

  /** One entry of server_health["fans"]: the fan's name and its "speed". */
  datatype Fan = Fan(name: string, speed: seq<Value>)

  /** One entry of server_health["temperature"]: the dictionary key
      and the four fields the exporter reads. */
  datatype Sensor = Sensor(
    key: string,
    location: string,
    currentReading: Field,
    caution: Field,
    critical: Field)

  /** The parts of get_embedded_health() the exporter uses. */
  datatype Snapshot = Snapshot(
    presentPowerReading: string,
    highEfficiencyMode: string,
    fans: seq<Fan>,
    temperature: seq<Sensor>)

  /** Fan names are dictionary keys, so no two entries share one. */
  predicate DistinctFanNames(fans: seq<Fan>) {
    forall i, j :: 0 <= i < j < |fans| ==> fans[i].name != fans[j].name
  }

  function FanNames(fans: seq<Fan>): set<string> {
    set i | 0 <= i < |fans| :: fans[i].name
  }

  function Locations(sensors: seq<Sensor>): set<string> {
    set i | 0 <= i < |sensors| :: sensors[i].location
  }

  /** A field the exporter can read without an IndexError. */
  predicate Usable(f: Field) {
    f.NA? || f.values != []
  }

  /** A sensor whose three fields are all usable. */
  predicate Complete(s: Sensor) {
    Usable(s.currentReading) && Usable(s.caution) && Usable(s.critical)
  }
}
