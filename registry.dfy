/** The exporter's process-wide gauges and its scrape handler. */
module Exporter {
  import opened Health
  import opened Translator
  import PowerText

  /** The five gauge families created when the module is loaded, each held
      as the map from its label values to the value last set. */
  class Registry {
    var power: map<(string, string), Value>
    var fan: map<string, Value>
    var current: map<string, Value>
    var caution: map<string, Value>
    var critical: map<string, Value>

    function View(): Gauges
      reads this
    {
      Gauges(power, fan, current, caution, critical)
    }

    /** A freshly created gauge has no labelled children. */
    constructor ()
      ensures View() == Cleared
    {
      power, fan, current, caution, critical := map[], map[], map[], map[], map[];
    }

    /** Clears every family: no label combination is left in any of them. */
    method ClearAll()
      modifies this
      ensures View() == Cleared
    {
      power := map[];
      fan := map[];
      current := map[];
      critical := map[];
      caution := map[];
    }

    /** Handles one GET: the host power status, the host power saver status
        and the embedded health snapshot are what the controller answered. */
    method Scrape(hostPowerStatus: string, saver: string, h: Snapshot) returns (outcome: Outcome)
      modifies this
      ensures Scraped(View(), outcome) == Translator.Scrape(old(View()), hostPowerStatus, saver, h)
    {
      if hostPowerStatus == Off {
        ClearAll();
        return PoweredOff;
      }
      var reading := PowerText.PowerReading(h.presentPowerReading);
      power := power[(h.highEfficiencyMode, saver) := Text(reading)];

      ghost var started := View();
      assert started == SetPower(old(View()), saver, h);
      var i := 0;
      while i < |h.fans|
        invariant 0 <= i <= |h.fans|
        invariant WriteFans(started, h.fans) == WriteFans(View(), h.fans[i..])
      {
        var f := h.fans[i];
        assert h.fans[i..][1..] == h.fans[i + 1..];
        if f.speed == [] {
          return Aborted(SpeedMissing(f.name));
        }
        fan := fan[f.name := f.speed[0]];
        i := i + 1;
      }

      ghost var fansDone := View();
      assert WriteFans(started, h.fans) == Done(fansDone);
      var j := 0;
      while j < |h.temperature|
        invariant 0 <= j <= |h.temperature|
        invariant WriteSensors(fansDone, h.temperature) == WriteSensors(View(), h.temperature[j..])
      {
        assert h.temperature[j..][1..] == h.temperature[j + 1..];
        outcome := SetSensor(h.temperature[j]);
        if outcome.Aborted? {
          return;
        }
        j := j + 1;
      }
      return Rendered;
    }

    /** The body of the temperature loop for one entry: current, caution and
        critical are written in that order, the first empty sequence stopping
        the request with its fault. */
    method SetSensor(s: Sensor) returns (outcome: Outcome)
      modifies this
      ensures Scraped(View(), outcome) == Finish(WriteSensor(old(View()), s))
    {
      var done := SetField(Current, s.location, s.currentReading);
      if !done {
        return Aborted(ReadingMissing(s.location, Current));
      }
      done := SetField(Caution, s.location, s.caution);
      if !done {
        return Aborted(ReadingMissing(s.location, Caution));
      }
      done := SetField(Critical, s.location, s.critical);
      if !done {
        return Aborted(ReadingMissing(s.location, Critical));
      }
      return Rendered;
    }

    /** One `if field != "N/A": gauge.labels(location).set(field[0])` line:
        `labels` creates the child at location when it is absent, then the
        first element is read (which fails on an empty sequence) and set. */
    method SetField(k: Family, location: string, f: Field) returns (done: bool)
      modifies this
      ensures done == WriteField(old(View()), k, location, f).Done?
      ensures View() == WriteField(old(View()), k, location, f).state
    {
      if f.NA? {
        return true;
      }
      var m := Temp(View(), k);
      if location !in m {
        m := m[location := Fresh];
      }
      if f.values == [] {
        done := false;
      } else {
        m := m[location := f.values[0]];
        done := true;
      }
      match k
      case Current => current := m;
      case Caution => caution := m;
      case Critical => critical := m;
    }
  }

  /** A scrape while the host is on, then one after it is switched off: the
      second answers 500 and leaves no label entry in any family, whatever
      the first published. */
  method PowerOffAfterPublish(r: Registry, status: string, saver: string, h: Snapshot, h': Snapshot)
    returns (first: Outcome, second: Outcome)
    modifies r
    ensures first != PoweredOff <==> status != Off
    ensures second == PoweredOff && ResponseCode(second) == 500
    ensures r.View() == Cleared
  {
    first := r.Scrape(status, saver, h);
    second := r.Scrape(Off, saver, h');
  }
}
