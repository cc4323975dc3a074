/** What a scrape guarantees about the gauge families, proved of the
    specification in module Translator (and so of Registry.Scrape). */
module ScrapeProperties {
  import opened Health
  import opened Translator
  import PowerText

  // ---------------------------------------------------------------------
  // The power gate
  // ---------------------------------------------------------------------

  /** Host power "OFF": every family is left without label entries and the
      answer is 500, whatever the families held before. */
  lemma OffClearsEverything(g: Gauges, saver: string, h: Snapshot)
    ensures Scrape(g, Off, saver, h) == Scraped(Cleared, PoweredOff)
    ensures ResponseCode(Scrape(g, Off, saver, h).outcome) == 500
  {
  }

  /** The clearing path is taken exactly when the status is the string "OFF";
      any other status publishes, the power gauge gets the cleaned reading
      under (high_efficiency_mode, host power saver status), and no family
      loses a label entry. */
  lemma OtherStatusPublishes(g: Gauges, hostPowerStatus: string, saver: string, h: Snapshot)
    requires hostPowerStatus != Off
    ensures Scrape(g, hostPowerStatus, saver, h).outcome != PoweredOff
    ensures Scrape(g, hostPowerStatus, saver, h).after.power
         == g.power[(h.highEfficiencyMode, saver) := Text(PowerText.PowerReading(h.presentPowerReading))]
    ensures Grows(g, Scrape(g, hostPowerStatus, saver, h).after)
  {
    var g1 := SetPower(g, saver, h);
    WriteFansKeeps(g1, h.fans);
    var f := WriteFans(g1, h.fans);
    if f.Done? {
      WriteSensorsKeeps(f.state, h.temperature);
    }
    PublishOnlyAdds(g, saver, h);
  }

  // ---------------------------------------------------------------------
  // Which families each loop touches
  // ---------------------------------------------------------------------

  /** The fan loop writes only the fan family. */
  lemma {:induction false} WriteFansKeeps(g: Gauges, fans: seq<Fan>)
    ensures var s := WriteFans(g, fans).state;
      s.power == g.power && s.current == g.current
      && s.caution == g.caution && s.critical == g.critical
    ensures WriteFans(g, fans).state.fan.Keys <= g.fan.Keys + FanNames(fans)
    decreases |fans|
  {
    if fans != [] && fans[0].speed != [] {
      var g' := g.(fan := g.fan[fans[0].name := fans[0].speed[0]]);
      WriteFansKeeps(g', fans[1..]);
      forall i | 0 <= i < |fans[1..]| ensures fans[1..][i].name in FanNames(fans) {
        assert fans[1..][i] == fans[i + 1];
      }
      assert fans[0].name in FanNames(fans);
    }
  }

  /** A temperature field writes at most its own location. */
  lemma WriteFieldKeeps(g: Gauges, k: Family, location: string, f: Field)
    ensures var t := WriteField(g, k, location, f).state;
      && t.power == g.power && t.fan == g.fan
      && forall k' :: Temp(t, k').Keys <= Temp(g, k').Keys + {location}
  {
  }

  lemma WriteSensorKeeps(g: Gauges, s: Sensor)
    ensures var t := WriteSensor(g, s).state;
      && t.power == g.power && t.fan == g.fan
      && forall k :: Temp(t, k).Keys <= Temp(g, k).Keys + {s.location}
  {
    WriteFieldKeeps(g, Current, s.location, s.currentReading);
    var c := WriteField(g, Current, s.location, s.currentReading).state;
    WriteFieldKeeps(c, Caution, s.location, s.caution);
    var a := WriteField(c, Caution, s.location, s.caution).state;
    WriteFieldKeeps(a, Critical, s.location, s.critical);
  }

  /** The temperature loop writes only the three temperature families, and
      only at locations that its entries name. */
  lemma {:induction false} WriteSensorsKeeps(g: Gauges, sensors: seq<Sensor>)
    ensures var t := WriteSensors(g, sensors).state;
      && t.power == g.power && t.fan == g.fan
      && forall k :: Temp(t, k).Keys <= Temp(g, k).Keys + Locations(sensors)
    decreases |sensors|
  {
    if sensors != [] {
      WriteSensorKeeps(g, sensors[0]);
      var p := WriteSensor(g, sensors[0]);
      assert sensors[0].location in Locations(sensors);
      if p.Done? {
        WriteSensorsKeeps(p.state, sensors[1..]);
        forall i | 0 <= i < |sensors[1..]| ensures sensors[1..][i].location in Locations(sensors) {
          assert sensors[1..][i] == sensors[i + 1];
        }
      }
    }
  }

  // ---------------------------------------------------------------------
  // The publish path as an overlay of the snapshot's own writes
  // ---------------------------------------------------------------------

  lemma {:induction false} WriteFansOverlay(g: Gauges, d: Gauges, fans: seq<Fan>)
    ensures WriteFans(Overlay(g, d), fans) == Lift(g, WriteFans(d, fans))
    decreases |fans|
  {
    if fans != [] && fans[0].speed != [] {
      var n, v := fans[0].name, fans[0].speed[0];
      var d' := d.(fan := d.fan[n := v]);
      assert Overlay(g, d).(fan := Overlay(g, d).fan[n := v]) == Overlay(g, d');
      WriteFansOverlay(g, d', fans[1..]);
    }
  }

  /** Setting a key after laying dm over a is laying dm, with that key set,
      over a. */
  lemma MapSetOverlay<K, V>(a: map<K, V>, dm: map<K, V>, key: K, v: V)
    ensures (a + dm)[key := v] == a + dm[key := v]
  {
  }

  /** A temperature field commutes with laying g underneath, except when it
      creates a child at a location that g has and the writes do not: there
      the child keeps g's value instead of starting at the default. */
  lemma WriteFieldOverlay(g: Gauges, d: Gauges, k: Family, location: string, f: Field)
    requires Usable(f) || location in Temp(d, k) || location !in Temp(g, k)
    ensures WriteField(Overlay(g, d), k, location, f) == Lift(g, WriteField(d, k, location, f))
  {
    if f.Readings? && !(f.values == [] && location in Temp(d, k)) {
      var v := if f.values == [] then Fresh else f.values[0];
      match k
      case Current => MapSetOverlay(g.current, d.current, location, v);
      case Caution => MapSetOverlay(g.caution, d.caution, location, v);
      case Critical => MapSetOverlay(g.critical, d.critical, location, v);
    }
  }

  lemma WriteSensorOverlay(g: Gauges, d: Gauges, s: Sensor)
    requires Complete(s)
    ensures WriteSensor(Overlay(g, d), s) == Lift(g, WriteSensor(d, s))
  {
    WriteFieldOverlay(g, d, Current, s.location, s.currentReading);
    var c := WriteField(d, Current, s.location, s.currentReading);
    WriteFieldOverlay(g, c.state, Caution, s.location, s.caution);
    var a := WriteField(c.state, Caution, s.location, s.caution);
    WriteFieldOverlay(g, a.state, Critical, s.location, s.critical);
  }

  lemma {:induction false} WriteSensorsOverlay(g: Gauges, d: Gauges, sensors: seq<Sensor>)
    requires forall j :: 0 <= j < |sensors| ==> Complete(sensors[j])
    ensures WriteSensors(Overlay(g, d), sensors) == Lift(g, WriteSensors(d, sensors))
    decreases |sensors|
  {
    if sensors != [] {
      WriteSensorOverlay(g, d, sensors[0]);
      var p := WriteSensor(d, sensors[0]);
      assert forall j :: 0 <= j < |sensors[1..]| ==> sensors[1..][j] == sensors[j + 1];
      WriteSensorsOverlay(g, p.state, sensors[1..]);
    }
  }

  /** The setting of the power child is the same write whatever was there. */
  lemma SetPowerOverlay(g: Gauges, saver: string, h: Snapshot)
    ensures SetPower(g, saver, h) == Overlay(g, SetPower(Cleared, saver, h))
  {
    var key, v := PowerKey(saver, h), Text(PowerText.PowerReading(h.presentPowerReading));
    assert g.power[key := v] == g.power + map[key := v];
  }

  /** A publish run that finishes, or stops on a fan, applied to any
      families is the same set of writes as applied to empty families, laid
      over what was there: each write either adds a label entry or replaces
      its value, and a stop leaves in place every write made before it. */
  lemma PublishOverlay(g: Gauges, saver: string, h: Snapshot)
    requires Publish(Cleared, saver, h).Done? || Publish(Cleared, saver, h).fault.SpeedMissing?
    ensures Publish(g, saver, h) == Lift(g, Publish(Cleared, saver, h))
  {
    var d := SetPower(Cleared, saver, h);
    SetPowerOverlay(g, saver, h);
    WriteFansOverlay(g, d, h.fans);
    var f := WriteFans(d, h.fans);
    if f.Done? {
      assert Publish(Cleared, saver, h) == WriteSensors(f.state, h.temperature);
      WriteSensorsOverlay(g, f.state, h.temperature);
      assert Publish(g, saver, h) == WriteSensors(Overlay(g, f.state), h.temperature);
    } else {
      assert Publish(Cleared, saver, h) == f;
    }
  }

  /** The writes one entry makes before it reads field k. */
  function Before(g: Gauges, s: Sensor, k: Family): Gauges {
    var c := WriteField(g, Current, s.location, s.currentReading).state;
    match k
    case Current => g
    case Caution => c
    case Critical => WriteField(c, Caution, s.location, s.caution).state
  }

  lemma BeforeOverlay(g: Gauges, d: Gauges, s: Sensor, k: Family)
    requires forall k' :: Order(k') < Order(k) ==> Usable(FieldOf(s, k'))
    ensures Before(Overlay(g, d), s, k) == Overlay(g, Before(d, s, k))
  {
    if k != Current {
      assert Usable(FieldOf(s, Current));
      WriteFieldOverlay(g, d, Current, s.location, s.currentReading);
      if k == Critical {
        assert Usable(FieldOf(s, Caution));
        var c := WriteField(d, Current, s.location, s.currentReading).state;
        WriteFieldOverlay(g, c, Caution, s.location, s.caution);
      }
    }
  }

  /** The first entry that is not complete. */
  function FirstIncomplete(sensors: seq<Sensor>): (j: nat)
    requires exists i :: 0 <= i < |sensors| && !Complete(sensors[i])
    ensures j < |sensors| && !Complete(sensors[j])
    ensures forall i :: 0 <= i < j ==> Complete(sensors[i])
    decreases |sensors|
  {
    if !Complete(sensors[0]) then 0
    else
      var i :| 0 <= i < |sensors| && !Complete(sensors[i]);
      assert sensors[1..][i - 1] == sensors[i];
      FirstIncomplete(sensors[1..]) + 1
  }

  /** Everything a publish run writes before the temperature field it stops
      on, when entry j is the first incomplete one. */
  function Settled(g: Gauges, saver: string, h: Snapshot, j: nat): Gauges
    requires j < |h.temperature| && !Complete(h.temperature[j])
  {
    var f := WriteFans(SetPower(g, saver, h), h.fans).state;
    var s := h.temperature[j];
    Before(WriteSensors(f, h.temperature[..j]).state, s, FirstUnusable(s))
  }

  /** A publish run that stops on a temperature field: every write before
      that field is laid over what was there, exactly as for a run that
      finishes, and then `labels(location)` creates the child of the failing
      family, which keeps its value when it existed and starts at the
      default otherwise. */
  lemma PublishStopOverlay(g: Gauges, saver: string, h: Snapshot, j: nat)
    requires forall i :: 0 <= i < |h.fans| ==> h.fans[i].speed != []
    requires j < |h.temperature| && !Complete(h.temperature[j])
    requires forall i :: 0 <= i < j ==> Complete(h.temperature[i])
    ensures var s := h.temperature[j]; var k0 := FirstUnusable(s);
      Publish(g, saver, h) == Stopped(WithChild(Settled(g, saver, h, j), k0, s.location), ReadingMissing(s.location, k0))
    ensures Settled(g, saver, h, j) == Overlay(g, Settled(Cleared, saver, h, j))
  {
    var s := h.temperature[j];
    var k0 := FirstUnusable(s);
    var pre := h.temperature[..j];
    var d1 := SetPower(Cleared, saver, h);
    SetPowerOverlay(g, saver, h);
    WriteFansOverlay(g, d1, h.fans);
    var fd := WriteFans(d1, h.fans).state;
    var fg := WriteFans(SetPower(g, saver, h), h.fans).state;
    assert fg == Overlay(g, fd);
    assert Publish(g, saver, h) == WriteSensors(fg, h.temperature);
    WriteSensorsStops(fg, h.temperature, j);
    var before := WriteSensors(fg, pre).state;
    WriteSensorStops(before, s, k0);
    assert forall i :: 0 <= i < |pre| ==> pre[i] == h.temperature[i];
    WriteSensorsOverlay(g, fd, pre);
    var bd := WriteSensors(fd, pre).state;
    assert before == Overlay(g, bd);
    BeforeOverlay(g, bd, s, k0);
  }

  /** A key that dm lacks, set after dm was laid over a, survives laying dm
      over the result once more. */
  lemma MapAbsorbs<K, V>(a: map<K, V>, dm: map<K, V>, key: K, v: V)
    requires key !in dm
    ensures (a + dm)[key := v] + dm == (a + dm)[key := v]
  {
    var m := (a + dm)[key := v];
    assert forall x :: x in dm ==> x in m && m[x] == dm[x];
  }

  lemma MapOverlayTwice<K, V>(a: map<K, V>, dm: map<K, V>)
    ensures (a + dm) + dm == a + dm
  {
  }

  /** The child that `labels()` creates is still there when the same writes
      are laid over the families a second time. */
  lemma ChildAbsorbs(g: Gauges, d: Gauges, k: Family, location: string)
    ensures var c := WithChild(Overlay(g, d), k, location);
      Overlay(c, d) == c
  {
    var o := Overlay(g, d);
    assert Overlay(o, d) == o by {
      MapOverlayTwice(g.power, d.power);
      MapOverlayTwice(g.fan, d.fan);
      MapOverlayTwice(g.current, d.current);
      MapOverlayTwice(g.caution, d.caution);
      MapOverlayTwice(g.critical, d.critical);
    }
    if location !in Temp(o, k) {
      match k
      case Current => MapAbsorbs(g.current, d.current, location, Fresh);
      case Caution => MapAbsorbs(g.caution, d.caution, location, Fresh);
      case Critical => MapAbsorbs(g.critical, d.critical, location, Fresh);
    }
  }

  /** A publish run that stops on a temperature field got past every fan,
      and some entry is not complete. */
  lemma ReadingStopReached(g: Gauges, saver: string, h: Snapshot)
    requires Publish(g, saver, h).Stopped? && Publish(g, saver, h).fault.ReadingMissing?
    ensures forall i :: 0 <= i < |h.fans| ==> h.fans[i].speed != []
    ensures exists i :: 0 <= i < |h.temperature| && !Complete(h.temperature[i])
  {
  }

  /** A publish run that stops on a temperature field only adds or
      overwrites label entries, the failing child included. */
  lemma ReadingStopGrows(g: Gauges, saver: string, h: Snapshot)
    requires Publish(Cleared, saver, h).Stopped? && Publish(Cleared, saver, h).fault.ReadingMissing?
    ensures Grows(g, Publish(g, saver, h).state)
  {
    ReadingStopReached(Cleared, saver, h);
    var j := FirstIncomplete(h.temperature);
    PublishStopOverlay(g, saver, h, j);
    var settled := Settled(g, saver, h, j);
    assert Grows(g, settled);
  }

  /** The publish path only adds or overwrites label entries. */
  lemma PublishOnlyAdds(g: Gauges, saver: string, h: Snapshot)
    ensures Grows(g, Publish(g, saver, h).state)
  {
    var p := Publish(Cleared, saver, h);
    if p.Done? || p.fault.SpeedMissing? {
      PublishOverlay(g, saver, h);
    } else {
      ReadingStopGrows(g, saver, h);
    }
  }

  /** Every label entry the publish path writes comes from the snapshot: the
      one power label pair, a fan name, or a sensor location. */
  lemma PublishedLabelsFromSnapshot(saver: string, h: Snapshot)
    ensures var d := Publish(Cleared, saver, h).state;
      && d.power.Keys == {PowerKey(saver, h)}
      && d.fan.Keys <= FanNames(h.fans)
      && d.current.Keys <= Locations(h.temperature)
      && d.caution.Keys <= Locations(h.temperature)
      && d.critical.Keys <= Locations(h.temperature)
  {
    var g1 := SetPower(Cleared, saver, h);
    WriteFansKeeps(g1, h.fans);
    var f := WriteFans(g1, h.fans);
    if f.Done? {
      WriteSensorsKeeps(f.state, h.temperature);
    }
    var d := Publish(Cleared, saver, h).state;
    assert d.current == Temp(d, Current) && d.caution == Temp(d, Caution) && d.critical == Temp(d, Critical);
  }

  /** Laying the same writes over a registry a second time changes nothing. */
  lemma LiftTwice(g: Gauges, p: Partial)
    ensures Lift(Overlay(g, p.state), p) == Lift(g, p)
  {
  }

  /** Scraping twice with the same controller answers leaves the same
      families and the same outcome as scraping once. */
  lemma ScrapeIdempotent(g: Gauges, hostPowerStatus: string, saver: string, h: Snapshot)
    ensures var once := Scrape(g, hostPowerStatus, saver, h);
      Scrape(once.after, hostPowerStatus, saver, h) == once
  {
    if hostPowerStatus != Off {
      var d := Publish(Cleared, saver, h);
      if d.Done? || d.fault.SpeedMissing? {
        PublishOverlay(g, saver, h);
        var g' := Overlay(g, d.state);
        assert Publish(g, saver, h).state == g';
        PublishOverlay(g', saver, h);
        LiftTwice(g, d);
        assert Publish(g', saver, h) == Publish(g, saver, h);
      } else {
        ReadingStopReached(Cleared, saver, h);
        var j := FirstIncomplete(h.temperature);
        var s := h.temperature[j];
        var k0 := FirstUnusable(s);
        var base := Settled(Cleared, saver, h, j);
        PublishStopOverlay(g, saver, h, j);
        var once := WithChild(Overlay(g, base), k0, s.location);
        assert Publish(g, saver, h).state == once;
        PublishStopOverlay(once, saver, h, j);
        ChildAbsorbs(g, base, k0, s.location);
        assert Settled(once, saver, h, j) == once;
        assert Publish(once, saver, h) == Publish(g, saver, h);
      }
    }
  }

  // ---------------------------------------------------------------------
  // Fans
  // ---------------------------------------------------------------------

  /** With every speed sequence non-empty, each fan's gauge holds the first
      element of its speed, and every other fan name keeps what it had. */
  lemma {:induction false} WriteFansSets(g: Gauges, fans: seq<Fan>)
    requires DistinctFanNames(fans)
    requires forall i :: 0 <= i < |fans| ==> fans[i].speed != []
    ensures WriteFans(g, fans).Done?
    ensures var f := WriteFans(g, fans).state.fan;
      && (forall i :: 0 <= i < |fans| ==> fans[i].name in f && f[fans[i].name] == fans[i].speed[0])
      && (forall n :: n !in FanNames(fans) ==> (n in f <==> n in g.fan) && (n in f ==> f[n] == g.fan[n]))
    decreases |fans|
  {
    if fans != [] {
      var n0 := fans[0].name;
      var g' := g.(fan := g.fan[n0 := fans[0].speed[0]]);
      var rest := fans[1..];
      forall i | 0 <= i < |rest| ensures rest[i] == fans[i + 1] && rest[i].name != n0 { }
      WriteFansSets(g', rest);
      var f := WriteFans(g, fans).state.fan;
      assert n0 !in FanNames(rest);
      forall n | n !in FanNames(fans) ensures n !in FanNames(rest) && n != n0 {
        assert n0 in FanNames(fans);
        forall i | 0 <= i < |rest| ensures rest[i].name != n {
          assert fans[i + 1].name in FanNames(fans);
        }
      }
    }
  }

  /** A fan with an empty speed sequence stops the loop there; the fans
      before it keep the values just written. */
  lemma {:induction false} WriteFansStops(g: Gauges, fans: seq<Fan>, k: nat)
    requires k < |fans| && fans[k].speed == []
    requires forall i :: 0 <= i < k ==> fans[i].speed != []
    ensures WriteFans(g, fans) == Stopped(WriteFans(g, fans[..k]).state, SpeedMissing(fans[k].name))
    decreases k
  {
    if k > 0 {
      var g' := g.(fan := g.fan[fans[0].name := fans[0].speed[0]]);
      assert fans[1..][..k - 1] == fans[..k][1..];
      WriteFansStops(g', fans[1..], k - 1);
    }
  }

  /** The fan gauges after a scrape that gets past the power gate, when every
      fan reports a speed. */
  lemma FanGauges(g: Gauges, hostPowerStatus: string, saver: string, h: Snapshot)
    requires hostPowerStatus != Off && DistinctFanNames(h.fans)
    requires forall i :: 0 <= i < |h.fans| ==> h.fans[i].speed != []
    ensures var f := Scrape(g, hostPowerStatus, saver, h).after.fan;
      && (forall i :: 0 <= i < |h.fans| ==> h.fans[i].name in f && f[h.fans[i].name] == h.fans[i].speed[0])
      && (forall n :: n !in FanNames(h.fans) ==> (n in f <==> n in g.fan) && (n in f ==> f[n] == g.fan[n]))
  {
    var g1 := SetPower(g, saver, h);
    WriteFansSets(g1, h.fans);
    WriteSensorsKeeps(WriteFans(g1, h.fans).state, h.temperature);
  }

  /** A fan with an empty speed sequence aborts the request: the power gauge
      and the fans before it keep what was written, no temperature gauge is
      touched, and the answer is 500. */
  lemma FanAbortKeepsEarlierWrites(g: Gauges, hostPowerStatus: string, saver: string, h: Snapshot, k: nat)
    requires hostPowerStatus != Off && DistinctFanNames(h.fans)
    requires k < |h.fans| && h.fans[k].speed == []
    requires forall i :: 0 <= i < k ==> h.fans[i].speed != []
    ensures var r := Scrape(g, hostPowerStatus, saver, h);
      && r.outcome == Aborted(SpeedMissing(h.fans[k].name))
      && ResponseCode(r.outcome) == 500
      && r.after.power == SetPower(g, saver, h).power
      && (forall i :: 0 <= i < k ==> h.fans[i].name in r.after.fan && r.after.fan[h.fans[i].name] == h.fans[i].speed[0])
      && r.after.current == g.current && r.after.caution == g.caution && r.after.critical == g.critical
  {
    var g1 := SetPower(g, saver, h);
    var prefix := h.fans[..k];
    var stop := WriteFans(g1, prefix).state;
    assert Scrape(g, hostPowerStatus, saver, h) == Scraped(stop, Aborted(SpeedMissing(h.fans[k].name))) by {
      WriteFansStops(g1, h.fans, k);
      assert Publish(g, saver, h) == Stopped(stop, SpeedMissing(h.fans[k].name));
    }
    assert DistinctFanNames(prefix);
    WriteFansSets(g1, prefix);
    forall i | 0 <= i < k
      ensures h.fans[i].name in stop.fan && stop.fan[h.fans[i].name] == h.fans[i].speed[0]
    {
      assert prefix[i] == h.fans[i];
    }
    assert stop.current == g.current && stop.caution == g.caution && stop.critical == g.critical by {
      WriteFansKeeps(g1, prefix);
    }
  }

  // ---------------------------------------------------------------------
  // Temperatures
  // ---------------------------------------------------------------------

  /** The sensor entry writes family k at location loc. */
  predicate Writes(s: Sensor, k: Family, loc: string) {
    s.location == loc && FieldOf(s, k).Readings?
  }

  /** One usable temperature field writes its own family at the location,
      and only when it is not "N/A". */
  lemma WriteFieldEffect(g: Gauges, k: Family, location: string, f: Field, k': Family)
    requires Usable(f)
    ensures WriteField(g, k, location, f).Done?
    ensures var t := WriteField(g, k, location, f).state;
      && t.power == g.power && t.fan == g.fan
      && Temp(t, k') == if k' == k && f.Readings? then Temp(g, k)[location := f.values[0]] else Temp(g, k')
  {
  }

  /** One complete temperature entry: family k gets the entry's field k at
      the entry's location unless that field is "N/A"; the power and fan
      families stay as they were. */
  lemma WriteSensorEffect(g: Gauges, s: Sensor, k: Family)
    requires Complete(s)
    ensures WriteSensor(g, s).Done?
    ensures var t := WriteSensor(g, s).state;
      && t.power == g.power && t.fan == g.fan
      && Temp(t, k) == if FieldOf(s, k).Readings?
                       then Temp(g, k)[s.location := FieldOf(s, k).values[0]]
                       else Temp(g, k)
  {
    WriteFieldEffect(g, Current, s.location, s.currentReading, k);
    var c := WriteField(g, Current, s.location, s.currentReading).state;
    WriteFieldEffect(c, Caution, s.location, s.caution, k);
    var a := WriteField(c, Caution, s.location, s.caution).state;
    WriteFieldEffect(a, Critical, s.location, s.critical, k);
  }

  /** When no complete entry writes family k at loc (each one at loc has
      "N/A" there), that gauge keeps whatever it held before, including
      being absent. */
  lemma {:induction false} WriteSensorsSkip(g: Gauges, sensors: seq<Sensor>, k: Family, loc: string)
    requires forall j :: 0 <= j < |sensors| ==> Complete(sensors[j])
    requires forall j :: 0 <= j < |sensors| ==> !Writes(sensors[j], k, loc)
    ensures WriteSensors(g, sensors).Done?
    ensures var t := Temp(WriteSensors(g, sensors).state, k);
      (loc in t <==> loc in Temp(g, k)) && (loc in t ==> t[loc] == Temp(g, k)[loc])
    decreases |sensors|
  {
    if sensors != [] {
      WriteSensorEffect(g, sensors[0], k);
      var rest := sensors[1..];
      forall j | 0 <= j < |rest| ensures rest[j] == sensors[j + 1] { }
      WriteSensorsSkip(WriteSensor(g, sensors[0]).state, rest, k, loc);
    }
  }

  /** Temperature gauges are keyed by location alone: with every entry
      complete, the gauge of family k at loc holds the reading of the last
      entry at loc whose field k is not "N/A". */
  lemma {:induction false} WriteSensorsLastWrite(g: Gauges, sensors: seq<Sensor>, k: Family, loc: string, j: nat)
    requires forall i :: 0 <= i < |sensors| ==> Complete(sensors[i])
    requires j < |sensors| && Writes(sensors[j], k, loc)
    requires forall i :: j < i < |sensors| ==> !Writes(sensors[i], k, loc)
    ensures WriteSensors(g, sensors).Done?
    ensures var t := Temp(WriteSensors(g, sensors).state, k);
      loc in t && t[loc] == FieldOf(sensors[j], k).values[0]
    decreases |sensors|
  {
    WriteSensorEffect(g, sensors[0], k);
    var g' := WriteSensor(g, sensors[0]).state;
    var rest := sensors[1..];
    forall i | 0 <= i < |rest| ensures rest[i] == sensors[i + 1] { }
    if j == 0 {
      WriteSensorsSkip(g', rest, k, loc);
    } else {
      WriteSensorsLastWrite(g', rest, k, loc, j - 1);
    }
  }

  /** After a scrape that gets past the power gate with every fan speed and
      every temperature entry usable, the request is rendered (200) and the
      gauge of family k at loc holds the last reading written there. */
  lemma LastSensorWins(g: Gauges, hostPowerStatus: string, saver: string, h: Snapshot, k: Family, loc: string, j: nat)
    requires hostPowerStatus != Off
    requires forall i :: 0 <= i < |h.fans| ==> h.fans[i].speed != []
    requires forall i :: 0 <= i < |h.temperature| ==> Complete(h.temperature[i])
    requires j < |h.temperature| && Writes(h.temperature[j], k, loc)
    requires forall i :: j < i < |h.temperature| ==> !Writes(h.temperature[i], k, loc)
    ensures var r := Scrape(g, hostPowerStatus, saver, h);
      && r.outcome == Rendered && ResponseCode(r.outcome) == 200
      && loc in Temp(r.after, k) && Temp(r.after, k)[loc] == FieldOf(h.temperature[j], k).values[0]
  {
    var g1 := SetPower(g, saver, h);
    WriteSensorsLastWrite(WriteFans(g1, h.fans).state, h.temperature, k, loc, j);
  }

  /** A temperature field that is "N/A" in every entry at loc leaves that
      gauge as it was, whatever the entry's other two fields hold. */
  lemma NotApplicableKeepsGauge(g: Gauges, hostPowerStatus: string, saver: string, h: Snapshot, k: Family, loc: string)
    requires hostPowerStatus != Off
    requires forall i :: 0 <= i < |h.fans| ==> h.fans[i].speed != []
    requires forall i :: 0 <= i < |h.temperature| ==> Complete(h.temperature[i])
    requires forall i :: 0 <= i < |h.temperature| ==> !Writes(h.temperature[i], k, loc)
    ensures var r := Scrape(g, hostPowerStatus, saver, h);
      && r.outcome == Rendered
      && (loc in Temp(r.after, k) <==> loc in Temp(g, k))
      && (loc in Temp(g, k) ==> Temp(r.after, k)[loc] == Temp(g, k)[loc])
  {
    var g1 := SetPower(g, saver, h);
    WriteFansKeeps(g1, h.fans);
    var f := WriteFans(g1, h.fans).state;
    assert Temp(f, k) == Temp(g, k);
    WriteSensorsSkip(f, h.temperature, k, loc);
  }

  /** A temperature field that is not "N/A" but has no element aborts the
      request in its entry: the run is the complete run of the entries
      before it followed by the stopped entry, so nothing they wrote is
      taken back. */
  lemma {:induction false} WriteSensorsStops(g: Gauges, sensors: seq<Sensor>, j: nat)
    requires j < |sensors| && !Complete(sensors[j])
    requires forall i :: 0 <= i < j ==> Complete(sensors[i])
    ensures WriteSensors(g, sensors).Stopped?
    ensures WriteSensors(g, sensors) == WriteSensor(WriteSensors(g, sensors[..j]).state, sensors[j])
    decreases j
  {
    if j == 0 {
      assert sensors[..0] == [];
    } else {
      WriteSensorEffect(g, sensors[0], Current);
      var g' := WriteSensor(g, sensors[0]).state;
      assert sensors[1..][..j - 1] == sensors[..j][1..];
      WriteSensorsStops(g', sensors[1..], j - 1);
    }
  }

  /** Within one entry the fields are read in the order current, caution,
      critical: the first one that is an empty sequence stops the request,
      the fields read before it keep their writes, its own family gains the
      location at the default value when it was absent (and is left alone
      otherwise), and the fields after it are not read. */
  lemma WriteSensorStops(g: Gauges, s: Sensor, k: Family)
    requires !Complete(s)
    ensures var k0 := FirstUnusable(s);
      WriteSensor(g, s) == Stopped(WithChild(Before(g, s, k0), k0, s.location), ReadingMissing(s.location, k0))
    ensures var t := WriteSensor(g, s).state;
      && t.power == g.power && t.fan == g.fan
      && Temp(t, k) == if Order(k) < Order(FirstUnusable(s)) && FieldOf(s, k).Readings?
                       then Temp(g, k)[s.location := FieldOf(s, k).values[0]]
                       else if k == FirstUnusable(s) && s.location !in Temp(g, k)
                       then Temp(g, k)[s.location := Fresh]
                       else Temp(g, k)
  {
    var loc := s.location;
    var k0 := FirstUnusable(s);
    if k0 != Current {
      WriteFieldEffect(g, Current, loc, s.currentReading, k);
      if k0 == Critical {
        WriteFieldEffect(Before(g, s, Caution), Caution, loc, s.caution, k);
      }
    }
  }

  /** A temperature entry with an empty field aborts the request with a 500:
      the power gauge and every fan gauge keep their new values, nothing
      written before the fault is taken back, and the failing family has a
      child at the entry's location. */
  lemma SensorAbortKeepsEarlierWrites(g: Gauges, hostPowerStatus: string, saver: string, h: Snapshot, j: nat)
    requires hostPowerStatus != Off && DistinctFanNames(h.fans)
    requires forall i :: 0 <= i < |h.fans| ==> h.fans[i].speed != []
    requires j < |h.temperature| && !Complete(h.temperature[j])
    requires forall i :: 0 <= i < j ==> Complete(h.temperature[i])
    ensures var r := Scrape(g, hostPowerStatus, saver, h);
      && r.outcome == Aborted(ReadingMissing(h.temperature[j].location, FirstUnusable(h.temperature[j])))
      && ResponseCode(r.outcome) == 500
      && r.after.power == SetPower(g, saver, h).power
      && (forall i :: 0 <= i < |h.fans| ==> h.fans[i].name in r.after.fan && r.after.fan[h.fans[i].name] == h.fans[i].speed[0])
      && Grows(WriteSensors(WriteFans(SetPower(g, saver, h), h.fans).state, h.temperature[..j]).state, r.after)
      && h.temperature[j].location in Temp(r.after, FirstUnusable(h.temperature[j]))
  {
    var g1 := SetPower(g, saver, h);
    WriteFansSets(g1, h.fans);
    WriteFansKeeps(g1, h.fans);
    var f := WriteFans(g1, h.fans).state;
    WriteSensorsStops(f, h.temperature, j);
    var before := WriteSensors(f, h.temperature[..j]).state;
    WriteSensorsKeeps(f, h.temperature[..j]);
    var s := h.temperature[j];
    WriteSensorStops(before, s, Current);
    WriteSensorStops(before, s, Caution);
    WriteSensorStops(before, s, Critical);
  }

  // ---------------------------------------------------------------------
  // Worked scenarios
  // ---------------------------------------------------------------------

  /** "275 Watts" with the power saver status "disabled" is published as
      "275" under (high_efficiency_mode, "disabled"), whatever the fans and
      temperatures hold. */
  lemma PowerScenario(g: Gauges, h: Snapshot)
    requires h.presentPowerReading == "275 Watts"
    ensures var after := Scrape(g, "ON", "disabled", h).after;
      (h.highEfficiencyMode, "disabled") in after.power
      && after.power[(h.highEfficiencyMode, "disabled")] == Text("275")
  {
    PowerText.ReadingExample();
    assert "ON" != Off;
    OtherStatusPublishes(g, "ON", "disabled", h);
  }

  /** Fan1 at 40 and Fan2 at 55 give two fan gauges with those values. */
  lemma FanScenario(g: Gauges, h: Snapshot)
    requires h.fans == [Fan("Fan1", [Number(40)]), Fan("Fan2", [Number(55)])]
    ensures var f := Scrape(g, "ON", "disabled", h).after.fan;
      "Fan1" in f && f["Fan1"] == Number(40) && "Fan2" in f && f["Fan2"] == Number(55)
  {
    assert "ON" != Off;
    assert h.fans[0].name != h.fans[1].name;
    assert DistinctFanNames(h.fans);
    FanGauges(g, "ON", "disabled", h);
    var f := Scrape(g, "ON", "disabled", h).after.fan;
    assert f[h.fans[0].name] == h.fans[0].speed[0];
    assert f[h.fans[1].name] == h.fans[1].speed[0];
  }

  /** A CPU entry whose current reading is "N/A" publishes no current
      temperature for its location, but caution 70 and critical 85. */
  lemma TemperatureScenario(h: Snapshot)
    requires h.fans == []
    requires h.temperature == [Sensor("CPU", "CPU Zone", NA, Readings([Number(70)]), Readings([Number(85)]))]
    ensures var after := Scrape(Cleared, "ON", "disabled", h).after;
      && "CPU Zone" !in after.current
      && "CPU Zone" in after.caution && after.caution["CPU Zone"] == Number(70)
      && "CPU Zone" in after.critical && after.critical["CPU Zone"] == Number(85)
  {
    var s := h.temperature[0];
    assert Complete(s);
    NotApplicableKeepsGauge(Cleared, "ON", "disabled", h, Current, "CPU Zone");
    LastSensorWins(Cleared, "ON", "disabled", h, Caution, "CPU Zone", 0);
    LastSensorWins(Cleared, "ON", "disabled", h, Critical, "CPU Zone", 0);
  }

  /** An entry whose current reading is an empty sequence, on an empty
      registry: the request fails with 500, and the current temperature
      gauge is left with a child at the entry's location holding 0, the one
      `labels()` created before the element was read. */
  lemma EmptyReadingScenario(h: Snapshot)
    requires h.fans == []
    requires h.temperature == [Sensor("T", "Z", Readings([]), NA, NA)]
    ensures var r := Scrape(Cleared, "ON", "disabled", h);
      && r.outcome == Aborted(ReadingMissing("Z", Current))
      && ResponseCode(r.outcome) == 500
      && r.after.current == map["Z" := Number(0)]
      && r.after.caution == map[] && r.after.critical == map[]
  {
    assert "ON" != Off;
    var s := h.temperature[0];
    assert !Complete(s);
    WriteSensorStops(SetPower(Cleared, "disabled", h), s, Current);
  }
}
