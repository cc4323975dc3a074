/** What one scrape does to the exporter's five gauge families, as a function
    of the families before it and of what the controller reported. The
    imperative Registry.Scrape is proved to compute exactly this. */
module Translator {
  import opened Health
  import PowerText

  /** The one host power status that takes the clearing path. */
  const Off: string := "OFF"

  /** The three temperature gauge families. */
  datatype Family = Current | Caution | Critical

  /** Why a scrape stops half-way: an IndexError on an empty sequence. */
  datatype Fault = SpeedMissing(fan: string) | ReadingMissing(location: string, family: Family)

  /** How the request ends. */
  datatype Outcome = Rendered | PoweredOff | Aborted(fault: Fault)

  /** The label values of every gauge family and the value each holds:
      current_power_usage is labelled (power_mode, power_status), the fan
      gauge by fan_name, the three temperature gauges by location. */
  datatype Gauges = Gauges(
    power: map<(string, string), Value>,
    fan: map<string, Value>,
    current: map<string, Value>,
    caution: map<string, Value>,
    critical: map<string, Value>)

  /** A run of writes that either finished or stopped on a fault; in both
      cases `state` holds every write made before the stop, and after a
      temperature fault also the child that the failing `labels()` call
      created. */
  datatype Partial = Done(state: Gauges) | Stopped(state: Gauges, fault: Fault)

  /** The result of one scrape: the families afterwards and the outcome. */
  datatype Scraped = Scraped(after: Gauges, outcome: Outcome)

  const Cleared := Gauges(map[], map[], map[], map[], map[])

  function FieldOf(s: Sensor, k: Family): (f: Field)
    ensures Complete(s) ==> Usable(f)
  {
    match k
    case Current => s.currentReading
    case Caution => s.caution
    case Critical => s.critical
  }

  /** The order in which one entry's fields are read. */
  function Order(k: Family): nat {
    match k
    case Current => 0
    case Caution => 1
    case Critical => 2
  }

  /** The first field of an incomplete entry that is an empty sequence. */
  function FirstUnusable(s: Sensor): (k: Family)
    requires !Complete(s)
    ensures !Usable(FieldOf(s, k))
    ensures forall k' :: Order(k') < Order(k) ==> Usable(FieldOf(s, k'))
  {
    if !Usable(s.currentReading) then Current
    else if !Usable(s.caution) then Caution
    else Critical
  }

  /** The value of a child that `labels()` has just created and nothing has
      set yet: a gauge starts at 0.0. */
  const Fresh: Value := Number(0)

  function Temp(g: Gauges, k: Family): map<string, Value> {
    match k
    case Current => g.current
    case Caution => g.caution
    case Critical => g.critical
  }

  function WithTemp(g: Gauges, k: Family, m: map<string, Value>): Gauges {
    match k
    case Current => g.(current := m)
    case Caution => g.(caution := m)
    case Critical => g.(critical := m)
  }

  /** Family k after `labels(location)`: the child at location is created
      with the default value when it is absent and left as it is otherwise. */
  function WithChild(g: Gauges, k: Family, location: string): (r: Gauges)
    ensures location in Temp(r, k)
    ensures Temp(r, k).Keys == Temp(g, k).Keys + {location}
    ensures forall l :: l in Temp(g, k) ==> Temp(r, k)[l] == Temp(g, k)[l]
    ensures location !in Temp(g, k) ==> Temp(r, k)[location] == Fresh
    ensures forall k' :: k' != k ==> Temp(r, k') == Temp(g, k')
    ensures r.power == g.power && r.fan == g.fan
  {
    if location in Temp(g, k) then g else WithTemp(g, k, Temp(g, k)[location := Fresh])
  }

  /** The label pair of the power gauge: (power_mode, power_status) receive
      high_efficiency_mode and the host power saver status, in that order. */
  function PowerKey(saver: string, h: Snapshot): (string, string) {
    (h.highEfficiencyMode, saver)
  }

  /** The power gauge's child for the snapshot's label pair holds the cleaned
      reading; every other child and every other family is as before. */
  function SetPower(g: Gauges, saver: string, h: Snapshot): (r: Gauges)
    ensures PowerKey(saver, h) in r.power
    ensures r.power[PowerKey(saver, h)] == Text(PowerText.PowerReading(h.presentPowerReading))
    ensures forall key :: key != PowerKey(saver, h) ==> (key in r.power <==> key in g.power)
    ensures forall key :: key in g.power && key != PowerKey(saver, h) ==> r.power[key] == g.power[key]
    ensures r.fan == g.fan && r.current == g.current && r.caution == g.caution && r.critical == g.critical
  {
    g.(power := g.power[PowerKey(saver, h) := Text(PowerText.PowerReading(h.presentPowerReading))])
  }

  /** The fan loop: each fan's gauge is set to the first element of its speed. */
  function WriteFans(g: Gauges, fans: seq<Fan>): (r: Partial)
    ensures r.state.power == g.power
    ensures r.Stopped? ==> r.fault.SpeedMissing?
    ensures r.Done? <==> forall i :: 0 <= i < |fans| ==> fans[i].speed != []
    decreases |fans|
  {
    if fans == [] then Done(g)
    else if fans[0].speed == [] then Stopped(g, SpeedMissing(fans[0].name))
    else WriteFans(g.(fan := g.fan[fans[0].name := fans[0].speed[0]]), fans[1..])
  }

  /** One temperature field: nothing for "N/A"; otherwise `labels(location)`
      runs first, so the child exists before the first element is read, and
      that element is then set. */
  function WriteField(g: Gauges, k: Family, location: string, f: Field): (r: Partial)
    ensures r.Done? <==> Usable(f)
    ensures r.Stopped? ==> r.fault == ReadingMissing(location, k)
    ensures r.state.power == g.power && r.state.fan == g.fan
    ensures Grows(g, r.state)
    ensures f.Readings? ==> location in Temp(r.state, k)
    ensures r.Stopped? ==> forall l :: l in Temp(g, k) ==> Temp(r.state, k)[l] == Temp(g, k)[l]
  {
    match f
    case NA => Done(g)
    case Readings(vs) =>
      if vs == [] then Stopped(WithChild(g, k, location), ReadingMissing(location, k))
      else Done(WithTemp(g, k, Temp(g, k)[location := vs[0]]))
  }

  /** One temperature entry: current, then caution, then critical. */
  function WriteSensor(g: Gauges, s: Sensor): (r: Partial)
    ensures r.Done? <==> Complete(s)
    ensures r.Stopped? ==> r.fault == ReadingMissing(s.location, FirstUnusable(s))
    ensures r.Stopped? ==> s.location in Temp(r.state, FirstUnusable(s))
    ensures r.state.power == g.power && r.state.fan == g.fan
  {
    var c := WriteField(g, Current, s.location, s.currentReading);
    if c.Stopped? then c
    else
      var a := WriteField(c.state, Caution, s.location, s.caution);
      if a.Stopped? then a
      else WriteField(a.state, Critical, s.location, s.critical)
  }

  /** The temperature loop. */
  function WriteSensors(g: Gauges, sensors: seq<Sensor>): (r: Partial)
    ensures r.Done? <==> forall j :: 0 <= j < |sensors| ==> Complete(sensors[j])
    ensures r.Stopped? ==> r.fault.ReadingMissing? && r.fault.location in Temp(r.state, r.fault.family)
    ensures r.state.power == g.power && r.state.fan == g.fan
    decreases |sensors|
  {
    if sensors == [] then Done(g)
    else
      var p := WriteSensor(g, sensors[0]);
      if p.Stopped? then p else WriteSensors(p.state, sensors[1..])
  }

  /** The publish path: power gauge, then fans, then temperatures. */
  function Publish(g: Gauges, saver: string, h: Snapshot): (r: Partial)
    ensures PowerKey(saver, h) in r.state.power
    ensures r.state.power[PowerKey(saver, h)] == Text(PowerText.PowerReading(h.presentPowerReading))
    ensures r.Done? <==>
      && (forall i :: 0 <= i < |h.fans| ==> h.fans[i].speed != [])
      && (forall j :: 0 <= j < |h.temperature| ==> Complete(h.temperature[j]))
    ensures r.Stopped? && r.fault.ReadingMissing? ==> r.fault.location in Temp(r.state, r.fault.family)
  {
    var f := WriteFans(SetPower(g, saver, h), h.fans);
    if f.Stopped? then f else WriteSensors(f.state, h.temperature)
  }

  /** How a run of writes ends the request: rendered, or aborted by its fault. */
  function Finish(p: Partial): Scraped {
    match p
    case Done(after) => Scraped(after, Rendered)
    case Stopped(after, e) => Scraped(after, Aborted(e))
  }

  /** One request to the exporter, given the host power status, the host
      power saver status and the health snapshot the controller returned. */
  function Scrape(g: Gauges, hostPowerStatus: string, saver: string, h: Snapshot): (r: Scraped)
    ensures r.outcome == PoweredOff <==> hostPowerStatus == Off
    ensures hostPowerStatus == Off ==> r.after == Cleared
    ensures r.outcome == Rendered <==>
      && hostPowerStatus != Off
      && (forall i :: 0 <= i < |h.fans| ==> h.fans[i].speed != [])
      && (forall j :: 0 <= j < |h.temperature| ==> Complete(h.temperature[j]))
    ensures r.outcome.Aborted? && r.outcome.fault.ReadingMissing? ==>
      r.outcome.fault.location in Temp(r.after, r.outcome.fault.family)
    ensures hostPowerStatus != Off ==>
      PowerKey(saver, h) in r.after.power &&
      r.after.power[PowerKey(saver, h)] == Text(PowerText.PowerReading(h.presentPowerReading))
  {
    if hostPowerStatus == Off then Scraped(Cleared, PoweredOff)
    else Finish(Publish(g, saver, h))
  }

  /** The HTTP status of the response: 500 is set explicitly on the clearing
      path; a rendered page keeps the default 200; an exception raised while
      publishing is answered with 500 by the HTTP framework. */
  function ResponseCode(o: Outcome): (code: int)
    ensures code == 200 <==> o == Rendered
    ensures code == 500 <==> o != Rendered
  {
    match o
    case Rendered => 200
    case PoweredOff => 500
    case Aborted(_) => 500
  }

  /** Every family of g, overwritten key by key by the entries of d. */
  function Overlay(g: Gauges, d: Gauges): Gauges {
    Gauges(g.power + d.power, g.fan + d.fan, g.current + d.current,
           g.caution + d.caution, g.critical + d.critical)
  }

  function Lift(g: Gauges, p: Partial): Partial {
    match p
    case Done(s) => Done(Overlay(g, s))
    case Stopped(s, e) => Stopped(Overlay(g, s), e)
  }

  /** No family of g loses a key in g'. */
  predicate Grows(g: Gauges, g': Gauges) {
    && g.power.Keys <= g'.power.Keys
    && g.fan.Keys <= g'.fan.Keys
    && g.current.Keys <= g'.current.Keys
    && g.caution.Keys <= g'.caution.Keys
    && g.critical.Keys <= g'.critical.Keys
  }
}
