# HP iLO Prometheus exporter: scrape handler model

This project models the scrape handler of the HP iLO exporter (`ILOMetrics.render_GET`
in `Server.py`). On each request the handler asks the iLO controller for the host power
status. If the status is exactly `"OFF"`, it clears the exporter's five process-wide gauge
families and answers 500. For any other status it publishes:

- the present power reading, with `"Watts"` removed and whitespace stripped, into
  `current_power_usage`;
- the first element of each fan's `speed` into `fan_speed_percent_gauge`;
- for every temperature entry, the first element of `currentreading`, `caution` and
  `critical` into the current, caution and critical temperature gauges. Each field is
  written only when it is not `"N/A"`.

Then it renders the whole registry.

Files:

- `health.dfy` (module `Health`): the controller's answer as values. The `fans` and
  `temperature` dictionaries become sequences in their iteration order. Each temperature
  field is `NA | Readings(values)`.
- `power_text.dfy` (module `PowerText`): Python's `str.replace("Watts", "")` as a single
  left-to-right pass, and `str.strip()` over Python's whitespace set.
- `translator.dfy` (module `Translator`): the five gauge families as maps from label
  values to values (`Gauges`). It also defines one scrape as a pure function (`Scrape`)
  that returns the families afterwards and the outcome. A run that stops on an
  `IndexError` keeps every write made before the stop. When the stop is a temperature
  field, it also keeps the child that `labels(location)` created just before the failing
  index.
- `registry.dfy` (module `Exporter`): class `Registry` with one `map` field per gauge
  family. Its method `Scrape` runs the handler's loops over fans and temperatures step by
  step and is proved to compute `Translator.Scrape`.
- `properties.dfy` (module `ScrapeProperties`): the power gate, the power, fan and
  temperature rules, no-rollback on abort, "only adds", and idempotence, each proved of
  `Translator.Scrape`.

Facts about the handler that the model keeps as the code has them:

- The power gauge's label pair is `(high_efficiency_mode, host_power_saver)`, in that
  order (`Server.py:23`, `Server.py:54`, `Server.py:61`, `Server.py:64`). The label declared as
  `power_status` therefore receives the host power saver value, not `"ON"` or `"OFF"`.
- Only the exact string `"OFF"` takes the clearing path. Every other host power status
  publishes.
- A fan with an empty `speed`, or a temperature field that is an empty sequence, raises
  an `IndexError`. The request stops there and answers 500. Writes already made stay in
  the registry; nothing is rolled back.
- The two kinds of stop leave different traces. For a fan, `speed[0]` is evaluated on its
  own line (`Server.py:69`) before `labels(fan_name)` (`Server.py:70`), so the failing fan
  gets no child. For a temperature field, `gauge.labels(location).set(field[0])`
  (`Server.py:78`, `Server.py:80`, `Server.py:82`) creates the child for `location` before
  `field[0]` is evaluated. An absent child is therefore left in the registry at a new
  gauge's value, 0 (`Translator.Fresh`). An existing child keeps its value.

## Model

| member | source | states |
|---|---|---|
| `PowerText.DropUnit` | Server.py:63 | `replace("Watts", "")` never lengthens the text, shortens it by a multiple of 5, and returns text that holds no `"Watts"` unchanged |
| `PowerText.DropUnitFirst` | Server.py:63 | the leftmost `"Watts"` is the one removed and the scan resumes right after it, keeping the text before it; with `DropUnit`'s identity on token-free text this determines the result on every input |
| `PowerText.TrimLeft` | Server.py:63 | the result is a suffix of the input, everything cut off is whitespace, and the result does not start with whitespace |
| `PowerText.TrimRight` | Server.py:63 | the result is a prefix of the input, everything cut off is whitespace, and the result does not end with whitespace |
| `PowerText.Strip` | Server.py:63 | `strip()` returns an infix with only whitespace before and after it, and the infix neither starts nor ends with whitespace |
| `PowerText.StripPadded` | Server.py:63 | `strip()` is determined by that contract: text without surrounding whitespace comes back unchanged from any whitespace padding |
| `PowerText.DropUnitAppend` | Server.py:63 | a trailing `"Watts"` is always removed and adds nothing to the result, because no match can overlap it |
| `PowerText.DropUnitSinglePass` | Server.py:63 | the removal is a single pass: `"WWattsatts"` becomes `"Watts"` |
| `PowerText.PowerReadingOfQuantity` | Server.py:63 | a reading made of a quantity without `W`, surrounded by whitespace and followed by `"Watts"`, is published as exactly that quantity |
| `PowerText.PowerReading` | Server.py:63 | the published reading neither starts nor ends with whitespace; a reading without `"Watts"` is only stripped of surrounding whitespace |
| `PowerText.ReadingExample` | Server.py:63 | `"275 Watts"` is published as `"275"` |
| `Translator.SetPower` | Server.py:61-66 | the power gauge's child for `(high_efficiency_mode, saver)` holds the cleaned reading; every other power child and every other family is unchanged |
| `Translator.WriteFans` | Server.py:67-70 | the fan loop leaves the power family alone, and runs to the end exactly when every fan has a non-empty `speed` |
| `Translator.WriteField` | Server.py:77-82 | one temperature field completes exactly when it is `"N/A"` or non-empty, and otherwise stops with that location's and family's fault. A non-`"N/A"` field always leaves a child at the location, even when it stops. A stop keeps every existing value of the family. Power and fans are never touched, and no label entry is removed |
| `Translator.WriteSensor` | Server.py:73-82 | one entry completes exactly when all three fields are usable. Otherwise it stops with the fault of the first empty field in the order current, caution, critical, and that field's family then has a child at the entry's location |
| `Translator.WriteSensors` | Server.py:71-82 | the temperature loop runs to the end exactly when every entry is complete, and never touches power or fans. A stop is always a temperature fault, and the failing family has a child at the failing location |
| `Translator.Publish` | Server.py:63-82 | the publish path always sets the power child, even when a later step aborts, and completes exactly when no speed and no temperature field is an empty sequence. A temperature abort leaves the failing family with a child at the failing location |
| `Translator.Scrape` | Server.py:53-92 | the outcome is `PoweredOff` exactly when the status is `"OFF"`, which empties every family. It is `Rendered` exactly when the status is not `"OFF"` and nothing is empty. Any other status sets the power child, and a temperature abort leaves a child at the failing location |
| `Translator.ResponseCode` | Server.py:84-92 | a rendered page answers 200, and both the clearing path and an aborted request answer 500 |
| `Translator.FirstUnusable` | Server.py:77-82 | the first field of an entry, in the order current, caution, critical, that is an empty sequence; every field read before it is usable |
| `Translator.WithChild` | Server.py:77-82 | `labels(location)` on a temperature family: afterwards the child exists. An existing child keeps its value, an absent one starts at 0, and every other child and family is unchanged |
| `Exporter.Registry.constructor` | Server.py:20-36 | the five gauge families start without label entries |
| `Exporter.Registry.ClearAll` | Server.py:86-90 | after clearing, no family holds any label entry |
| `Exporter.Registry.Scrape` | Server.py:53-92 | the families afterwards and the outcome are exactly `Translator.Scrape` of the families before, the host power status, the power saver status and the snapshot |
| `Exporter.Registry.SetSensor` | Server.py:73-82 | one pass of the temperature loop leaves the registry and outcome exactly as `Translator.WriteSensor` of the registry before it, then ended, the child created by a failing field included |
| `Exporter.Registry.SetField` | Server.py:77-82 | one `labels(location).set(field[0])` line leaves the registry exactly as `Translator.WriteField`: the child is created before the index is read, so a stop keeps it |
| `Exporter.PowerOffAfterPublish` | Server.py:85-92 | the first scrape's outcome is `PoweredOff` exactly when its status is `"OFF"`; a following scrape that sees `"OFF"` answers 500 and leaves every family empty, whatever the first published |
| `ScrapeProperties.OffClearsEverything` | Server.py:85-92 | status `"OFF"`: every family is emptied and the response code is 500, whatever the families held |
| `ScrapeProperties.OtherStatusPublishes` | Server.py:53-66 | any status other than the exact string `"OFF"` publishes. The power family gets the cleaned reading at `(high_efficiency_mode, saver)`, all its other entries are unchanged, and no family loses a label entry |
| `ScrapeProperties.WriteFansKeeps` | Server.py:67-70 | the fan loop changes only the fan family and adds only names of fans in the snapshot |
| `ScrapeProperties.WriteSensorsKeeps` | Server.py:71-82 | the temperature loop leaves the power and fan families alone and adds only locations of entries in the snapshot |
| `ScrapeProperties.PublishOverlay` | Server.py:63-82 | a publish run that completes, or stops on a fan, equals on any registry the same writes made on an empty registry, laid key by key over the old one, with the same fault if any |
| `ScrapeProperties.WriteFieldOverlay` | Server.py:77-82 | a temperature field commutes with laying old entries underneath. The one exception is a stop creating a child at a location the old registry has and the new writes lack: there `labels()` keeps the old value |
| `ScrapeProperties.PublishStopOverlay` | Server.py:63-82 | a publish run that stops on a temperature field is the writes made before the failing field, laid over the old registry exactly as for a completed run. After them comes `labels(location)` of the failing family, which keeps an existing child's value and otherwise adds the child at 0 |
| `ScrapeProperties.ChildAbsorbs` | Server.py:77-82 | a child created by a failing field survives laying the same writes over the registry again, which is why a repeated aborting scrape ends in the same state |
| `ScrapeProperties.ReadingStopGrows` | Server.py:64-82 | a publish run that stops on a temperature field never removes a label entry, the created child included |
| `ScrapeProperties.PublishOnlyAdds` | Server.py:64-82 | the publish path never removes a label entry from any family, even when it aborts |
| `ScrapeProperties.PublishedLabelsFromSnapshot` | Server.py:64-82 | each label the publish path writes comes from the snapshot: the one power pair, a fan name, or a sensor location |
| `ScrapeProperties.ScrapeIdempotent` | Server.py:53-92 | scraping twice with the same controller answers gives the same families and outcome as scraping once, on every path |
| `ScrapeProperties.WriteFansSets` | Server.py:67-70 | with distinct fan names and no empty speed, each fan's gauge holds its first speed element and every other fan name keeps its value or stays absent |
| `ScrapeProperties.WriteFansStops` | Server.py:67-70 | the first fan with an empty speed stops the loop with that fan's fault; the result is the loop over the fans before it |
| `ScrapeProperties.FanGauges` | Server.py:67-70 | after a non-OFF scrape with every speed non-empty, each fan in the snapshot has its first speed element and fan names not in the snapshot keep their previous values |
| `ScrapeProperties.FanAbortKeepsEarlierWrites` | Server.py:64-70 | an empty speed aborts with 500. The power entry and the earlier fans keep their new values, and no temperature gauge is touched |
| `ScrapeProperties.WriteFieldEffect` | Server.py:77-82 | a usable temperature field writes its own family at the location, and only when it is not `"N/A"` |
| `ScrapeProperties.WriteSensorEffect` | Server.py:73-82 | a complete entry sets each family whose field is not `"N/A"` at its location, and each family is decided by its own field only |
| `ScrapeProperties.WriteSensorsSkip` | Server.py:71-82 | when every entry at a location has `"N/A"` in a field, that family's gauge at the location keeps its previous value or stays absent |
| `ScrapeProperties.WriteSensorsLastWrite` | Server.py:71-82 | entries sharing a location: the last one whose field is not `"N/A"` gives that family's value there |
| `ScrapeProperties.LastSensorWins` | Server.py:71-84 | after a non-OFF scrape without empty sequences the request is rendered (200), and each temperature family at a location holds the reading of the last entry that writes it |
| `ScrapeProperties.NotApplicableKeepsGauge` | Server.py:77-82 | on the publish path, an `"N/A"` field leaves the earlier value at that location unchanged, whatever the entry's other fields hold |
| `ScrapeProperties.WriteSensorsStops` | Server.py:71-82 | the first incomplete entry stops the loop: the run is the full run over the entries before it, followed by that entry stopping |
| `ScrapeProperties.WriteSensorStops` | Server.py:77-82 | within an entry, the first empty field stops it with that field's fault. Fields read earlier keep their writes, and later ones are not written. The failing field's family gains the location at 0 when it was absent and is unchanged otherwise. Power and fans are untouched |
| `ScrapeProperties.SensorAbortKeepsEarlierWrites` | Server.py:64-82 | an empty temperature field aborts with 500. The power and fan gauges keep their new values, no label written by earlier entries is removed, and the failing family has a child at the failing location |
| `ScrapeProperties.PowerScenario` | Server.py:54-66 | `"275 Watts"` with saver status `"disabled"` is published as `"275"` under `(mode, "disabled")` |
| `ScrapeProperties.FanScenario` | Server.py:67-70 | fans `Fan1` at 40 and `Fan2` at 55 give those two fan gauges |
| `ScrapeProperties.TemperatureScenario` | Server.py:73-82 | `currentreading` `"N/A"` with caution 70 and critical 85: no current gauge at `"CPU Zone"`, caution 70, critical 85 |
| `ScrapeProperties.EmptyReadingScenario` | Server.py:77-78 | an entry at `"Z"` whose `currentreading` is `[]`, on an empty registry, aborts with 500 and leaves the current gauge with the single child `"Z"` at 0, while caution and critical stay empty |

## Left out

- HTTP wiring: the Twisted resource, site and reactor, and query-argument decoding
  (including `int(port)`). These are framework plumbing.
- The iLO session (`Ilo(...)` and its three calls). Their answers are the inputs of
  `Scrape`: the host power status, the `host_power_saver` value and the snapshot.
  Network and authentication failures are not modelled.
- Rendering the registry to the exposition format (`MetricsResource().render_GET`). A
  rendered request is the outcome `Rendered`, with the framework's default status 200.
  An exception that escapes the handler is the outcome `Aborted`. The model gives it 500,
  which is how the HTTP framework answers an unhandled error; the handler's own code
  does not set that status.
- The float conversion inside `Gauge.set`. `Gauge.set` calls `float()` on the value. A
  power reading that does not parse as a number raises `ValueError` after the labelled
  child was created, and the request fails with 500. The model stores values as the
  handler passes them (`Value`) and does not model that failure.
- The default value of a new gauge child. `prometheus_client` is not part of this model.
  `Translator.Fresh` takes its value, 0.0, from that library's `Gauge`.
- Logging, the YAML logging configuration, and the credential logging.
- Concurrency between overlapping requests. Each scrape is one atomic step on the
  registry.
- Missing dictionary keys. The snapshot types cannot represent an absent key, so the
  `KeyError` paths are not modelled: `power_supply_summary`, `present_power_reading`,
  `high_efficiency_mode`, `fans` or `temperature` missing (`Server.py:57-61`,
  `Server.py:67`, `Server.py:71`); a fan without `speed` (`Server.py:69`); a temperature
  entry without `location`, `currentreading`, `caution` or `critical`
  (`Server.py:73-76`). Each aborts the request with 500 and keeps earlier writes. The
  four temperature keys are read before any write of their entry, so a missing
  `critical` aborts before `current` is written, while an empty `critical` sequence
  (which the model does cover) aborts only after it.
- A fan `speed` that is not a sequence, which is not representable either.
- Fields of other shapes: a temperature field is either the sentinel `"N/A"` or a
  sequence. Some other string, which Python would index character by character, is not
  represented.
- `ScrapeProperties.FanGauges`, `ScrapeProperties.FanAbortKeepsEarlierWrites`,
  `ScrapeProperties.SensorAbortKeepsEarlierWrites`: these assume distinct fan names
  (`DistinctFanNames`), because fan names are dictionary keys in the controller's answer.
