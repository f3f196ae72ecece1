# Mojave dynamic wallpaper for KDE: a verified model of its core

The script `mojave_kde.py` picks one of sixteen pre-rendered "Mojave" desktop
backgrounds to match the current phase of daylight where the user lives. It
has two pieces of real logic, and this project models both in Dafny and
proves what they promise:

- **The solar-phase selector** (`get_image_index`). It maps the current
  instant to a bucket from 1 to 16, using today's dawn, sunrise, sunset and
  dusk and yesterday's dusk. Dawn twilight splits at its midpoint into 1 and
  2. Daylight is a morning golden hour (3), eight equal midday slices (4-11)
  and an evening golden hour (12). Dusk twilight splits into 13 and 14. The
  night splits at its midpoint into 15 and 16. Instants are whole
  microseconds (`int`). Python's `timedelta / k` is modelled exactly: it
  rounds to the nearest microsecond, with ties going to the even neighbour
  (`SolarPhase.DivRound`). The event times are parameters. The midday
  slice `int(progress * 8)` is computed with the float
  `(now - midday_start) / midday_duration`; the model uses the integer
  floor `8*a / b` with `a = now - midday_start` and `b = midday_duration`
  in microseconds. The two agree exactly for any midday span under 2^50
  microseconds: the float quotient is correctly rounded, multiplying it by
  8 is exact, and `8a/b` is either an integer or at least `1/b` away from
  the nearest one, far more than the rounding error.
- **The location-resolution chain** (`get_location` and the functions it
  calls). It tries, in order: the cached configuration file; the IP-based
  guess, confirmed at a `[Y/n]` prompt; manual entry, which looks a typed
  name up in the offline gazetteer and then online, and asks again on a
  miss; and finally a fixed default (Nizhny Novgorod). The services are
  oracles (`Resolver.Oracles`). The user's console lines are a script of
  `Resolver.Answer`s, where `Interrupt` stands for Ctrl-C and for end of
  input. The chain is specified by pure functions (`Resolver.Manual`,
  `Resolver.Interactive`). It is also implemented imperatively in the class
  `Resolver.LocationResolver`. That class holds the configuration file's
  state, the unread input, and ghost counters of saves, deletions, IP
  requests and online lookups. Its manual-entry method is a `while` loop
  that re-prompts.

Two small pieces complete the model: the persisted five-key record
(`Locations`) and the image file name `prefix + str(index) + extension`
(`Wallpaper`).

Files: `wrappers.dfy` (Option), `solar_phase.dfy`, `location.dfy`,
`console_text.dfy` (the `lower().strip()` confirmation test),
`resolver.dfy` and `wallpaper.dfy`.

An exception the script does not catch ends the run. The model shows this as
`Resolver.Outcome.Raised`:
- an interrupt or end of input at the `[Y/n]` prompt (line 102 is outside
  any handler for it);
- a configuration file holding valid JSON that is not an object
  (`data['name']` raises `TypeError`, which line 112 does not catch);
- a configuration file whose bytes are not valid UTF-8 (`json.load` raises
  `UnicodeDecodeError`, which is not a `json.JSONDecodeError`, so line 112
  does not catch it either).

In both configuration cases the file is left in place.

## Model

| member | source | states |
|---|---|---|
| `SolarPhase.DivRound` | mojave_kde.py:142 | `timedelta / k` gives the integer nearest to `a / k`, within `k/2`; on an exact tie it gives the even one |
| `SolarPhase.Classify` | mojave_kde.py:140-154 | once the night around `now` is chosen, every instant falls in one of the sixteen buckets 1..16 |
| `SolarPhase.PhaseIndex` | mojave_kde.py:136-154 | the selector as written returns a bucket in 1..16 for every instant and every set of event times, ordered or not |
| `SolarPhase.MidpointWithin` | mojave_kde.py:149-153 | every split point `start + (end - start)/2` lies in `[start, end]`, within half a microsecond of the exact midpoint |
| `SolarPhase.Midpoint` | mojave_kde.py:149-153 | every twilight and night split point `start + (end - start)/2` is the nearest microsecond to the exact midpoint: `2*m` is within one of `start + end` |
| `SolarPhase.GoldenHour` | mojave_kde.py:141-142 | the golden hour `day_duration / 8` is the nearest microsecond to an eighth of daylight: `8*g` is within four of `sunset - sunrise` |
| `SolarPhase.MiddayStart` | mojave_kde.py:145 | `midday_start = sunrise + golden_hour_duration` lies within daylight whenever sunrise is not after sunset |
| `SolarPhase.MiddayDuration` | mojave_kde.py:145 | `midday_duration = day_duration - 2*golden_hour_duration` ends exactly where the evening golden hour of line 144 begins, and is three quarters of daylight to within a microsecond (`4*m` within four of `3*(sunset - sunrise)`) |
| `SolarPhase.MiddayNonEmpty` | mojave_kde.py:141-146 | for any daylight of at least one microsecond, the midday span left after the two golden hours is positive, so the bucket-7 guard can never fire |
| `SolarPhase.FloorSlice` | mojave_kde.py:147-148 | for an offset inside the midday span, `floor(8*offset/span)` is in 0..7 and marks the eighth of the span the offset falls in |
| `SolarPhase.DaytimeBuckets` | mojave_kde.py:140-148 | for `sunrise <= now < sunset` the bucket is in 3..12; it is 3 iff `now < sunrise + day/8`, and 12 iff `now >= sunset - day/8` |
| `SolarPhase.MiddaySlices` | mojave_kde.py:145-148 | in midday the bucket equals `4 + floor(8*(now - middayStart)/middayDuration)`; the clamp at 11 never changes it; bucket `b` covers exactly the `(b-4)`-th of eight equal slices |
| `SolarPhase.DuskTwilight` | mojave_kde.py:149 | for `sunset <= now < dusk` the bucket is 13 before `sunset + (dusk - sunset)/2` and 14 from then on |
| `SolarPhase.DawnTwilight` | mojave_kde.py:150 | for ordered events and `dawn <= now < sunrise`, the bucket is 1 before `dawn + (sunrise - dawn)/2` and 2 from then on |
| `SolarPhase.NightAfterDusk` | mojave_kde.py:151-154 | strictly after dusk the night runs from dusk to today's dawn plus one day; the bucket is 15 before its midpoint and 16 from it on |
| `SolarPhase.NightBeforeDawn` | mojave_kde.py:151-154 | before dawn, and at the dusk instant itself, the night runs from yesterday's dusk to today's dawn, split into 15 and 16 at its midpoint |
| `SolarPhase.DayMonotone` | mojave_kde.py:140-150 | for ordered events, the bucket never decreases as `now` advances from dawn to dusk; this includes monotonicity within midday |
| `SolarPhase.DuskInstantAsWritten` | mojave_kde.py:151-154 | as written, at `now == dusk` (with yesterday's dusk before today's dawn) the selector returns 16, the late-night bucket |
| `SolarPhase.PhaseIndexHalfOpen` | mojave_kde.py:151-154 | the corrected selector, which applies the half-open convention to the night test too, returns a bucket in 1..16 |
| `SolarPhase.DuskInstantHalfOpen` | mojave_kde.py:153 | for ordered events and a night from dusk to tomorrow's dawn of at least 2 microseconds, the corrected test makes the dusk instant open the evening night, and it gets 15 |
| `SolarPhase.NightAcrossMidnight` | mojave_kde.py:151-154 | between today's dusk and tomorrow's dawn, today's run (after dusk) and tomorrow's run (before dawn, with today's dusk as its yesterday) each split the night at their own midpoint; they give the same bucket when tomorrow's dawn is today's plus one day, and otherwise disagree only between the two split points |
| `SolarPhase.NightSplitDrift` | mojave_kde.py:152-153 | estimating tomorrow's dawn as today's dawn plus one day moves the evening split by half the error in that estimate, give or take the rounding of each split |
| `SolarPhase.HalfOpenNight` | mojave_kde.py:151-154 | the corrected selector splits the evening night, dusk included, at its midpoint; it agrees with the selector as written at every other instant |
| `Locations.EncodeRecord` | mojave_kde.py:21-28 | the saved record has exactly the keys name, region, timezone, latitude, longitude |
| `Locations.ParseRecord` | mojave_kde.py:110-111 | loading succeeds iff all five keys are present and hold values of the kinds the record writes |
| `Locations.RecordRoundTrip` | mojave_kde.py:21-28 | a saved location loads back as the same location |
| `Locations.LoadedRecordReencodes` | mojave_kde.py:110-111 | a loadable record equals, on its five keys, what saving the loaded location writes |
| `Locations.Fatal` | mojave_kde.py:108-112 | the load errors line 112 does not catch: bytes that are not UTF-8 (`UnicodeDecodeError`) and valid JSON that is not an object (`TypeError` on `data['name']`) |
| `Locations.Discarded` | mojave_kde.py:108-112 | the load errors line 112 catches and answers by deleting the file: text that is not JSON (`json.JSONDecodeError`) and an object missing one of the five keys (`KeyError`) |
| `Locations.CachedLocation` | mojave_kde.py:108-111 | only a JSON object whose five keys are present and well-typed yields a cached location |
| `ConsoleText.IsSpace` | mojave_kde.py:102 | the characters `strip()` removes: exactly Python's `str.isspace` set (the ASCII and C1 separators and controls, the no-break and Unicode spaces, the line and paragraph separators) |
| `ConsoleText.LowerChar` | mojave_kde.py:102 | `lower()` on one character leaves no upper-case letter, changes nothing that is not upper case, and keeps white space as it is |
| `ConsoleText.Lower` | mojave_kde.py:102 | `lower()` maps every character of the reply through `LowerChar` and keeps its length, so no upper-case letter is left |
| `ConsoleText.LowerIdempotent` | mojave_kde.py:102 | lower-casing twice gives the same as lower-casing once |
| `ConsoleText.LowerAppend` | mojave_kde.py:102 | `lower()` works character by character: lower-casing a concatenation concatenates the lower-cased parts |
| `ConsoleText.LowerUnchanged` | mojave_kde.py:102 | a string with no upper-case letter lower-cases to itself |
| `ConsoleText.LeadingSpace` | mojave_kde.py:102 | the count of leading characters `strip()` removes: they are all white space, and the next character, if any, is not |
| `ConsoleText.TrailingSpace` | mojave_kde.py:102 | the count of trailing characters `strip()` removes: they are all white space, and the character before them, if any, is not |
| `ConsoleText.Strip` | mojave_kde.py:102 | `strip()` leaves white space at neither end of the result |
| `ConsoleText.StripIsSlice` | mojave_kde.py:102 | what `strip()` keeps is one slice of the input, and everything cut off on either side is white space |
| `ConsoleText.StripTrimmed` | mojave_kde.py:102 | a string with no white space at either end strips to itself |
| `ConsoleText.LeadingSpacePadding` | mojave_kde.py:102 | white space put before a string adds exactly its length to the leading white space |
| `ConsoleText.TrailingSpacePadding` | mojave_kde.py:102 | white space put after a string adds exactly its length to the trailing white space |
| `ConsoleText.LeadingSpaceAll` | mojave_kde.py:102 | a string of white space only is stripped to nothing from the left |
| `ConsoleText.LeadingSpaceAppend` | mojave_kde.py:102 | the leading white space of a string holding a non-space does not depend on what follows it |
| `ConsoleText.StripPadding` | mojave_kde.py:102 | white space around a string does not change what it strips to |
| `ConsoleText.Confirms` | mojave_kde.py:102-103 | the IP guess is accepted exactly when the lower-cased, stripped reply is one of `''`, `'y'`, `'yes'`, `'д'`, `'да'` |
| `ConsoleText.ConfirmsIgnoresPadding` | mojave_kde.py:102-103 | white space around the reply does not change whether the IP guess is accepted |
| `ConsoleText.ConfirmsIgnoresCase` | mojave_kde.py:102-103 | lower-casing the reply first does not change whether the guess is accepted |
| `ConsoleText.ConfirmsUpperY` | mojave_kde.py:102-103 | "Y" accepts the guess |
| `ConsoleText.ConfirmsUpperDa` | mojave_kde.py:102-103 | "Да" accepts the guess |
| `ConsoleText.RefusesNo` | mojave_kde.py:102-103 | "n" does not accept the guess |
| `ConsoleText.RefusesNet` | mojave_kde.py:102-103 | "нет" does not accept the guess |
| `Resolver.FirstSegment` | mojave_kde.py:59 | the display name is cut at its first comma: a comma-free prefix, ending where the first comma is |
| `Resolver.OnlineLookup` | mojave_kde.py:31-64 | the online lookup finds a city iff geocoding answers with at least one result and the timezone lookup returns a non-empty zone for the first result; the location found has that result's coordinates, that zone, an empty region, and as its name the first comma-separated segment of the result's display name (the typed name when there is none) |
| `Resolver.Manual` | mojave_kde.py:66-89 | manual entry reads at least one answer when any is left, and leaves the unread answers as a suffix of the script |
| `Resolver.GoesOnline` | mojave_kde.py:76-82 | a non-empty name the gazetteer lacks (`lookup` raises `KeyError`), after which `find_city_online` is called |
| `Resolver.Retries` | mojave_kde.py:80-87 | a name found neither in the gazetteer nor online, after which the loop prints a hint and prompts again |
| `Resolver.Cancels` | mojave_kde.py:73-89 | manual entry gives up with None on an interrupt or end of input (line 89) and on an empty name (line 73) |
| `Resolver.Settle` | mojave_kde.py:73-85 | one manual answer: a cancelling answer ends with None; otherwise the gazetteer's hit ends the loop, then the online hit; a name found in neither asks again |
| `Resolver.ManualStopsAtFirstSettled` | mojave_kde.py:70-89 | manual entry re-prompts on every name found neither offline nor online, and ends at the first answer that does not retry. It returns None for an interrupt or empty name, and otherwise the gazetteer's hit or the online hit. It makes one online lookup per name the gazetteer lacks. If every answer retries, it cancels at end of input |
| `Resolver.GazetteerHitIsFinal` | mojave_kde.py:76-79 | a name the gazetteer knows ends manual entry at once, with no online lookup |
| `Resolver.ManualNoneMeansCancelled` | mojave_kde.py:70-89 | manual entry returns None iff it reaches an interrupt, an empty name or the end of input before any hit |
| `Resolver.Interactive` | mojave_kde.py:92-105 | the interactive chain raises iff an IP guess was made and the confirmation prompt gets an interrupt or end of input |
| `Resolver.IpConfirmation` | mojave_kde.py:96-105 | the guess is returned, after one line is read and with no lookup, iff the reply confirms it. A refusal hands the remaining lines to manual entry. A failed IP request goes straight to manual entry |
| `Resolver.LocationProvenance` | mojave_kde.py:92-105 | any location the interactive chain returns is the IP guess, or the gazetteer's or the online lookup's answer for a name the user typed |
| `Resolver.LocationResolver.SaveLocationToConfig` | mojave_kde.py:21-29 | the file afterwards holds the five-key record of the location, which loads back as that location; one save is counted |
| `Resolver.LocationResolver.RemoveConfig` | mojave_kde.py:112 | the file is gone afterwards; one deletion is counted |
| `Resolver.LocationResolver.ReadAnswer` | mojave_kde.py:72 | reads the next scripted line; at the end of the script it reports end of input and consumes nothing |
| `Resolver.LocationResolver.FindCityOnline` | mojave_kde.py:31-64 | returns the online lookup's answer and counts one lookup |
| `Resolver.LocationResolver.GetLocationManually` | mojave_kde.py:66-89 | the loop returns what `Resolver.Manual` specifies, consumes the same answers and makes the same number of online lookups |
| `Resolver.LocationResolver.GetLocationInteractively` | mojave_kde.py:92-105 | makes one IP request, then behaves as `Resolver.Interactive` specifies in its outcome, the input consumed and the lookups made |
| `Resolver.LocationResolver.GetLocation` | mojave_kde.py:107-119 | a loadable cache is returned untouched, with no save, no deletion, no request and no prompt. A file that is not UTF-8, or is JSON but not an object, raises with the file left in place and nothing else done. A cache that otherwise fails to load is deleted once, then the interactive chain runs. A location the chain finds is saved exactly once and returned. When it finds none, the default (Nizhny Novgorod, Russia, Europe/Moscow, 56.32, 44.00) is returned with no save. An uncaught exception saves nothing |
| `Resolver.ResolveTwice` | mojave_kde.py:107-119 | a location the first run returns is in the file it leaves behind, unless it is the unsaved fallback default; whenever that file holds the first run's location (any non-default result, or a cached default), the second run returns the same location, reads no console line and makes no request |
| `Wallpaper.Decimal` | mojave_kde.py:163 | `str(index)` is a non-empty string of decimal digits with no leading zero |
| `Wallpaper.DecimalValue` | mojave_kde.py:163 | the digits of `str(index)` read back as `index` |
| `Wallpaper.DigitsDecimal` | mojave_kde.py:163 | a non-empty digit string with no leading zero is `str` of the number it denotes, so such a string is fixed by its value |
| `Wallpaper.ImageFileName` | mojave_kde.py:163 | the file name is the prefix, then a non-empty digit string with no leading zero that reads back as the index (so, by `Wallpaper.DigitsDecimal`, exactly `str(index)`), then the extension |
| `Wallpaper.ImageFileNameInjective` | mojave_kde.py:163 | different buckets never name the same image file |
| `Wallpaper.ImageFor` | mojave_kde.py:161-163 | the image `main` applies, chosen by the selector as written, is at every instant one of the sixteen pre-rendered variants |
| `Wallpaper.ImageForHalfOpen` | mojave_kde.py:161-163 | the image the corrected selector chooses is also one of the sixteen variants |
| `Wallpaper.ImageAtDusk` | mojave_kde.py:151-163 | for ordered events: at the dusk instant `main` applies `mojave_dynamic_16.jpeg` whenever yesterday's dusk is at or before today's dawn; the corrected selector gives `mojave_dynamic_15.jpeg` there whenever the night lasts at least 2 microseconds; at every other instant the two images agree |

## Findings

| source | as written | input that shows it | evidently intended | confidence | as-written member | corrected member |
|---|---|---|---|---|---|---|
| mojave_kde.py:153 | the evening night (dusk to tomorrow's dawn) is used only when `now_utc > dusk`; at `now == dusk` the night from yesterday's dusk to today's dawn is used, and its midpoint has already passed | `now == dusk` with `dawn <= sunrise <= sunset <= dusk` and yesterday's dusk before today's dawn: the result is 16 (late night), proved by `SolarPhase.DuskInstantAsWritten` | `now_utc >= dusk`, matching the half-open comparisons everywhere else: dusk opens the evening night and gets 15, proved by `SolarPhase.DuskInstantHalfOpen` and `SolarPhase.HalfOpenNight` | not executed; the instant affected is a single microsecond wide | `SolarPhase.PhaseIndex` | `SolarPhase.PhaseIndexHalfOpen` |

`Wallpaper.ImageFor` follows `main` and uses the selector as written;
`Wallpaper.ImageForHalfOpen` uses the corrected one. The two agree at every
instant except dusk itself (`SolarPhase.HalfOpenNight`, `Wallpaper.ImageAtDusk`).

The evening split of the night is computed as in the script, with tomorrow's
dawn estimated as today's dawn plus one day; it is therefore not the true
midpoint of the night when dawn moves from one day to the next.
`SolarPhase.NightSplitDrift` bounds the difference and
`SolarPhase.NightAcrossMidnight` shows where today's and tomorrow's runs can
disagree.

## Left out

- The astronomy library (`sun`, `lookup`, `database`) is not part of this model. Event times are parameters and the gazetteer is an oracle. `sun` raises on polar days and nights, which the script does not handle. The lemmas that need ordered events state `dawn <= sunrise <= sunset <= dusk` as a precondition.
- The clock (`datetime.now`) is left out, and so is the difference between the machine's local date and the location's calendar date. `now`, today's events and yesterday's dusk are parameters.
- Python adds and subtracts aware datetimes that share a time zone on the wall clock. Across a daylight-saving change this differs from the absolute microsecond arithmetic used here. This is not modelled.
- Coordinates are opaque `real` values. `float()` parsing of them is not modelled.
- HTTP calls, timeouts and `raise_for_status` are not modelled. The IP service and the geocoding service are oracles whose failure is `None`. `TimezoneFinder` is an oracle too.
- Some malformed service replies raise exceptions that are not caught: an IP reply without `loc`, an unparsable `loc`, or a geocoding entry without `lat` or `lon`. These are not modelled. Nor are missing `city`, `country` or `timezone` fields in the IP reply, which the script turns into `None` values.
- The script catches an interrupt during the online lookup at line 89. The model only interrupts at console reads, so this case is not modelled.
- File-system effects are an abstract file state: missing, not UTF-8, not JSON, JSON but not an object, or an object. The model leaves out a file that exists but cannot be opened, failures while writing, and `os.makedirs`.
- `Locations.ParseRecord` treats a record whose five keys are present but hold a value of another JSON kind (for example `null` for a name) as failing to load, so the file is deleted. The script instead builds a location from such values unchecked. The model's `Location` has typed fields and cannot hold them.
- `ConsoleText.Lower` keeps the reply's length, where Python's `lower()` lengthens a string holding 'İ' (U+0130 becomes 'i' and a combining dot); it covers only the capitals `ConsoleText.LowerChar` covers, as the next line says.
- `ConsoleText.LowerChar` lower-cases only A-Z, the Latin-1 capitals and the Cyrillic capitals U+0400-U+042F. Other capitals, such as the rest of the Cyrillic block (U+0460-U+04FE, for example 'Ґ'), are left unchanged and do not count as upper case. Python's `lower()` covers all of Unicode, including the few characters whose lower-case form is longer. Every accepted reply is written in the letters covered.
- `set_kde_wallpaper` is left out. It is process plumbing whose failures are swallowed. Also left out: the `print` diagnostics and the image-directory and image-file existence checks in `main`.
- Concurrent runs racing on the configuration file are not modelled.
