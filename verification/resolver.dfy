/** The location-resolution chain: the cached configuration file, then the
    IP-based guess confirmed by the user, then manual entry (offline
    gazetteer first, online geocoding second, re-prompting on a miss), and
    the fixed default when the user gives up.

    The outside world is given as oracles: what the IP service, the
    gazetteer, the geocoding service and the timezone lookup would answer,
    and the script of console lines the user will type. */
module Resolver {
  import opened Wrappers
  import opened Locations
  import ConsoleText

  /** One read from the console: a line, or the interrupt / end of input
      that `input()` raises instead. */
  datatype Answer = Line(text: string) | Interrupt

  /** One entry of the geocoding service's reply. */
  datatype Place = Place(lat: real, lon: real, displayName: Option<string>)

  /** What the services consulted would answer. `ipGuess` is None when the
      IP request fails; `geocode` is None when its request fails and an
      empty sequence when nothing matches; `timezoneAt` takes latitude and
      longitude. */
  datatype Oracles = Oracles(
    ipGuess: Option<Location>,
    gazetteer: string -> Option<Location>,
    geocode: string -> Option<seq<Place>>,
    timezoneAt: (real, real) -> Option<string>)

  /** How a step ends: with a value, or with an exception nothing catches,
      which ends the run. */
  datatype Outcome<T> = Returned(value: T) | Raised

  /** The display name up to its first comma. */
  function FirstSegment(s: string): (r: string)
    ensures r <= s && ',' !in r
    ensures r == s || s[|r|] == ','
  {
    if s == [] || s[0] == ',' then [] else [s[0]] + FirstSegment(s[1..])
  }

  /** The decision part of the online lookup: the first geocoding hit,
      provided the timezone lookup names a zone for its coordinates. */
  function OnlineLookup(name: string, o: Oracles): (r: Option<Location>)
    ensures r.Some? <==>
      && o.geocode(name).Some? && o.geocode(name).value != []
      && var p := o.geocode(name).value[0];
         o.timezoneAt(p.lat, p.lon).Some? && o.timezoneAt(p.lat, p.lon).value != ""
    ensures r.Some? ==>
      var p := o.geocode(name).value[0];
      && r.value.latitude == p.lat && r.value.longitude == p.lon
      && Some(r.value.timezone) == o.timezoneAt(p.lat, p.lon)
      && r.value.region == ""
      && r.value.name == FirstSegment(p.displayName.GetOr(name))
  {
    match o.geocode(name)
    case None => None
    case Some(places) =>
      if places == [] then None
      else
        var p := places[0];
        match o.timezoneAt(p.lat, p.lon)
        case None => None
        case Some(zone) =>
          if zone == "" then None
          else Some(Location(FirstSegment(p.displayName.GetOr(name)), "", zone, p.lat, p.lon))
  }

  // ---------------------------------------------------------------------------
  // Manual entry

  /** The end of a manual-entry session: its result, the console lines left
      unread, and the number of online lookups made. */
  datatype ManualRun = ManualRun(result: Option<Location>, rest: seq<Answer>, lookups: nat)

  /** An answer that makes manual entry go online: a non-empty name the
      gazetteer does not know. */
  predicate GoesOnline(a: Answer, o: Oracles) {
    a.Line? && a.text != [] && o.gazetteer(a.text).None?
  }

  /** An answer after which manual entry asks again: a name found neither
      in the gazetteer nor online. */
  predicate Retries(a: Answer, o: Oracles) {
    GoesOnline(a, o) && OnlineLookup(a.text, o).None?
  }

  /** An answer that ends manual entry with nothing: an interrupt, end of
      input or an empty name. */
  predicate Cancels(a: Answer) {
    a.Interrupt? || a.text == []
  }

  /** What an answer that does not retry ends the session with. */
  function Settle(a: Answer, o: Oracles): Option<Location> {
    if Cancels(a) then None
    else if o.gazetteer(a.text).Some? then o.gazetteer(a.text)
    else OnlineLookup(a.text, o)
  }

  /** Manual entry over a script of answers: prompt, cancel on interrupt,
      end of input or an empty name, return a gazetteer hit, else return an
      online hit, else prompt again. */
  function Manual(script: seq<Answer>, o: Oracles): (m: ManualRun)
    ensures |m.rest| <= |script| && m.rest == script[|script| - |m.rest|..]
    ensures script != [] ==> |m.rest| < |script|
    decreases |script|
  {
    if script == [] then ManualRun(None, [], 0)
    else
      var a := script[0];
      if Cancels(a) then ManualRun(None, script[1..], 0)
      else if o.gazetteer(a.text).Some? then ManualRun(o.gazetteer(a.text), script[1..], 0)
      else
        var online := OnlineLookup(a.text, o);
        if online.Some? then ManualRun(online, script[1..], 1)
        else
          var m := Manual(script[1..], o);
          ManualRun(m.result, m.rest, m.lookups + 1)
  }

  /** Manual entry reads answers up to the first one that does not retry and
      ends with what that answer settles; every answer before it went
      online once, and so did that answer exactly when it named a city the
      gazetteer lacks. When every answer retries, the session reads them all
      and cancels at the end of input. */
  lemma {:induction false} ManualStopsAtFirstSettled(script: seq<Answer>, o: Oracles)
    ensures var m := Manual(script, o); var k := |script| - |m.rest|;
      && (forall j :: 0 <= j < k - 1 ==> Retries(script[j], o))
      && if k > 0 && !Retries(script[k - 1], o) then
           && m.result == Settle(script[k - 1], o)
           && m.lookups == k - 1 + (if GoesOnline(script[k - 1], o) then 1 else 0)
         else
           m.rest == [] && m.result.None? && m.lookups == k
    decreases |script|
  {
    if script == [] {
      return;
    }
    var a := script[0];
    if Cancels(a) || o.gazetteer(a.text).Some? || OnlineLookup(a.text, o).Some? {
      assert |Manual(script, o).rest| == |script| - 1;
      return;
    }
    assert Retries(a, o);
    var tail := script[1..];
    ManualStopsAtFirstSettled(tail, o);
    var m, mt := Manual(script, o), Manual(tail, o);
    assert m == ManualRun(mt.result, mt.rest, mt.lookups + 1);
    var k, kt := |script| - |m.rest|, |tail| - |mt.rest|;
    assert k == kt + 1;
    forall j | 0 <= j < k - 1
      ensures Retries(script[j], o)
    {
      if j > 0 { assert script[j] == tail[j - 1]; }
    }
    if kt > 0 {
      assert script[k - 1] == tail[kt - 1];
    }
  }

  /** A name the gazetteer knows ends manual entry at once, with no online
      lookup. */
  lemma GazetteerHitIsFinal(script: seq<Answer>, o: Oracles)
    requires script != [] && script[0].Line? && script[0].text != []
    requires o.gazetteer(script[0].text).Some?
    ensures Manual(script, o) == ManualRun(o.gazetteer(script[0].text), script[1..], 0)
  {
  }

  /** Every answer before position `j` made manual entry ask again. */
  predicate RetriedBefore(script: seq<Answer>, j: int, o: Oracles) {
    forall i :: 0 <= i < j && i < |script| ==> Retries(script[i], o)
  }

  /** No answer that manual entry gets to finds a city. */
  predicate FindsNothing(script: seq<Answer>, o: Oracles) {
    forall j :: 0 <= j < |script| && RetriedBefore(script, j, o) ==>
      Cancels(script[j]) || Retries(script[j], o)
  }

  /** An answer that neither cancels nor retries finds a city. */
  lemma SettleFinds(a: Answer, o: Oracles)
    requires !Cancels(a) && !Retries(a, o)
    ensures Settle(a, o).Some?
  {
  }

  /** Manual entry returns None exactly when it reaches an interrupt, an
      empty name or the end of input before any hit. */
  lemma {:induction false} ManualNoneMeansCancelled(script: seq<Answer>, o: Oracles)
    ensures Manual(script, o).result.None? <==> FindsNothing(script, o)
  {
    ManualStopsAtFirstSettled(script, o);
    var m := Manual(script, o);
    var k := |script| - |m.rest|;
    if k > 0 && !Retries(script[k - 1], o) {
      assert RetriedBefore(script, k - 1, o);
      assert !RetriedBefore(script, k, o);
      if !Cancels(script[k - 1]) {
        SettleFinds(script[k - 1], o);
      } else {
        forall j | 0 <= j < |script| && RetriedBefore(script, j, o)
          ensures Cancels(script[j]) || Retries(script[j], o)
        {
          if j < k - 1 {
          } else if j >= k {
            assert false;
          }
        }
      }
    } else {
      forall j | 0 <= j < |script|
        ensures Retries(script[j], o)
      {
        assert j < k;
        if j < k - 1 {
        }
      }
    }
  }

  // ---------------------------------------------------------------------------
  // The interactive chain

  /** The end of the interactive chain: its outcome, the console lines left
      unread, and the number of online lookups made. */
  datatype InteractiveRun = InteractiveRun(outcome: Outcome<Option<Location>>, rest: seq<Answer>, lookups: nat)

  /** The IP guess, offered for confirmation, then manual entry. An
      interrupt or end of input at the confirmation prompt is not caught. */
  function Interactive(script: seq<Answer>, o: Oracles): (run: InteractiveRun)
    ensures run.outcome.Raised? <==> o.ipGuess.Some? && (script == [] || script[0].Interrupt?)
  {
    match o.ipGuess
    case None =>
      var m := Manual(script, o);
      InteractiveRun(Returned(m.result), m.rest, m.lookups)
    case Some(guess) =>
      if script == [] then InteractiveRun(Raised, [], 0)
      else match script[0]
        case Interrupt => InteractiveRun(Raised, script[1..], 0)
        case Line(reply) =>
          if ConsoleText.Confirms(reply) then InteractiveRun(Returned(Some(guess)), script[1..], 0)
          else
            var m := Manual(script[1..], o);
            InteractiveRun(Returned(m.result), m.rest, m.lookups)
  }

  /** The guess is taken exactly when the reply confirms it; a refused guess
      hands the remaining lines to manual entry, and a failed IP request
      goes to manual entry without reading a reply. */
  lemma IpConfirmation(script: seq<Answer>, o: Oracles)
    ensures o.ipGuess.Some? && script != [] && script[0].Line? ==>
      var run := Interactive(script, o);
      if ConsoleText.Confirms(script[0].text) then
        run == InteractiveRun(Returned(o.ipGuess), script[1..], 0)
      else
        var m := Manual(script[1..], o);
        run == InteractiveRun(Returned(m.result), m.rest, m.lookups)
    ensures o.ipGuess.None? ==>
      var m := Manual(script, o);
      Interactive(script, o) == InteractiveRun(Returned(m.result), m.rest, m.lookups)
  {
  }

  /** A location the interactive chain returns is the IP guess, or the
      gazetteer's or the online lookup's answer for a name the user typed. */
  lemma LocationProvenance(script: seq<Answer>, o: Oracles, loc: Location)
    requires Interactive(script, o).outcome == Returned(Some(loc))
    ensures Some(loc) == o.ipGuess
      || exists j :: 0 <= j < |script| && script[j].Line?
           && (o.gazetteer(script[j].text) == Some(loc) || OnlineLookup(script[j].text, o) == Some(loc))
  {
    if Some(loc) != o.ipGuess {
      var skip := if o.ipGuess.Some? then 1 else 0;
      var s := script[skip..];
      ManualStopsAtFirstSettled(s, o);
      var k := |s| - |Manual(s, o).rest|;
      assert s[k - 1] == script[k - 1 + skip];
    }
  }

  // ---------------------------------------------------------------------------
  // The resolver and its store

  /** One run of the resolver: the configuration file, the console lines
      still to be typed and the services, with ghost counters of the saves,
      deletions, IP requests and online lookups made. */
  class LocationResolver {
    var config: ConfigFile
    var input: seq<Answer>
    const oracles: Oracles
    ghost var saves: nat
    ghost var removals: nat
    ghost var ipQueries: nat
    ghost var onlineQueries: nat

    constructor (config: ConfigFile, input: seq<Answer>, oracles: Oracles)
      ensures this.config == config && this.input == input && this.oracles == oracles
      ensures saves == 0 && removals == 0 && ipQueries == 0 && onlineQueries == 0
    {
      this.config := config;
      this.input := input;
      this.oracles := oracles;
      saves, removals, ipQueries, onlineQueries := 0, 0, 0, 0;
    }

    /** Write the five-key record of `loc`, replacing any file. */
    method SaveLocationToConfig(loc: Location)
      modifies this`config, this`saves
      ensures config == Object(EncodeRecord(loc)) && CachedLocation(config) == Some(loc)
      ensures saves == old(saves) + 1
    {
      RecordRoundTrip(loc);
      config := Object(EncodeRecord(loc));
      saves := saves + 1;
    }

    /** Delete the configuration file. */
    method RemoveConfig()
      modifies this`config, this`removals
      ensures config == Missing && removals == old(removals) + 1
    {
      config := Missing;
      removals := removals + 1;
    }

    /** Read one console line; at the end of the script `input()` raises
      end-of-file, reported like an interrupt. */
    method ReadAnswer() returns (a: Answer)
      modifies this`input
      ensures old(input) == [] ==> a == Interrupt && input == []
      ensures old(input) != [] ==> a == old(input)[0] && input == old(input)[1..]
    {
      if input == [] {
        a := Interrupt;
      } else {
        a := input[0];
        input := input[1..];
      }
    }

    /** Query the geocoding service and the timezone lookup for `name`. */
    method FindCityOnline(name: string) returns (r: Option<Location>)
      modifies this`onlineQueries
      ensures r == OnlineLookup(name, oracles)
      ensures onlineQueries == old(onlineQueries) + 1
    {
      onlineQueries := onlineQueries + 1;
      r := OnlineLookup(name, oracles);
    }

    /** Prompt until a name is found or the user cancels. */
    method GetLocationManually() returns (r: Option<Location>)
      modifies this`input, this`onlineQueries
      ensures var m := Manual(old(input), oracles);
        r == m.result && input == m.rest && onlineQueries == old(onlineQueries) + m.lookups
    {
      while true
        invariant onlineQueries >= old(onlineQueries)
        invariant var m, here := Manual(old(input), oracles), Manual(input, oracles);
          m.result == here.result && m.rest == here.rest
          && m.lookups == here.lookups + (onlineQueries - old(onlineQueries))
        decreases |input|
      {
        var answer := ReadAnswer();
        if Cancels(answer) {
          return None;
        }
        var known := oracles.gazetteer(answer.text);
        if known.Some? {
          return known;
        }
        r := FindCityOnline(answer.text);
        if r.Some? {
          return r;
        }
      }
    }

    /** Offer the IP guess for confirmation, falling back to manual entry. */
    method GetLocationInteractively() returns (r: Outcome<Option<Location>>)
      modifies this`input, this`onlineQueries, this`ipQueries
      ensures ipQueries == old(ipQueries) + 1
      ensures var run := Interactive(old(input), oracles);
        r == run.outcome && input == run.rest && onlineQueries == old(onlineQueries) + run.lookups
    {
      ipQueries := ipQueries + 1;
      match oracles.ipGuess
      case None =>
        var found := GetLocationManually();
        r := Returned(found);
      case Some(guess) =>
        var answer := ReadAnswer();
        if answer.Interrupt? {
          r := Raised;
        } else if ConsoleText.Confirms(answer.text) {
          r := Returned(Some(guess));
        } else {
          var found := GetLocationManually();
          r := Returned(found);
        }
    }

    /** The whole chain. A loadable file is returned untouched with nothing
      else consulted; a file whose loading raises an uncaught error ends the
      run with the file left in place; a file that fails to load otherwise
      is deleted first; a
      location the interactive chain finds is saved exactly once; when it
      finds none, the default is returned and nothing is saved. */
    method GetLocation() returns (r: Outcome<Location>)
      modifies this
      ensures CachedLocation(old(config)).Some? ==>
        && r == Returned(CachedLocation(old(config)).value)
        && config == old(config) && input == old(input)
        && saves == old(saves) && removals == old(removals)
        && ipQueries == old(ipQueries) && onlineQueries == old(onlineQueries)
      ensures Fatal(old(config)) ==>
        && r == Raised && config == old(config) && input == old(input)
        && saves == old(saves) && removals == old(removals)
        && ipQueries == old(ipQueries) && onlineQueries == old(onlineQueries)
      ensures old(config).Missing? || Discarded(old(config)) ==>
        var run := Interactive(old(input), oracles);
        && removals == old(removals) + (if old(config).Missing? then 0 else 1)
        && ipQueries == old(ipQueries) + 1
        && input == run.rest && onlineQueries == old(onlineQueries) + run.lookups
        && match run.outcome
           case Raised => r == Raised && config == Missing && saves == old(saves)
           case Returned(Some(loc)) =>
             r == Returned(loc) && config == Object(EncodeRecord(loc)) && saves == old(saves) + 1
           case Returned(None) =>
             r == Returned(DefaultLocation) && config == Missing && saves == old(saves)
      ensures r.Returned? ==>
        CachedLocation(config) == Some(r.value) || (r.value == DefaultLocation && config == Missing)
    {
      match config {
        case Object(fields) =>
          var cached := ParseRecord(fields);
          if cached.Some? {
            return Returned(cached.value);
          }
          RemoveConfig();
        case NotAnObject =>
          return Raised;
        case NotUtf8 =>
          return Raised;
        case Undecodable =>
          RemoveConfig();
        case Missing =>
      }
      var found := GetLocationInteractively();
      match found
      case Raised =>
        r := Raised;
      case Returned(Some(loc)) =>
        SaveLocationToConfig(loc);
        r := Returned(loc);
      case Returned(None) =>
        r := Returned(DefaultLocation);
    }
  }

  /** Two runs, the second starting from the file the first left behind
      (`between`). A location the first run returns is in that file, unless it
      is the fallback default, which is never saved. Whenever the file holds
      the first run's location (a non-default one always, the default when
      it was cached) the second run returns it again, reads no console line
      and makes no request. */
  method ResolveTwice(config: ConfigFile, firstInput: seq<Answer>, secondInput: seq<Answer>, o: Oracles)
    returns (first: Outcome<Location>, between: ConfigFile, second: Outcome<Location>,
             unread: seq<Answer>, ghost requests: nat)
    ensures first.Returned? ==>
      CachedLocation(between) == Some(first.value) || (first.value == DefaultLocation && between == Missing)
    ensures first.Returned? && CachedLocation(between) == Some(first.value) ==>
      second == first && unread == secondInput && requests == 0
    ensures first.Returned? && first.value != DefaultLocation ==>
      second == first && unread == secondInput && requests == 0
  {
    var run1 := new LocationResolver(config, firstInput, o);
    first := run1.GetLocation();
    between := run1.config;
    var run2 := new LocationResolver(between, secondInput, o);
    second := run2.GetLocation();
    unread := run2.input;
    requests := run2.ipQueries + run2.onlineQueries;
  }
}
