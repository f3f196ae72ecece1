/** The location record the script resolves, persists and reloads. */
module Locations {
  import opened Wrappers

  /** The five fields of a location the script reads and writes. Coordinates
      are carried as opaque decimals: nothing here computes with them. */
  datatype Location = Location(name: string, region: string, timezone: string, latitude: real, longitude: real)

  /** The fallback used when the user cancels every interactive step. */
  const DefaultLocation: Location := Location("Nizhny Novgorod", "Russia", "Europe/Moscow", 56.32, 44.00)

  /** A JSON value as far as the record needs it: strings, numbers, and
      anything else (null, booleans, arrays, objects) lumped together. */
  datatype Json = JString(str: string) | JNumber(num: real) | JOther

  /** The keys of the persisted record. */
  const RecordKeys: set<string> := {"name", "region", "timezone", "latitude", "longitude"}

  /** The state of the configuration file on disk: absent, not valid UTF-8
      text, text that is not valid JSON, valid JSON whose top level is not an
      object, or a JSON object. */
  datatype ConfigFile = Missing | NotUtf8 | Undecodable | NotAnObject | Object(fields: map<string, Json>)

  /** The record written for a location: exactly the five keys, each holding
      the field of the matching name, so that it reads back as the same
      location. */
  function EncodeRecord(loc: Location): (m: map<string, Json>)
    ensures m.Keys == RecordKeys
  {
    map["name" := JString(loc.name), "region" := JString(loc.region),
        "timezone" := JString(loc.timezone), "latitude" := JNumber(loc.latitude),
        "longitude" := JNumber(loc.longitude)]
  }

  /** Every key is present and holds a value of the kind the record writes. */
  predicate WellFormedRecord(fields: map<string, Json>) {
    && RecordKeys <= fields.Keys
    && fields["name"].JString? && fields["region"].JString? && fields["timezone"].JString?
    && fields["latitude"].JNumber? && fields["longitude"].JNumber?
  }

  /** The location a loaded record describes, or None for a record with a
      key missing. Keys other than the five are ignored. */
  function ParseRecord(fields: map<string, Json>): (r: Option<Location>)
    ensures r.Some? <==> WellFormedRecord(fields)
  {
    if WellFormedRecord(fields) then
      Some(Location(fields["name"].str, fields["region"].str, fields["timezone"].str,
                    fields["latitude"].num, fields["longitude"].num))
    else None
  }

  /** A saved location reads back as itself. */
  lemma RecordRoundTrip(loc: Location)
    ensures ParseRecord(EncodeRecord(loc)) == Some(loc)
  {
  }

  /** A record that loads is, on the five keys, exactly the record that
      saving the loaded location would write. */
  lemma LoadedRecordReencodes(fields: map<string, Json>)
    requires WellFormedRecord(fields)
    ensures EncodeRecord(ParseRecord(fields).value) == map k | k in RecordKeys :: fields[k]
  {
    var m := map k | k in RecordKeys :: fields[k];
    assert EncodeRecord(ParseRecord(fields).value).Keys == m.Keys;
  }

  /** The location the configuration file yields as it stands, if any. */
  function CachedLocation(c: ConfigFile): (r: Option<Location>)
    ensures r.Some? ==> c.Object? && WellFormedRecord(c.fields)
  {
    if c.Object? then ParseRecord(c.fields) else None
  }

  /** A file whose loading raises an error the loader does not catch: bytes
      that do not decode as UTF-8 (a `UnicodeDecodeError`, not a JSON decode
      error), or a top-level JSON value other than an object, which cannot be
      indexed by key. The run ends there and the file stays. */
  predicate Fatal(c: ConfigFile) {
    c.NotUtf8? || c.NotAnObject?
  }

  /** A file that exists but fails to load as a location: it is deleted
      before resolution goes on. */
  predicate Discarded(c: ConfigFile) {
    c.Undecodable? || (c.Object? && ParseRecord(c.fields).None?)
  }
}
