/**
 * Weather::Service: builds the XOAP request for a location, reads and fills
 * the memcached cache, and turns the returned XML into a Forecast; also the
 * location search. The network (`Net::HTTP.get`), the XML parser and
 * serialiser, the environment and the clock are parameters.
 */
module WeatherService {
  import opened Wrappers
  import opened Xml
  import opened RubyString
  import Cgi
  import RubyHash
  import MemCache
  import opened Forecast

  const XoapHost := "xoap.weather.com"
  const CacheNamespace := "RubyWeather"
  /** `60 * 10`: the cache expiry, in seconds, when none was set. */
  const DefaultExpiry := 600

  const PartnerVar := "WEATHER_COM_PARTNER_ID"
  const LicenseVar := "WEATHER_COM_LICENSE_KEY"
  const ImperialVar := "USE_IMPERIAL_UNITS"

  // ---------------------------------------------------------------------
  // The request
  // ---------------------------------------------------------------------

  /** The `days` argument of fetch_forecast: nil, an Integer or a String. */
  datatype Days = NoDays | Count(n: int) | Text(s: string)

  /** `days = 5 if days.nil? or days == 0 or days == ""`. */
  function DefaultDays(d: Days): (r: Days)
    ensures r != d <==> d == NoDays || d == Count(0) || d == Text("")
    ensures r != d ==> r == Count(5)
  {
    if d == NoDays || d == Count(0) || d == Text("") then Count(5) else d
  }

  /** Defaulting twice is defaulting once: the defaulted value is never one that is replaced. */
  lemma DefaultDaysIdempotent(d: Days)
    ensures DefaultDays(DefaultDays(d)) == DefaultDays(d)
  {
  }

  /** `"#{days}"`. */
  function DaysText(d: Days): string
  {
    match d
    case NoDays => ""
    case Count(n) => IntToS(n)
    case Text(s) => s
  }

  /** The process environment, `ENV`. */
  datatype Env = Env(vars: map<string, string>)

  function EnvGet(env: Env, name: string): (r: Option<string>)
    ensures r.Some? <==> name in env.vars
    ensures r.Some? ==> r.value == env.vars[name]
  {
    if name in env.vars then Some(env.vars[name]) else None
  }

  /**
   * `partner_id = ENV[...] unless partner_id`, as Ruby runs it: the
   * assignment makes `partner_id` a local variable, still nil when the
   * `unless` reads it, so the environment always decides and the writer's
   * setting is never consulted.
   */
  function CredentialAsWritten(setting: Option<string>, env: Env, name: string): (r: Option<string>)
    ensures r == EnvGet(env, name)
  {
    var local: Option<string> := None;
    if local.None? then EnvGet(env, name) else local
  }

  /** What the comment above those lines intends: the value set through the writer, and the environment only when none was set. */
  function Credential(setting: Option<string>, env: Env, name: string): (r: Option<string>)
    ensures setting.Some? ==> r == setting
    ensures setting.None? ==> r == EnvGet(env, name)
  {
    if setting.Some? then setting else EnvGet(env, name)
  }

  /** A partner id set on the service is dropped by the code as written and kept by the intended one. */
  lemma CredentialSettingIgnored()
    ensures CredentialAsWritten(Some("abc"), Env(map[]), PartnerVar) == None
    ensures Credential(Some("abc"), Env(map[]), PartnerVar) == Some("abc")
  {
  }

  /** The two agree exactly when nothing was set or the setting equals the environment's value. */
  lemma CredentialAgreement(setting: Option<string>, env: Env, name: string)
    ensures Credential(setting, env, name) == CredentialAsWritten(setting, env, name)
            <==> setting.None? || setting == EnvGet(env, name)
  {
  }

  /** `unit = imperial ? "s" : "m"`, where imperial also holds when USE_IMPERIAL_UNITS is set in the environment. */
  function UnitFlag(imperial: bool, env: Env): (r: string)
    ensures r == "s" || r == "m"
    ensures r == "s" <==> imperial || ImperialVar in env.vars
  {
    if imperial || ImperialVar in env.vars then "s" else "m"
  }

  predicate Lacks(s: string, c: char)
  {
    forall i :: 0 <= i < |s| ==> s[i] != c
  }

  /** The fields joined by `&`. */
  function JoinFields(fields: seq<string>): string
    requires |fields| > 0
  {
    if |fields| == 1 then fields[0] else fields[0] + "&" + JoinFields(fields[1..])
  }

  /** Fields without an `&` come apart again under `split("&")`'s pieces. */
  lemma {:induction false} PiecesOfJoinFields(fields: seq<string>)
    requires |fields| > 0
    requires forall i :: 0 <= i < |fields| ==> Lacks(fields[i], '&')
    ensures Pieces(JoinFields(fields), '&') == fields
    decreases |fields|
  {
    if |fields| == 1 {
      PiecesNoSep(fields[0], '&');
    } else {
      PiecesOfJoinFields(fields[1..]);
      PiecesAppend(fields[0], '&', JoinFields(fields[1..]));
      assert fields == [fields[0]] + fields[1..];
    }
  }

  /** The fields of the request path for a forecast, before the query's first `&`, and the query's parameters. */
  function ForecastFields(locationId: string, days: string, partner: string, key: string, unit: string): seq<string>
  {
    ["/weather/local/" + locationId + "?cc=*", "dayf=" + days, "par=" + partner, "key=" + key, "unit=" + unit]
  }

  /** The request path for a forecast. */
  function ForecastPath(locationId: string, days: string, partner: string, key: string, unit: string): string
  {
    JoinFields(ForecastFields(locationId, days, partner, key, unit))
  }

  /** When no value holds an `&`, the query fields of the path come apart again into exactly the values it was built from. */
  lemma ForecastPathFields(locationId: string, days: string, partner: string, key: string, unit: string)
    requires Lacks(locationId, '&') && Lacks(days, '&') && Lacks(partner, '&') && Lacks(key, '&') && Lacks(unit, '&')
    ensures Pieces(ForecastPath(locationId, days, partner, key, unit), '&')
            == ["/weather/local/" + locationId + "?cc=*", "dayf=" + days, "par=" + partner, "key=" + key, "unit=" + unit]
  {
    var fs := ForecastFields(locationId, days, partner, key, unit);
    forall i | 0 <= i < |fs| ensures Lacks(fs[i], '&') {
      assert Lacks("/weather/local/", '&') && Lacks("?cc=*", '&');
    }
    PiecesOfJoinFields(fs);
  }

  /** The cache key `"#{location_id}:#{days}"`. */
  function CacheKey(locationId: string, days: string): string
  {
    locationId + ":" + days
  }

  /** For location ids without a colon, different requests never share a cache entry. */
  lemma CacheKeysDistinct(l1: string, d1: string, l2: string, d2: string)
    requires Lacks(l1, ':') && Lacks(l2, ':')
    requires CacheKey(l1, d1) == CacheKey(l2, d2)
    ensures l1 == l2 && d1 == d2
  {
    PiecesAppend(l1, ':', d1);
    PiecesAppend(l2, ':', d2);
    assert CacheKey(l1, d1) == l1 + [':'] + d1 && CacheKey(l2, d2) == l2 + [':'] + d2;
    assert l1 == Pieces(CacheKey(l1, d1), ':')[0];
    assert d1 == CacheKey(l1, d1)[|l1| + 1..];
  }

  const SearchPrefix := "/weather/search/search?where="

  /** The request path for a location search. */
  function SearchPath(query: string): string
  {
    SearchPrefix + Cgi.Escape(query)
  }

  /** The search string travels as one query-safe value, and an ASCII one is recovered exactly by unescaping. */
  lemma SearchQueryRecovered(query: string)
    ensures SearchPath(query)[..|SearchPrefix|] == SearchPrefix
    ensures var v := SearchPath(query)[|SearchPrefix|..];
            (forall i :: 0 <= i < |v| ==> Cgi.QuerySafe(v[i]))
            && ((forall i :: 0 <= i < |query| ==> (query[i] as int) < 128) ==> Cgi.Unescape(v) == query)
  {
    assert SearchPath(query)[|SearchPrefix|..] == Cgi.Escape(query);
    Cgi.EscapeIsQuerySafe(query);
    if forall i :: 0 <= i < |query| ==> (query[i] as int) < 128 {
      Cgi.UnescapeEscape(query);
    }
  }

  // ---------------------------------------------------------------------
  // Turning text into a forecast
  // ---------------------------------------------------------------------

  /** Parse the text and construct the forecast over the resulting document. */
  function ForecastOfText(codec: Codec, text: string): (r: Result<Forecast>)
    ensures r.Ok? <==> codec.parse(text).Some?
    ensures r.Err? ==> r.error == Malformed
    ensures r.Ok? ==> r.value.xml == Prepared(codec.parse(text).value)
  {
    match codec.parse(text)
    case None => Err(Malformed)
    case Some(root) => Ok(Forecast(Prepared(root)))
  }

  /** Parse `text` into a document and construct the forecast over it. */
  method ParseForecast(codec: Codec, text: string) returns (r: Result<Forecast>)
    ensures r == ForecastOfText(codec, text)
  {
    var root := codec.parse(text);
    if root.None? {
      return Err(Malformed);
    }
    var doc := new Document(root.value);
    var f := FromDocument(doc);
    r := Ok(f);
  }

  /**
   * What the cache holds is the fresh document with a `cached_on` stamp on
   * its root: read back through a codec that round-trips, it gives the fresh
   * forecast plus that stamp, and it reports that it came from the cache.
   */
  lemma CachedCopyIsStampedForecast(codec: Codec, root: Element, stamp: string)
    requires RoundTrips(codec)
    ensures var cached := ForecastOfText(codec, codec.serialize(SetAttr(root, "cached_on", Some(stamp))));
            && cached.Ok?
            && cached.value.xml == SetAttr(Prepared(root), "cached_on", Some(stamp))
            && FromCache(cached.value)
            && CachedOn(cached.value) == Some(stamp)
  {
    var s := SetAttr(root, "cached_on", Some(stamp));
    assert codec.parse(codec.serialize(s)) == Some(s);
    assert Child(s, "dayf") == Child(root, "dayf");
    assert LsupToCopy(s) == LsupToCopy(root);
  }

  // ---------------------------------------------------------------------
  // Location search
  // ---------------------------------------------------------------------

  /** The `(id, text)` pair of each `//loc` element, in document order. */
  function LocPairs(root: Element): (r: seq<(Option<string>, Option<string>)>)
    ensures |r| == |Named(root, "loc")|
    ensures forall i :: 0 <= i < |r| ==> r[i] == (Attr(Named(root, "loc")[i], "id"), Named(root, "loc")[i].text)
  {
    var locs := Named(root, "loc");
    seq(|locs|, i requires 0 <= i < |locs| => (Attr(locs[i], "id"), locs[i].text))
  }

  /**
   * The search result: an id is a key exactly when some `<loc>` has it, and
   * it maps to the text of the last such `<loc>`.
   */
  lemma LocationsLastWins(root: Element, id: Option<string>)
    ensures var locs, m := Named(root, "loc"), RubyHash.Assigned(LocPairs(root));
            && (id in m <==> exists i :: 0 <= i < |locs| && Attr(locs[i], "id") == id)
            && (id in m ==> exists i :: 0 <= i < |locs| && locs[i].name == "loc" && Attr(locs[i], "id") == id
                                        && m[id] == locs[i].text
                                        && forall j :: i < j < |locs| ==> Attr(locs[j], "id") != id)
  {
    var locs, pairs := Named(root, "loc"), LocPairs(root);
    RubyHash.LastAssignmentWins(pairs, id);
    NamedAreNamed(root, "loc");
    assert forall i :: 0 <= i < |locs| ==> locs[i] in locs;
  }

  // ---------------------------------------------------------------------
  // The service object
  // ---------------------------------------------------------------------

  class Service {
    var partnerId: Option<string>
    var licenseKey: Option<string>
    var imperial: bool
    /** `@cache`: caching was enabled. */
    var cacheOn: bool
    /** Whether `enable_cache` has mixed the Cache module in (it is never taken out again). */
    var cacheMixedIn: bool
    /** `@cache_expiry`. */
    var cacheExpirySetting: Option<int>
    /** `@memcache`, the client the Cache module creates. */
    const memcache: MemCache.Client

    /** Caching can only be on once the Cache module is mixed in. */
    predicate Valid()
      reads this
    {
      (cacheOn ==> cacheMixedIn) && memcache.namespace == CacheNamespace
    }

    constructor ()
      ensures Valid() && fresh(memcache)
      ensures partnerId == None && licenseKey == None && !imperial
      ensures !cacheOn && !cacheMixedIn && cacheExpirySetting == None
      ensures memcache.servers == [] && memcache.store == map[]
    {
      partnerId := None;
      licenseKey := None;
      imperial := false;
      cacheOn := false;
      cacheMixedIn := false;
      cacheExpirySetting := None;
      memcache := new MemCache.Client(CacheNamespace);
    }

    /** `partner_id=`. */
    method SetPartnerId(id: Option<string>)
      modifies this
      ensures partnerId == id
      ensures licenseKey == old(licenseKey) && imperial == old(imperial) && cacheOn == old(cacheOn)
      ensures cacheMixedIn == old(cacheMixedIn) && cacheExpirySetting == old(cacheExpirySetting)
    {
      partnerId := id;
    }

    /** `license_key=`. */
    method SetLicenseKey(key: Option<string>)
      modifies this
      ensures licenseKey == key
      ensures partnerId == old(partnerId) && imperial == old(imperial) && cacheOn == old(cacheOn)
      ensures cacheMixedIn == old(cacheMixedIn) && cacheExpirySetting == old(cacheExpirySetting)
    {
      licenseKey := key;
    }

    /** `imperial=`. */
    method SetImperial(on: bool)
      modifies this
      ensures imperial == on
      ensures partnerId == old(partnerId) && licenseKey == old(licenseKey) && cacheOn == old(cacheOn)
      ensures cacheMixedIn == old(cacheMixedIn) && cacheExpirySetting == old(cacheExpirySetting)
    {
      imperial := on;
    }

    /** `enable_cache(enable)`: enabling mixes the Cache module in and turns caching on; disabling only turns it off. */
    method EnableCache(enable: bool)
      requires Valid()
      modifies this
      ensures Valid()
      ensures cacheOn == enable
      ensures cacheMixedIn == (old(cacheMixedIn) || enable)
      ensures partnerId == old(partnerId) && licenseKey == old(licenseKey) && imperial == old(imperial)
      ensures cacheExpirySetting == old(cacheExpirySetting)
    {
      if enable {
        cacheMixedIn := true;
        cacheOn := true;
      } else {
        cacheOn := false;
      }
    }

    /** `disable_cache`. */
    method DisableCache()
      requires Valid()
      modifies this
      ensures Valid()
      ensures !cacheOn && cacheMixedIn == old(cacheMixedIn)
      ensures partnerId == old(partnerId) && licenseKey == old(licenseKey) && imperial == old(imperial)
      ensures cacheExpirySetting == old(cacheExpirySetting)
    {
      EnableCache(false);
    }

    /** `cache?`: caching is on, the client has servers, and at least one of them is alive. */
    predicate CacheActive()
      reads this, memcache
    {
      cacheOn && memcache.Active() && memcache.AnyAlive()
    }

    /** Caching needs both the switch and a live server: with caching off, or no server alive, `cache?` is false whatever else holds. */
    lemma CacheActiveNeedsLiveServer()
      ensures CacheActive() ==> cacheOn && exists i :: 0 <= i < |memcache.servers| && memcache.servers[i]
      ensures CacheActive() <== cacheOn && exists i :: 0 <= i < |memcache.servers| && memcache.servers[i]
    {
    }

    /** `cache_expiry=`: only defined once the Cache module is mixed in. */
    method SetCacheExpiry(seconds: Option<int>) returns (r: Result<()>)
      requires Valid()
      modifies this
      ensures Valid()
      ensures r.Ok? <==> old(cacheMixedIn)
      ensures r.Err? ==> r.error == UndefinedMethod
      ensures cacheExpirySetting == if r.Ok? then seconds else old(cacheExpirySetting)
      ensures partnerId == old(partnerId) && licenseKey == old(licenseKey) && imperial == old(imperial)
      ensures cacheOn == old(cacheOn) && cacheMixedIn == old(cacheMixedIn)
    {
      if !cacheMixedIn {
        return Err(UndefinedMethod);
      }
      cacheExpirySetting := seconds;
      r := Ok(());
    }

    /** `cache_expiry`: the setting, or ten minutes when there is none. */
    function CacheExpiry(): (r: Result<int>)
      reads this
      ensures r.Ok? <==> cacheMixedIn
      ensures r.Err? ==> r.error == UndefinedMethod
      ensures r.Ok? && cacheExpirySetting.Some? ==> r.value == cacheExpirySetting.value
      ensures r.Ok? && cacheExpirySetting.None? ==> r.value == DefaultExpiry
    {
      if !cacheMixedIn then Err(UndefinedMethod) else Ok(cacheExpirySetting.GetOr(DefaultExpiry))
    }

    /**
     * The path fetch_forecast requests for these arguments, as the code runs:
     * the credentials come from the environment alone, whatever was set on
     * the service.
     */
    function RequestPath(locationId: string, days: Days, env: Env): string
      reads this
    {
      ForecastPath(locationId, DaysText(DefaultDays(days)),
                   CredentialAsWritten(partnerId, env, PartnerVar).GetOr(""),
                   CredentialAsWritten(licenseKey, env, LicenseVar).GetOr(""),
                   UnitFlag(imperial, env))
    }

    /** The path the comment in fetch_forecast intends: a credential set on the service wins over the environment. */
    function IntendedRequestPath(locationId: string, days: Days, env: Env): string
      reads this
    {
      ForecastPath(locationId, DaysText(DefaultDays(days)),
                   Credential(partnerId, env, PartnerVar).GetOr(""),
                   Credential(licenseKey, env, LicenseVar).GetOr(""),
                   UnitFlag(imperial, env))
    }

    /** The request carries the defaulted day count, the environment's credentials and the unit as separate fields. */
    lemma RequestCarriesSettings(locationId: string, days: Days, env: Env)
      requires Lacks(locationId, '&') && Lacks(DaysText(DefaultDays(days)), '&')
      requires Lacks(EnvGet(env, PartnerVar).GetOr(""), '&') && Lacks(EnvGet(env, LicenseVar).GetOr(""), '&')
      ensures var fields := Pieces(RequestPath(locationId, days, env), '&');
              && |fields| == 5
              && fields[1] == "dayf=" + DaysText(DefaultDays(days))
              && fields[2] == "par=" + EnvGet(env, PartnerVar).GetOr("")
              && fields[3] == "key=" + EnvGet(env, LicenseVar).GetOr("")
              && (fields[4] == "unit=s" <==> imperial || ImperialVar in env.vars)
    {
      var u := UnitFlag(imperial, env);
      assert Lacks(u, '&');
      ForecastPathFields(locationId, DaysText(DefaultDays(days)),
                         EnvGet(env, PartnerVar).GetOr(""), EnvGet(env, LicenseVar).GetOr(""), u);
      assert "unit=m" != "unit=s" by { assert "unit=m"[5] != "unit=s"[5]; }
    }

    /**
     * The path requested and the intended one are the same exactly when each
     * credential the intended code would send is the one the environment
     * supplies; so a partner id or license key set on the service, and
     * different from the environment's, changes the request only in the
     * intended code.
     */
    lemma RequestPathMatchesIntendedIff(locationId: string, days: Days, env: Env)
      requires Lacks(locationId, '&') && Lacks(DaysText(DefaultDays(days)), '&')
      requires Lacks(EnvGet(env, PartnerVar).GetOr(""), '&') && Lacks(EnvGet(env, LicenseVar).GetOr(""), '&')
      requires Lacks(partnerId.GetOr(""), '&') && Lacks(licenseKey.GetOr(""), '&')
      ensures RequestPath(locationId, days, env) == IntendedRequestPath(locationId, days, env)
              <==> && Credential(partnerId, env, PartnerVar).GetOr("") == EnvGet(env, PartnerVar).GetOr("")
                   && Credential(licenseKey, env, LicenseVar).GetOr("") == EnvGet(env, LicenseVar).GetOr("")
    {
      var d, u := DaysText(DefaultDays(days)), UnitFlag(imperial, env);
      var p, k := Credential(partnerId, env, PartnerVar).GetOr(""), Credential(licenseKey, env, LicenseVar).GetOr("");
      var ep, ek := EnvGet(env, PartnerVar).GetOr(""), EnvGet(env, LicenseVar).GetOr("");
      assert Lacks(u, '&');
      if RequestPath(locationId, days, env) == IntendedRequestPath(locationId, days, env) {
        ForecastPathFields(locationId, d, ep, ek, u);
        ForecastPathFields(locationId, d, p, k, u);
        assert ep == ("par=" + ep)[4..] && p == ("par=" + p)[4..];
        assert ek == ("key=" + ek)[4..] && k == ("key=" + k)[4..];
      }
    }

    /**
     * `fetch_forecast(location_id, days)`. With the cache active a stored
     * copy is used when the client has one (a failing read counts as a miss).
     * Otherwise the text is fetched; with the cache active its document is
     * stamped with `cached_on` and stored, and the forecast is built from the
     * fetched text itself. `fromCache` tells which way the call went.
     */
    method FetchForecast(locationId: string, days: Days, env: Env, stamp: string,
                         http: string -> Option<string>, codec: Codec)
      returns (r: Result<Forecast>, ghost fromCache: bool)
      requires Valid()
      modifies memcache
      ensures memcache.servers == old(memcache.servers)
      ensures var key := memcache.FullKey(CacheKey(locationId, DaysText(DefaultDays(days))));
              fromCache ==> && CacheActive() && key in old(memcache.store)
                            && memcache.store == old(memcache.store)
                            && r == ForecastOfText(codec, old(memcache.store)[key].data)
      ensures var key := memcache.FullKey(CacheKey(locationId, DaysText(DefaultDays(days))));
              var response := http(RequestPath(locationId, days, env));
              !fromCache ==>
                && (response.None? ==> r == Err(Transport) && memcache.store == old(memcache.store))
                && (response.Some? && !CacheActive() ==>
                      r == ForecastOfText(codec, response.value) && memcache.store == old(memcache.store))
                && (response.Some? && CacheActive() && codec.parse(response.value).None? ==>
                      r == Err(Malformed) && memcache.store == old(memcache.store))
                && (response.Some? && CacheActive() && codec.parse(response.value).Some? ==>
                      || (r == ForecastOfText(codec, response.value)
                          && memcache.store == old(memcache.store)[key := MemCache.Entry(
                               codec.serialize(SetAttr(codec.parse(response.value).value, "cached_on", Some(stamp))),
                               CacheExpiry().value)])
                      || (r == Err(CacheStore) && memcache.store == old(memcache.store)))
    {
      var dayText := DaysText(DefaultDays(days));
      var path := RequestPath(locationId, days, env);
      var cacheKey := CacheKey(locationId, dayText);
      var xml: Option<string> := None;
      fromCache := false;
      if CacheActive() {
        var got := memcache.Get(cacheKey);
        if got.Hit? {
          xml := Some(got.data);
          fromCache := true;
        }
      }
      if xml.None? {
        var fetched := http(path);
        if fetched.None? {
          return Err(Transport), false;
        }
        if CacheActive() {
          var root := codec.parse(fetched.value);
          if root.None? {
            return Err(Malformed), false;
          }
          var stamped := SetAttr(root.value, "cached_on", Some(stamp));
          var ok := memcache.Set(cacheKey, codec.serialize(stamped), CacheExpiry().value);
          if !ok {
            return Err(CacheStore), false;
          }
        }
        xml := fetched;
      }
      r := ParseForecast(codec, xml.value);
    }

    /** `load_forecast(filename)`, given the file's contents. */
    method LoadForecast(fileText: string, codec: Codec) returns (r: Result<Forecast>)
      ensures r == ForecastOfText(codec, fileText)
    {
      r := ParseForecast(codec, fileText);
    }

    /** `find_location(search_string)`: location id to location text, for every `//loc` in the search response. */
    method FindLocation(query: string, http: string -> Option<string>, codec: Codec)
      returns (r: Result<map<Option<string>, Option<string>>>)
      ensures http(SearchPath(query)).None? ==> r == Err(Transport)
      ensures http(SearchPath(query)).Some? && codec.parse(http(SearchPath(query)).value).None? ==> r == Err(Malformed)
      ensures http(SearchPath(query)).Some? && codec.parse(http(SearchPath(query)).value).Some? ==>
                r == Ok(RubyHash.Assigned(LocPairs(codec.parse(http(SearchPath(query)).value).value)))
    {
      var response := http(SearchPath(query));
      if response.None? {
        return Err(Transport);
      }
      var root := codec.parse(response.value);
      if root.None? {
        return Err(Malformed);
      }
      var locs := Named(root.value, "loc");
      ghost var pairs := LocPairs(root.value);
      var locations: map<Option<string>, Option<string>> := map[];
      var i := 0;
      while i < |locs|
        invariant 0 <= i <= |locs|
        invariant locations == RubyHash.Assigned(pairs[..i])
      {
        assert pairs[..i + 1][..i] == pairs[..i];
        locations := locations[Attr(locs[i], "id") := locs[i].text];
        i := i + 1;
      }
      assert pairs[..|locs|] == pairs;
      r := Ok(locations);
    }
  }
}
