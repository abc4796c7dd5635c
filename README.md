# RubyWeather forecast model

A Dafny model of the core of RubyWeather, a Ruby library for weather.com's
XOAP service. The model covers:

- `Weather::Forecast::Forecast`, a multi-day forecast over one XML document.
  Construction copies the forecast's latest-update text onto every forecast
  day. The forecast then offers lookups: `current`, `day(n)`, `night(n)`,
  `tomorrow`, `each`, the location fields, the unit system, the update time
  and the cache stamp.
- The conditions views over one slice of that data:
  - `CurrentConditions`, over `<cc>`.
  - `Day` and `Night`, over one `<day>` element. Most fields come from its
    `part[@p="d"]` or `part[@p="n"]` child; the temperatures, date, sun times
    and update time come from the day element itself.
- `Weather::Service`. It builds the request URL from the location, the day
  count, the credentials and the unit flag. When the cache is active
  (`cache?`), it reads a cached copy from memcached if there is one.
  Otherwise it fetches the forecast text. When the cache is active, it also
  parses a copy of that text, stamps the copy with `cached_on` and stores it.
  The forecast returned is built from the fetched text itself. It also runs
  a location search.

How the Ruby library is represented:

| Ruby | Model |
|---|---|
| nil | `Wrappers.Option.None` |
| an exception that escapes to the caller | an `Err` of `Wrappers.Result`, with its kind in `Wrappers.Error` |
| the REXML tree | the `Xml.Element` value |
| the document the constructor changes in place | the `Xml.Document` class |
| the memcached client | the `MemCache.Client` class |
| the service | the `WeatherService.Service` class, with its settings as fields |
| `Time.now` | a parameter |
| the HTTP response | a parameter (a function from request path to text) |
| the XML parser and serialiser | a parameter (`Xml.Codec`) |
| the environment | a parameter (`WeatherService.Env`) |
| the clock text used as the `cached_on` stamp | a parameter |

The Ruby built-ins the library relies on are modelled with the behaviour
that matters here:

- `String#to_i` and `Integer#to_s`
- `split` with a character separator and `split(" ")`
- `Array#first`
- the month argument of `Time.local` and its range checks
- `CGI.escape`
- REXML's `elements[...]`, `attributes[...]`, `add_attribute` and XPath matching

Where the library's documented behaviour and its code differ, the model
follows the code:

- `night(n)` has no range check. When the offset is missing, it fails with
  the FutureConditions constructor's type-check message.
- A Day or Night reads `wind` from its part. `high` and `low` come from the
  day element.
- `pop` is the `to_i` of the part's `<ppcp>` text. An "N/A" there reads as 0,
  not nil.
- Construction raises no error for a missing section: without `<dayf>` or
  its `<lsup>` it only skips the stamping. A missing section fails only in
  the accessor that needs it. The `<loc>`, `<head>` and `<dayf>` lookups
  raise NoMethodError. `current` without `<cc>`, and `night(n)` without the
  day, raise the view constructor's type-check RuntimeError.
- On a cache miss, the forecast returned is built from the fetched text. The
  stamped copy is what gets stored, so a freshly fetched forecast reports
  `from_cache?` false.

## Model

| member | source | states |
|---|---|---|
| Xml.Attr | vendor/plugins/svn/lib/weather/forecast.rb:112 | `attributes[key]` is present exactly when the element has the attribute, and is then its value |
| Xml.SetAttr | vendor/plugins/svn/lib/weather/forecast.rb:45 | `add_attribute` leaves the key holding the given value; a nil value deletes it. Every other attribute, the name, the children and the text are unchanged |
| Xml.Find | vendor/plugins/svn/lib/weather/forecast.rb:63 | `elements[step]` is nil exactly when no child matches the step. Otherwise it is a matching child with no matching child before it |
| Xml.ChildText | vendor/plugins/svn/lib/weather/forecast.rb:102 | reading a child's text raises NoMethodError exactly when the child is missing; otherwise it is that child's text |
| Xml.PathMatchesAreNamed | vendor/plugins/svn/lib/weather/forecast.rb:44 | every element `//dayf/day` yields is a `day` |
| Xml.NamedAreNamed | vendor/plugins/svn/lib/weather/service.rb:112 | every element `//loc` yields is a `loc` |
| RubyHash.LastAssignmentWins | vendor/plugins/svn/lib/weather/forecast.rb:199-203 | after successive `obj[k] = v` a key is present exactly when some assignment used it, and it holds the value of the last such assignment |
| RubyString.ToIOfIntToS | vendor/plugins/svn/lib/weather/forecast.rb:212-213 | `to_i` of `n.to_s` gives back n, for every integer n |
| RubyString.IntToSInjective | vendor/plugins/svn/lib/weather/forecast.rb:63 | distinct offsets give distinct `d` selectors |
| RubyString.SplitFirst | vendor/plugins/svn/lib/weather/forecast.rb:107 | `split(",").first` is nil exactly when the text is all commas (or empty); otherwise it is the text before the first comma |
| RubyTime.Local | vendor/plugins/svn/lib/weather/forecast.rb:296 | `Time.local` succeeds exactly when month, day, hour and minute are in range (hour 0 to 23, as Ruby 1.8 checks it), and then gives that moment; otherwise ArgumentError |
| RubyTime.MonthArgOfAbbreviation | vendor/plugins/svn/lib/weather/forecast.rb:295-296 | a capitalised month abbreviation ("Jul") as the month argument means that month |
| RubyTime.MonthArgOfNumber | vendor/plugins/svn/lib/weather/forecast.rb:296 | a non-negative month number written as text means that month; a negative one does not start with a digit and gives month 0 |
| Cgi.EscapeIsQuerySafe | vendor/plugins/svn/lib/weather/service.rb:105 | `CGI.escape` output holds only letters, digits, `_ . - + %` |
| Cgi.UnescapeEscape | vendor/plugins/svn/lib/weather/service.rb:105 | unescaping the escaped ASCII search string gives it back |
| Conditions.MyPart | vendor/plugins/svn/lib/weather/forecast.rb:358-378 | `mypart` is nil exactly when no `part` child of the day has `p` "d" (Day) or "n" (Night); otherwise it is the first such child |
| Conditions.Field | vendor/plugins/svn/lib/weather/forecast.rb:157-163 | `method_missing` gives the text of the same-named child of `<cc>` (or of the part, lines 275-281). It gives "N/A" when the child, or the part, is missing |
| Conditions.CleanTemp | vendor/plugins/svn/lib/weather/forecast.rb:184-192 | `clean_temp` raises exactly when the child is missing. It is nil exactly when the text is "N/A", and otherwise the text's `to_i` |
| Conditions.ComplexAttribute | vendor/plugins/svn/lib/weather/forecast.rb:198-206 | the loop over the children builds exactly the hash of last-assigned child texts |
| Conditions.ChildTextsLookup | vendor/plugins/svn/lib/weather/forecast.rb:198-206 | a tag is a key of that hash exactly when some child has it, and it maps to the text of the last such child |
| Conditions.FixWind | vendor/plugins/svn/lib/weather/forecast.rb:210-216 | the wind keeps the raw texts. Heading is raw `t`; direction and speed are the `to_i` of raw `d` and `s` |
| Conditions.WindOf | vendor/plugins/svn/lib/weather/forecast.rb:289-291 | `wind` succeeds exactly when the source element (the part, for a Day or Night; `<cc>` at line 170) has a `<wind>`, and is then that element's fixed-up hash; otherwise NoMethodError |
| Conditions.WindRawAndDerivedAgree | vendor/plugins/svn/lib/weather/forecast.rb:210-216 | a raw speed of "13" means a derived speed of 13, and likewise for direction |
| Conditions.Icon | vendor/plugins/svn/lib/weather/forecast.rb:301-303 | `icon` succeeds exactly when the source element has an `<icon>`, and is then the `to_i` of its text |
| Conditions.High | vendor/plugins/svn/lib/weather/forecast.rb:305-308 | `high` raises NoMethodError when the day has no `<hi>`, is nil when its text is "N/A", and is otherwise the `to_i` of its text |
| Conditions.Low | vendor/plugins/svn/lib/weather/forecast.rb:310-313 | as `high`, over the day's `<low>` |
| Conditions.Temp | vendor/plugins/svn/lib/weather/forecast.rb:238-240 | the current temperature is the cleaned `<tmp>` of `<cc>` |
| Conditions.DayAndNightShareTheDay | vendor/plugins/svn/lib/weather/forecast.rb:346-379 | a Day's temp is `high` and a Night's is `low`. Both views of one day give the same high, low, update time, date, sunrise and sunset |
| Conditions.Outlook | vendor/plugins/svn/lib/weather/forecast.rb:316-318 | `outlook` succeeds exactly when the source element has a `<t>`, and is then its text |
| Conditions.OutlookBrief | vendor/plugins/svn/lib/weather/forecast.rb:320-322 | `outlook_brief` succeeds exactly when the source element has a `<bt>`, and is then its text |
| Conditions.Pop | vendor/plugins/svn/lib/weather/forecast.rb:324-326 | `pop` is nil for the current conditions (line 253). For a Day or Night it succeeds exactly when the part has a `<ppcp>`, and is then the `to_i` of its text |
| Conditions.Date | vendor/plugins/svn/lib/weather/forecast.rb:293-297 | the current conditions' date is now. A day's date needs the `dt` attribute and lies at midnight in now's year |
| Conditions.DateOfMonthAndDay | vendor/plugins/svn/lib/weather/forecast.rb:293-297 | a `dt` of the form "Jul 14" gives 14 July of now's year at 00:00 |
| Conditions.Clock | vendor/plugins/svn/lib/weather/forecast.rb:330-332 | reading the clock raises NoMethodError exactly when the sun-time text is missing or blank |
| Conditions.ClockReadsHourAndMinute | vendor/plugins/svn/lib/weather/forecast.rb:330-332 | "H:MM", "H:MM AM" and "H:MM PM" are read as hour H and minute MM, with a minute below ten written "05" or "5" |
| Conditions.Sunrise | vendor/plugins/svn/lib/weather/forecast.rb:329-334 | sunrise raises NoMethodError without `<sunr>` or with a blank one, fails as `date` fails, and is otherwise `Time.local` of the day's date with the `<sunr>` hour and minute, which fails only for a field out of range |
| Conditions.Sunset | vendor/plugins/svn/lib/weather/forecast.rb:336-341 | as sunrise, over `<suns>` and with 12 added to the hour |
| Conditions.SunsetIsTwelveHoursLater | vendor/plugins/svn/lib/weather/forecast.rb:336-341 | on the same clock text, sunset is sunrise with 12 added to the hour |
| Conditions.LatestUpdate | vendor/plugins/svn/lib/weather/forecast.rb:285-287 | a day's update time is its `lsup` attribute. The current conditions' is its `lsup` field (line 176). A nil text is a TypeError |
| Forecast.StampTree | vendor/plugins/svn/lib/weather/forecast.rb:44-46 | the walk over the tree gives exactly the tree with `lsup` set on every `//dayf/day` element |
| Forecast.FromDocument | vendor/plugins/svn/lib/weather/forecast.rb:29-48 | the document is stamped in place when the root has a `<dayf>` with an `<lsup>`, and is otherwise untouched. The forecast reads the new document |
| Forecast.StampedDaysCarryLsup | vendor/plugins/svn/lib/weather/forecast.rb:44-46 | after stamping, every `//dayf/day` element's `lsup` is the copied text |
| Forecast.StampedKeepsDayCount | vendor/plugins/svn/lib/weather/forecast.rb:44 | stamping neither adds nor removes forecast days |
| Forecast.StampedChangesOnlyDayLsup | vendor/plugins/svn/lib/weather/forecast.rb:44-46 | with the day `lsup` attributes erased, the stamped tree equals the original, so nothing else changes |
| Forecast.PreparedStampsExactlyTheDays | vendor/plugins/svn/lib/weather/forecast.rb:38-47 | without a `<dayf>` holding an `<lsup>` the document is unchanged. Otherwise every `//dayf/day` element carries the copied text, the number of days is the same, and nothing else changes |
| Forecast.DaysReportForecastLatestUpdate | vendor/plugins/svn/lib/weather/forecast.rb:36-47 | in a constructed forecast every day's `latest_update` equals the forecast's own `latest_update` (line 132) |
| Forecast.Current | vendor/plugins/svn/lib/weather/forecast.rb:51-53 | `current` succeeds exactly when the root has `<cc>`; otherwise the CurrentConditions type-check error |
| Forecast.Day | vendor/plugins/svn/lib/weather/forecast.rb:62-74 | `day(n)` succeeds exactly when `<dayf>` has a `day` whose `d` is `n.to_s`, and is a Day over the first such element. Otherwise it raises "Sorry, there is no data available for …", or NoMethodError when there is no `<dayf>` |
| Forecast.DayMessageNamesOffset | vendor/plugins/svn/lib/weather/forecast.rb:65-70 | different offsets give different error messages |
| Forecast.Tomorrow | vendor/plugins/svn/lib/weather/forecast.rb:56-58 | `tomorrow` is `day(1)` |
| Forecast.Night | vendor/plugins/svn/lib/weather/forecast.rb:78-81 | `night(n)` succeeds exactly when `<dayf>` has a `day` whose `d` is `n.to_s`, and is a Night over the first such element. Otherwise it raises the Day/Night constructor's type-check message, or NoMethodError when there is no `<dayf>` |
| Forecast.NightUsesDayLookup | vendor/plugins/svn/lib/weather/forecast.rb:78-81 | `night(n)` finds the element `day(n)` finds, and fails when `day(n)` fails, but with the constructor's message instead of the day's |
| Forecast.LatestUpdate | vendor/plugins/svn/lib/weather/forecast.rb:131-133 | `latest_update` succeeds exactly when `<dayf><lsup>` exists and has text, and is that text |
| Forecast.LocationName | vendor/plugins/svn/lib/weather/forecast.rb:101-103 | `location_name` succeeds exactly when `<loc><dnam>` exists, and is then its text; otherwise NoMethodError |
| Forecast.LocationCity | vendor/plugins/svn/lib/weather/forecast.rb:106-108 | `location_city` succeeds exactly when the location name exists and is not nil |
| Forecast.CityIsNameBeforeComma | vendor/plugins/svn/lib/weather/forecast.rb:106-108 | the city is the part of the name before the first comma; it is nil for a name made only of commas |
| Forecast.CityOfTorontoCanada | vendor/plugins/svn/lib/weather/forecast.rb:106-108 | the name "Toronto, Canada" gives the city "Toronto" |
| Forecast.CityBeforeComma | vendor/plugins/svn/lib/weather/forecast.rb:107 | for a name made of a comma-free city followed by text starting with a comma, the city is exactly that prefix |
| Forecast.LocationCode | vendor/plugins/svn/lib/weather/forecast.rb:111-113 | `location_code` is the `id` attribute of `<loc>`, and fails when there is no `<loc>` |
| Forecast.Metric | vendor/plugins/svn/lib/weather/forecast.rb:116-118 | `metric?` is true exactly when `<head><ut>` has the text "C" |
| Forecast.CachedOn | vendor/plugins/svn/lib/weather/forecast.rb:140-143 | `cached_on` is nil exactly when the root has no `cached_on` attribute, and is otherwise that attribute's text |
| Forecast.FromCache | vendor/plugins/svn/lib/weather/forecast.rb:147-149 | `from_cache?` holds exactly when the root has a `cached_on` attribute |
| Forecast.PreparedKeepsCacheStamp | vendor/plugins/svn/lib/weather/forecast.rb:140-149 | construction keeps the root's `cached_on`, so the forecast is from the cache exactly when its source document was stamped |
| Forecast.Slot | vendor/plugins/svn/lib/weather/forecast.rb:87-92 | a day is replaced by the current conditions exactly when now is past 15:00 on its date; otherwise the day is yielded as a Day |
| Forecast.Each | vendor/plugins/svn/lib/weather/forecast.rb:84-98 | `each` yields one slot per `//dayf/day` element, in document order. When a slot raises, iteration stops there with that error |
| MemCache.Client.Get | vendor/plugins/svn/lib/weather/service.rb:73 | a read hits only a stored key, and then gives the stored text |
| MemCache.Client.Set | vendor/plugins/svn/lib/weather/service.rb:86 | a successful write stores the entry under the namespaced key; a failed one changes nothing |
| MemCache.Client.FullKeyInjective | vendor/plugins/svn/lib/weather/service.rb:155 | the `RubyWeather` namespace keeps distinct keys distinct |
| WeatherService.DefaultDays | vendor/plugins/svn/lib/weather/service.rb:42 | days are replaced, by 5, exactly when they are nil, 0 or "" |
| WeatherService.DefaultDaysIdempotent | vendor/plugins/svn/lib/weather/service.rb:42 | defaulting an already defaulted day count changes nothing |
| WeatherService.CredentialAsWritten | vendor/plugins/svn/lib/weather/service.rb:45-46 | as written, the credential is always the environment's value |
| WeatherService.Credential | vendor/plugins/svn/lib/weather/service.rb:44-46 | as intended, the credential is the configured one, and the environment's only when none is configured |
| WeatherService.CredentialSettingIgnored | vendor/plugins/svn/lib/weather/service.rb:45-46 | a configured partner id "abc" with the variable unset is lost as written and kept as intended |
| WeatherService.CredentialAgreement | vendor/plugins/svn/lib/weather/service.rb:45-46 | the two readings agree exactly when nothing is configured or the configured value equals the environment's |
| WeatherService.UnitFlag | vendor/plugins/svn/lib/weather/service.rb:48-66 | the unit is "s" exactly when `imperial` is set or USE_IMPERIAL_UNITS is in the environment, and "m" otherwise |
| WeatherService.PiecesOfJoinFields | vendor/plugins/svn/lib/weather/service.rb:67 | fields without `&`, joined by `&`, split back into the same fields |
| WeatherService.ForecastPathFields | vendor/plugins/svn/lib/weather/service.rb:67 | the request path splits at `&` into the path and its parameters `dayf`, `par`, `key` and `unit`, each carrying its value |
| WeatherService.CacheKeysDistinct | vendor/plugins/svn/lib/weather/service.rb:73 | for location ids without a colon, two requests share a cache key only when location and days are equal |
| WeatherService.SearchQueryRecovered | vendor/plugins/svn/lib/weather/service.rb:105 | the search path is the fixed prefix plus a query-safe value, which unescapes to the ASCII search string |
| WeatherService.ForecastOfText | vendor/plugins/svn/lib/weather/service.rb:89-91 | the text yields a forecast exactly when it parses to a rooted document, and it is that document, prepared by the constructor |
| WeatherService.ParseForecast | vendor/plugins/svn/lib/weather/service.rb:89-91 | parsing, building the document and running the constructor on it gives that forecast |
| WeatherService.CachedCopyIsStampedForecast | vendor/plugins/svn/lib/weather/service.rb:84-86 | the stored copy reads back as the fresh forecast plus the `cached_on` stamp, and reports `from_cache?` |
| WeatherService.LocPairs | vendor/plugins/svn/lib/weather/service.rb:112-114 | one `(id, text)` pair per `//loc` element, in document order |
| WeatherService.LocationsLastWins | vendor/plugins/svn/lib/weather/service.rb:110-116 | an id is a key of the result exactly when some `<loc>` has it, and it maps to the text of the last such `<loc>` |
| WeatherService.Service.SetPartnerId | vendor/plugins/svn/lib/weather/service.rb:34 | `partner_id=` sets the partner id and nothing else |
| WeatherService.Service.SetLicenseKey | vendor/plugins/svn/lib/weather/service.rb:34 | `license_key=` sets the license key and nothing else |
| WeatherService.Service.SetImperial | vendor/plugins/svn/lib/weather/service.rb:34 | `imperial=` sets the flag and nothing else |
| WeatherService.Service.EnableCache | vendor/plugins/svn/lib/weather/service.rb:124-131 | caching is on exactly when enabled. Enabling mixes the Cache module in for good |
| WeatherService.Service.DisableCache | vendor/plugins/svn/lib/weather/service.rb:142-144 | caching is off, and nothing else changes |
| WeatherService.Service.CacheActiveNeedsLiveServer | vendor/plugins/svn/lib/weather/service.rb:134-138 | `cache?` holds exactly when caching is on and some configured server is alive |
| WeatherService.Service.SetCacheExpiry | vendor/plugins/svn/lib/weather/service.rb:159-161 | `cache_expiry=` stores the setting once the Cache module is mixed in. Before that it is NoMethodError and nothing changes |
| WeatherService.Service.CacheExpiry | vendor/plugins/svn/lib/weather/service.rb:163-165 | the expiry is the setting, or 600 seconds when none is set |
| WeatherService.Service.RequestCarriesSettings | vendor/plugins/svn/lib/weather/service.rb:40-67 | the request carries the defaulted day count, the partner id and license key from the environment (whatever was set on the service), and the unit flag, as its parameters |
| WeatherService.Service.RequestPathMatchesIntendedIff | vendor/plugins/svn/lib/weather/service.rb:44-46 | the path requested equals the intended one exactly when each credential the intended code sends is the environment's |
| WeatherService.Service.FetchForecast | vendor/plugins/svn/lib/weather/service.rb:40-92 | a hit needs the cache active and the key stored, and gives the forecast of the cached text. On any other path the HTTP response decides: a failed fetch is an error. With the cache inactive, the forecast of the fetched text. With it active, the stamped document stored under the key with the expiry, then that forecast; or the store error. The cache changes only on that store |
| WeatherService.Service.LoadForecast | vendor/plugins/svn/lib/weather/service.rb:95-100 | the forecast of the file's text |
| WeatherService.Service.FindLocation | vendor/plugins/svn/lib/weather/service.rb:104-117 | the search result is the hash of last-assigned `(id, text)` pairs over `//loc` of the response, or the fetch or parse error |

## Left out

- The libxml backend (`$USE_LIBXML`) is not modelled. Only the REXML path is.
- The type checks in the constructors are not modelled as such. The Forecast constructor's check on the document cannot fail on a `Document`; a view's check on its element appears only as the missing-element error.
- `Time.parse` is left out. `latest_update` and `cached_on` give the text that would be parsed, not a Time.
- RubyTime.Local: does not normalise a day past the end of its month (Ruby turns 31 February into 3 March), and has no seconds or time zone. It follows Ruby 1.8 in rejecting hour 24, so a `<suns>` of "12:00 PM" makes `sunset` raise ArgumentError; the 24:00-as-next-midnight reading of later Rubies is not modelled.
- RubyString.ToI: the `0d` radix prefix `to_i` accepts is left out.
- The memcached client is not part of this model. Expiry and eviction appear only as a read that may miss, and server failures as a read that may choke or a write that may fail. The model keeps the servers' liveness fixed during one `fetch_forecast`, so both `cache?` tests see the same servers. memcache-client can instead close a server's socket on a failed read, and a failed reconnect can then make the second `cache?` false; the path "a choked read, then a dead server, then no store and no error" is not modelled.
- The network, the parser, the environment, the clock and the file system are parameters. `load_forecast` is given the file's text, so the Errno::ENOENT that `File.new` raises for a missing file is not modelled. Network failures collapse into one `Transport` error. No host is contacted; `XoapHost` only records the fixed host.
- Malformed text (a REXML parse error) and a document without a root (a later NoMethodError) both give the `Malformed` error.
- Views hold element values, not references. Changes made to the document after a view was taken are therefore not seen through the view.
- `each` returns the yielded slots as a sequence, plus the error that stopped it, instead of running a block. The unused `first` flag and the other Enumerable methods are left out.
- `method_missing` is modelled for field names given as text. OpenStruct is a map plus the three derived fields, so a raw child named `heading`, `direction` or `speed` is not overwritten by the derived value.
- The `imperial` setting and the `cache_expiry` setting are modelled as a boolean and an optional integer. Other truthy or falsy Ruby values are not modelled, and neither is a day count of `0.0`.
- `vendor/plugins/svn/lib/weather/util.rb` and `libxml_rexml_compat.rb` are not part of this model.

## Findings

| source | as written | input that shows it | evidently intended | confidence | as-written member | corrected member |
|---|---|---|---|---|---|---|
| vendor/plugins/svn/lib/weather/service.rb:45-46 | the assignment to `partner_id` (and to `license_key`) creates a local variable that is still nil when its `unless` is tested, so the environment variable is always used and the value set with `partner_id=` is ignored | a service with `partner_id` set to "abc" and no WEATHER_COM_PARTNER_ID in the environment sends `par=` empty | use the configured partner id and license key, and fall back to the environment only when they are not set | high; not executed | WeatherService.CredentialAsWritten, used by WeatherService.Service.RequestPath and so by WeatherService.Service.FetchForecast (shown by WeatherService.CredentialSettingIgnored) | WeatherService.Credential, used by WeatherService.Service.IntendedRequestPath (related by WeatherService.Service.RequestPathMatchesIntendedIff) |
