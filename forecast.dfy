/**
 * Weather::Forecast::Forecast: several days of weather read from one
 * weather.com XOAP document. Construction copies the forecast's
 * latest-update text (`<dayf><lsup>`) onto every forecast day as an `lsup`
 * attribute; the accessors then look things up in the document.
 */
module Forecast {
  import opened Wrappers
  import opened Xml
  import opened RubyString
  import opened RubyTime
  import opened Conditions
  import Views = Conditions

  /** A forecast over the root element of its (already prepared) document. */
  datatype Forecast = Forecast(xml: Element)

  /** The type-check messages of the CurrentConditions and FutureConditions constructors. */
  const TypeMessageHead := "The xml element "
  const FutureTypeMessage := TypeMessageHead + "given to the Day/Night constructor must be a valid REXML::Element"
  const CurrentTypeMessage := FutureTypeMessage + " or XML::Node"

  // ---------------------------------------------------------------------
  // Construction: copying dayf/lsup onto every //dayf/day element
  // ---------------------------------------------------------------------

  /** The text construction copies: the `<lsup>` of the root's first `<dayf>`; None when either element is missing. */
  function LsupToCopy(root: Element): Option<Option<string>>
  {
    match Child(root, "dayf")
    case None => None
    case Some(dayf) =>
      match Child(dayf, "lsup")
      case None => None
      case Some(lsup) => Some(lsup.text)
  }

  /** The tree rooted at `e` with `add_attribute("lsup", v)` applied to every element named "day" whose parent is named "dayf". */
  function Stamped(e: Element, v: Option<string>): Element
    decreases e, 2
  {
    Element(e.name, e.attrs, StampKids(e.name == "dayf", e.children, v), e.text)
  }

  function StampKids(underDayf: bool, kids: seq<Element>, v: Option<string>): (r: seq<Element>)
    ensures |r| == |kids|
    decreases kids, 1
  {
    if kids == [] then [] else [StampChild(underDayf, kids[0], v)] + StampKids(underDayf, kids[1..], v)
  }

  function StampChild(underDayf: bool, c: Element, v: Option<string>): Element
    decreases c, 3
  {
    var s := Stamped(c, v);
    if underDayf && c.name == "day" then SetAttr(s, "lsup", v) else s
  }

  lemma {:induction false} StampKidsAt(underDayf: bool, kids: seq<Element>, v: Option<string>, j: nat)
    requires j < |kids|
    ensures StampKids(underDayf, kids, v)[j] == StampChild(underDayf, kids[j], v)
    decreases |kids|
  {
    if j > 0 { StampKidsAt(underDayf, kids[1..], v, j - 1); }
  }

  /** Stamping keeps every element's name and text, and its attributes other than "lsup". */
  lemma StampChildKeeps(underDayf: bool, c: Element, v: Option<string>)
    ensures StampChild(underDayf, c, v).name == c.name
    ensures StampChild(underDayf, c, v).text == c.text
    ensures forall k :: k != "lsup" ==> Attr(StampChild(underDayf, c, v), k) == Attr(c, k)
  {
  }

  /** The document the constructor leaves: stamped when the root has a `<dayf>` with an `<lsup>`, untouched otherwise. */
  function Prepared(root: Element): Element
  {
    match LsupToCopy(root)
    case None => root
    case Some(v) => Stamped(root, v)
  }

  /** Recursive walk that performs the stamping, one child at a time. */
  method StampTree(e: Element, v: Option<string>) returns (r: Element)
    ensures r == Stamped(e, v)
    decreases e
  {
    var kids: seq<Element> := [];
    var i := 0;
    while i < |e.children|
      invariant 0 <= i <= |e.children|
      invariant |kids| == i
      invariant forall j :: 0 <= j < i ==> kids[j] == StampChild(e.name == "dayf", e.children[j], v)
    {
      var c := StampTree(e.children[i], v);
      if e.name == "dayf" && e.children[i].name == "day" {
        c := SetAttr(c, "lsup", v);
      }
      kids := kids + [c];
      i := i + 1;
    }
    forall j | 0 <= j < |kids| ensures kids[j] == StampKids(e.name == "dayf", e.children, v)[j] {
      StampKidsAt(e.name == "dayf", e.children, v, j);
    }
    r := Element(e.name, e.attrs, kids, e.text);
  }

  /** `Forecast.new(doc)`: the document is changed in place and the forecast reads it. */
  method FromDocument(doc: Document) returns (f: Forecast)
    modifies doc
    ensures doc.root == Prepared(old(doc.root))
    ensures f == Forecast(doc.root)
  {
    var dayf := Child(doc.root, "dayf");
    if dayf.Some? {
      var lsup := Child(dayf.value, "lsup");
      if lsup.Some? {
        var r := StampTree(doc.root, lsup.value.text);
        doc.root := r;
      }
    }
    f := Forecast(doc.root);
  }

  /** After stamping, every `//dayf/day` element carries `lsup` equal to the copied text. */
  lemma {:induction false} StampedDaysCarryLsup(e: Element, v: Option<string>)
    ensures forall d :: d in PathMatches(Stamped(e, v), "dayf", "day") ==> Attr(d, "lsup") == v
    decreases e, 2
  {
    StampKidsCarryLsup(e.name == "dayf", e.children, v);
  }

  lemma {:induction false} StampKidsCarryLsup(underDayf: bool, kids: seq<Element>, v: Option<string>)
    ensures forall d :: d in MatchesIn(underDayf, StampKids(underDayf, kids, v), "dayf", "day") ==> Attr(d, "lsup") == v
    decreases kids, 1
  {
    if kids != [] {
      var c := kids[0];
      var sc := StampChild(underDayf, c, v);
      var sk := StampKids(underDayf, kids, v);
      assert sk[0] == sc && sk[1..] == StampKids(underDayf, kids[1..], v);
      StampChildCarriesLsup(underDayf, c, v);
      StampKidsCarryLsup(underDayf, kids[1..], v);
    }
  }

  lemma {:induction false} StampChildCarriesLsup(underDayf: bool, c: Element, v: Option<string>)
    ensures forall d :: d in PathMatches(StampChild(underDayf, c, v), "dayf", "day") ==> Attr(d, "lsup") == v
    ensures underDayf && StampChild(underDayf, c, v).name == "day" ==> Attr(StampChild(underDayf, c, v), "lsup") == v
    decreases c, 3
  {
    StampedDaysCarryLsup(c, v);
    var s := Stamped(c, v);
    assert PathMatches(SetAttr(s, "lsup", v), "dayf", "day") == PathMatches(s, "dayf", "day");
  }

  /** Stamping neither adds nor removes `//dayf/day` elements. */
  lemma {:induction false} StampedKeepsDayCount(e: Element, v: Option<string>)
    ensures |PathMatches(Stamped(e, v), "dayf", "day")| == |PathMatches(e, "dayf", "day")|
    decreases e, 2
  {
    StampKidsKeepDayCount(e.name == "dayf", e.children, v);
  }

  lemma {:induction false} StampKidsKeepDayCount(underDayf: bool, kids: seq<Element>, v: Option<string>)
    ensures |MatchesIn(underDayf, StampKids(underDayf, kids, v), "dayf", "day")| == |MatchesIn(underDayf, kids, "dayf", "day")|
    decreases kids, 1
  {
    if kids != [] {
      var c := kids[0];
      var sk := StampKids(underDayf, kids, v);
      assert sk[0] == StampChild(underDayf, c, v) && sk[1..] == StampKids(underDayf, kids[1..], v);
      StampedKeepsDayCount(c, v);
      var s := Stamped(c, v);
      assert PathMatches(SetAttr(s, "lsup", v), "dayf", "day") == PathMatches(s, "dayf", "day");
      StampKidsKeepDayCount(underDayf, kids[1..], v);
    }
  }

  /**
   * Nothing but the copied attributes changes: erasing the day `lsup`
   * attributes (stamping with nil, which deletes them) from the stamped tree
   * gives what erasing them from the original gives.
   */
  lemma {:induction false} StampedChangesOnlyDayLsup(e: Element, v: Option<string>)
    ensures Stamped(Stamped(e, v), None) == Stamped(e, None)
    decreases e, 2
  {
    StampKidsChangeOnlyDayLsup(e.name == "dayf", e.children, v);
  }

  lemma {:induction false} StampKidsChangeOnlyDayLsup(underDayf: bool, kids: seq<Element>, v: Option<string>)
    ensures StampKids(underDayf, StampKids(underDayf, kids, v), None) == StampKids(underDayf, kids, None)
    decreases kids, 1
  {
    if kids != [] {
      var c := kids[0];
      var sk := StampKids(underDayf, kids, v);
      assert sk[0] == StampChild(underDayf, c, v) && sk[1..] == StampKids(underDayf, kids[1..], v);
      StampedChangesOnlyDayLsup(c, v);
      var s := Stamped(c, v);
      if underDayf && c.name == "day" {
        var t := SetAttr(s, "lsup", v);
        assert Stamped(t, None) == SetAttr(Stamped(s, None), "lsup", v) by {
          assert t.children == s.children && t.name == s.name;
        }
        assert SetAttr(SetAttr(Stamped(s, None), "lsup", v), "lsup", None) == SetAttr(Stamped(s, None), "lsup", None);
      }
      StampKidsChangeOnlyDayLsup(underDayf, kids[1..], v);
    }
  }

  /**
   * What construction does to the document as a whole: without a `<dayf>`
   * holding an `<lsup>` nothing changes; otherwise every `//dayf/day` element
   * carries the copied text, none is added or removed, and nothing else changes.
   */
  lemma PreparedStampsExactlyTheDays(root: Element)
    ensures LsupToCopy(root).None? ==> Prepared(root) == root
    ensures LsupToCopy(root).Some? ==>
              && (forall d :: d in PathMatches(Prepared(root), "dayf", "day") ==> Attr(d, "lsup") == LsupToCopy(root).value)
              && |PathMatches(Prepared(root), "dayf", "day")| == |PathMatches(root, "dayf", "day")|
              && Stamped(Prepared(root), None) == Stamped(root, None)
  {
    if LsupToCopy(root).Some? {
      var v := LsupToCopy(root).value;
      StampedDaysCarryLsup(root, v);
      StampedKeepsDayCount(root, v);
      StampedChangesOnlyDayLsup(root, v);
    }
  }

  /** Looking a child up by name (and an attribute other than lsup) in stamped children finds the stamped copy of the same child. */
  lemma {:induction false} FindInStampKids(underDayf: bool, kids: seq<Element>, v: Option<string>,
                                           name: string, filter: Option<(string, string)>)
    requires filter.Some? ==> filter.value.0 != "lsup"
    ensures Find(StampKids(underDayf, kids, v), name, filter)
            == match Find(kids, name, filter) { case None => None case Some(c) => Some(StampChild(underDayf, c, v)) }
    decreases |kids|
  {
    if kids != [] {
      StampChildKeeps(underDayf, kids[0], v);
      var sk := StampKids(underDayf, kids, v);
      assert sk[0] == StampChild(underDayf, kids[0], v) && sk[1..] == StampKids(underDayf, kids[1..], v);
      FindInStampKids(underDayf, kids[1..], v, name, filter);
    }
  }

  // ---------------------------------------------------------------------
  // Accessors
  // ---------------------------------------------------------------------

  /** `current`: the view over `<cc>`; the CurrentConditions constructor raises when it is missing. */
  function Current(f: Forecast): (r: Result<Conditions>)
    ensures r.Ok? <==> Child(f.xml, "cc").Some?
    ensures r.Ok? ==> r.value == Conditions.Current(Child(f.xml, "cc").value)
    ensures r.Err? ==> r.error == Runtime(CurrentTypeMessage)
  {
    match Child(f.xml, "cc")
    case None => Err(Runtime(CurrentTypeMessage))
    case Some(cc) => Ok(Conditions.Current(cc))
  }

  /** How the error of `day(n)` names the offset. */
  function DayDisplay(n: int): string
  {
    if n == 0 then "today" else if n == 1 then "tomorrow" else IntToS(n) + " days from now"
  }

  /** The step `day[@d='n']`. */
  function OffsetFilter(n: int): Option<(string, string)>
  {
    Some(("d", IntToS(n)))
  }

  /**
   * `day(n)`: the Day over the first `<day>` of `<dayf>` whose `d` attribute
   * is `n.to_s`; when there is none, a RuntimeError naming the day.
   */
  function Day(f: Forecast, n: int): (r: Result<Conditions>)
    ensures Child(f.xml, "dayf").None? ==> r == Err(NilReceiver)
    ensures Child(f.xml, "dayf").Some? ==>
              (r.Ok? <==> exists i :: 0 <= i < |Child(f.xml, "dayf").value.children|
                                      && Matches(Child(f.xml, "dayf").value.children[i], "day", OffsetFilter(n)))
    ensures r.Ok? ==> r.value.Future? && r.value.part == DayPart
                      && r.value.xml in Child(f.xml, "dayf").value.children
                      && r.value.xml.name == "day" && Attr(r.value.xml, "d") == Some(IntToS(n))
    ensures r.Ok? ==> var kids := Child(f.xml, "dayf").value.children;
                      exists i :: 0 <= i < |kids| && kids[i] == r.value.xml
                                  && forall j :: 0 <= j < i ==> !Matches(kids[j], "day", OffsetFilter(n))
    ensures Child(f.xml, "dayf").Some? && r.Err? ==>
              r.error == Runtime("Sorry, there is no data available for " + DayDisplay(n))
  {
    match Child(f.xml, "dayf")
    case None => Err(NilReceiver)
    case Some(dayf) =>
      match Find(dayf.children, "day", OffsetFilter(n))
      case None => Err(Runtime("Sorry, there is no data available for " + DayDisplay(n)))
      case Some(d) => Ok(Future(DayPart, d))
  }

  /** Different offsets give different error messages: "today", "tomorrow", or "n days from now" for that very n. */
  lemma DayMessageNamesOffset(m: int, n: int)
    requires m != n
    ensures DayDisplay(m) != DayDisplay(n)
  {
    var suffix := " days from now";
    if m != 0 && m != 1 && n != 0 && n != 1 {
      var a, b := IntToS(m) + suffix, IntToS(n) + suffix;
      if a == b {
        IntToSChars(m);
        IntToSChars(n);
        assert |IntToS(m)| == |IntToS(n)|;
        assert IntToS(m) == a[..|IntToS(m)|] == b[..|IntToS(n)|] == IntToS(n);
        IntToSInjective(m, n);
      }
    } else if m != 0 && m != 1 {
      IntToSChars(m);
      assert |DayDisplay(m)| > 8;
    } else if n != 0 && n != 1 {
      IntToSChars(n);
      assert |DayDisplay(n)| > 8;
    }
  }

  /** `tomorrow`: the same as `day(1)`. */
  function Tomorrow(f: Forecast): (r: Result<Conditions>)
    ensures r == Day(f, 1)
  {
    Day(f, 1)
  }

  /**
   * `night(n)`: the same lookup as `day(n)` but without its check; for a
   * missing offset the error is the FutureConditions constructor's.
   */
  function Night(f: Forecast, n: int): (r: Result<Conditions>)
    ensures Child(f.xml, "dayf").None? ==> r == Err(NilReceiver)
    ensures Child(f.xml, "dayf").Some? ==>
              (r.Ok? <==> exists i :: 0 <= i < |Child(f.xml, "dayf").value.children|
                                      && Matches(Child(f.xml, "dayf").value.children[i], "day", OffsetFilter(n)))
    ensures r.Ok? ==> r.value.Future? && r.value.part == NightPart
                      && r.value.xml.name == "day" && Attr(r.value.xml, "d") == Some(IntToS(n))
    ensures r.Ok? ==> var kids := Child(f.xml, "dayf").value.children;
                      exists i :: 0 <= i < |kids| && kids[i] == r.value.xml
                                  && forall j :: 0 <= j < i ==> !Matches(kids[j], "day", OffsetFilter(n))
    ensures Child(f.xml, "dayf").Some? && r.Err? ==> r.error == Runtime(FutureTypeMessage)
  {
    match Child(f.xml, "dayf")
    case None => Err(NilReceiver)
    case Some(dayf) =>
      match Find(dayf.children, "day", OffsetFilter(n))
      case None => Err(Runtime(FutureTypeMessage))
      case Some(d) => Ok(Future(NightPart, d))
  }

  /** Night and Day look up the same element; only the error for a missing offset differs. */
  lemma NightUsesDayLookup(f: Forecast, n: int)
    ensures Day(f, n).Ok? ==> Night(f, n) == Ok(Future(NightPart, Day(f, n).value.xml))
    ensures Day(f, n).Err? ==> Night(f, n).Err?
    ensures Day(f, n).Err? && Child(f.xml, "dayf").Some? ==>
              Night(f, n).error == Runtime(FutureTypeMessage) != Day(f, n).error
  {
    if Day(f, n).Err? && Child(f.xml, "dayf").Some? {
      var msg := "Sorry, there is no data available for " + DayDisplay(n);
      assert msg[0] == 'S';
      assert FutureTypeMessage[0] == TypeMessageHead[0] == 'T';
    }
  }

  /** `latest_update`: the `<dayf><lsup>` text given to Time.parse. */
  function LatestUpdate(f: Forecast): (r: Result<string>)
    ensures r.Ok? <==> LsupToCopy(f.xml).Some? && LsupToCopy(f.xml).value.Some?
    ensures r.Ok? ==> r.value == LsupToCopy(f.xml).value.value
  {
    match Child(f.xml, "dayf")
    case None => Err(NilReceiver)
    case Some(dayf) =>
      match ChildText(dayf, "lsup")
      case Err(e) => Err(e)
      case Ok(None) => Err(NilTime)
      case Ok(Some(t)) => Ok(t)
  }

  /**
   * In a constructed forecast every day reports the forecast's own latest
   * update (`tomorrow.latest_update == latest_update`), including the
   * TypeError both raise when `<lsup>` has no text.
   */
  lemma DaysReportForecastLatestUpdate(root: Element, n: int)
    requires LsupToCopy(root).Some?
    ensures var f := Forecast(Prepared(root));
            Day(f, n).Ok? ==> Views.LatestUpdate(Day(f, n).value) == LatestUpdate(f)
  {
    var v := LsupToCopy(root).value;
    var f := Forecast(Prepared(root));
    var dayf := Child(root, "dayf").value;
    FindInStampKids(root.name == "dayf", root.children, v, "dayf", None);
    StampChildKeeps(root.name == "dayf", dayf, v);
    assert Child(f.xml, "dayf") == Some(Stamped(dayf, v));
    var sd := Stamped(dayf, v);
    FindInStampKids(true, dayf.children, v, "lsup", None);
    assert Child(sd, "lsup") == Some(StampChild(true, Child(dayf, "lsup").value, v));
    StampChildKeeps(true, Child(dayf, "lsup").value, v);
    if Day(f, n).Ok? {
      FindInStampKids(true, dayf.children, v, "day", OffsetFilter(n));
      var d := Find(dayf.children, "day", OffsetFilter(n)).value;
      assert Day(f, n).value.xml == StampChild(true, d, v);
      assert Attr(Day(f, n).value.xml, "lsup") == v;
    }
  }

  /** `location_name`: the `<loc><dnam>` text. */
  function LocationName(f: Forecast): (r: Result<Option<string>>)
    ensures r.Ok? <==> Child(f.xml, "loc").Some? && Child(Child(f.xml, "loc").value, "dnam").Some?
    ensures r.Err? ==> r.error == NilReceiver
    ensures r.Ok? ==> r.value == Child(Child(f.xml, "loc").value, "dnam").value.text
  {
    match Child(f.xml, "loc")
    case None => Err(NilReceiver)
    case Some(loc) => ChildText(loc, "dnam")
  }

  /** `location_city`: `location_name.split(",").first`; NoMethodError when the name is nil. */
  function LocationCity(f: Forecast): (r: Result<Option<string>>)
    ensures r.Ok? <==> LocationName(f).Ok? && LocationName(f).value.Some?
  {
    match LocationName(f)
    case Err(e) => Err(e)
    case Ok(None) => Err(NilReceiver)
    case Ok(Some(name)) => Ok(First(Split(name, ',')))
  }

  /** The city is the part of the name before the first comma ("Toronto, Canada" gives "Toronto"); nil for a name of commas only. */
  lemma CityIsNameBeforeComma(f: Forecast)
    requires LocationName(f).Ok? && LocationName(f).value.Some?
    ensures var name := LocationName(f).value.value;
            && (LocationCity(f).value.None? <==> forall j :: 0 <= j < |name| ==> name[j] == ',')
            && (LocationCity(f).value.Some? ==> IsPrefixBefore(LocationCity(f).value.value, name, ','))
  {
    SplitFirst(LocationName(f).value.value, ',');
  }

  /** The location name "Toronto, Canada" gives the city "Toronto". */
  lemma CityOfTorontoCanada(f: Forecast)
    requires LocationName(f) == Ok(Some("Toronto, Canada"))
    ensures LocationCity(f) == Ok(Some("Toronto"))
  {
    CityBeforeComma("Toronto", ", Canada");
    assert "Toronto" + ", Canada" == "Toronto, Canada";
  }

  /** The text before the first comma of `city + rest`, where `city` has no comma and `rest` starts with one. */
  lemma CityBeforeComma(city: string, rest: string)
    requires city != [] && (forall i :: 0 <= i < |city| ==> city[i] != ',')
    requires rest != [] && rest[0] == ','
    ensures First(Split(city + rest, ',')) == Some(city)
  {
    var name := city + rest;
    SplitFirst(name, ',');
    assert name[0] == city[0];
    assert IsPrefixBefore(city, name, ',') by {
      assert name[..|city|] == city && name[|city|] == rest[0];
    }
    PrefixBeforeUnique(First(Split(name, ',')).value, city, name, ',');
  }

  /** `location_code`: the `id` attribute of `<loc>`. */
  function LocationCode(f: Forecast): (r: Result<Option<string>>)
    ensures r.Ok? <==> Child(f.xml, "loc").Some?
    ensures r.Ok? ==> r.value == Attr(Child(f.xml, "loc").value, "id")
  {
    match Child(f.xml, "loc")
    case None => Err(NilReceiver)
    case Some(loc) => Ok(Attr(loc, "id"))
  }

  /** `metric?`: whether the `<head><ut>` text is exactly "C". */
  function Metric(f: Forecast): (r: Result<bool>)
    ensures r.Ok? <==> Child(f.xml, "head").Some? && Child(Child(f.xml, "head").value, "ut").Some?
    ensures r.Ok? ==> (r.value <==> Child(Child(f.xml, "head").value, "ut").value.text == Some("C"))
  {
    match Child(f.xml, "head")
    case None => Err(NilReceiver)
    case Some(head) =>
      match ChildText(head, "ut")
      case Err(e) => Err(e)
      case Ok(t) => Ok(t == Some("C"))
  }

  /** `cached_on`: the root's `cached_on` attribute (the text Time.parse is given), nil when absent. */
  function CachedOn(f: Forecast): (r: Option<string>)
    ensures r.Some? <==> "cached_on" in f.xml.attrs
    ensures r.Some? ==> r.value == f.xml.attrs["cached_on"]
  {
    Attr(f.xml, "cached_on")
  }

  /** `from_cache?`: whether the root carries a `cached_on` attribute. */
  function FromCache(f: Forecast): (r: bool)
    ensures r <==> "cached_on" in f.xml.attrs
  {
    CachedOn(f).Some?
  }

  /** Construction never touches the root's own attributes, so a forecast is from the cache exactly when its source document was stamped. */
  lemma PreparedKeepsCacheStamp(root: Element)
    ensures FromCache(Forecast(Prepared(root))) <==> "cached_on" in root.attrs
    ensures CachedOn(Forecast(Prepared(root))) == Attr(root, "cached_on")
  {
  }

  // ---------------------------------------------------------------------
  // Iteration
  // ---------------------------------------------------------------------

  /** Whether `now` is strictly later than 15:00 on the given date. */
  predicate PastCutoff(now: Moment, date: Moment)
  {
    Later(now, Moment(date.year, date.month, date.day, 15, 0))
  }

  /** What `each` yields for one day element: its Day view, or the current conditions once 15:00 on its date has passed. */
  function Slot(f: Forecast, d: Element, now: Moment): (r: Result<Conditions>)
    ensures r.Ok? ==> Date(Future(DayPart, d), now).Ok?
    ensures r.Ok? ==> (r.value.Current? <==> PastCutoff(now, Date(Future(DayPart, d), now).value))
    ensures r.Ok? && r.value.Current? ==> r == Current(f)
    ensures r.Ok? && !r.value.Current? ==> r.value == Future(DayPart, d)
    ensures r.Err? ==> Date(Future(DayPart, d), now).Err? || Current(f).Err?
  {
    match Date(Future(DayPart, d), now)
    case Err(e) => Err(e)
    case Ok(date) => if PastCutoff(now, date) then Current(f) else Ok(Future(DayPart, d))
  }

  /**
   * `each`: one slot per `//dayf/day` element, in document order. An
   * exception ends the iteration; `failure` is then what the next slot raised.
   */
  method Each(f: Forecast, now: Moment) returns (yielded: seq<Conditions>, failure: Option<Error>)
    ensures var days := PathMatches(f.xml, "dayf", "day");
            && |yielded| <= |days|
            && (failure.None? <==> |yielded| == |days|)
            && (forall i :: 0 <= i < |yielded| ==> Slot(f, days[i], now) == Ok(yielded[i]))
            && (failure.Some? ==> Slot(f, days[|yielded|], now) == Err(failure.value))
  {
    var days := PathMatches(f.xml, "dayf", "day");
    yielded := [];
    failure := None;
    var i := 0;
    while i < |days|
      invariant 0 <= i <= |days| && |yielded| == i
      invariant forall j :: 0 <= j < i ==> Slot(f, days[j], now) == Ok(yielded[j])
    {
      var d := Future(DayPart, days[i]);
      var date := Date(d, now);
      if date.Err? {
        failure := Some(date.error);
        return;
      }
      if PastCutoff(now, date.value) {
        var cur := Current(f);
        if cur.Err? {
          failure := Some(cur.error);
          return;
        }
        d := cur.value;
      }
      yielded := yielded + [d];
      i := i + 1;
    }
  }
}
