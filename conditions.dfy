/**
 * Views of one time slice of weather (Weather::Forecast::Conditions and its
 * subclasses): the current conditions over the `<cc>` element, and a Day or
 * Night over one forecast `<day>` element, which read most fields from its
 * `part[@p="d"]` or `part[@p="n"]` child and the rest from the day itself.
 */
module Conditions {
  import opened Wrappers
  import opened Xml
  import opened RubyString
  import opened RubyTime
  import RubyHash

  /** Which half of a forecast day a view reads: `p="d"` or `p="n"`. */
  datatype Part = DayPart | NightPart

  function PartCode(p: Part): string
  {
    if p == DayPart then "d" else "n"
  }

  /** CurrentConditions over `<cc>`, or a Day/Night (FutureConditions) over a `<day>` element. */
  datatype Conditions = Current(xml: Element) | Future(part: Part, xml: Element)

  /** The wind object: the raw child texts by tag name, plus the derived heading, direction and speed. */
  datatype Wind = Wind(raw: map<string, Option<string>>, heading: Option<string>, direction: int, speed: int)

  /** `mypart`: the day element's `part[@p="d"]` (Day) or `part[@p="n"]` (Night) child. */
  function MyPart(part: Part, day: Element): (r: Option<Element>)
    ensures r.Some? ==> r.value in day.children && r.value.name == "part" && Attr(r.value, "p") == Some(PartCode(part))
    ensures r.None? <==> forall i :: 0 <= i < |day.children| ==> !Matches(day.children[i], "part", Some(("p", PartCode(part))))
    ensures r.Some? ==> exists i :: 0 <= i < |day.children| && day.children[i] == r.value
                                    && forall j :: 0 <= j < i ==> !Matches(day.children[j], "part", Some(("p", PartCode(part))))
  {
    Find(day.children, "part", Some(("p", PartCode(part))))
  }

  /** The element fallback fields, wind, icon, outlook and pop are read from: `<cc>` itself, or the day's part. */
  function Source(c: Conditions): Option<Element>
  {
    match c
    case Current(x) => Some(x)
    case Future(p, x) => MyPart(p, x)
  }

  /**
   * `method_missing`: a field without an explicit accessor is the text of the
   * same-named child of the source element; "N/A" when there is no such
   * child (or, for a Day/Night, no such part).
   */
  function Field(c: Conditions, name: string): (r: Option<string>)
    ensures Source(c).None? ==> r == Some("N/A")
    ensures Source(c).Some? && Child(Source(c).value, name).None? ==> r == Some("N/A")
    ensures Source(c).Some? && Child(Source(c).value, name).Some? ==> r == Child(Source(c).value, name).value.text
  {
    match Source(c)
    case None => Some("N/A")
    case Some(s) => match ChildText(s, name) { case Err(_) => Some("N/A") case Ok(t) => t }
  }

  /** `clean_temp(name)`: nil for the text "N/A", otherwise the text's `to_i`. */
  function CleanTemp(e: Element, name: string): (r: Result<Option<int>>)
    ensures r.Err? <==> Child(e, name).None?
    ensures r.Ok? ==> (r.value.None? <==> Child(e, name).value.text == Some("N/A"))
    ensures r.Ok? && r.value.Some? ==> r.value.value == OptToI(Child(e, name).value.text)
  {
    match ChildText(e, name)
    case Err(err) => Err(err)
    case Ok(t) => if t == Some("N/A") then Ok(None) else Ok(Some(OptToI(t)))
  }

  /** The (tag name, text) pair of each child, in document order. */
  function ChildPairs(e: Element): (r: seq<(string, Option<string>)>)
    ensures |r| == |e.children|
    ensures forall i :: 0 <= i < |r| ==> r[i] == (e.children[i].name, e.children[i].text)
  {
    seq(|e.children|, i requires 0 <= i < |e.children| => (e.children[i].name, e.children[i].text))
  }

  /** The hash `complex_attribute` builds: each child's text under its tag name, a later child overwriting an earlier one. */
  function ChildTexts(e: Element): map<string, Option<string>>
  {
    RubyHash.Assigned(ChildPairs(e))
  }

  /** A tag name is a key of the hash exactly when some child has it, and maps to the text of the last such child. */
  lemma ChildTextsLookup(e: Element, key: string)
    ensures key in ChildTexts(e) <==> exists i :: 0 <= i < |e.children| && e.children[i].name == key
    ensures key in ChildTexts(e) ==>
              exists i :: 0 <= i < |e.children| && e.children[i].name == key && ChildTexts(e)[key] == e.children[i].text
                          && forall j :: i < j < |e.children| ==> e.children[j].name != key
  {
    RubyHash.LastAssignmentWins(ChildPairs(e), key);
  }

  /** `complex_attribute(e)`: iterates over the children, storing each one's text under its name. */
  method ComplexAttribute(e: Element) returns (obj: map<string, Option<string>>)
    ensures obj == ChildTexts(e)
  {
    ghost var pairs := ChildPairs(e);
    obj := map[];
    var i := 0;
    while i < |e.children|
      invariant 0 <= i <= |e.children|
      invariant obj == RubyHash.Assigned(pairs[..i])
    {
      var child := e.children[i];
      assert pairs[..i + 1][..i] == pairs[..i];
      obj := obj[child.name := child.text];
      i := i + 1;
    }
    assert pairs[..i] == pairs;
  }

  /** An OpenStruct field: nil when the hash has no such key. */
  function Lookup(raw: map<string, Option<string>>, key: string): Option<string>
  {
    if key in raw then raw[key] else None
  }

  /** `fix_wind`: heading is the raw "t", direction and speed are the `to_i` of the raw "d" and "s". */
  function FixWind(raw: map<string, Option<string>>): (w: Wind)
    ensures w.raw == raw
    ensures w.heading == Lookup(raw, "t")
    ensures w.direction == OptToI(Lookup(raw, "d")) && w.speed == OptToI(Lookup(raw, "s"))
  {
    Wind(raw, Lookup(raw, "t"), OptToI(Lookup(raw, "d")), OptToI(Lookup(raw, "s")))
  }

  /** `wind`: the `<wind>` child of the source element (the day's part, for a Day or Night) as a Wind. */
  function WindOf(c: Conditions): (r: Result<Wind>)
    ensures r.Ok? <==> Source(c).Some? && Child(Source(c).value, "wind").Some?
    ensures r.Ok? ==> r.value == FixWind(ChildTexts(Child(Source(c).value, "wind").value))
    ensures r.Err? ==> r.error == NilReceiver
  {
    match Source(c)
    case None => Err(NilReceiver)
    case Some(s) =>
      match Child(s, "wind")
      case None => Err(NilReceiver)
      case Some(w) => Ok(FixWind(ChildTexts(w)))
  }

  /** The raw code and the derived number agree: raw speed "13" and speed 13 hold together, and likewise for direction. */
  lemma WindRawAndDerivedAgree(c: Conditions, speed: int, direction: int)
    requires WindOf(c).Ok?
    ensures Lookup(WindOf(c).value.raw, "s") == Some(IntToS(speed)) ==> WindOf(c).value.speed == speed
    ensures Lookup(WindOf(c).value.raw, "d") == Some(IntToS(direction)) ==> WindOf(c).value.direction == direction
  {
    ToIOfIntToS(speed);
    ToIOfIntToS(direction);
  }

  /** `icon`: the `to_i` of the source element's `<icon>` text. */
  function Icon(c: Conditions): (r: Result<int>)
    ensures r.Ok? <==> Source(c).Some? && Child(Source(c).value, "icon").Some?
    ensures r.Ok? ==> r.value == OptToI(Child(Source(c).value, "icon").value.text)
  {
    match Source(c)
    case None => Err(NilReceiver)
    case Some(s) => match ChildText(s, "icon") { case Err(e) => Err(e) case Ok(t) => Ok(OptToI(t)) }
  }

  /** `high` (alias `hi`), read from the day element itself, not from its part. */
  function High(c: Conditions): (r: Result<Option<int>>)
    requires c.Future?
    ensures r.Err? <==> Child(c.xml, "hi").None?
    ensures r.Err? ==> r.error == NilReceiver
    ensures r.Ok? ==> (r.value.None? <==> Child(c.xml, "hi").value.text == Some("N/A"))
    ensures r.Ok? && r.value.Some? ==> r.value.value == OptToI(Child(c.xml, "hi").value.text)
  {
    CleanTemp(c.xml, "hi")
  }

  /** `low` (alias `lo`), read from the day element itself, not from its part. */
  function Low(c: Conditions): (r: Result<Option<int>>)
    requires c.Future?
    ensures r.Err? <==> Child(c.xml, "low").None?
    ensures r.Err? ==> r.error == NilReceiver
    ensures r.Ok? ==> (r.value.None? <==> Child(c.xml, "low").value.text == Some("N/A"))
    ensures r.Ok? && r.value.Some? ==> r.value.value == OptToI(Child(c.xml, "low").value.text)
  {
    CleanTemp(c.xml, "low")
  }

  /** `temp` (aliases `tmp`, `temperature`): the cleaned `<tmp>` now, `high` for a Day, `low` for a Night. */
  function Temp(c: Conditions): (r: Result<Option<int>>)
    ensures c.Current? ==> r == CleanTemp(c.xml, "tmp")
  {
    match c
    case Current(x) => CleanTemp(x, "tmp")
    case Future(DayPart, x) => High(c)
    case Future(NightPart, x) => Low(c)
  }

  /** The two views of one forecast day share its temperatures, update time, date and sun times, since those are read from the day element. */
  lemma DayAndNightShareTheDay(x: Element, now: Moment)
    ensures Temp(Future(DayPart, x)) == High(Future(DayPart, x)) == High(Future(NightPart, x))
    ensures Temp(Future(NightPart, x)) == Low(Future(NightPart, x)) == Low(Future(DayPart, x))
    ensures LatestUpdate(Future(DayPart, x)) == LatestUpdate(Future(NightPart, x))
    ensures Date(Future(DayPart, x), now) == Date(Future(NightPart, x), now)
    ensures Sunrise(Future(DayPart, x), now) == Sunrise(Future(NightPart, x), now)
    ensures Sunset(Future(DayPart, x), now) == Sunset(Future(NightPart, x), now)
  {
  }

  /** `outlook`: the source element's `<t>` text. */
  function Outlook(c: Conditions): (r: Result<Option<string>>)
    ensures r.Ok? <==> Source(c).Some? && Child(Source(c).value, "t").Some?
    ensures r.Ok? ==> r.value == Child(Source(c).value, "t").value.text
  {
    match Source(c) case None => Err(NilReceiver) case Some(s) => ChildText(s, "t")
  }

  /** `outlook_brief`: the source element's `<bt>` text. */
  function OutlookBrief(c: Conditions): (r: Result<Option<string>>)
    ensures r.Ok? <==> Source(c).Some? && Child(Source(c).value, "bt").Some?
    ensures r.Ok? ==> r.value == Child(Source(c).value, "bt").value.text
  {
    match Source(c) case None => Err(NilReceiver) case Some(s) => ChildText(s, "bt")
  }

  /** `pop` (alias `ppcp`): always nil now; for a Day or Night the `to_i` of its part's `<ppcp>`, "N/A" not cleaned. */
  function Pop(c: Conditions): (r: Result<Option<int>>)
    ensures c.Current? ==> r == Ok(None)
    ensures c.Future? ==> (r.Ok? <==> Source(c).Some? && Child(Source(c).value, "ppcp").Some?)
    ensures c.Future? && r.Ok? ==> r.value == Some(OptToI(Child(Source(c).value, "ppcp").value.text))
  {
    match c
    case Current(_) => Ok(None)
    case Future(_, _) =>
      match Source(c)
      case None => Err(NilReceiver)
      case Some(s) => match ChildText(s, "ppcp") { case Err(e) => Err(e) case Ok(t) => Ok(Some(OptToI(t))) }
  }

  /**
   * `date`: now, for the current conditions; for a Day or Night, midnight of
   * the month and day in the `dt` attribute ("Jul 14") in the year of `now`.
   */
  function Date(c: Conditions, now: Moment): (r: Result<Moment>)
    ensures c.Current? ==> r == Ok(now)
    ensures c.Future? && Attr(c.xml, "dt").None? ==> r == Err(NilReceiver)
    ensures c.Future? && r.Ok? ==> r.value.year == now.year && r.value.hour == 0 && r.value.minute == 0
  {
    match c
    case Current(_) => Ok(now)
    case Future(_, x) =>
      match Attr(x, "dt")
      case None => Err(NilReceiver)
      case Some(dt) =>
        var words := Words(dt);
        var month := match At(words, 0) { case None => 1 case Some(m) => MonthArg(m) };
        var day := match At(words, 1) { case None => 1 case Some(d) => ToI(d) };
        Local(now.year, month, day, 0, 0)
  }

  /** A `dt` of the form weather.com sends ("Jul 14") gives that day of that month in the current year. */
  lemma DateOfMonthAndDay(part: Part, x: Element, now: Moment, month: int, day: int)
    requires 1 <= month <= 12 && 1 <= day <= 31
    requires Attr(x, "dt") == Some(Abbreviation(month) + " " + IntToS(day))
    ensures Date(Future(part, x), now) == Ok(Moment(now.year, month, day, 0, 0))
  {
    MonthDayWords(Abbreviation(month), day);
    MonthArgOfAbbreviation(month);
    ToIOfIntToS(day);
  }

  /** `"#{mon} #{day}".split(" ")` gives the two words back. */
  lemma MonthDayWords(mon: string, day: int)
    requires |mon| == 3 && forall i :: 0 <= i < 3 ==> 'A' <= mon[i] <= 'z'
    ensures Words(mon + " " + IntToS(day)) == [mon, IntToS(day)]
  {
    var d := IntToS(day);
    IntToSChars(day);
    assert NoSpace(mon) && NoSpace(d);
    WordsCons(mon, d);
    WordsOfOne(d);
  }

  /** `text.split(" ").first.split(":")` read as hour and minute with `to_i`; NoMethodError on a missing or blank text. */
  function Clock(text: Option<string>): (r: Result<(int, int)>)
    ensures r.Err? <==> text.None? || First(Words(text.value)).None?
    ensures r.Err? ==> r.error == NilReceiver
  {
    match text
    case None => Err(NilReceiver)
    case Some(t) =>
      match First(Words(t))
      case None => Err(NilReceiver)
      case Some(w) =>
        var hm := Split(w, ':');
        Ok((OptToI(At(hm, 0)), OptToI(At(hm, 1))))
  }

  /**
   * A time written "H:MM AM" (or PM, or with no marker) is read as hour H and
   * minute MM; the marker is ignored and a minute below ten may be written
   * with a leading zero ("6:05") or without one.
   */
  lemma ClockReadsHourAndMinute(hour: nat, minute: nat, minuteText: string, marker: string)
    requires minuteText == IntToS(minute) || (minute < 10 && minuteText == "0" + IntToS(minute))
    requires marker == "" || marker == " AM" || marker == " PM"
    ensures Clock(Some(IntToS(hour) + ":" + minuteText + marker)) == Ok((hour, minute))
  {
    var h, m := IntToS(hour), minuteText;
    IntToSChars(hour);
    MinuteTextChars(minute, m);
    ToIOfIntToS(hour);
    HourMinuteWord(h, m);
    FirstWordBeforeMarker(h + ":" + m, marker);
  }

  /** "H:MM" is one word, and it splits at its colon into the hour and minute texts. */
  lemma HourMinuteWord(h: string, m: string)
    requires forall i :: 0 <= i < |h| ==> IsDigit(h[i]) || h[i] == '-'
    requires m != [] && forall i :: 0 <= i < |m| ==> IsDigit(m[i])
    ensures NoSpace(h + ":" + m)
    ensures Split(h + ":" + m, ':') == [h, m]
  {
    var w := h + ":" + m;
    assert forall i :: 0 <= i < |w| ==> w[i] == (if i < |h| then h[i] else if i == |h| then ':' else m[i - |h| - 1]);
    assert forall i :: 0 <= i < |h| ==> h[i] != ':';
    PiecesAppend(h, ':', m);
    PiecesNoSep(m, ':');
    assert w == h + [':'] + m;
  }

  /** The first word of a clock text is the text before its marker. */
  lemma FirstWordBeforeMarker(w: string, marker: string)
    requires w != [] && NoSpace(w)
    requires marker == "" || marker == " AM" || marker == " PM"
    ensures First(Words(w + marker)) == Some(w)
  {
    if marker == "" {
      WordsOfOne(w);
      assert w + marker == w;
    } else {
      WordsCons(w, marker[1..]);
      assert w + marker == w + " " + marker[1..];
    }
  }

  /** The minute text is a non-empty run of digits and reads back as the minute. */
  lemma MinuteTextChars(minute: nat, m: string)
    requires m == IntToS(minute) || (minute < 10 && m == "0" + IntToS(minute))
    ensures m != [] && forall i :: 0 <= i < |m| ==> IsDigit(m[i])
    ensures ToI(m) == minute
  {
    NatToSDigits(minute);
    if m == IntToS(minute) {
      ToIOfIntToS(minute);
    } else {
      var d := DigitChar(minute);
      assert IntToS(minute) == [d];
      assert m == ['0', d];
      assert DigitRun(m[1..]) == [d];
      assert DigitRun(m) == m;
      assert DecimalValue(m) == DecimalValue([m[0]]) * 10 + DigitValue(d);
    }
  }

  /** `sunrise`: the `<sunr>` hour and minute as given, on the view's date. */
  function Sunrise(c: Conditions, now: Moment): (r: Result<Moment>)
    requires c.Future?
    ensures Child(c.xml, "sunr").None? ==> r == Err(NilReceiver)
    ensures Child(c.xml, "sunr").Some? && Clock(Child(c.xml, "sunr").value.text).Err? ==> r == Err(NilReceiver)
    ensures Child(c.xml, "sunr").Some? && Clock(Child(c.xml, "sunr").value.text).Ok? && Date(c, now).Err? ==>
              r == Err(Date(c, now).error)
    ensures Child(c.xml, "sunr").Some? && Clock(Child(c.xml, "sunr").value.text).Ok? && Date(c, now).Ok? ==>
              var d, hm := Date(c, now).value, Clock(Child(c.xml, "sunr").value.text).value;
              r == Local(d.year, d.month, d.day, hm.0, hm.1)
    ensures r.Ok? ==> Date(c, now).Ok? && Child(c.xml, "sunr").Some? && Clock(Child(c.xml, "sunr").value.text).Ok?
    ensures r.Ok? ==> var d, hm := Date(c, now).value, Clock(Child(c.xml, "sunr").value.text).value;
                      r.value == Moment(d.year, d.month, d.day, hm.0, hm.1)
  {
    match Child(c.xml, "sunr")
    case None => Err(NilReceiver)
    case Some(e) =>
      match Clock(e.text)
      case Err(err) => Err(err)
      case Ok(hm) =>
        match Date(c, now)
        case Err(err) => Err(err)
        case Ok(d) => Local(d.year, d.month, d.day, hm.0, hm.1)
  }

  /** `sunset`: the `<suns>` hour plus 12 (the provider writes it on a 12-hour clock) and its minute, on the view's date. */
  function Sunset(c: Conditions, now: Moment): (r: Result<Moment>)
    requires c.Future?
    ensures Child(c.xml, "suns").None? ==> r == Err(NilReceiver)
    ensures Child(c.xml, "suns").Some? && Clock(Child(c.xml, "suns").value.text).Err? ==> r == Err(NilReceiver)
    ensures Child(c.xml, "suns").Some? && Clock(Child(c.xml, "suns").value.text).Ok? && Date(c, now).Err? ==>
              r == Err(Date(c, now).error)
    ensures Child(c.xml, "suns").Some? && Clock(Child(c.xml, "suns").value.text).Ok? && Date(c, now).Ok? ==>
              var d, hm := Date(c, now).value, Clock(Child(c.xml, "suns").value.text).value;
              r == Local(d.year, d.month, d.day, hm.0 + 12, hm.1)
    ensures r.Ok? ==> Date(c, now).Ok? && Child(c.xml, "suns").Some? && Clock(Child(c.xml, "suns").value.text).Ok?
    ensures r.Ok? ==> var d, hm := Date(c, now).value, Clock(Child(c.xml, "suns").value.text).value;
                      r.value == Moment(d.year, d.month, d.day, hm.0 + 12, hm.1)
  {
    match Child(c.xml, "suns")
    case None => Err(NilReceiver)
    case Some(e) =>
      match Clock(e.text)
      case Err(err) => Err(err)
      case Ok(hm) =>
        match Date(c, now)
        case Err(err) => Err(err)
        case Ok(d) => Local(d.year, d.month, d.day, hm.0 + 12, hm.1)
  }

  /** On the same text, sunset is twelve hours after sunrise: only sunset adds 12 to the hour. */
  lemma SunsetIsTwelveHoursLater(c: Conditions, now: Moment)
    requires c.Future?
    requires Child(c.xml, "sunr").Some? && Child(c.xml, "suns").Some?
    requires Child(c.xml, "sunr").value.text == Child(c.xml, "suns").value.text
    requires Sunrise(c, now).Ok? && Sunset(c, now).Ok?
    ensures Sunset(c, now).value == Sunrise(c, now).value.(hour := Sunrise(c, now).value.hour + 12)
  {
  }

  /**
   * `latest_update`: the text Time.parse is given. For a Day or Night it is
   * the day element's `lsup` attribute; for the current conditions the
   * `<lsup>` field of `<cc>` ("N/A" when absent). A nil text raises TypeError.
   */
  function LatestUpdate(c: Conditions): (r: Result<string>)
    ensures c.Future? ==> (r.Ok? <==> Attr(c.xml, "lsup").Some?)
    ensures c.Future? && r.Ok? ==> r.value == Attr(c.xml, "lsup").value
    ensures c.Current? ==> (r.Ok? <==> Field(c, "lsup").Some?)
    ensures r.Err? ==> r.error == NilTime
  {
    var text := match c { case Current(_) => Field(c, "lsup") case Future(_, x) => Attr(x, "lsup") };
    match text { case None => Err(NilTime) case Some(t) => Ok(t) }
  }
}
