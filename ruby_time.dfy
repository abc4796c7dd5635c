/**
 * Wall-clock moments and the part of Ruby's `Time.local` the forecast uses:
 * how it reads a month argument and which field values it accepts.
 */
module RubyTime {
  import opened Wrappers
  import opened RubyString

  /** A local time, to the minute. */
  datatype Moment = Moment(year: int, month: int, day: int, hour: int, minute: int)

  /** `a > b` on Ruby Time values: `a` is strictly later than `b`. */
  predicate Later(a: Moment, b: Moment)
  {
    if a.year != b.year then a.year > b.year
    else if a.month != b.month then a.month > b.month
    else if a.day != b.day then a.day > b.day
    else if a.hour != b.hour then a.hour > b.hour
    else a.minute > b.minute
  }

  const MonthNames: seq<string> :=
    ["jan", "feb", "mar", "apr", "may", "jun", "jul", "aug", "sep", "oct", "nov", "dec"]

  function Lower(c: char): char
  {
    if 'A' <= c <= 'Z' then (c as int + 32) as char else c
  }

  function LowerAll(s: string): (r: string)
    ensures |r| == |s|
    ensures forall i :: 0 <= i < |s| ==> r[i] == Lower(s[i])
  {
    seq(|s|, i requires 0 <= i < |s| => Lower(s[i]))
  }

  /** Index of `s` in MonthNames, or 12 when it is not there. */
  function MonthIndex(s: string): (k: nat)
    ensures k <= 12
    ensures k < 12 ==> MonthNames[k] == s
    ensures k == 12 ==> s !in MonthNames
  {
    if s == "jan" then 0 else if s == "feb" then 1 else if s == "mar" then 2
    else if s == "apr" then 3 else if s == "may" then 4 else if s == "jun" then 5
    else if s == "jul" then 6 else if s == "aug" then 7 else if s == "sep" then 8
    else if s == "oct" then 9 else if s == "nov" then 10 else if s == "dec" then 11
    else 12
  }

  /**
   * How `Time.local` reads a month given as a string: a three-letter English
   * abbreviation in any letter case; otherwise, when the string starts with a
   * digit, its `to_i`; otherwise 0, which the range check then rejects.
   */
  function MonthArg(s: string): int
  {
    var k := if |s| == 3 then MonthIndex(LowerAll(s)) else 12;
    if k < 12 then k + 1 else if |s| > 0 && IsDigit(s[0]) then ToI(s) else 0
  }

  /**
   * `Time.local(year, month, day, hour, minute)` on integer fields, as Ruby
   * 1.8 checks them: the moment, or the ArgumentError raised for a field out
   * of range (an hour above 23 included).
   */
  function Local(year: int, month: int, day: int, hour: int, minute: int): (r: Result<Moment>)
    ensures r.Ok? <==> 1 <= month <= 12 && 1 <= day <= 31 && 0 <= minute <= 59
                       && 0 <= hour <= 23
    ensures r.Err? ==> r.error == ArgumentOutOfRange
    ensures r.Ok? ==> r.value == Moment(year, month, day, hour, minute)
  {
    if 1 <= month <= 12 && 1 <= day <= 31 && 0 <= minute <= 59
       && 0 <= hour <= 23
    then Ok(Moment(year, month, day, hour, minute))
    else Err(ArgumentOutOfRange)
  }

  /** The abbreviation of month `m` as weather.com writes it: "Jan" … "Dec". */
  function Abbreviation(m: int): (r: string)
    requires 1 <= m <= 12
    ensures |r| == 3 && forall i :: 0 <= i < 3 ==> 'A' <= r[i] <= 'z'
  {
    var name := MonthNames[m - 1];
    [(name[0] as int - 32) as char] + name[1..]
  }

  /** Every month abbreviation, in the capitalisation weather.com uses ("Jul"), reads back as its number. */
  lemma MonthArgOfAbbreviation(m: int)
    requires 1 <= m <= 12
    ensures MonthArg(Abbreviation(m)) == m
  {
    assert LowerAll(Abbreviation(m)) == MonthNames[m - 1];
  }

  /**
   * A month written as a non-negative number reads back as that number; one
   * written with a minus sign is not read as a number at all and gives 0.
   */
  lemma MonthArgOfNumber(m: int)
    ensures MonthArg(IntToS(m)) == if m >= 0 then m else 0
  {
    var s := IntToS(m);
    ToIOfIntToS(m);
    IntToSChars(m);
    if m >= 0 {
      NatToSDigits(m);
      assert IsDigit(s[0]);
    }
    if |s| == 3 {
      var l := LowerAll(s);
      assert l[2] == s[2];
      var nonNeg: nat := if m < 0 then -m else m;
      NatToSDigits(nonNeg);
      assert IsDigit(s[2]) by {
        if m < 0 { assert s[2] == NatToS(nonNeg)[1]; } else { assert s[2] == NatToS(nonNeg)[2]; }
      }
      assert MonthIndex(l) == 12;
    }
  }
}
