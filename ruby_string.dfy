/**
 * The parts of Ruby's String and Integer the weather library relies on:
 * `String#to_i`, `Integer#to_s`, `String#split` with a one-character
 * separator and with " " (whitespace runs), and `Array#first`.
 */
module RubyString {
  import opened Wrappers

  predicate IsDigit(c: char) { '0' <= c <= '9' }

  /** The characters C's isspace accepts: space, \t, \n, \v, \f, \r. */
  predicate IsSpace(c: char) { c == ' ' || ('\t' <= c <= '\r') }

  predicate AllDigits(s: string) { forall i :: 0 <= i < |s| ==> IsDigit(s[i]) }

  function DigitValue(c: char): int { (c as int) - ('0' as int) }

  function DigitChar(d: nat): char
    requires d < 10
  {
    ((d + '0' as int) as char)
  }

  /** The number a string of digits denotes, most significant digit first. */
  function DecimalValue(ds: string): int
  {
    if ds == [] then 0 else DecimalValue(ds[..|ds| - 1]) * 10 + DigitValue(ds[|ds| - 1])
  }

  function DropSpace(s: string): (r: string)
    ensures |r| <= |s|
  {
    if |s| > 0 && IsSpace(s[0]) then DropSpace(s[1..]) else s
  }

  /**
   * The digits of the longest prefix of the form d+(_d+)*, underscores
   * removed; Ruby's to_i reads digits this way once the first one is seen.
   */
  function DigitRun(s: string): (r: string)
    ensures AllDigits(r)
  {
    if |s| > 0 && IsDigit(s[0]) then [s[0]] + DigitRun(s[1..])
    else if |s| > 1 && s[0] == '_' && IsDigit(s[1]) then DigitRun(s[1..])
    else []
  }

  function Magnitude(s: string): int
  {
    if |s| > 0 && IsDigit(s[0]) then DecimalValue(DigitRun(s)) else 0
  }

  /**
   * Ruby `String#to_i`: leading whitespace, an optional sign, then digits
   * (single underscores between digits allowed); anything else gives 0.
   */
  function ToI(s: string): int
  {
    var t := DropSpace(s);
    if |t| > 0 && t[0] == '-' then -Magnitude(t[1..])
    else if |t| > 0 && t[0] == '+' then Magnitude(t[1..])
    else Magnitude(t)
  }

  /** `nil.to_i` is 0 and so is `"".to_i`: the text of an optional value read as an integer. */
  function OptToI(s: Option<string>): int { ToI(s.GetOr("")) }

  function NatToS(n: nat): (r: string)
    decreases n
  {
    if n < 10 then [DigitChar(n)] else NatToS(n / 10) + [DigitChar(n % 10)]
  }

  /** Ruby `Integer#to_s` in base 10. */
  function IntToS(n: int): string
  {
    if n < 0 then "-" + NatToS(-n) else NatToS(n)
  }

  lemma {:induction false} NatToSDigits(n: nat)
    ensures |NatToS(n)| > 0 && AllDigits(NatToS(n))
    ensures DecimalValue(NatToS(n)) == n
    decreases n
  {
    if n >= 10 {
      NatToSDigits(n / 10);
      var s := NatToS(n);
      assert s[..|s| - 1] == NatToS(n / 10);
    }
  }

  lemma {:induction false} DigitRunOfDigits(s: string)
    requires AllDigits(s)
    ensures DigitRun(s) == s
    decreases |s|
  {
    if |s| > 0 {
      DigitRunOfDigits(s[1..]);
      assert [s[0]] + s[1..] == s;
    }
  }

  lemma MagnitudeOfNatToS(m: nat)
    ensures Magnitude(NatToS(m)) == m
    ensures IsDigit(NatToS(m)[0])
  {
    var ds := NatToS(m);
    NatToSDigits(m);
    DigitRunOfDigits(ds);
  }

  /** `n.to_s.to_i == n` for every integer: to_i reads back what to_s writes. */
  lemma ToIOfIntToS(n: int)
    ensures ToI(IntToS(n)) == n
  {
    var m: nat := if n < 0 then -n else n;
    var ds := NatToS(m);
    MagnitudeOfNatToS(m);
    if n < 0 {
      var s := "-" + ds;
      assert s == IntToS(n);
      assert DropSpace(s) == s;
      assert s[1..] == ds;
    } else {
      assert ds == IntToS(n);
      assert DropSpace(ds) == ds;
    }
  }

  /** Integer#to_s is injective, so a message naming an offset names exactly that offset. */
  lemma IntToSInjective(m: int, n: int)
    requires IntToS(m) == IntToS(n)
    ensures m == n
  {
    ToIOfIntToS(m);
    ToIOfIntToS(n);
  }

  /** The pieces of `s` between the occurrences of `sep`, empty pieces kept. */
  function Pieces(s: string, sep: char): (r: seq<string>)
    ensures |r| > 0
  {
    if s == [] then [""]
    else
      var rest := Pieces(s[1..], sep);
      if s[0] == sep then [""] + rest else [[s[0]] + rest[0]] + rest[1..]
  }

  function DropTrailingEmpty(ps: seq<string>): (r: seq<string>)
    ensures |r| <= |ps| && r == ps[..|r|]
  {
    if ps != [] && ps[|ps| - 1] == "" then DropTrailingEmpty(ps[..|ps| - 1]) else ps
  }

  /** Ruby `String#split(sep)` for a one-character separator other than " ": trailing empty pieces dropped. */
  function Split(s: string, sep: char): seq<string>
  {
    DropTrailingEmpty(Pieces(s, sep))
  }

  /** Ruby `Array#first`: nil on an empty array. */
  function First(ps: seq<string>): (r: Option<string>)
    ensures r.Some? <==> |ps| > 0
    ensures r.Some? ==> r.value == ps[0]
  {
    if ps == [] then None else Some(ps[0])
  }

  /** Ruby `Array#[](i)`: nil past the end. */
  function At(ps: seq<string>, i: nat): (r: Option<string>)
    ensures r.Some? <==> i < |ps|
    ensures r.Some? ==> r.value == ps[i]
  {
    if i < |ps| then Some(ps[i]) else None
  }

  /** The leading characters of `s` up to (not including) the first `sep`. */
  predicate IsPrefixBefore(p: string, s: string, sep: char)
  {
    && |p| <= |s| && p == s[..|p|]
    && (forall i :: 0 <= i < |p| ==> p[i] != sep)
    && (|p| == |s| || s[|p|] == sep)
  }

  /** At most one string is the part of `s` before its first `sep`. */
  lemma PrefixBeforeUnique(p: string, q: string, s: string, sep: char)
    requires IsPrefixBefore(p, s, sep) && IsPrefixBefore(q, s, sep)
    ensures p == q
  {
    assert forall i :: 0 <= i < |q| ==> s[i] != sep;
    assert forall i :: 0 <= i < |p| ==> s[i] != sep;
  }

  lemma {:induction false} FirstPieceIsPrefix(s: string, sep: char)
    ensures IsPrefixBefore(Pieces(s, sep)[0], s, sep)
    decreases |s|
  {
    if s != [] && s[0] != sep {
      FirstPieceIsPrefix(s[1..], sep);
    }
  }

  lemma {:induction false} PiecesAllEmpty(s: string, sep: char)
    ensures (forall i :: 0 <= i < |Pieces(s, sep)| ==> Pieces(s, sep)[i] == "")
            <==> (forall j :: 0 <= j < |s| ==> s[j] == sep)
    decreases |s|
  {
    if s != [] {
      PiecesAllEmpty(s[1..], sep);
      var ps, rest := Pieces(s, sep), Pieces(s[1..], sep);
      if s[0] == sep {
        assert ps == [""] + rest;
        assert (forall i :: 0 <= i < |ps| ==> ps[i] == "") <==> (forall i :: 0 <= i < |rest| ==> rest[i] == "") by {
          assert forall i :: 0 <= i < |rest| ==> ps[i + 1] == rest[i];
        }
        assert (forall j :: 0 <= j < |s| ==> s[j] == sep) <==> (forall j :: 0 <= j < |s[1..]| ==> s[1..][j] == sep) by {
          assert forall j :: 0 <= j < |s[1..]| ==> s[1..][j] == s[j + 1];
        }
      } else {
        assert ps[0] != "";
      }
    }
  }

  lemma {:induction false} DropTrailingEmptyNil(ps: seq<string>)
    ensures DropTrailingEmpty(ps) == [] <==> (forall i :: 0 <= i < |ps| ==> ps[i] == "")
    decreases |ps|
  {
    if ps != [] && ps[|ps| - 1] == "" {
      DropTrailingEmptyNil(ps[..|ps| - 1]);
      var front := ps[..|ps| - 1];
      if forall i :: 0 <= i < |front| ==> front[i] == "" {
        forall i | 0 <= i < |ps| ensures ps[i] == "" {
          if i < |front| { assert front[i] == ps[i]; }
        }
      }
    }
  }

  /**
   * `s.split(sep).first` is nil exactly when `s` consists of separators only
   * (the empty string included); otherwise it is the text before the first
   * separator.
   */
  lemma SplitFirst(s: string, sep: char)
    ensures First(Split(s, sep)).None? <==> (forall j :: 0 <= j < |s| ==> s[j] == sep)
    ensures First(Split(s, sep)).Some? ==> IsPrefixBefore(First(Split(s, sep)).value, s, sep)
  {
    PiecesAllEmpty(s, sep);
    DropTrailingEmptyNil(Pieces(s, sep));
    FirstPieceIsPrefix(s, sep);
    if Split(s, sep) != [] {
      assert Split(s, sep)[0] == Pieces(s, sep)[0];
    }
  }

  /** A piece after a separator: `Pieces(a + [sep] + b) == [a] + Pieces(b)` when `a` has no separator. */
  lemma {:induction false} PiecesAppend(a: string, sep: char, b: string)
    requires forall i :: 0 <= i < |a| ==> a[i] != sep
    ensures Pieces(a + [sep] + b, sep) == [a] + Pieces(b, sep)
    decreases |a|
  {
    var s := a + [sep] + b;
    if a == [] {
      assert s[1..] == b;
    } else {
      assert s[1..] == a[1..] + [sep] + b;
      PiecesAppend(a[1..], sep, b);
      assert [s[0]] + a[1..] == a;
    }
  }

  /** Pieces of a separator-free string: just the string itself. */
  lemma {:induction false} PiecesNoSep(a: string, sep: char)
    requires forall i :: 0 <= i < |a| ==> a[i] != sep
    ensures Pieces(a, sep) == [a]
    decreases |a|
  {
    if a != [] {
      PiecesNoSep(a[1..], sep);
      assert [a[0]] + a[1..] == a;
    }
  }

  /** The longest prefix without whitespace. */
  function TakeNonSpace(s: string): (r: string)
    ensures |r| <= |s| && r == s[..|r|]
    ensures |s| > 0 && !IsSpace(s[0]) ==> |r| > 0
  {
    if |s| > 0 && !IsSpace(s[0]) then [s[0]] + TakeNonSpace(s[1..]) else []
  }

  /** Ruby `String#split(" ")`: the maximal runs of non-whitespace characters. */
  function Words(s: string): seq<string>
    decreases |s|
  {
    var t := DropSpace(s);
    if t == [] then []
    else
      var w := TakeNonSpace(t);
      [w] + Words(t[|w|..])
  }

  predicate NoSpace(s: string) { forall i :: 0 <= i < |s| ==> !IsSpace(s[i]) }

  /** Integer#to_s writes a non-empty string of digits, with a leading '-' for a negative number. */
  lemma IntToSChars(n: int)
    ensures |IntToS(n)| > 0
    ensures forall i :: 0 <= i < |IntToS(n)| ==> IsDigit(IntToS(n)[i]) || IntToS(n)[i] == '-'
  {
    var m: nat := if n < 0 then -n else n;
    NatToSDigits(m);
    if n < 0 {
      assert forall i :: 1 <= i < |IntToS(n)| ==> IntToS(n)[i] == NatToS(m)[i - 1];
    }
  }

  lemma {:induction false} TakeNonSpaceOf(a: string, rest: string)
    requires NoSpace(a)
    requires rest == [] || IsSpace(rest[0])
    ensures TakeNonSpace(a + rest) == a
    decreases |a|
  {
    if a != [] {
      TakeNonSpaceOf(a[1..], rest);
      assert (a + rest)[1..] == a[1..] + rest;
      assert [a[0]] + a[1..] == a;
    }
  }

  /** A word followed by a space and more text: the word comes first, then the words of the rest. */
  lemma WordsCons(a: string, rest: string)
    requires a != [] && NoSpace(a)
    ensures Words(a + " " + rest) == [a] + Words(rest)
  {
    var s := a + " " + rest;
    assert DropSpace(s) == s;
    TakeNonSpaceOf(a, " " + rest);
    assert s == a + (" " + rest);
    assert s[|a|..] == " " + rest;
    assert DropSpace(" " + rest) == DropSpace(rest) by {
      assert (" " + rest)[1..] == rest;
    }
  }

  lemma WordsOfOne(a: string)
    requires a != [] && NoSpace(a)
    ensures Words(a) == [a]
  {
    assert DropSpace(a) == a;
    TakeNonSpaceOf(a, []);
    assert a + [] == a;
  }
}
