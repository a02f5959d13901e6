/** The text of element bounds, [left,top][right,bottom]. */
module HierarchyBounds {
  import opened Wrappers

  datatype Bounds = Bounds(x: int, y: int, width: int, height: int)

  const MIN_INT := -0x8000_0000_0000_0000
  const MAX_INT := 0x7FFF_FFFF_FFFF_FFFF

  predicate HostInteger(n: int) {
    MIN_INT <= n <= MAX_INT
  }

  /** The host's integers have 64 bits. */
  ghost predicate FitsHost(n: int) {
    -0x8000_0000_0000_0000 <= n < 0x8000_0000_0000_0000
  }

  // ---------------------------------------------------------------------------
  // Integers
  // ---------------------------------------------------------------------------

  predicate IsDigit(c: char) {
    '0' <= c <= '9'
  }

  function Digits(n: nat): (text: string)
    ensures text != [] && forall i :: 0 <= i < |text| ==> IsDigit(text[i])
  {
    var last := ['0' + (n % 10) as char];
    if n < 10 then last else Digits(n / 10) + last
  }

  function FormatInt(n: int): string {
    if n < 0 then "-" + Digits(-n) else Digits(n)
  }

  /** The value of a run of digits. */
  function Value(text: string): nat
    requires forall i :: 0 <= i < |text| ==> IsDigit(text[i])
  {
    if text == [] then 0
    else
      assert IsDigit(text[|text| - 1]);
      Value(text[..|text| - 1]) * 10 + (text[|text| - 1] as int - '0' as int)
  }

  /** How many digits the text starts with. */
  function Leading(text: string): (n: nat)
    ensures n <= |text| && forall i :: 0 <= i < n ==> IsDigit(text[i])
  {
    if text == [] || !IsDigit(text[0]) then 0 else 1 + Leading(text[1..])
  }

  /** Reads an optional minus sign and at least one digit, and what follows them. */
  function ReadInt(text: string): Option<(int, string)> {
    var negative := text != [] && text[0] == '-';
    var rest := if negative then text[1..] else text;
    var n := Leading(rest);
    if n == 0 then None
    else
      var value: int := Value(rest[..n]);
      Some((if negative then -value else value, rest[n..]))
  }

  function Expect(text: string, prefix: string): Option<string> {
    if |prefix| <= |text| && text[..|prefix|] == prefix then Some(text[|prefix|..]) else None
  }

  lemma {:induction false} DigitsHaveValue(n: nat)
    ensures Value(Digits(n)) == n
  {
    if n >= 10 {
      DigitsHaveValue(n / 10);
      assert Digits(n)[..|Digits(n)| - 1] == Digits(n / 10);
    }
  }

  lemma {:induction false} LeadingDigits(digits: string, rest: string)
    requires forall i :: 0 <= i < |digits| ==> IsDigit(digits[i])
    requires rest == [] || !IsDigit(rest[0])
    ensures Leading(digits + rest) == |digits|
  {
    if digits == [] {
      assert digits + rest == rest;
    } else {
      assert (digits + rest)[1..] == digits[1..] + rest;
      LeadingDigits(digits[1..], rest);
    }
  }

  /** Reading an unsigned run of digits: the value, and what follows it. */
  lemma ReadUnsigned(n: nat, rest: string)
    requires rest == [] || !IsDigit(rest[0])
    ensures var text := Digits(n) + rest;
            Leading(text) == |Digits(n)| && text[..Leading(text)] == Digits(n) && text[Leading(text)..] == rest
    ensures Value(Digits(n)) == n && |Digits(n)| > 0 && (Digits(n) + rest)[0] != '-'
  {
    hide Value, Leading;
    DigitsHaveValue(n);
    LeadingDigits(Digits(n), rest);
    assert IsDigit(Digits(n)[0]);
  }

  /** A formatted integer reads back as itself when no digit follows it. */
  lemma {:induction false} ReadFormatted(n: int, rest: string)
    requires rest == [] || !IsDigit(rest[0])
    ensures ReadInt(FormatInt(n) + rest) == Some((n, rest))
  {
    hide Value, Leading, Digits, ReadInt;
    if n < 0 {
      ReadUnsigned(-n, rest);
      assert FormatInt(n) + rest == "-" + (Digits(-n) + rest);
      ReadNegative(Digits(-n) + rest, Digits(-n), rest);
    } else {
      ReadUnsigned(n, rest);
      ReadPositive(Digits(n) + rest, Digits(n), rest);
    }
  }

  lemma ReadPositive(text: string, digits: string, rest: string)
    requires text != [] && text[0] != '-' && Leading(text) == |digits| > 0
    requires text[..|digits|] == digits && text[|digits|..] == rest
    ensures ReadInt(text) == Some((Value(digits), rest))
  {
    hide Value, Leading;
  }

  lemma ReadNegative(text: string, digits: string, rest: string)
    requires Leading(text) == |digits| > 0 && text[..|digits|] == digits && text[|digits|..] == rest
    ensures ReadInt("-" + text) == Some((-(Value(digits) as int), rest))
  {
    hide Value, Leading;
    assert ("-" + text)[1..] == text;
  }

  // ---------------------------------------------------------------------------
  // Bounds
  // ---------------------------------------------------------------------------

  function FormatBounds(bounds: Bounds): string {
    "[" + (FormatInt(bounds.x) + ("," + (FormatInt(bounds.y) + ("][" + (FormatInt(bounds.x + bounds.width) + ("," +
    (FormatInt(bounds.y + bounds.height) + "]")))))))
  }

  /** Reads a delimiter and the integer after it. */
  function ReadAfter(text: string, delimiter: string): Option<(int, string)> {
    var rest := Expect(text, delimiter);
    if rest.None? then None else ReadInt(rest.value)
  }

  function ReadCorners(text: string): Option<(int, int, int, int)> {
    var left := ReadAfter(text, "[");
    if left.None? then None else
    var top := ReadAfter(left.value.1, ",");
    if top.None? then None else
    var right := ReadAfter(top.value.1, "][");
    if right.None? then None else
    var bottom := ReadAfter(right.value.1, ",");
    if bottom.None? || bottom.value.1 != "]" then None
    else Some((left.value.0, top.value.0, right.value.0, bottom.value.0))
  }

  function ParseBounds(text: string): (bounds: Option<Bounds>)
    ensures bounds.Some? ==> bounds.value.width >= 0 && bounds.value.height >= 0
  {
    match ReadCorners(text)
    case None => None
    case Some((left, top, right, bottom)) =>
      if !HostInteger(left) || !HostInteger(top) || !HostInteger(right) || !HostInteger(bottom) then None
      else if right < left || bottom < top then None
      else Some(Bounds(left, top, right - left, bottom - top))
  }

  // ---------------------------------------------------------------------------
  // The grammar of bounds
  // ---------------------------------------------------------------------------

  ghost predicate AllDigits(text: string) {
    text != [] && forall i :: 0 <= i < |text| ==> IsDigit(text[i])
  }

  /** The text is a decimal numeral, with or without a minus sign, for `n`. */
  ghost predicate Numeral(text: string, n: int) {
    || (AllDigits(text) && n == Value(text))
    || (text != [] && text[0] == '-' && AllDigits(text[1..]) && n == -(Value(text[1..]) as int))
  }

  /** The text starts with a numeral for `n` that `rest` follows, and no digit more. */
  ghost predicate StartsNumeral(text: string, n: int, rest: string) {
    (rest == [] || !IsDigit(rest[0])) && exists numeral :: Numeral(numeral, n) && text == numeral + rest
  }

  lemma {:induction false} LeadingStops(text: string)
    ensures Leading(text) < |text| ==> !IsDigit(text[Leading(text)])
  {
    if text != [] && IsDigit(text[0]) {
      LeadingStops(text[1..]);
    }
  }

  lemma {:induction false} ReadsNumeral(text: string, n: int, rest: string)
    ensures ReadInt(text) == Some((n, rest)) <==> StartsNumeral(text, n, rest)
  {
    hide Value, Leading;
    if ReadInt(text) == Some((n, rest)) {
      ReadIsNumeral(text, n, rest);
    }
    if StartsNumeral(text, n, rest) {
      var numeral :| Numeral(numeral, n) && text == numeral + rest;
      NumeralIsRead(numeral, n, rest);
    }
  }

  lemma ReadIsNumeral(text: string, n: int, rest: string)
    requires ReadInt(text) == Some((n, rest))
    ensures StartsNumeral(text, n, rest)
  {
    hide Value, Leading, StartsNumeral;
    if text[0] == '-' {
      DigitsFollowed(text[1..]);
      SignedNumeral(text, text[1..][..Leading(text[1..])], rest);
    } else {
      DigitsFollowed(text);
      UnsignedNumeral(text, text[..Leading(text)], rest);
    }
  }

  lemma DigitsFollowed(text: string)
    ensures text == text[..Leading(text)] + text[Leading(text)..]
    ensures Leading(text) > 0 ==> AllDigits(text[..Leading(text)])
    ensures text[Leading(text)..] == [] || !IsDigit(text[Leading(text)..][0])
  {
    hide Leading;
    LeadingStops(text);
  }

  lemma UnsignedNumeral(text: string, digits: string, rest: string)
    requires AllDigits(digits) && text == digits + rest && (rest == [] || !IsDigit(rest[0]))
    ensures StartsNumeral(text, Value(digits), rest)
  {
    hide Value;
    assert Numeral(digits, Value(digits));
  }

  lemma SignedNumeral(text: string, digits: string, rest: string)
    requires text != [] && text[0] == '-' && text[1..] == digits + rest && AllDigits(digits)
    requires rest == [] || !IsDigit(rest[0])
    ensures StartsNumeral(text, -(Value(digits) as int), rest)
  {
    hide Value;
    var numeral := ['-'] + digits;
    assert numeral[1..] == digits;
    assert Numeral(numeral, -(Value(digits) as int));
    assert text == ['-'] + text[1..] == numeral + rest;
  }

  lemma NumeralIsRead(numeral: string, n: int, rest: string)
    requires Numeral(numeral, n) && (rest == [] || !IsDigit(rest[0]))
    ensures ReadInt(numeral + rest) == Some((n, rest))
  {
    hide Value, Leading, ReadInt;
    if AllDigits(numeral) {
      LeadingDigits(numeral, rest);
      assert IsDigit(numeral[0]);
      ReadPositive(numeral + rest, numeral, rest);
    } else {
      var digits := numeral[1..];
      LeadingDigits(digits, rest);
      ReadNegative(digits + rest, digits, rest);
      assert "-" + (digits + rest) == numeral + rest;
    }
  }

  /** The four corners in brackets, left and top before right and bottom, and nothing else. */
  ghost predicate CornersText(text: string, left: int, top: int, right: int, bottom: int) {
    exists l, t, r, b ::
      && Numeral(l, left) && Numeral(t, top) && Numeral(r, right) && Numeral(b, bottom)
      && text == "[" + (l + ("," + (t + ("][" + (r + ("," + (b + "]")))))))
  }

  lemma ReadsAfter(text: string, delimiter: string, n: int, rest: string)
    ensures ReadAfter(text, delimiter) == Some((n, rest)) <==>
              exists tail :: text == delimiter + tail && StartsNumeral(tail, n, rest)
  {
    hide ReadInt, StartsNumeral;
    if |delimiter| <= |text| && text[..|delimiter|] == delimiter {
      var tail := text[|delimiter|..];
      ReadsNumeral(tail, n, rest);
      assert text == delimiter + tail;
    }
    forall tail | text == delimiter + tail && StartsNumeral(tail, n, rest)
      ensures ReadAfter(text, delimiter) == Some((n, rest))
    {
      assert text[|delimiter|..] == tail && text[..|delimiter|] == delimiter;
      ReadsNumeral(tail, n, rest);
    }
  }

  lemma NumeralRead(text: string, delimiter: string, n: int, rest: string) returns (numeral: string)
    requires ReadAfter(text, delimiter) == Some((n, rest))
    ensures Numeral(numeral, n) && text == delimiter + (numeral + rest)
  {
    hide ReadAfter, Numeral;
    ReadsAfter(text, delimiter, n, rest);
    var tail :| text == delimiter + tail && StartsNumeral(tail, n, rest);
    numeral :| Numeral(numeral, n) && tail == numeral + rest;
  }

  lemma NumeralReads(delimiter: string, numeral: string, n: int, rest: string)
    requires Numeral(numeral, n) && (rest == [] || !IsDigit(rest[0]))
    ensures ReadAfter(delimiter + (numeral + rest), delimiter) == Some((n, rest))
  {
    hide ReadAfter, Numeral;
    ReadsAfter(delimiter + (numeral + rest), delimiter, n, rest);
    assert StartsNumeral(numeral + rest, n, rest);
  }

  lemma {:induction false} CornersAreText(text: string, left: int, top: int, right: int, bottom: int)
    ensures ReadCorners(text) == Some((left, top, right, bottom)) <==> CornersText(text, left, top, right, bottom)
  {
    hide ReadAfter, Numeral;
    if ReadCorners(text) == Some((left, top, right, bottom)) {
      var afterLeft := ReadAfter(text, "[").value.1;
      var afterTop := ReadAfter(afterLeft, ",").value.1;
      var afterRight := ReadAfter(afterTop, "][").value.1;
      var l := NumeralRead(text, "[", left, afterLeft);
      var t := NumeralRead(afterLeft, ",", top, afterTop);
      var r := NumeralRead(afterTop, "][", right, afterRight);
      var b := NumeralRead(afterRight, ",", bottom, "]");
      assert text == "[" + (l + ("," + (t + ("][" + (r + ("," + (b + "]")))))));
    }
    forall l, t, r, b | Numeral(l, left) && Numeral(t, top) && Numeral(r, right) && Numeral(b, bottom)
        && text == "[" + (l + ("," + (t + ("][" + (r + ("," + (b + "]")))))))
      ensures ReadCorners(text) == Some((left, top, right, bottom))
    {
      var d := b + "]";
      var c := r + ("," + d);
      var m := t + ("][" + c);
      NumeralReads("[", l, left, "," + m);
      NumeralReads(",", t, top, "][" + c);
      NumeralReads("][", r, right, "," + d);
      NumeralReads(",", b, bottom, "]");
    }
  }

  /** A text is read as these bounds exactly when it names their corners, all of them host integers, as
      [left,top][right,bottom], with no corner before its opposite. */
  lemma {:induction false} ParsesExactlyWhen(text: string, bounds: Bounds)
    ensures ParseBounds(text) == Some(bounds) <==>
              && CornersText(text, bounds.x, bounds.y, bounds.x + bounds.width, bounds.y + bounds.height)
              && bounds.width >= 0 && bounds.height >= 0
              && FitsHost(bounds.x) && FitsHost(bounds.x + bounds.width)
              && FitsHost(bounds.y) && FitsHost(bounds.y + bounds.height)
  {
    hide ReadCorners, CornersText;
    CornersAreText(text, bounds.x, bounds.y, bounds.x + bounds.width, bounds.y + bounds.height);
  }

  lemma ReadAfterFormatted(delimiter: string, n: int, rest: string)
    requires rest == [] || !IsDigit(rest[0])
    ensures ReadAfter(delimiter + (FormatInt(n) + rest), delimiter) == Some((n, rest))
  {
    hide FormatInt, ReadInt;
    var text := delimiter + (FormatInt(n) + rest);
    assert text[..|delimiter|] == delimiter && text[|delimiter|..] == FormatInt(n) + rest;
    ReadFormatted(n, rest);
  }

  lemma CornersRoundTrip(bounds: Bounds)
    ensures ReadCorners(FormatBounds(bounds)) ==
            Some((bounds.x, bounds.y, bounds.x + bounds.width, bounds.y + bounds.height))
  {
    hide FormatInt, ReadAfter;
    var d := FormatInt(bounds.y + bounds.height) + "]";
    var c := FormatInt(bounds.x + bounds.width) + ("," + d);
    var b := FormatInt(bounds.y) + ("][" + c);
    ReadAfterFormatted("[", bounds.x, "," + b);
    ReadAfterFormatted(",", bounds.y, "][" + c);
    ReadAfterFormatted("][", bounds.x + bounds.width, "," + d);
    ReadAfterFormatted(",", bounds.y + bounds.height, "]");
  }

  /** Formatted bounds parse back as themselves exactly when they have no negative extent and all their
      corners are host integers. */
  lemma {:induction false} BoundsRoundTrip(bounds: Bounds)
    ensures ParseBounds(FormatBounds(bounds)) == Some(bounds) <==>
              && bounds.width >= 0 && bounds.height >= 0 && HostInteger(bounds.x) && HostInteger(bounds.y)
              && HostInteger(bounds.x + bounds.width) && HostInteger(bounds.y + bounds.height)
  {
    hide ReadCorners, FormatBounds, HostInteger;
    CornersRoundTrip(bounds);
  }
}
