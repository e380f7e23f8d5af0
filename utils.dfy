/**
 * Presentation of amounts (src/js/utils.js). An amount is a whole number of
 * cents, so `toLocaleString('en-US', {minimumFractionDigits: 2,
 * maximumFractionDigits: 2})` is exact: the dollars grouped in threes with
 * commas, a point, and the two-digit cents.
 */
module Utils {
  import opened Wrappers
  import opened JsStrings

  function Abs(x: int): nat { if x < 0 then -x else x }

  /** Three decimal digits, zero-padded. */
  function Pad3(n: nat): (r: string)
    requires n < 1000
    ensures |r| == 3 && AllDigits(r)
  {
    [DigitChar(n / 100), DigitChar(n / 10 % 10), DigitChar(n % 10)]
  }

  /** The en-US integer part: digits in groups of three separated by commas. */
  function GroupThousands(n: nat): (s: string)
    ensures s != [] && forall i :: 0 <= i < |s| ==> IsDigit(s[i]) || s[i] == ','
    decreases n
  {
    if n < 1000 then NatToString(n)
    else GroupThousands(n / 1000) + "," + Pad3(n % 1000)
  }

  /** Split at the commas, the grouping is one group of one to three digits, then groups of three. */
  lemma {:induction false} GroupThousandsShape(n: nat)
    ensures var parts := Split(GroupThousands(n), ',');
      && 1 <= |parts[0]| <= 3 && AllDigits(parts[0])
      && (parts[0][0] == '0' ==> n == 0)
      && forall i :: 1 <= i < |parts| ==> |parts[i]| == 3 && AllDigits(parts[i])
    decreases n
  {
    if n < 1000 {
      NatToStringShort(n);
    } else {
      var head := GroupThousands(n / 1000);
      GroupThousandsShape(n / 1000);
      SplitAppend(head, Pad3(n % 1000), ',');
    }
  }

  lemma NatToStringShort(n: nat)
    requires n < 1000
    ensures |NatToString(n)| <= 3
  {
    if n >= 10 {
      assert |NatToString(n / 10)| <= 2 by {
        if n / 10 >= 10 {
          assert |NatToString(n / 100)| == 1;
        }
      }
    }
  }

  /** The formatted magnitude of a number of cents: `1,234,567.89`. */
  function FormatMagnitude(cents: nat): string
  {
    GroupThousands(cents / 100) + "." + Pad2(cents % 100)
  }

  function SignPrefix(amount: int): string
  {
    if amount > 0 then "+" else if amount < 0 then "-" else ""
  }

  /** `currencyFormat(amount)`: the sign, `" $ "`, then the magnitude. */
  function CurrencyFormat(amount: int): string
  {
    SignPrefix(amount) + " $ " + FormatMagnitude(Abs(amount))
  }

  /** `useAmountColorClass(amount)`. */
  function AmountColorClass(amount: int): (r: string)
    ensures r == "text-positive" <==> amount > 0
    ensures r == "text-negative" <==> amount < 0
    ensures r == "text-grey-6" <==> amount == 0
  {
    if amount > 0 then "text-positive" else if amount < 0 then "text-negative" else "text-grey-6"
  }

  // ---------------------------------------------------------------------
  // What the formatted string says

  /** The output begins with `+`, `-` or nothing, according to the sign, then `" $ "`. */
  lemma CurrencyFormatSign(amount: int)
    ensures var s := CurrencyFormat(amount);
      && (amount > 0 ==> s[..4] == "+ $ ")
      && (amount < 0 ==> s[..4] == "- $ ")
      && (amount == 0 ==> s[..3] == " $ ")
  {
    var rest := FormatMagnitude(Abs(amount));
    var s := CurrencyFormat(amount);
    if amount > 0 {
      assert s == "+ $ " + rest;
    } else if amount < 0 {
      assert s == "- $ " + rest;
    } else {
      assert s == " $ " + rest;
    }
  }

  /** Formatting `-x` and `x` differ only in the sign character. */
  lemma CurrencyFormatNegation(x: int)
    requires x > 0
    ensures CurrencyFormat(-x) == "-" + CurrencyFormat(x)[1..]
    ensures CurrencyFormat(x) == "+" + CurrencyFormat(x)[1..]
  {
  }

  /** The colour class and the sign character of the formatted amount agree. */
  lemma ColorClassMatchesFormat(x: int)
    ensures AmountColorClass(x) == "text-positive" <==> CurrencyFormat(x)[0] == '+'
    ensures AmountColorClass(x) == "text-negative" <==> CurrencyFormat(x)[0] == '-'
    ensures AmountColorClass(x) == "text-grey-6" <==> CurrencyFormat(x)[0] == ' '
  {
  }

  /** Drop the thousands separators. */
  function RemoveCommas(s: string): (r: string)
    ensures ',' !in r
  {
    if s == [] then [] else (if s[0] == ',' then [] else [s[0]]) + RemoveCommas(s[1..])
  }

  lemma {:induction false} RemoveCommasAppend(a: string, b: string)
    ensures RemoveCommas(a + b) == RemoveCommas(a) + RemoveCommas(b)
    decreases |a|
  {
    if a != [] {
      var c := if a[0] == ',' then [] else [a[0]];
      calc {
        RemoveCommas(a + b);
        { assert (a + b)[0] == a[0] && (a + b)[1..] == a[1..] + b; }
        c + RemoveCommas(a[1..] + b);
        { RemoveCommasAppend(a[1..], b); }
        c + (RemoveCommas(a[1..]) + RemoveCommas(b));
        (c + RemoveCommas(a[1..])) + RemoveCommas(b);
      }
    } else {
      assert a + b == b;
    }
  }

  lemma {:induction false} RemoveCommasOfDigits(s: string)
    requires AllDigits(s)
    ensures RemoveCommas(s) == s
    decreases |s|
  {
    if s != [] {
      RemoveCommasOfDigits(s[1..]);
    }
  }

  /** Appending three more digits to a number's decimal form multiplies it by 1000. */
  lemma NatToStringThousands(a: nat, b: nat)
    requires a >= 1 && b < 1000
    ensures NatToString(a * 1000 + b) == NatToString(a) + Pad3(b)
  {
    var n := a * 1000 + b;
    var n1 := a * 100 + b / 10;
    var n2 := a * 10 + b / 100;
    assert n / 10 == n1 && n % 10 == b % 10;
    assert n1 / 10 == n2 && n1 % 10 == b / 10 % 10;
    assert n2 / 10 == a && n2 % 10 == b / 100;
    assert NatToString(n2) == NatToString(a) + [DigitChar(b / 100)];
    assert NatToString(n1) == NatToString(n2) + [DigitChar(b / 10 % 10)];
    assert NatToString(n) == NatToString(n1) + [DigitChar(b % 10)];
  }

  /** The grouping only inserts commas: without them the digits are `String(n)`. */
  lemma {:induction false} GroupThousandsDigits(n: nat)
    ensures RemoveCommas(GroupThousands(n)) == NatToString(n)
    decreases n
  {
    if n < 1000 {
      RemoveCommasOfDigits(NatToString(n));
    } else {
      var q, r := n / 1000, n % 1000;
      assert n == q * 1000 + r;
      GroupStep(n);
      RemoveCommasJoin(GroupThousands(q), Pad3(r));
      GroupThousandsDigits(q);
      NatToStringThousands(q, r);
    }
  }

  /** Dropping the commas of `head,tail` when `tail` is all digits. */
  lemma RemoveCommasJoin(head: string, tail: string)
    requires AllDigits(tail)
    ensures RemoveCommas(head + "," + tail) == RemoveCommas(head) + tail
  {
    assert head + "," + tail == head + ("," + tail);
    RemoveCommasAppend(head, "," + tail);
    RemoveLeadingComma(tail);
  }

  lemma RemoveLeadingComma(tail: string)
    requires AllDigits(tail)
    ensures RemoveCommas("," + tail) == tail
  {
    var s := "," + tail;
    assert s[0] == ',' && s[1..] == tail;
    RemoveCommasOfDigits(tail);
  }

  /** Reads a formatted magnitude back: grouped dollars, a point, two digits of cents. */
  function ParseMagnitude(t: string): Option<nat>
  {
    if |t| < 4 || t[|t| - 3] != '.' then None
    else
      var dollars := RemoveCommas(t[..|t| - 3]);
      var cents := t[|t| - 2..];
      if AllDigits(dollars) && AllDigits(cents) then
        Some(DigitsValue(dollars) * 100 + DigitsValue(cents))
      else None
  }

  /** Reads a formatted amount back: the sign, `" $ "`, then the magnitude. */
  function ParseCurrency(s: string): Option<int>
  {
    var negative := |s| > 0 && s[0] == '-';
    var body := if |s| > 0 && (s[0] == '+' || s[0] == '-') then s[1..] else s;
    if !StartsWith(body, " $ ") then None
    else match ParseMagnitude(body[3..])
      case Some(m) => Some(if negative then -(m as int) else m as int)
      case None => None
  }

  lemma FormatMagnitudeRoundTrip(m: nat)
    ensures ParseMagnitude(FormatMagnitude(m)) == Some(m)
  {
    var g, p := GroupThousands(m / 100), Pad2(m % 100);
    GroupThousandsDigits(m / 100);
    DigitsValueOfNatToString(m / 100);
    assert DigitsValue(p) == m % 100 by {
      assert ToNumber(p) == Some(m % 100);
    }
    ParseJoined(g, p);
  }

  /** Grouped digits, a point and two digits read back as dollars and cents. */
  lemma ParseJoined(g: string, p: string)
    requires g != [] && AllDigits(RemoveCommas(g)) && |p| == 2 && AllDigits(p)
    ensures ParseMagnitude(g + "." + p) == Some(DigitsValue(RemoveCommas(g)) * 100 + DigitsValue(p))
  {
    var t := g + "." + p;
    assert t[..|t| - 3] == g && t[|t| - 3] == '.' && t[|t| - 2..] == p;
  }

  /** The sign and the `" $ "` read back, whatever the magnitude text `t`. */
  lemma ParseSignedText(amount: int, t: string, m: nat)
    requires ParseMagnitude(t) == Some(m) && m == Abs(amount)
    ensures ParseCurrency(SignPrefix(amount) + " $ " + t) == Some(amount)
  {
    if amount > 0 {
      ParseSigned('+', t, m);
    } else if amount < 0 {
      ParseSigned('-', t, m);
    } else {
      ParseUnsigned(t, m);
    }
  }

  lemma ParseUnsigned(t: string, m: nat)
    requires ParseMagnitude(t) == Some(m)
    ensures ParseCurrency(" $ " + t) == Some(m as int)
  {
    var s := " $ " + t;
    assert s[0] == ' ' && StartsWith(s, " $ ") && s[3..] == t;
  }

  lemma ParseSigned(c: char, t: string, m: nat)
    requires c == '+' || c == '-'
    requires ParseMagnitude(t) == Some(m)
    ensures ParseCurrency([c] + " $ " + t) == Some(if c == '-' then -(m as int) else m as int)
  {
    var s := [c] + " $ " + t;
    var body := " $ " + t;
    assert s[0] == c && s[1..] == body;
    assert StartsWith(body, " $ ") && body[3..] == t;
  }

  /** `currencyFormat` loses nothing: its output reads back as the amount. */
  lemma CurrencyFormatRoundTrip(amount: int)
    ensures ParseCurrency(CurrencyFormat(amount)) == Some(amount)
  {
    FormatMagnitudeRoundTrip(Abs(amount));
    ParseSignedText(amount, FormatMagnitude(Abs(amount)), Abs(amount));
  }

  /** Examples from the source's tests, in cents. */
  lemma CurrencyFormatExampleGrouped(amount: int)
    requires amount == 123456789
    ensures CurrencyFormat(amount) == "+ $ 1,234,567.89"
  {
    MagnitudeExample(amount);
    PositiveFormat(amount, "1,234,567.89");
    GroupedText();
  }

  lemma GroupedText()
    ensures "+ $ " + "1,234,567.89" == "+ $ 1,234,567.89"
  {
  }

  lemma PositiveFormat(amount: int, m: string)
    requires amount > 0 && FormatMagnitude(amount) == m
    ensures CurrencyFormat(amount) == "+ $ " + m
  {
  }

  lemma MagnitudeExample(cents: nat)
    requires cents == 123456789
    ensures FormatMagnitude(cents) == "1,234,567.89"
  {
    assert 123456789 / 100 == 1234567 && 123456789 % 100 == 89;
    assert Pad2(89) == "89";
    GroupedMillions();
  }

  lemma GroupedThousands()
    ensures GroupThousands(1234) == "1,234"
  {
    assert 1234 / 1000 == 1 && 1234 % 1000 == 234;
    assert Pad3(234) == "234";
    assert NatToString(1) == "1";
    GroupStep(1234);
  }

  lemma GroupedMillions()
    ensures GroupThousands(1234567) == "1,234,567"
  {
    assert 1234567 / 1000 == 1234 && 1234567 % 1000 == 567;
    assert Pad3(567) == "567";
    GroupedThousands();
    GroupStep(1234567);
  }

  lemma GroupStep(n: nat)
    requires n >= 1000
    ensures GroupThousands(n) == GroupThousands(n / 1000) + "," + Pad3(n % 1000)
  {
  }

  lemma CurrencyFormatExampleNegative()
    ensures CurrencyFormat(-99999) == "- $ 999.99"
  {
  }

  lemma CurrencyFormatExampleZero()
    ensures CurrencyFormat(0) == " $ 0.00"
  {
  }
}
