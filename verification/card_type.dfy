/** Brand classification of `getCardType` in api/luhn.js: four anchored,
    all-digit patterns tried in the order visa, mastercard, amex, discover; the
    first that matches names the brand, and none matching gives "unknown". Each
    pattern is written as the sequence of pieces its regular expression is made of. */
module CardType {
  import opened Digits
  import opened Luhn

  datatype Brand = Visa | Mastercard | Amex | Discover | Unknown {
    /** The label `getCardType` returns. */
    function Label(): (name: string) {
      match this
      case Visa => "visa"
      case Mastercard => "mastercard"
      case Amex => "amex"
      case Discover => "discover"
      case Unknown => "unknown"
    }
  }

  /** `^4[0-9]{12}(?:[0-9]{3})?$`: a 4, twelve digits, then optionally three more. */
  predicate MatchesVisa(s: string) {
    |s| >= 1 && s[0] == '4' && AllDigits(s[1..]) && (|s[1..]| == 12 || |s[1..]| == 12 + 3)
  }

  /** `^5[1-5][0-9]{14}$`: a 5, one of 1-5, then fourteen digits. */
  predicate MatchesMastercard(s: string) {
    |s| >= 2 && s[0] == '5' && '1' <= s[1] <= '5' && AllDigits(s[2..]) && |s[2..]| == 14
  }

  /** `^3[47][0-9]{13}$`: a 3, a 4 or a 7, then thirteen digits. */
  predicate MatchesAmex(s: string) {
    |s| >= 2 && s[0] == '3' && (s[1] == '4' || s[1] == '7') && AllDigits(s[2..]) && |s[2..]| == 13
  }

  /** `^6(?:011|5[0-9]{2})[0-9]{12}$`: a 6, then 011 or a 5 and two digits, then twelve digits. */
  predicate MatchesDiscover(s: string) {
    |s| >= 4 && s[0] == '6'
    && (s[1..4] == "011" || (s[1] == '5' && AllDigits(s[2..4])))
    && AllDigits(s[4..]) && |s[4..]| == 12
  }

  /** api/luhn.js:31-43, applied to the string as given (separators included). */
  function GetCardType(cardNumber: string): (t: Brand)
    ensures t == Visa ==> (|cardNumber| == 13 || |cardNumber| == 16) && cardNumber[0] == '4'
    ensures t == Mastercard ==> |cardNumber| == 16 && cardNumber[0] == '5' && '1' <= cardNumber[1] <= '5'
    ensures t == Amex ==> |cardNumber| == 15 && (cardNumber[..2] == "34" || cardNumber[..2] == "37")
    ensures t == Discover ==> |cardNumber| == 16 && (cardNumber[..4] == "6011" || cardNumber[..2] == "65")
    ensures t != Unknown ==> AllDigits(cardNumber)
  {
    if MatchesVisa(cardNumber) then Visa
    else if MatchesMastercard(cardNumber) then Mastercard
    else if MatchesAmex(cardNumber) then Amex
    else if MatchesDiscover(cardNumber) then DiscoverPrefix(cardNumber); Discover
    else Unknown
  }

  /** The pieces of the Discover pattern spell out its two accepted prefixes. */
  lemma DiscoverPrefix(s: string)
    requires MatchesDiscover(s)
    ensures |s| == 16 && (s[..4] == "6011" || s[..2] == "65")
  {
    if s[1..4] == "011" {
      assert s[..4] == [s[0]] + s[1..4];
    } else {
      assert s[..2] == [s[0], s[1]];
    }
  }

  /** The four patterns start with different digits, so at most one matches
      and the order of the table does not change the outcome. */
  lemma PatternsExclusive(s: string)
    ensures MatchesVisa(s) ==> !MatchesMastercard(s) && !MatchesAmex(s) && !MatchesDiscover(s)
    ensures MatchesMastercard(s) ==> !MatchesAmex(s) && !MatchesDiscover(s)
    ensures MatchesAmex(s) ==> !MatchesDiscover(s)
  {
  }

  /** Each brand is returned exactly when its own pattern matches, and
      "unknown" exactly when none does. */
  lemma CardTypeIsTheMatchingPattern(s: string)
    ensures GetCardType(s) == Visa <==> MatchesVisa(s)
    ensures GetCardType(s) == Mastercard <==> MatchesMastercard(s)
    ensures GetCardType(s) == Amex <==> MatchesAmex(s)
    ensures GetCardType(s) == Discover <==> MatchesDiscover(s)
    ensures GetCardType(s) == Unknown
        <==> !MatchesVisa(s) && !MatchesMastercard(s) && !MatchesAmex(s) && !MatchesDiscover(s)
  {
    PatternsExclusive(s);
  }

  /** Every all-digit string of the right length and prefix gets its brand:
      the converse of the facts `GetCardType` ensures. */
  lemma BrandOfWellFormedNumber(s: string)
    requires AllDigits(s)
    ensures (|s| == 13 || |s| == 16) && s[0] == '4' ==> GetCardType(s) == Visa
    ensures |s| == 16 && s[0] == '5' && '1' <= s[1] <= '5' ==> GetCardType(s) == Mastercard
    ensures |s| == 15 && (s[..2] == "34" || s[..2] == "37") ==> GetCardType(s) == Amex
    ensures |s| == 16 && (s[..4] == "6011" || s[..2] == "65") ==> GetCardType(s) == Discover
  {
    if |s| >= 2 && (s[..2] == "34" || s[..2] == "37") {
      assert s[0] == s[..2][0] && s[1] == s[..2][1];
    }
    if |s| >= 4 && s[..4] == "6011" {
      assert s[0] == s[..4][0] && s[1..4] == s[..4][1..];
    }
    if |s| >= 2 && s[..2] == "65" {
      assert s[0] == s[..2][0] && s[1] == s[..2][1];
    }
  }

  /** A number written with a separator is classified "unknown", while its
      checksum verdict is the same as without that separator: the route calls
      `getCardType` on the unstripped string. */
  lemma SeparatorGivesUnknown(s: string, i: nat)
    requires i < |s| && !IsDigit(s[i])
    ensures GetCardType(s) == Unknown
    ensures LuhnValid(s) == LuhnValid(s[..i] + s[i + 1..])
  {
    DigitsOfDropNonDigit(s, i);
  }
}
