/** The sample issuer table of `getBinInfo` in api/luhn.js: a fixed lookup on
    the first character of the card number, with a fallback entry. */
module BinInfo {
  import opened CardType

  datatype Country = Country(name: string, emoji: string)
  datatype IssuerEntry = IssuerEntry(bank: string, country: Country)

  const VisaBank := IssuerEntry("VISA Bank", Country("United States", "\U{1F1FA}\U{1F1F8}"))
  const MasterCardBank := IssuerEntry("MasterCard Bank", Country("United Kingdom", "\U{1F1EC}\U{1F1E7}"))
  const AmericanExpress := IssuerEntry("American Express", Country("Canada", "\U{1F1E8}\U{1F1E6}"))
  const DiscoverBank := IssuerEntry("Discover Bank", Country("Australia", "\U{1F1E6}\U{1F1FA}"))
  const UnknownBank := IssuerEntry("Unknown Bank", Country("Unknown", "\U{1F30D}"))

  /** The table, keyed by a single leading character. */
  const BinRanges: map<char, IssuerEntry> :=
    map['4' := VisaBank, '5' := MasterCardBank, '3' := AmericanExpress, '6' := DiscoverBank]

  /** api/luhn.js:46-60. The six-character `bin` the source computes is never
      read, so it has no counterpart here; an empty string has no first
      character and falls back to the unknown entry. */
  function GetBinInfo(cardNumber: string): (info: IssuerEntry)
    ensures cardNumber == [] ==> info == UnknownBank
    ensures cardNumber != [] ==> match cardNumber[0]
      case '4' => info == VisaBank
      case '5' => info == MasterCardBank
      case '3' => info == AmericanExpress
      case '6' => info == DiscoverBank
      case _ => info == UnknownBank
  {
    if cardNumber != [] && cardNumber[0] in BinRanges then BinRanges[cardNumber[0]] else UnknownBank
  }

  /** Only the first character matters. */
  lemma BinInfoDependsOnFirstCharOnly(a: string, b: string)
    requires (a == [] && b == []) || (a != [] && b != [] && a[0] == b[0])
    ensures GetBinInfo(a) == GetBinInfo(b)
  {
  }

  /** A known entry is returned exactly for the four leading digits 3-6. */
  lemma KnownBankIffLeadingThreeToSix(s: string)
    ensures GetBinInfo(s) != UnknownBank <==> s != [] && '3' <= s[0] <= '6'
  {
  }

  /** The issuer entry agrees with the brand whenever the brand is known; a
      number of any other shape still gets an entry from its first character. */
  lemma BinInfoAgreesWithCardType(s: string)
    ensures GetCardType(s) == Visa ==> GetBinInfo(s) == VisaBank
    ensures GetCardType(s) == Mastercard ==> GetBinInfo(s) == MasterCardBank
    ensures GetCardType(s) == Amex ==> GetBinInfo(s) == AmericanExpress
    ensures GetCardType(s) == Discover ==> GetBinInfo(s) == DiscoverBank
  {
  }
}
