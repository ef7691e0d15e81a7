/** Decimal digit characters and the separator-stripping step that precedes the
    checksum (the `replace(/\D/g, '')` of api/luhn.js). A JavaScript `\D` is any
    character outside ASCII `0`-`9`. */
module Digits {

  predicate IsDigit(c: char) {
    '0' <= c <= '9'
  }

  predicate AllDigits(s: string) {
    forall k :: 0 <= k < |s| ==> IsDigit(s[k])
  }

  /** Numeric value of a digit character; `parseInt` of a single ASCII digit. */
  function DigitValue(c: char): (d: nat)
    requires IsDigit(c)
    ensures d <= 9
    ensures d == 0 <==> c == '0'
  {
    (c as int) - ('0' as int)
  }

  /** The digit character is recovered from its value, so distinct digit
      characters have distinct values. */
  lemma DigitValueRoundTrip(c: char, e: char)
    requires IsDigit(c) && IsDigit(e)
    ensures c == (('0' as int) + DigitValue(c)) as char
    ensures DigitValue(c) == DigitValue(e) ==> c == e
  {
  }

  /** The string with every non-digit character removed, order kept. */
  function DigitsOf(s: string): (r: string)
    ensures AllDigits(r)
    ensures |r| <= |s|
    ensures AllDigits(s) ==> r == s
  {
    if s == [] then []
    else (if IsDigit(s[0]) then [s[0]] else []) + DigitsOf(s[1..])
  }

  /** Stripping distributes over concatenation. */
  lemma {:induction false} DigitsOfConcat(a: string, b: string)
    ensures DigitsOf(a + b) == DigitsOf(a) + DigitsOf(b)
  {
    if a == [] {
      assert a + b == b;
    } else {
      var head := if IsDigit(a[0]) then [a[0]] else [];
      assert (a + b)[0] == a[0];
      assert (a + b)[1..] == a[1..] + b;
      DigitsOfConcat(a[1..], b);
      assert DigitsOf(a + b) == head + (DigitsOf(a[1..]) + DigitsOf(b));
      assert DigitsOf(a) == head + DigitsOf(a[1..]);
    }
  }

  /** Stripping keeps exactly the digit characters of the string. */
  lemma {:induction false} DigitsOfMembers(s: string, c: char)
    ensures c in DigitsOf(s) <==> c in s && IsDigit(c)
  {
    if s != [] {
      DigitsOfMembers(s[1..], c);
      assert s == [s[0]] + s[1..];
    }
  }

  /** Stripping twice is stripping once. */
  lemma DigitsOfIdempotent(s: string)
    ensures DigitsOf(DigitsOf(s)) == DigitsOf(s)
  {
  }

  /** Replacing one digit of a string by another digit replaces exactly one
      digit of its stripped form, at the index given by the digits before it. */
  lemma DigitsOfUpdate(s: string, i: nat, c: char)
    requires i < |s| && IsDigit(s[i]) && IsDigit(c)
    ensures |DigitsOf(s[..i])| < |DigitsOf(s)|
    ensures DigitsOf(s[i := c]) == DigitsOf(s)[|DigitsOf(s[..i])| := c]
    ensures DigitsOf(s)[|DigitsOf(s[..i])|] == s[i]
  {
    var pre, post := s[..i], s[i + 1..];
    StripAroundDigit(pre, s[i], post);
    StripAroundDigit(pre, c, post);
    SplitAround(s, i, c);
    ReplaceMiddle(DigitsOf(pre), s[i], c, DigitsOf(post));
  }

  /** Stripping a string with a digit between two parts keeps that digit
      between the stripped parts. */
  lemma StripAroundDigit(pre: string, x: char, post: string)
    requires IsDigit(x)
    ensures DigitsOf(pre + [x] + post) == DigitsOf(pre) + [x] + DigitsOf(post)
  {
    assert pre + [x] + post == pre + ([x] + post);
    DigitsOfConcat(pre, [x] + post);
    StripDigitThenRest(x, post);
  }

  /** Writing a digit into an all-digit string keeps it all-digit. */
  lemma UpdateKeepsAllDigits(s: string, i: nat, c: char)
    requires AllDigits(s) && i < |s| && IsDigit(c)
    ensures AllDigits(s[i := c])
  {
    var t := s[i := c];
    forall k | 0 <= k < |t| ensures IsDigit(t[k]) {
      assert t[k] == if k == i then c else s[k];
    }
  }

  /** Removing a non-digit character does not change the stripped string. */
  lemma DigitsOfDropNonDigit(s: string, i: nat)
    requires i < |s| && !IsDigit(s[i])
    ensures DigitsOf(s) == DigitsOf(s[..i] + s[i + 1..])
  {
    SplitAround(s, i, s[i]);
    StripAroundNonDigit(s[..i], s[i], s[i + 1..]);
    DigitsOfConcat(s[..i], s[i + 1..]);
  }

  /** Stripping a string with a non-digit between two parts joins the
      stripped parts. */
  lemma StripAroundNonDigit(pre: string, x: char, post: string)
    requires !IsDigit(x)
    ensures DigitsOf(pre + [x] + post) == DigitsOf(pre) + DigitsOf(post)
  {
    assert pre + [x] + post == pre + ([x] + post);
    DigitsOfConcat(pre, [x] + post);
    assert ([x] + post)[1..] == post;
  }

  /** A string is its prefix, one character and its suffix; updating that
      character replaces only the middle piece. */
  lemma SplitAround(s: string, i: nat, c: char)
    requires i < |s|
    ensures s == s[..i] + [s[i]] + s[i + 1..]
    ensures s[i := c] == s[..i] + [c] + s[i + 1..]
  {
  }

  /** Updating at the join replaces the middle character of a three-piece string. */
  lemma ReplaceMiddle(a: string, x: char, y: char, b: string)
    ensures (a + [x] + b)[|a|] == x
    ensures (a + [x] + b)[|a| := y] == a + [y] + b
  {
  }

  lemma StripDigitThenRest(c: char, rest: string)
    requires IsDigit(c)
    ensures DigitsOf([c] + rest) == [c] + DigitsOf(rest)
  {
    assert ([c] + rest)[1..] == rest;
  }
}
