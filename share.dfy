/**
 * The WhatsApp share link shown on the completion screen: the share text
 * with every space written as `%20`, after the wa.me prefix.
 */
module Share {

  function DigitChar(d: nat): (c: char)
    requires d < 10
    ensures '0' <= c <= '9'
  {
    ('0' as int + d) as char
  }

  predicate IsDigit(c: char)
  {
    '0' <= c <= '9'
  }

  /** Python's `str(n)` for a non-negative integer: no leading zero, except for 0 itself. */
  function DecimalString(n: nat): (r: string)
    ensures |r| >= 1
    ensures forall i :: 0 <= i < |r| ==> IsDigit(r[i])
    ensures r[0] == '0' ==> n == 0
  {
    if n < 10 then [DigitChar(n)] else DecimalString(n / 10) + [DigitChar(n % 10)]
  }

  function DigitValue(c: char): (d: nat)
    requires IsDigit(c)
    ensures d < 10
  {
    c as int - '0' as int
  }

  /** The number a string of decimal digits denotes. */
  function DecimalValue(s: string): nat
    requires forall i :: 0 <= i < |s| ==> IsDigit(s[i])
    decreases |s|
  {
    if s == [] then 0
    else 10 * DecimalValue(s[..|s| - 1]) + DigitValue(s[|s| - 1])
  }

  /** The printed score reads back as the score. */
  lemma {:induction false} DecimalRoundTrip(n: nat)
    ensures DecimalValue(DecimalString(n)) == n
  {
    if n >= 10 {
      DecimalRoundTrip(n / 10);
      var s := DecimalString(n / 10);
      assert (s + [DigitChar(n % 10)])[..|s|] == s;
    }
  }

  /** Python's `text.replace(' ', '%20')`. */
  function EncodeSpaces(s: string): (r: string)
    ensures ' ' !in r
    ensures |r| >= |s|
  {
    if s == [] then []
    else (if s[0] == ' ' then "%20" else [s[0]]) + EncodeSpaces(s[1..])
  }

  /** Replaces each `%20` by a space, reading left to right. */
  function DecodeSpaces(t: string): string
    decreases |t|
  {
    if t == [] then []
    else if |t| >= 3 && t[..3] == "%20" then [' '] + DecodeSpaces(t[3..])
    else [t[0]] + DecodeSpaces(t[1..])
  }

  /** Encoding works character by character. */
  lemma {:induction false} EncodeSpacesAppend(a: string, b: string)
    ensures EncodeSpaces(a + b) == EncodeSpaces(a) + EncodeSpaces(b)
  {
    if a == [] {
      assert a + b == b;
    } else {
      var t := a[1..];
      var head := if a[0] == ' ' then "%20" else [a[0]];
      calc {
        EncodeSpaces(a + b);
        { assert (a + b)[0] == a[0] && (a + b)[1..] == t + b; }
        head + EncodeSpaces(t + b);
        { EncodeSpacesAppend(t, b); }
        head + (EncodeSpaces(t) + EncodeSpaces(b));
        (head + EncodeSpaces(t)) + EncodeSpaces(b);
        EncodeSpaces(a) + EncodeSpaces(b);
      }
    }
  }

  /** A space becomes `%20`; every other character is kept as it is. */
  lemma EncodeSpacesChar(c: char)
    ensures EncodeSpaces([c]) == if c == ' ' then "%20" else [c]
  {
  }

  /** A text without `%` is recovered from its encoding. */
  lemma {:induction false} DecodeEncode(s: string)
    requires '%' !in s
    ensures DecodeSpaces(EncodeSpaces(s)) == s
  {
    if s != [] {
      var rest := EncodeSpaces(s[1..]);
      assert '%' !in s[1..];
      DecodeEncode(s[1..]);
      if s[0] == ' ' {
        var t := "%20" + rest;
        assert t[..3] == "%20" && t[3..] == rest;
      } else {
        var t := [s[0]] + rest;
        assert t[0] == s[0] && t[1..] == rest;
      }
    }
  }

  /**
   * The fixed text after the score in the share message (app.py:194).
   * It is written in pieces so that the verifier can look inside the literal.
   */
  const ShareSuffix: string := "/10 on SainsQuiz SPM Science!" + " Can you beat me? " + "https://sainsquiz.streamlit.app"
  const LinkPrefix: string := "https://wa.me/?text="

  /**
   * The share text; it always says "/10", whatever the quiz length. After
   * "I scored " come decimal digits, up to the fixed suffix, and they read
   * back as the score.
   */
  function ShareText(score: nat): (r: string)
    ensures |r| > 9 + |ShareSuffix| && r[..9] == "I scored "
    ensures r[9..|r| - |ShareSuffix|] == DecimalString(score)
    ensures forall i :: 9 <= i < |r| - |ShareSuffix| ==> IsDigit(r[i])
    ensures DecimalValue(r[9..|r| - |ShareSuffix|]) == score
    ensures r[|r| - |ShareSuffix|..] == ShareSuffix
  {
    var digits := DecimalString(score);
    var text := "I scored " + digits + ShareSuffix;
    assert text[9..|text| - |ShareSuffix|] == digits;
    assert text[|text| - |ShareSuffix|..] == ShareSuffix;
    DecimalRoundTrip(score);
    text
  }

  function WhatsAppLink(score: nat): (r: string)
    ensures ' ' !in r
  {
    LinkPrefix + EncodeSpaces(ShareText(score))
  }

  /** The share text never contains `%`. */
  lemma ShareTextNoPercent(score: nat)
    ensures '%' !in ShareText(score)
  {
    var digits := DecimalString(score);
    assert '%' !in digits by {
      forall i | 0 <= i < |digits| ensures digits[i] != '%' {
        assert IsDigit(digits[i]);
      }
    }
    assert '%' !in "I scored ";
    assert '%' !in "/10 on SainsQuiz SPM Science!";
    assert '%' !in " Can you beat me? ";
    assert '%' !in "https://sainsquiz.streamlit.app";
    assert '%' !in ShareSuffix;
    assert ShareText(score) == "I scored " + digits + ShareSuffix;
  }

  /** The link carries the share text, and decoding its query recovers it exactly. */
  lemma ShareLinkRecoversText(score: nat)
    ensures |WhatsAppLink(score)| >= |LinkPrefix|
    ensures WhatsAppLink(score)[..|LinkPrefix|] == LinkPrefix
    ensures DecodeSpaces(WhatsAppLink(score)[|LinkPrefix|..]) == ShareText(score)
  {
    ShareTextNoPercent(score);
    DecodeEncode(ShareText(score));
    var link := WhatsAppLink(score);
    assert link[|LinkPrefix|..] == EncodeSpaces(ShareText(score));
  }
}
