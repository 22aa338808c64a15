/**
 * The short-code policy and the string helpers of the URL shortener
 * (utils.py): code generation from drawn random values, the format gate
 * for codes, trimming of custom codes, building of the short URL and
 * acceptance of a long URL.
 */
module Utils {

  /* ---------------------------------------------------------------- */
  /* Character classes                                                 */
  /* ---------------------------------------------------------------- */

  /** The letters and digits of ASCII: the characters a short code is meant to use. */
  predicate IsAsciiAlnum(c: char) {
    ('a' <= c <= 'z') || ('A' <= c <= 'Z') || ('0' <= c <= '9')
  }

  /**
   * Characters of the Latin-1 Supplement (U+0080 to U+00FF) for which
   * Python's `str.isalnum` holds: the ordinal indicators, the superscript
   * digits, the micro sign, the vulgar fractions and the accented letters
   * (every code point from U+00C0 on except the signs U+00D7 and U+00F7).
   */
  predicate IsLatin1Alnum(c: char) {
    var n := c as int;
    n == 0xAA || n == 0xB2 || n == 0xB3 || n == 0xB5 || n == 0xB9 || n == 0xBA
    || (0xBC <= n <= 0xBE)
    || (0xC0 <= n <= 0xFF && n != 0xD7 && n != 0xF7)
  }

  /**
   * Python's `str.isalnum` on one character, on the code points up to
   * U+00FF. It holds of every ASCII letter and digit, and of more. Code
   * points above U+00FF count as not alphanumeric here.
   */
  predicate IsAlnum(c: char) {
    IsAsciiAlnum(c) || IsLatin1Alnum(c)
  }

  /**
   * Python's `str.isspace` on one character: the characters `str.strip()`
   * removes when given no argument.
   */
  predicate IsSpace(c: char) {
    var n := c as int;
    (0x09 <= n <= 0x0D) || (0x1C <= n <= 0x20) || n == 0x85 || n == 0xA0
    || n == 0x1680 || (0x2000 <= n <= 0x200A) || n == 0x2028 || n == 0x2029
    || n == 0x202F || n == 0x205F || n == 0x3000
  }

  predicate IsSlash(c: char) {
    c == '/'
  }

  predicate IsNotSlash(c: char) {
    c != '/'
  }

  /* ---------------------------------------------------------------- */
  /* Generic string helpers                                            */
  /* ---------------------------------------------------------------- */

  /** Every character of `s` is alphanumeric; true of the empty string. */
  function AllAlnum(s: string): (ok: bool)
    ensures ok <==> forall i :: 0 <= i < |s| ==> IsAlnum(s[i])
  {
    if s == [] then true else IsAlnum(s[0]) && AllAlnum(s[1..])
  }

  /** Python's `str.isalnum` on a whole string, up to U+00FF: non-empty and every character alphanumeric. */
  function StrIsAlnum(s: string): (ok: bool)
    ensures ok <==> |s| > 0 && forall i :: 0 <= i < |s| ==> IsAlnum(s[i])
  {
    s != [] && AllAlnum(s)
  }

  /** Length of the longest prefix of `s` whose characters all satisfy `p`. */
  function LeadingRun(s: string, p: char -> bool): (n: nat)
    ensures n <= |s|
    ensures forall k :: 0 <= k < n ==> p(s[k])
    ensures n < |s| ==> !p(s[n])
  {
    if s == [] || !p(s[0]) then 0 else 1 + LeadingRun(s[1..], p)
  }

  /** Length of the longest suffix of `s` whose characters all satisfy `p`. */
  function TrailingRun(s: string, p: char -> bool): (n: nat)
    ensures n <= |s|
    ensures forall k :: |s| - n <= k < |s| ==> p(s[k])
    ensures n < |s| ==> !p(s[|s| - 1 - n])
  {
    if s == [] || !p(s[|s| - 1]) then 0 else 1 + TrailingRun(s[..|s| - 1], p)
  }

  /** `s` is a prefix of `t` (Python's `t.startswith(s)`). */
  predicate StartsWith(t: string, s: string) {
    |s| <= |t| && t[..|s|] == s
  }

  /** `s` is a suffix of `t` (Python's `t.endswith(s)`). */
  predicate EndsWith(t: string, s: string) {
    |s| <= |t| && t[|t| - |s|..] == s
  }

  /**
   * `r` is what stripping the whitespace of both ends of `s` leaves: a
   * contiguous slice of `s`, everything cut off before and after it is
   * whitespace, and the slice neither starts nor ends with whitespace.
   */
  ghost predicate IsStripOf(s: string, r: string) {
    exists i, j ::
      && 0 <= i <= j <= |s|
      && r == s[i..j]
      && (forall k :: 0 <= k < i ==> IsSpace(s[k]))
      && (forall k :: j <= k < |s| ==> IsSpace(s[k]))
      && (r != [] ==> !IsSpace(r[0]) && !IsSpace(r[|r| - 1]))
  }

  /** Python's `str.strip()` with no argument. */
  function Strip(s: string): (r: string)
    ensures |r| <= |s|
    ensures r == [] || (!IsSpace(r[0]) && !IsSpace(r[|r| - 1]))
    ensures IsStripOf(s, r)
  {
    var i := LeadingRun(s, IsSpace);
    var t := s[i..];
    var j := i + |t| - TrailingRun(t, IsSpace);
    assert t[..|t| - TrailingRun(t, IsSpace)] == s[i..j];
    s[i..j]
  }

  /** Python's `str.rstrip(chars)` where `chars` is the set of characters satisfying `p`. */
  function RStrip(s: string, p: char -> bool): (r: string)
    ensures StartsWith(s, r)
    ensures r == [] || !p(r[|r| - 1])
    ensures forall k :: |r| <= k < |s| ==> p(s[k])
  {
    s[..|s| - TrailingRun(s, p)]
  }

  /** A run of `k` slashes. */
  function Slashes(k: nat): (s: string)
    ensures |s| == k && forall i :: 0 <= i < k ==> s[i] == '/'
  {
    if k == 0 then [] else Slashes(k - 1) + "/"
  }

  /* ---------------------------------------------------------------- */
  /* The code alphabet and generation                                  */
  /* ---------------------------------------------------------------- */

  /** Default length bounds of a generated code, and the bounds every valid code keeps to. */
  const MinCodeLength: nat := 5
  const MaxCodeLength: nat := 10

  const AlphabetSize: nat := 62

  /** The `i`-th character of `ascii_letters + digits`: lower case, upper case, then digits. */
  function AlphabetChar(i: nat): (c: char)
    requires i < AlphabetSize
    ensures IsAsciiAlnum(c)
  {
    if i < 26 then ('a' as int + i) as char
    else if i < 52 then ('A' as int + (i - 26)) as char
    else ('0' as int + (i - 52)) as char
  }

  /** The 62-character alphabet random codes are drawn from: `ascii_letters + digits`, a-z, A-Z, 0-9 in that order. */
  const Alphabet: string := AlphabetPrefix(AlphabetSize)

  /** The first `n` characters of the alphabet. */
  function AlphabetPrefix(n: nat): (s: string)
    requires n <= AlphabetSize
    ensures |s| == n && forall i :: 0 <= i < n ==> s[i] == AlphabetChar(i)
  {
    if n == 0 then [] else AlphabetPrefix(n - 1) + [AlphabetChar(n - 1)]
  }

  /** Position of an ASCII letter or digit in the alphabet: the inverse of AlphabetChar. */
  function AlphabetIndex(c: char): (i: nat)
    requires IsAsciiAlnum(c)
    ensures i < AlphabetSize && AlphabetChar(i) == c
  {
    if 'a' <= c <= 'z' then c as int - 'a' as int
    else if 'A' <= c <= 'Z' then 26 + (c as int - 'A' as int)
    else 52 + (c as int - '0' as int)
  }

  /** A character is in the alphabet exactly when it is an ASCII letter or digit. */
  lemma InAlphabetIffAsciiAlnum(c: char)
    ensures c in Alphabet <==> IsAsciiAlnum(c)
  {
    if IsAsciiAlnum(c) {
      assert Alphabet[AlphabetIndex(c)] == c;
    }
  }

  /**
   * The random values one call of `generate_short_code` draws: the length
   * that `random.randint` picked and, for each position, the index into the
   * alphabet that `random.choices` picked.
   */
  datatype CodeDraw = CodeDraw(length: nat, picks: seq<nat>)

  /** What `randint(minLength, maxLength)` and `choices(alphabet, k = length)` can produce. */
  predicate IsDrawFor(minLength: int, maxLength: int, d: CodeDraw) {
    && minLength <= d.length <= maxLength
    && |d.picks| == d.length
    && forall i :: 0 <= i < |d.picks| ==> d.picks[i] < AlphabetSize
  }

  /** `generate_short_code(minLength, maxLength)` given the values it drew. */
  function GenerateShortCode(minLength: int, maxLength: int, d: CodeDraw): (code: string)
    requires IsDrawFor(minLength, maxLength, d)
    ensures minLength <= |code| <= maxLength
    ensures forall i :: 0 <= i < |code| ==> code[i] in Alphabet
  {
    seq(d.length, i requires 0 <= i < d.length => Alphabet[d.picks[i]])
  }

  /** The alphabet positions of the characters of `code`. */
  function PicksOf(code: string): (picks: seq<nat>)
    requires forall i :: 0 <= i < |code| ==> IsAsciiAlnum(code[i])
    ensures |picks| == |code|
    ensures forall i :: 0 <= i < |picks| ==> picks[i] < AlphabetSize && AlphabetChar(picks[i]) == code[i]
  {
    if code == [] then [] else [AlphabetIndex(code[0])] + PicksOf(code[1..])
  }

  /** The draw that makes GenerateShortCode produce `code`. */
  function DrawOf(code: string): (d: CodeDraw)
    requires forall i :: 0 <= i < |code| ==> IsAsciiAlnum(code[i])
    ensures d.length == |code| && |d.picks| == |code|
    ensures forall i :: 0 <= i < |d.picks| ==> d.picks[i] < AlphabetSize
  {
    CodeDraw(|code|, PicksOf(code))
  }

  /**
   * Generation reaches every code it could: any string of ASCII letters and
   * digits whose length lies within the bounds is produced by some draw.
   */
  lemma GenerateShortCodeCovers(minLength: int, maxLength: int, code: string)
    requires minLength <= |code| <= maxLength
    requires forall i :: 0 <= i < |code| ==> IsAsciiAlnum(code[i])
    ensures IsDrawFor(minLength, maxLength, DrawOf(code))
    ensures GenerateShortCode(minLength, maxLength, DrawOf(code)) == code
  {
    var d := DrawOf(code);
    var g := GenerateShortCode(minLength, maxLength, d);
    forall i | 0 <= i < |code| ensures g[i] == code[i] {
      assert g[i] == Alphabet[d.picks[i]];
    }
  }

  /* ---------------------------------------------------------------- */
  /* The format gate                                                   */
  /* ---------------------------------------------------------------- */

  /** `is_valid_short_code`: the one format check for both generated and custom codes. */
  function IsValidShortCode(code: string): (ok: bool)
    ensures ok <==> MinCodeLength <= |code| <= MaxCodeLength && forall i :: 0 <= i < |code| ==> IsAlnum(code[i])
    ensures code == [] ==> !ok
  {
    if code == [] then false
    else if |code| < 5 || |code| > 10 then false
    else StrIsAlnum(code)
  }

  /** Every code generated with the default bounds passes the format gate. */
  lemma GeneratedCodeIsValid(d: CodeDraw)
    requires IsDrawFor(MinCodeLength, MaxCodeLength, d)
    ensures IsValidShortCode(GenerateShortCode(MinCodeLength, MaxCodeLength, d))
  {
    var code := GenerateShortCode(MinCodeLength, MaxCodeLength, d);
    forall i | 0 <= i < |code| ensures IsAlnum(code[i]) {
      InAlphabetIffAsciiAlnum(code[i]);
    }
  }

  /**
   * On ASCII input the format gate accepts exactly the strings of 5 to 10
   * characters drawn from the generation alphabet, so with ASCII codes the
   * gate and the generator agree.
   */
  lemma ValidAsciiCodeIffInAlphabet(code: string)
    requires forall i :: 0 <= i < |code| ==> code[i] as int < 128
    ensures IsValidShortCode(code) <==>
              MinCodeLength <= |code| <= MaxCodeLength && forall i :: 0 <= i < |code| ==> code[i] in Alphabet
  {
    forall i | 0 <= i < |code| ensures IsAlnum(code[i]) <==> code[i] in Alphabet {
      InAlphabetIffAsciiAlnum(code[i]);
    }
  }

  /**
   * Python's `isalnum` is wider than ASCII: a code carrying an accented
   * letter passes the gate although the letter is not in the alphabet.
   */
  lemma NonAsciiCodeIsValid()
    ensures IsValidShortCode("caf\U{E9}s") && "caf\U{E9}s"[3] !in Alphabet
  {
    InAlphabetIffAsciiAlnum('\U{E9}');
  }

  /* ---------------------------------------------------------------- */
  /* Custom codes                                                      */
  /* ---------------------------------------------------------------- */

  /** `sanitize_custom_code`: only trims the whitespace of both ends. */
  function SanitizeCustomCode(code: string): (r: string)
    ensures code == [] ==> r == []
    ensures IsStripOf(code, r)
    ensures r == [] || (!IsSpace(r[0]) && !IsSpace(r[|r| - 1]))
  {
    if code == [] then
      assert code[0..0] == [];
      []
    else Strip(code)
  }

  /** Stripping leaves a string without surrounding whitespace alone. */
  lemma StripOfTrimmed(r: string)
    requires r == [] || (!IsSpace(r[0]) && !IsSpace(r[|r| - 1]))
    ensures Strip(r) == r
  {
    if r != [] {
      assert LeadingRun(r, IsSpace) == 0;
      assert TrailingRun(r, IsSpace) == 0;
    }
  }

  /** Sanitizing twice is sanitizing once. */
  lemma SanitizeIdempotent(code: string)
    ensures SanitizeCustomCode(SanitizeCustomCode(code)) == SanitizeCustomCode(code)
  {
    StripOfTrimmed(SanitizeCustomCode(code));
  }

  /* ---------------------------------------------------------------- */
  /* Short URLs                                                        */
  /* ---------------------------------------------------------------- */

  /** `format_short_url`: the base domain without trailing slashes, given a scheme if it lacks one, then the code. */
  function FormatShortUrl(baseDomain: string, shortCode: string): (url: string)
    ensures StartsWith(url, "http")
    ensures EndsWith(url, "/" + shortCode)
  {
    var base := RStrip(baseDomain, IsSlash);
    var base' := if StartsWith(base, "http") then base else "http://" + base;
    assert StartsWith(base' + "/" + shortCode, "http") by {
      assert (base' + "/" + shortCode)[..4] == base'[..4];
    }
    assert (base' + "/" + shortCode)[|base'|..] == "/" + shortCode;
    base' + "/" + shortCode
  }

  /**
   * The scheme is added exactly when the base domain, stripped of its
   * trailing slashes, does not already start with "http"; everything else of
   * the stripped base is kept as it is.
   */
  lemma FormatShortUrlScheme(baseDomain: string, shortCode: string)
    ensures var base := RStrip(baseDomain, IsSlash);
            && StartsWith(baseDomain, base)
            && (base == [] || base[|base| - 1] != '/')
            && (StartsWith(base, "http") ==> FormatShortUrl(baseDomain, shortCode) == base + "/" + shortCode)
            && (!StartsWith(base, "http") ==> FormatShortUrl(baseDomain, shortCode) == "http://" + base + "/" + shortCode)
  {
  }

  /** One more trailing slash does not change how far `rstrip('/')` cuts. */
  lemma RStripSlash(s: string)
    ensures RStrip(s + "/", IsSlash) == RStrip(s, IsSlash)
  {
    var t := s + "/";
    assert t[..|t| - 1] == s;
  }

  /** Any number of trailing slashes does not change how far `rstrip('/')` cuts. */
  lemma {:induction false} RStripSlashes(s: string, k: nat)
    ensures RStrip(s + Slashes(k), IsSlash) == RStrip(s, IsSlash)
  {
    if k > 0 {
      assert s + Slashes(k) == (s + Slashes(k - 1)) + "/";
      RStripSlash(s + Slashes(k - 1));
      RStripSlashes(s, k - 1);
    } else {
      assert s + Slashes(0) == s;
    }
  }

  /** Trailing slashes on the base domain make no difference to the short URL. */
  lemma FormatShortUrlIgnoresTrailingSlashes(baseDomain: string, k: nat, shortCode: string)
    ensures FormatShortUrl(baseDomain + Slashes(k), shortCode) == FormatShortUrl(baseDomain, shortCode)
  {
    RStripSlashes(baseDomain, k);
  }

  /** The path segment after the last slash of a URL. */
  function LastSegment(url: string): (seg: string)
    ensures EndsWith(url, seg) && forall i :: 0 <= i < |seg| ==> seg[i] != '/'
  {
    url[|url| - TrailingRun(url, IsNotSlash)..]
  }

  /**
   * The short code is recovered from the short URL as its last path segment,
   * which is what the redirect route receives; it holds for every code the
   * format gate accepts.
   */
  lemma ShortUrlLastSegment(baseDomain: string, shortCode: string)
    requires IsValidShortCode(shortCode)
    ensures LastSegment(FormatShortUrl(baseDomain, shortCode)) == shortCode
  {
    var url := FormatShortUrl(baseDomain, shortCode);
    var n := TrailingRun(url, IsNotSlash);
    forall i | 0 <= i < |shortCode| ensures shortCode[i] != '/' {
      assert IsAlnum(shortCode[i]);
    }
    assert url[|url| - 1 - |shortCode|] == '/';
    assert n == |shortCode|;
  }

  /* ---------------------------------------------------------------- */
  /* Long URLs                                                         */
  /* ---------------------------------------------------------------- */

  const UrlRequiredMessage: string := "URL is required"
  const UrlFormatMessage: string := "Invalid URL format. Please include https:// or http://"

  /** The `(is_valid, result)` pair of `validate_url`. */
  datatype UrlCheck = UrlAccepted(url: string) | UrlRejected(message: string)

  predicate HasHttpScheme(url: string) {
    StartsWith(url, "http://") || StartsWith(url, "https://")
  }

  /**
   * `validate_url`, with the `validators.url` library check passed in as
   * `isUrl`: blank input is refused, otherwise the stripped URL is accepted
   * as it is, or with "https://" in front when it has no scheme and only
   * that form passes the check.
   */
  function ValidateUrl(url: string, isUrl: string -> bool): (res: UrlCheck)
    ensures res == UrlRejected(UrlRequiredMessage) <==> Strip(url) == []
    ensures res.UrlRejected? ==> res.message == UrlRequiredMessage || res.message == UrlFormatMessage
    ensures res.UrlAccepted? <==>
              Strip(url) != [] && (isUrl(Strip(url)) || (!HasHttpScheme(Strip(url)) && isUrl("https://" + Strip(url))))
    ensures res.UrlAccepted? ==> isUrl(res.url) && res.url != []
    ensures res.UrlAccepted? ==>
              res.url == Strip(url)
              || (res.url == "https://" + Strip(url) && !isUrl(Strip(url)) && !HasHttpScheme(Strip(url)))
  {
    if url == [] || Strip(url) == [] then UrlRejected(UrlRequiredMessage)
    else
      var u := Strip(url);
      if !isUrl(u) then
        if !HasHttpScheme(u) && isUrl("https://" + u) then UrlAccepted("https://" + u)
        else UrlRejected(UrlFormatMessage)
      else UrlAccepted(u)
  }
}
