/** The field checks run before a stream is added, edited or saved. */
module Validator {
  import opened Wrappers
  import opened Text
  import opened Records

  const UrlRequired := "Stream URL is required."
  const UrlInvalid := "Stream URL is not valid."
  const NameRequired := "Stream name is required."
  const BitrateRequired := "Bitrate is required."
  const BitrateNotNumber := "Bitrate must be a number."

  /** What follows `scheme://` opens a non-empty network location: the
      location runs up to the first `/`, `?` or `#`. */
  predicate HasHost(rest: string)
  {
    |rest| > 0 && rest[0] != '/' && rest[0] != '?' && rest[0] != '#'
  }

  /** `urlparse(url).scheme in ("http", "https") and bool(urlparse(url).netloc)`:
      the scheme, compared without regard to case, is `http` or `https`, and
      `//` and a non-empty network location follow it. */
  predicate IsValidUrl(url: string)
  {
    var lower := Lower(url);
    || (StartsWith(lower, "http://") && HasHost(url[7..]))
    || (StartsWith(lower, "https://") && HasHost(url[8..]))
  }

  /** Digits with single underscores between them, as Python's `int()` accepts. */
  predicate IsDigitGroup(d: string)
  {
    && |d| > 0
    && IsDigit(d[0])
    && IsDigit(d[|d| - 1])
    && forall i | 0 <= i < |d| :: IsDigit(d[i]) || (d[i] == '_' && i + 1 < |d| && IsDigit(d[i + 1]))
  }

  /** The characters `int()` skips around the digits: ASCII space and
      `\t\n\v\f\r`, and the non-ASCII characters `str.isspace` accepts.
      The separators U+001C to U+001F, which `str.strip` removes, are not
      among them. */
  predicate IsIntSpace(c: char)
  {
    IsWhitespace(c) && !('\U{1C}' <= c <= '\U{1F}')
  }

  /** `int(text)` succeeds: surrounding whitespace, an optional sign, then a
      digit group, of any length (no limit on the number of digits). */
  predicate IsInteger(text: string)
  {
    var t := TrimRight(TrimLeft(text, IsIntSpace), IsIntSpace);
    var digits := if |t| > 0 && (t[0] == '+' || t[0] == '-') then t[1..] else t;
    IsDigitGroup(digits)
  }

  /** `str.strip` removes a leading information separator (U+001C to
      U+001F), whatever follows it. */
  lemma SeparatorLeadStripped(sep: char, t: string)
    requires '\U{1C}' <= sep <= '\U{1F}'
    ensures Strip([sep] + t) == Strip(t)
  {
    assert ([sep] + t)[1..] == t;
  }

  /** `int()` does not skip an information separator, so no text that
      starts with one is a number. */
  lemma SeparatorLeadNotInteger(text: string)
    requires |text| > 0 && '\U{1C}' <= text[0] <= '\U{1F}'
    ensures !IsInteger(text)
  {
    assert TrimLeft(text, IsIntSpace) == text;
    TrimRightIsPrefix(text, IsIntSpace);
    var t := TrimRight(text, IsIntSpace);
    assert t == "" || t[0] == text[0];
  }

  /** A bitrate made of a separator and some non-blank text passes the blank
      check, since `str.strip` removes the separator, yet `int()` refuses it:
      the validator reports it as not a number once the earlier checks pass. */
  lemma SeparatorBitrateRejected(s: Stream, sep: char, rest: string)
    requires Strip(s.url) != "" && IsValidUrl(Strip(s.url)) && Strip(s.name) != ""
    requires '\U{1C}' <= sep <= '\U{1F}' && s.bitrate == [sep] + rest && Strip(rest) != ""
    ensures Validate(s) == Some(BitrateNotNumber)
  {
    SeparatorLeadStripped(sep, rest);
    SeparatorLeadNotInteger(s.bitrate);
  }

  /** The instance: URL `http://a`, name `n`, bitrate U+001C then `5`. */
  lemma SeparatorBitrateExample()
    ensures Validate(Stream("http://a", "n", "", "", "\U{1C}5", "")) == Some(BitrateNotNumber)
  {
    SampleUrlValid();
    assert Strip("n") == "n";
    assert Strip("5") == "5";
    assert "\U{1C}5" == ['\U{1C}'] + "5";
    SeparatorBitrateRejected(Stream("http://a", "n", "", "", "\U{1C}5", ""), '\U{1C}', "5");
  }

  lemma SampleUrlValid()
    ensures Strip("http://a") == "http://a" && IsValidUrl("http://a")
  {
    assert TrimRight("http://a", IsWhitespace) == "http://a";
  }

  /** `validate_stream`: the message of the first check that fails, or `None`. */
  function Validate(s: Stream): Option<string>
  {
    if Strip(s.url) == "" then Some(UrlRequired)
    else if !IsValidUrl(Strip(s.url)) then Some(UrlInvalid)
    else if Strip(s.name) == "" then Some(NameRequired)
    else if Strip(s.bitrate) == "" then Some(BitrateRequired)
    else if !IsInteger(s.bitrate) then Some(BitrateNotNumber)
    else None
  }

  // An independent statement of the five rules, in their documented order.

  const RuleCount := 5

  predicate Rule(k: nat, s: Stream)
    requires k < RuleCount
  {
    match k
    case 0 => !IsBlank(s.url)
    case 1 => IsValidUrl(Strip(s.url))
    case 2 => !IsBlank(s.name)
    case 3 => !IsBlank(s.bitrate)
    case _ => IsInteger(s.bitrate)
  }

  function RuleMessage(k: nat): string
    requires k < RuleCount
  {
    [UrlRequired, UrlInvalid, NameRequired, BitrateRequired, BitrateNotNumber][k]
  }

  /** Rule `k` fails and every rule before it passes. */
  predicate FirstFailing(s: Stream, k: nat)
  {
    k < RuleCount && !Rule(k, s) && forall j: nat | j < k :: Rule(j, s)
  }

  predicate AllRulesPass(s: Stream)
  {
    forall k: nat | k < RuleCount :: Rule(k, s)
  }

  /** The validator accepts exactly the streams that pass every rule. */
  lemma ValidateNoneIffAllPass(s: Stream)
    ensures Validate(s) == None <==> AllRulesPass(s)
  {
    StripEmptyIffBlank(s.url);
    StripEmptyIffBlank(s.name);
    StripEmptyIffBlank(s.bitrate);
    if Validate(s) == None {
      forall k: nat | k < RuleCount
        ensures Rule(k, s)
      {
      }
    } else {
      assert !Rule(0, s) || !Rule(1, s) || !Rule(2, s) || !Rule(3, s) || !Rule(4, s);
    }
  }

  /** The validator reports rule `k` exactly when rule `k` is the first to fail. */
  lemma ValidateReportsFirstFailing(s: Stream, k: nat)
    requires k < RuleCount
    ensures Validate(s) == Some(RuleMessage(k)) <==> FirstFailing(s, k)
  {
    StripEmptyIffBlank(s.url);
    StripEmptyIffBlank(s.name);
    StripEmptyIffBlank(s.bitrate);
    assert FirstFailing(s, k) <==> !Rule(k, s) && forall j: nat | j < k :: Rule(j, s);
    if k >= 1 && FirstFailing(s, k) { assert Rule(0, s); }
    if k >= 2 && FirstFailing(s, k) { assert Rule(1, s); }
    if k >= 3 && FirstFailing(s, k) { assert Rule(2, s); }
    if k >= 4 && FirstFailing(s, k) { assert Rule(3, s); }
  }

  /** Every rejection names some first failing rule. */
  lemma ValidateRejectsWithFirstFailing(s: Stream)
    requires Validate(s).Some?
    ensures exists k: nat :: FirstFailing(s, k) && Validate(s) == Some(RuleMessage(k))
  {
    var k: nat := if Validate(s) == Some(UrlRequired) then 0
      else if Validate(s) == Some(UrlInvalid) then 1
      else if Validate(s) == Some(NameRequired) then 2
      else if Validate(s) == Some(BitrateRequired) then 3
      else 4;
    ValidateReportsFirstFailing(s, k);
  }
}
