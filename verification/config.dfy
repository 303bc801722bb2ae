/** The configuration step of `lambda_handler`: four required environment
    variables read with `os.environ[...]` (a missing one raises `KeyError`),
    `AWS_REGION` defaulting to `us-east-2`, and `MAX_POSTS` defaulting to
    `'100'` and converted with `int()`, which raises `ValueError` on text
    that is not an integer literal. */
module Config {
  import opened Wrappers
  import opened Text

  const ApifyTokenVar: string := "APIFY_API_TOKEN"
  const UsernameVar: string := "INSTAGRAM_USERNAME"
  const BucketVar: string := "S3_BUCKET_NAME"
  const ModelVar: string := "MODEL_NAME"
  const RegionVar: string := "AWS_REGION"
  const MaxPostsVar: string := "MAX_POSTS"

  const DefaultRegion: string := "us-east-2"
  const DefaultMaxPosts: string := "100"

  datatype Settings = Settings(apifyToken: string, username: string, bucket: string, model: string,
                               region: string, maxPosts: int)

  datatype ConfigError = MissingVariable(name: string) | InvalidMaxPosts(text: string)

  // ----- int(text) -----

  /** Whitespace that `int()` strips, restricted to ASCII: space, tab, LF,
      VT, FF, CR and the separators 0x1C to 0x1F. */
  predicate IsSpace(c: char) {
    c == ' ' || (9 <= c as int <= 13) || (28 <= c as int <= 31)
  }

  function Strip(s: string): (r: string)
    ensures |r| == 0 || (!IsSpace(r[0]) && !IsSpace(r[|r| - 1]))
    decreases |s|
  {
    if |s| == 0 then s
    else if IsSpace(s[0]) then Strip(s[1..])
    else if IsSpace(s[|s| - 1]) then Strip(s[..|s| - 1])
    else s
  }

  /** Digits, with single underscores allowed between two digits. */
  predicate DigitGroups(s: string) {
    |s| > 0 && IsDigit(s[0]) && IsDigit(s[|s| - 1])
    && (forall i :: 0 <= i < |s| ==> IsDigit(s[i]) || s[i] == '_')
    && (forall i :: 0 <= i < |s| - 1 ==> !(s[i] == '_' && s[i + 1] == '_'))
  }

  function WithoutUnderscores(s: string): (r: string)
    ensures |r| <= |s|
  {
    if |s| == 0 then s
    else (if s[0] == '_' then [] else [s[0]]) + WithoutUnderscores(s[1..])
  }

  /** Unsigned digit groups and their value; `None` for anything else. */
  function ParseUnsigned(body: string): Option<int> {
    if DigitGroups(body) then Some(DecimalValue(WithoutUnderscores(body))) else None
  }

  /** Stripped text: an optional sign, then digit groups. */
  function ParseSigned(t: string): Option<int> {
    if |t| > 0 && t[0] == '-' then
      match ParseUnsigned(t[1..])
      case None => None
      case Some(n) => Some(-n)
    else if |t| > 0 && t[0] == '+' then ParseUnsigned(t[1..])
    else ParseUnsigned(t)
  }

  /** `int(text)` for base-10 text: surrounding whitespace, an optional sign,
      and digit groups; `None` where Python raises `ValueError`. */
  function ParseInt(text: string): (r: Option<int>)
    // An integer needs a first non-space character that is a sign or a digit,
    // and a negative one needs the minus sign.
    ensures r.Some? ==> var t := Strip(text); |t| > 0 && (IsDigit(t[0]) || t[0] == '-' || t[0] == '+')
    ensures r.Some? && r.value < 0 ==> Strip(text)[0] == '-'
  {
    ParseSigned(Strip(text))
  }

  // ----- The environment -----

  function Lookup(env: map<string, string>, name: string): Result<string, ConfigError> {
    if name in env then Success(env[name]) else Failure(MissingVariable(name))
  }

  function LookupOr(env: map<string, string>, name: string, default: string): string {
    if name in env then env[name] else default
  }

  /** The configuration block, in the order the handler evaluates it. */
  function ReadConfig(env: map<string, string>): (r: Result<Settings, ConfigError>)
    // The settings are the environment's values, with the two defaults.
    ensures r.Success? ==>
      ApifyTokenVar in env && UsernameVar in env && BucketVar in env && ModelVar in env
      && r.value.apifyToken == env[ApifyTokenVar] && r.value.username == env[UsernameVar]
      && r.value.bucket == env[BucketVar] && r.value.model == env[ModelVar]
      && r.value.region == (if RegionVar in env then env[RegionVar] else DefaultRegion)
    ensures r.Success? ==> ParseInt(if MaxPostsVar in env then env[MaxPostsVar] else DefaultMaxPosts) == Some(r.value.maxPosts)
    // A rejected `MAX_POSTS` is reported with its text, which `int()` refuses.
    ensures r.Failure? && r.error.InvalidMaxPosts? ==>
      r.error.text == (if MaxPostsVar in env then env[MaxPostsVar] else DefaultMaxPosts) && ParseInt(r.error.text).None?
  {
    var token :- Lookup(env, ApifyTokenVar);
    var username :- Lookup(env, UsernameVar);
    var bucket :- Lookup(env, BucketVar);
    var model :- Lookup(env, ModelVar);
    var region := LookupOr(env, RegionVar, DefaultRegion);
    var maxText := LookupOr(env, MaxPostsVar, DefaultMaxPosts);
    match ParseInt(maxText)
    case None => Failure(InvalidMaxPosts(maxText))
    case Some(maxPosts) => Success(Settings(token, username, bucket, model, region, maxPosts))
  }

  // ----- Properties -----

  lemma {:induction false} StripNoop(s: string)
    requires |s| > 0 && !IsSpace(s[0]) && !IsSpace(s[|s| - 1])
    ensures Strip(s) == s
  {
  }

  lemma {:induction false} WithoutUnderscoresNoop(s: string)
    requires AllDigits(s)
    ensures WithoutUnderscores(s) == s
    decreases |s|
  {
    if |s| > 0 {
      WithoutUnderscoresNoop(s[1..]);
      assert s == [s[0]] + s[1..];
    }
  }

  lemma UnsignedDigits(m: nat)
    ensures ParseUnsigned(DecimalDigits(m)) == Some(m)
  {
    var digits := DecimalDigits(m);
    assert DigitGroups(digits);
    WithoutUnderscoresNoop(digits);
    DecimalRoundTrip(m);
  }

  /** Unsigned digits parse to their value. */
  lemma ParseDigits(m: nat)
    ensures ParseInt(DecimalDigits(m)) == Some(m)
  {
    var digits := DecimalDigits(m);
    assert IsDigit(digits[0]) && IsDigit(digits[|digits| - 1]);
    StripNoop(digits);
    UnsignedDigits(m);
  }

  /** A minus sign before the digits negates them. */
  lemma ParseNegated(m: nat)
    ensures ParseInt("-" + DecimalDigits(m)) == Some(-(m as int))
  {
    var digits := DecimalDigits(m);
    var text := "-" + digits;
    assert IsDigit(digits[0]) && IsDigit(digits[|digits| - 1]);
    assert text[|text| - 1] == digits[|digits| - 1];
    StripNoop(text);
    assert text[1..] == digits;
    UnsignedDigits(m);
  }

  /** `int(str(n))` is `n`, for either sign. */
  lemma ParseIntRoundTrip(n: int)
    ensures ParseInt(if n < 0 then "-" + DecimalDigits(-n) else DecimalDigits(n)) == Some(n)
  {
    if n < 0 {
      ParseNegated(-n);
    } else {
      ParseDigits(n);
    }
  }

  /** Text without any digit is never an integer. */
  lemma NoDigitsNoInt(text: string)
    requires forall i :: 0 <= i < |text| ==> !IsDigit(text[i])
    ensures ParseInt(text) == None
  {
    var t := Strip(text);
    StripKeepsChars(text);
    var body := if |t| > 0 && (t[0] == '-' || t[0] == '+') then t[1..] else t;
    assert !DigitGroups(body) by {
      if |body| > 0 {
        assert body[0] in t;
        assert !IsDigit(body[0]);
      }
    }
    assert ParseUnsigned(body) == None;
  }

  lemma {:induction false} StripKeepsChars(s: string)
    ensures forall c :: c in Strip(s) ==> c in s
    decreases |s|
  {
    if |s| > 0 {
      if IsSpace(s[0]) {
        StripKeepsChars(s[1..]);
      } else if IsSpace(s[|s| - 1]) {
        StripKeepsChars(s[..|s| - 1]);
      }
    }
  }

  /** The default `MAX_POSTS` text is the number 100. */
  lemma DefaultMaxPostsIs100()
    ensures ParseInt(DefaultMaxPosts) == Some(100)
  {
    assert DecimalDigits(100) == DefaultMaxPosts by {
      assert DecimalDigits(1) == "1";
      assert DecimalDigits(10) == DecimalDigits(1) + "0";
    }
    ParseIntRoundTrip(100);
  }

  /** A missing required variable stops the handler, and the error names the
      first one missing in the order token, username, bucket, model. */
  lemma MissingVariableFails(env: map<string, string>)
    ensures ReadConfig(env).Failure? && ReadConfig(env).error.MissingVariable? <==>
      ApifyTokenVar !in env || UsernameVar !in env || BucketVar !in env || ModelVar !in env
    ensures ApifyTokenVar !in env ==> ReadConfig(env) == Failure(MissingVariable(ApifyTokenVar))
    ensures ApifyTokenVar in env && UsernameVar !in env ==> ReadConfig(env) == Failure(MissingVariable(UsernameVar))
    ensures ApifyTokenVar in env && UsernameVar in env && BucketVar !in env ==>
      ReadConfig(env) == Failure(MissingVariable(BucketVar))
    ensures ApifyTokenVar in env && UsernameVar in env && BucketVar in env && ModelVar !in env ==>
      ReadConfig(env) == Failure(MissingVariable(ModelVar))
  {
  }

  /** With the four required variables set and the optional ones unset, the
      region is `us-east-2` and at most 100 posts are requested. */
  lemma ConfigDefaults(env: map<string, string>)
    requires ApifyTokenVar in env && UsernameVar in env && BucketVar in env && ModelVar in env
    requires RegionVar !in env && MaxPostsVar !in env
    ensures ReadConfig(env) == Success(Settings(env[ApifyTokenVar], env[UsernameVar], env[BucketVar], env[ModelVar], "us-east-2", 100))
  {
    DefaultMaxPostsIs100();
  }
}
