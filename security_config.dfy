/**
 * The security settings of the admin-setup endpoints, read from the
 * environment (given here as a map of variable names to values), and the
 * IP allow-list built from them.
 */
module SecurityConfig {
  import opened Wrappers
  import opened Strings

  /** `os.getenv(name, default)`. */
  function EnvOr(env: map<string, string>, name: string, default: string): string
  {
    if name in env then env[name] else default
  }

  /** `os.getenv(name, default).lower() == 'true'`. */
  predicate Flag(env: map<string, string>, name: string, default: string)
  {
    Lower(EnvOr(env, name, default)) == "true"
  }

  /** A flag holds exactly when its value spells `true` in any case. */
  lemma FlagSpellings(env: map<string, string>, name: string)
    ensures name !in env ==> (Flag(env, name, "true") && !Flag(env, name, "false"))
    ensures name in env && env[name] == "TRUE" ==> Flag(env, name, "false")
    ensures name in env && env[name] == "yes" ==> !Flag(env, name, "true")
    ensures name in env && env[name] == "1" ==> !Flag(env, name, "true")
  {
    assert Lower("true") == "true";
    assert Lower("false") == "false";
    assert Lower("TRUE") == "true";
    assert Lower("yes") == "yes";
    assert Lower("1") == "1";
  }

  /** `int(text)` for a plain run of digits; `None` is the `ValueError` that stops the import. */
  function IntOf(text: string): (r: Option<int>)
    ensures r.Some? <==> text != [] && AllChars(text, IsDigit)
    ensures r.Some? && text[0] != '0' ==> r.value >= 0 && NatToString(r.value) == text
  {
    if text != [] && AllChars(text, IsDigit) then
      var v := DigitsValue(text);
      DigitsRoundTrip(text);
      Some(v)
    else None
  }

  /** Reading a digit run without leading zero and printing it back gives the text. */
  lemma {:induction false} DigitsRoundTrip(text: string)
    requires text != [] && AllChars(text, IsDigit)
    ensures NatToString(DigitsValue(text)) == text || text[0] == '0'
  {
    if |text| > 1 && text[0] != '0' {
      var init := text[..|text| - 1];
      DigitsRoundTrip(init);
      DigitsValueLarge(init);
      var v := DigitsValue(text);
      assert v / 10 == DigitsValue(init) && v % 10 == DigitValue(text[|text| - 1]);
      assert text == init + [text[|text| - 1]];
    } else if |text| == 1 {
      assert text == [DigitChar(DigitValue(text[0]))];
    }
  }

  lemma {:induction false} DigitsValueLarge(text: string)
    requires text != [] && AllChars(text, IsDigit) && text[0] != '0'
    ensures DigitsValue(text) >= 1
  {
    if |text| > 1 {
      DigitsValueLarge(text[..|text| - 1]);
    }
  }

  /** The settings the admin-setup gates read. */
  datatype Config = Config(
    ipWhitelist: seq<string>,
    requireHttps: bool,
    rateLimitEnabled: bool,
    rateLimitRequests: int,
    rateLimitWindowMinutes: int,
    maxSetupAttempts: int,
    setupWindowMinutes: int,
    passwordMinLength: int,
    requireSpecial: bool,
    requireUppercase: bool,
    requireLowercase: bool,
    requireNumbers: bool,
    csrfTokenLength: int)

  /** Whether every integer setting, or its default, is a number `int` accepts. */
  predicate NumbersParse(env: map<string, string>)
  {
    IntOf(EnvOr(env, "RATE_LIMIT_REQUESTS", "50")).Some?
    && IntOf(EnvOr(env, "RATE_LIMIT_WINDOW_MINUTES", "1")).Some?
    && IntOf(EnvOr(env, "MAX_SETUP_ATTEMPTS", "3")).Some?
    && IntOf(EnvOr(env, "SETUP_WINDOW_MINUTES", "15")).Some?
    && IntOf(EnvOr(env, "PASSWORD_MIN_LENGTH", "12")).Some?
    && IntOf(EnvOr(env, "CSRF_TOKEN_LENGTH", "32")).Some?
  }

  /** `SECURITY_CONFIG`; `None` when one of the integer settings is not a number. */
  function Load(env: map<string, string>): (r: Option<Config>)
    ensures r.Some? <==> NumbersParse(env)
    ensures r.Some? ==> r.value.ipWhitelist == Split(EnvOr(env, "ADMIN_SETUP_IP_WHITELIST", ""), ',')
    ensures r.Some? ==> r.value.requireHttps == Flag(env, "REQUIRE_HTTPS", "false")
    ensures r.Some? ==> r.value.rateLimitEnabled == Flag(env, "RATE_LIMIT_ENABLED", "true")
    ensures r.Some? ==> r.value.rateLimitRequests == IntOf(EnvOr(env, "RATE_LIMIT_REQUESTS", "50")).value
    ensures r.Some? ==> r.value.rateLimitWindowMinutes == IntOf(EnvOr(env, "RATE_LIMIT_WINDOW_MINUTES", "1")).value
    ensures r.Some? ==> r.value.maxSetupAttempts == IntOf(EnvOr(env, "MAX_SETUP_ATTEMPTS", "3")).value
    ensures r.Some? ==> r.value.setupWindowMinutes == IntOf(EnvOr(env, "SETUP_WINDOW_MINUTES", "15")).value
    ensures r.Some? ==> r.value.passwordMinLength == IntOf(EnvOr(env, "PASSWORD_MIN_LENGTH", "12")).value
    ensures r.Some? ==> r.value.requireSpecial == Flag(env, "PASSWORD_REQUIRE_SPECIAL", "true")
    ensures r.Some? ==> r.value.requireUppercase == Flag(env, "PASSWORD_REQUIRE_UPPERCASE", "true")
    ensures r.Some? ==> r.value.requireLowercase == Flag(env, "PASSWORD_REQUIRE_LOWERCASE", "true")
    ensures r.Some? ==> r.value.requireNumbers == Flag(env, "PASSWORD_REQUIRE_NUMBERS", "true")
    ensures r.Some? ==> r.value.csrfTokenLength == IntOf(EnvOr(env, "CSRF_TOKEN_LENGTH", "32")).value
  {
    var requests := IntOf(EnvOr(env, "RATE_LIMIT_REQUESTS", "50"));
    var window := IntOf(EnvOr(env, "RATE_LIMIT_WINDOW_MINUTES", "1"));
    var attempts := IntOf(EnvOr(env, "MAX_SETUP_ATTEMPTS", "3"));
    var setupWindow := IntOf(EnvOr(env, "SETUP_WINDOW_MINUTES", "15"));
    var minLength := IntOf(EnvOr(env, "PASSWORD_MIN_LENGTH", "12"));
    var csrf := IntOf(EnvOr(env, "CSRF_TOKEN_LENGTH", "32"));
    if requests.None? || window.None? || attempts.None? || setupWindow.None? || minLength.None? || csrf.None? then None
    else Some(Config(
      Split(EnvOr(env, "ADMIN_SETUP_IP_WHITELIST", ""), ','),
      Flag(env, "REQUIRE_HTTPS", "false"),
      Flag(env, "RATE_LIMIT_ENABLED", "true"),
      requests.value, window.value, attempts.value, setupWindow.value, minLength.value,
      Flag(env, "PASSWORD_REQUIRE_SPECIAL", "true"),
      Flag(env, "PASSWORD_REQUIRE_UPPERCASE", "true"),
      Flag(env, "PASSWORD_REQUIRE_LOWERCASE", "true"),
      Flag(env, "PASSWORD_REQUIRE_NUMBERS", "true"),
      csrf.value))
  }

  /** With nothing set: no whitelist, no HTTPS, 50 requests a minute, 3 setup attempts in 15 minutes, 12-character passwords with every class required. */
  lemma Defaults()
    ensures Load(map[]) == Some(Config([""], false, true, 50, 1, 3, 15, 12, true, true, true, true, 32))
  {
    DefaultNumbers();
    DefaultFlags();
  }

  lemma DefaultFlags()
    ensures forall name :: Flag(map[], name, "true") && !Flag(map[], name, "false")
  {
    assert Lower("true") == "true";
    assert Lower("false") == "false";
  }

  lemma DefaultNumbers()
    ensures IntOf("50") == Some(50) && IntOf("1") == Some(1) && IntOf("3") == Some(3)
    ensures IntOf("15") == Some(15) && IntOf("12") == Some(12) && IntOf("32") == Some(32)
  {
    TwoDigits('5', '0');
    TwoDigits('1', '5');
    TwoDigits('1', '2');
    TwoDigits('3', '2');
  }

  lemma TwoDigits(a: char, b: char)
    requires IsDigit(a) && IsDigit(b)
    ensures DigitsValue([a, b]) == DigitValue(a) * 10 + DigitValue(b)
  {
    assert [a, b][..1] == [a];
    assert [a][..0] == [];
    assert DigitsValue([a]) == DigitValue(a);
  }

  /** `get_allowed_ips`: the entries stripped, empty ones dropped, in order. */
  function AllowedIps(raw: seq<string>): (r: seq<string>)
    ensures |r| <= |raw|
    ensures forall k :: 0 <= k < |r| ==> Stripped(r[k])
  {
    if raw == [] then []
    else
      var ip := Trim(raw[0]);
      var rest := AllowedIps(raw[1..]);
      TrimIdempotent(raw[0]);
      if ip == [] then rest else [ip] + rest
  }

  /** A non-empty entry with no surrounding whitespace. */
  predicate Stripped(ip: string)
  {
    ip != [] && Trim(ip) == ip
  }

  /** Some entry strips to `ip`. */
  predicate StripsTo(raw: seq<string>, ip: string)
  {
    exists k :: 0 <= k < |raw| && Trim(raw[k]) == ip
  }

  /** Some entry strips to `ip` exactly when the first one does or one of the others does. */
  lemma StripsToCons(raw: seq<string>, ip: string)
    requires raw != []
    ensures StripsTo(raw, ip) <==> Trim(raw[0]) == ip || StripsTo(raw[1..], ip)
  {
    if StripsTo(raw[1..], ip) {
      var k :| 0 <= k < |raw[1..]| && Trim(raw[1..][k]) == ip;
      assert Trim(raw[k + 1]) == ip;
    }
    if StripsTo(raw, ip) {
      var k :| 0 <= k < |raw| && Trim(raw[k]) == ip;
      if k > 0 {
        assert raw[1..][k - 1] == raw[k];
      }
    }
  }

  /** An address is listed exactly when it is non-empty and some entry strips to it. */
  lemma {:induction false} AllowedIpsMembers(raw: seq<string>, ip: string)
    ensures ip in AllowedIps(raw) <==> ip != "" && StripsTo(raw, ip)
  {
    if raw != [] {
      AllowedIpsMembers(raw[1..], ip);
      StripsToCons(raw, ip);
    }
  }

  /** `is_ip_allowed`: every address when the cleaned list is empty, otherwise exact membership. */
  predicate IsIpAllowed(raw: seq<string>, ip: string)
  {
    var allowed := AllowedIps(raw);
    allowed == [] || ip in allowed
  }

  /** The address is refused exactly when some entry is listed and none of them, stripped, is the address. */
  lemma IpAllowedIff(raw: seq<string>, ip: string)
    ensures !IsIpAllowed(raw, ip) <==>
      (exists k :: 0 <= k < |raw| && Trim(raw[k]) != "")
      && !(ip != "" && StripsTo(raw, ip))
  {
    var allowed := AllowedIps(raw);
    AllowedIpsMembers(raw, ip);
    if allowed != [] {
      AllowedIpsMembers(raw, allowed[0]);
    }
    if exists k :: 0 <= k < |raw| && Trim(raw[k]) != "" {
      var k :| 0 <= k < |raw| && Trim(raw[k]) != "";
      AllowedIpsMembers(raw, Trim(raw[k]));
    }
  }

  /** The default `''` splits into one empty entry, so every address may run the setup. */
  lemma DefaultAllowsEveryone(ip: string)
    ensures IsIpAllowed(Load(map[]).value.ipWhitelist, ip)
  {
    Defaults();
    assert Trim("") == "";
  }

  /** Spaces after the commas do not matter: `a, b` lets in exactly `a` and `b`. */
  lemma WhitelistStripsEntries(a: string, b: string, ip: string)
    requires Stripped(a) && Stripped(b) && ',' !in a && ',' !in b
    ensures IsIpAllowed(Split(a + ", " + b, ','), ip) <==> ip == a || ip == b
  {
    var padded := " " + b;
    assert a + ", " + b == a + "," + padded;
    assert ',' !in padded;
    SplitTwo(a, padded);
    LeadingSpaceStripped(b);
    AllowedTwo(a, padded);
  }

  /** One space before a stripped entry is stripped off. */
  lemma LeadingSpaceStripped(b: string)
    requires Stripped(b)
    ensures Trim(" " + b) == b
  {
    TrimLeftSpaces(" ", b);
    assert TrimRight(TrimLeft(b)) == b;
  }

  /** Two entries that both strip to something non-empty are both listed, in order. */
  lemma AllowedTwo(a: string, b: string)
    requires Trim(a) != [] && Trim(b) != []
    ensures AllowedIps([a, b]) == [Trim(a), Trim(b)]
  {
    assert [a, b][1..] == [b];
    assert [b][1..] == [];
  }

  /** Splitting `a,b` where neither part holds the separator gives the two parts. */
  lemma SplitTwo(a: string, b: string)
    requires ',' !in a && ',' !in b
    ensures Split(a + "," + b, ',') == [a, b]
  {
    SplitNoSeparator(a);
    SplitAppendPlain([a], a + ",", b);
    assert Split(a + ",", ',') == [a, ""] by {
      assert (a + ",")[..|a + ","| - 1] == a;
    }
  }

  lemma {:induction false} SplitNoSeparator(a: string)
    requires ',' !in a
    ensures Split(a, ',') == [a]
  {
    if a != [] {
      var init := a[..|a| - 1];
      SplitNoSeparator(init);
      assert init + [a[|a| - 1]] == a;
    }
  }

  /** Appending separator-free text to a string that ends in the separator extends the last, empty part. */
  lemma {:induction false} SplitAppendPlain(parts: seq<string>, s: string, b: string)
    requires ',' !in b && s != [] && s[|s| - 1] == ',' && Split(s, ',') == parts + [""]
    ensures Split(s + b, ',') == parts + [b]
    decreases |b|
  {
    if b != [] {
      var init := b[..|b| - 1];
      SplitAppendPlain(parts, s, init);
      assert (s + b)[..|s + b| - 1] == s + init;
      assert init + [b[|b| - 1]] == b;
    } else {
      assert s + b == s;
    }
  }
}
