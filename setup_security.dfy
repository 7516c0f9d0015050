/**
 * The gates in front of the admin-setup endpoints: header checks, a
 * sliding-window request limiter and a setup-attempt limiter over one
 * in-memory store keyed by client address, the password-strength rule and
 * the input screen. The clock (`time.time()`) is the parameter `now`; the
 * session's CSRF token is a parameter; security logging is left out.
 */
module SetupSecurity {
  import opened Wrappers
  import opened Json
  import opened Strings
  import opened SecurityConfig

  // ---------------------------------------------------------------------
  // Request headers

  /** The request fields the gates read; an absent header is `None`. */
  datatype Request = Request(
    verb: string,
    remoteAddr: string,
    forwardedFor: Option<string>,
    realIp: Option<string>,
    isSecure: bool,
    forwardedProto: Option<string>,
    userAgent: Option<string>,
    referer: Option<string>,
    origin: Option<string>,
    urlRoot: string,
    csrfHeader: Option<string>,
    json: Option<Value>)

  /** A header that is present and non-empty. */
  predicate Given(h: Option<string>)
  {
    h.Some? && h.value != ""
  }

  /** `get_client_ip`: the first `X-Forwarded-For` entry, stripped, else `X-Real-IP`, else the socket address. */
  function ClientIp(req: Request): (ip: string)
    ensures Given(req.forwardedFor) ==> ip == Trim(Split(req.forwardedFor.value, ',')[0])
    ensures !Given(req.forwardedFor) && Given(req.realIp) ==> ip == req.realIp.value
    ensures !Given(req.forwardedFor) && !Given(req.realIp) ==> ip == req.remoteAddr
  {
    if Given(req.forwardedFor) then Trim(Split(req.forwardedFor.value, ',')[0])
    else if Given(req.realIp) then req.realIp.value
    else req.remoteAddr
  }

  /** The allow-list trusts the client's own `X-Forwarded-For`: naming a listed address lets any client through. */
  lemma ForwardedForDecides(cfg: Config, req: Request, listed: string)
    requires listed in AllowedIps(cfg.ipWhitelist) && ',' !in listed
    requires req.forwardedFor == Some(listed)
    ensures IsIpAllowed(cfg.ipWhitelist, ClientIp(req))
  {
    SplitNoSeparator(listed);
    assert Stripped(listed) by {
      var k :| 0 <= k < |AllowedIps(cfg.ipWhitelist)| && AllowedIps(cfg.ipWhitelist)[k] == listed;
    }
  }

  /** `check_https_requirement`. */
  predicate HttpsOk(cfg: Config, req: Request)
  {
    !cfg.requireHttps || req.isSecure || req.forwardedProto == Some("https")
  }

  const SuspiciousAgents: seq<string> := [
    "gobuster", "dirb", "dirbuster", "wfuzz", "burp", "nikto", "nmap",
    "sqlmap", "w3af", "zap", "scanner", "crawler", "bot", "spider",
    "python-requests", "curl", "wget", "postman", "insomnia", "httpie",
    "automated", "script", "test", "hack", "exploit", "payload"]

  /** Some pattern of the list occurs in the text. */
  predicate MentionsAny(text: string, patterns: seq<string>)
  {
    exists k :: 0 <= k < |patterns| && Contains(text, patterns[k])
  }

  /** `validate_user_agent`, in its order: the patterns, the generic names, then the length bounds. */
  predicate UserAgentOk(header: Option<string>)
  {
    var ua := Lower(header.GetOr(""));
    if MentionsAny(ua, SuspiciousAgents) then false
    else if ua == "" || ua == "mozilla" || ua == "browser" then false
    else 10 <= |ua| <= 500
  }

  /** The generic-name check is subsumed by the length bound: an agent passes exactly when it is 10 to 500 characters with no listed tool name in it, in any case. */
  lemma UserAgentIff(header: Option<string>)
    ensures UserAgentOk(header) <==>
      (var ua := Lower(header.GetOr("")); !MentionsAny(ua, SuspiciousAgents) && 10 <= |ua| <= 500)
  {
  }

  /** A missing agent header is refused. */
  lemma MissingUserAgentRefused()
    ensures !UserAgentOk(None)
  {
    assert Lower("") == "";
  }

  /** `str.rstrip('/')`. */
  function StripTrailingSlashes(s: string): (r: string)
    ensures |r| <= |s| && s[..|r|] == r
    ensures r == [] || r[|r| - 1] != '/'
  {
    if s != [] && s[|s| - 1] == '/' then StripTrailingSlashes(s[..|s| - 1]) else s
  }

  /** `validate_referer` as written: no headers, a referer that starts with the site root, or an origin equal to it. */
  predicate RefererOk(req: Request)
  {
    var referer := req.referer.GetOr("");
    var origin := req.origin.GetOr("");
    var expected := StripTrailingSlashes(req.urlRoot);
    (referer == "" && origin == "") || StartsWith(referer, expected) || origin == expected
  }

  /** The prefix test admits a referer on another host whose name extends the site's. */
  lemma RefererLookalikeAccepted(req: Request, suffix: string)
    requires req.referer == Some(StripTrailingSlashes(req.urlRoot) + suffix)
    ensures RefererOk(req)
  {
    var expected := StripTrailingSlashes(req.urlRoot);
    assert (expected + suffix)[..|expected|] == expected;
  }

  /** The same-site test the comment describes: the referer is the root itself or a path under it. */
  predicate SameSiteReferer(req: Request)
  {
    var referer := req.referer.GetOr("");
    var origin := req.origin.GetOr("");
    var expected := StripTrailingSlashes(req.urlRoot);
    (referer == "" && origin == "") || referer == expected || StartsWith(referer, expected + "/") || origin == expected
  }

  /** Under the same-site test a host that merely extends the site's name is refused, while paths under the root still pass. */
  lemma SameSiteRefusesLookalike(req: Request, suffix: string)
    requires req.referer == Some(StripTrailingSlashes(req.urlRoot) + suffix)
    requires suffix != [] && suffix[0] == '.'
    requires req.origin.GetOr("") != StripTrailingSlashes(req.urlRoot)
    ensures !SameSiteReferer(req)
    ensures SameSiteReferer(req.(referer := Some(StripTrailingSlashes(req.urlRoot) + "/admin/setup")))
  {
    var expected := StripTrailingSlashes(req.urlRoot);
    var referer := expected + suffix;
    assert referer[|expected|] == '.';
    assert (expected + "/admin/setup")[..|expected + "/"|] == expected + "/";
  }

  /** `validate_csrf_token` on the token the decorator picked; `None` is the `TypeError` of `compare_digest` on a non-text or non-ASCII token. */
  function CsrfOk(token: Value, session: Option<string>): (r: Option<bool>)
    ensures r == Some(true) ==> session.Some? && token == JStr(session.value)
    ensures !Truthy(token) ==> r == Some(false)
  {
    if !Truthy(token) then Some(false)
    else if !Given(session) then Some(false)
    else if !token.JStr? || !AllChars(token.s, IsAscii) then None
    else Some(token.s == session.value)
  }

  predicate IsAscii(c: char)
  {
    c as int < 128
  }

  // ---------------------------------------------------------------------
  // Password strength and input screening

  const Specials: string := "!@#$%^&*()_+-=[]{}|;:,.<>?"

  const WeakPasswords: seq<string> := [
    "password", "123456", "admin", "root", "user", "test",
    "password123", "admin123", "root123", "user123"]

  /** A character from the special-character list. */
  predicate AnySpecial(s: string)
  {
    exists k :: 0 <= k < |s| && s[k] in Specials
  }

  /** A password from the common-password list, compared in lower case. */
  predicate Common(password: string)
  {
    Lower(password) in WeakPasswords
  }

  /** Every rule of the password policy, each one applied only when the configuration asks for it. */
  predicate MeetsPolicy(password: string, cfg: Config)
  {
    |password| >= cfg.passwordMinLength
    && (cfg.requireUppercase ==> AnyChar(password, IsUpper))
    && (cfg.requireLowercase ==> AnyChar(password, IsLower))
    && (cfg.requireNumbers ==> AnyChar(password, IsDigit))
    && (cfg.requireSpecial ==> AnySpecial(password))
    && !Common(password)
  }

  function LengthMessage(cfg: Config): string
  {
    "Password must be at least " + IntToString(cfg.passwordMinLength) + " characters long"
  }

  const NeedsUpper: string := "Password must contain at least one uppercase letter"
  const NeedsLower: string := "Password must contain at least one lowercase letter"
  const NeedsDigit: string := "Password must contain at least one number"
  const NeedsSpecial: string := "Password must contain at least one special character"
  const TooCommon: string := "Password is too common, please choose a stronger password"
  const Strong: string := "Password is strong"

  /** `validate_password_strength`: the message of the first rule that fails, in the order length, upper, lower, digit, special, common. */
  function PasswordStrength(password: string, cfg: Config): (r: (bool, string))
    ensures r.0 <==> MeetsPolicy(password, cfg)
    ensures |password| < cfg.passwordMinLength ==> r.1 == LengthMessage(cfg)
    ensures r.0 ==> r.1 == Strong
  {
    if |password| < cfg.passwordMinLength then (false, LengthMessage(cfg))
    else if cfg.requireUppercase && !AnyChar(password, IsUpper) then (false, NeedsUpper)
    else if cfg.requireLowercase && !AnyChar(password, IsLower) then (false, NeedsLower)
    else if cfg.requireNumbers && !AnyChar(password, IsDigit) then (false, NeedsDigit)
    else if cfg.requireSpecial && !AnySpecial(password) then (false, NeedsSpecial)
    else if Common(password) then (false, TooCommon)
    else (true, Strong)
  }

  /** A long enough password missing an upper-case letter is told about that first, whatever else it lacks. */
  lemma UppercaseReportedBeforeDigits(password: string, cfg: Config)
    requires |password| >= cfg.passwordMinLength && cfg.requireUppercase && !AnyChar(password, IsUpper)
    ensures PasswordStrength(password, cfg) == (false, NeedsUpper)
  {
  }

  /** No common password is longer than 11 characters, so with the default minimum of 12 the common-password rule never decides. */
  lemma CommonListUnreachable(password: string, cfg: Config)
    requires cfg.passwordMinLength >= 12 && |password| >= cfg.passwordMinLength
    ensures !Common(password)
  {
    assert forall w | w in WeakPasswords :: |w| <= 11;
  }

  const SqlPatterns: seq<string> := [
    "'", "\"", ";", "--", "/*", "*/", "xp_", "sp_",
    "union", "select", "insert", "update", "delete",
    "drop", "create", "alter", "exec", "execute"]

  const XssPatterns: seq<string> := [
    "<script", "</script>", "javascript:", "onload=",
    "onerror=", "onclick=", "onmouseover=", "onfocus="]

  const BadFormat: string := "Invalid data format"
  const ScreenPassed: string := "Input validation passed"
  const SqlPrefix: string := "Suspicious input detected in "
  const XssPrefix: string := "XSS attempt detected in "

  /** A text value that, lower-cased, contains one of the patterns; other values are never flagged. */
  predicate Flagged(v: Value, patterns: seq<string>)
  {
    v.JStr? && MentionsAny(Lower(v.s), patterns)
  }

  /** The index of the first flagged field, in the order of the dict. */
  function FirstFlagged(fields: seq<(string, Value)>, patterns: seq<string>): (r: Option<nat>)
    ensures r.Some? ==> r.value < |fields| && Flagged(fields[r.value].1, patterns)
    ensures r.Some? ==> forall j :: 0 <= j < r.value ==> !Flagged(fields[j].1, patterns)
    ensures r.None? ==> forall j :: 0 <= j < |fields| ==> !Flagged(fields[j].1, patterns)
  {
    if fields == [] then None
    else if Flagged(fields[0].1, patterns) then Some(0)
    else
      var r := FirstFlagged(fields[1..], patterns);
      assert forall j :: 1 <= j < |fields| ==> fields[j] == fields[1..][j - 1];
      if r.None? then None else Some(r.value + 1)
  }

  /** `validate_input_sanitization`: every field against the SQL patterns first, then every field against the script patterns. */
  function Screen(data: Value): (r: (bool, string))
  {
    if !data.JObject? then (false, BadFormat)
    else
      var sql := FirstFlagged(data.fields, SqlPatterns);
      if sql.Some? then (false, SqlPrefix + data.fields[sql.value].0)
      else
        var xss := FirstFlagged(data.fields, XssPatterns);
        if xss.Some? then (false, XssPrefix + data.fields[xss.value].0)
        else (true, ScreenPassed)
  }

  /** The SQL screen wins: an SQL-looking field is reported even when an earlier field holds a script. */
  lemma SqlReportedBeforeScript(fields: seq<(string, Value)>, i: nat)
    requires i < |fields| && Flagged(fields[i].1, SqlPatterns)
    requires forall j :: 0 <= j < i ==> !Flagged(fields[j].1, SqlPatterns)
    ensures Screen(JObject(fields)) == (false, SqlPrefix + fields[i].0)
  {
    var r := FirstFlagged(fields, SqlPatterns);
    if r.value < i {
    } else if r.value > i {
    }
  }

  /** A dict of numbers, booleans, lists and nested dicts always passes. */
  lemma NonTextPasses(fields: seq<(string, Value)>)
    requires forall j :: 0 <= j < |fields| ==> !fields[j].1.JStr?
    ensures Screen(JObject(fields)) == (true, ScreenPassed)
  {
  }

  const Apostrophe: char := '\U{27}'

  /** A name with an apostrophe, such as O'Brien, is refused. */
  lemma ApostropheRefused(key: string, name: string)
    requires Apostrophe in name
    ensures !Screen(JObject([(key, JStr(name))])).0
  {
    var k :| 0 <= k < |name| && name[k] == Apostrophe;
    assert Lower(name)[k] == LowerChar(Apostrophe) == "'"[0];
    assert Lower(name)[k..k + 1] == "'";
    assert SqlPatterns[0] == "'";
    assert Contains(Lower(name), SqlPatterns[0]) by {
      assert StartsWith(Lower(name)[k..], "'");
    }
  }

  /** The screening loops, one field and one pattern at a time. */
  method ValidateInputSanitization(data: Value) returns (ok: bool, message: string)
    ensures (ok, message) == Screen(data)
  {
    if !data.JObject? {
      return false, BadFormat;
    }
    var fields := data.fields;
    var i := 0;
    while i < |fields|
      invariant 0 <= i <= |fields|
      invariant forall j :: 0 <= j < i ==> !Flagged(fields[j].1, SqlPatterns)
    {
      var hit := FindPattern(fields[i].1, SqlPatterns);
      if hit {
        FirstFlaggedIs(fields, SqlPatterns, i);
        return false, SqlPrefix + fields[i].0;
      }
      i := i + 1;
    }
    i := 0;
    while i < |fields|
      invariant 0 <= i <= |fields|
      invariant forall j :: 0 <= j < i ==> !Flagged(fields[j].1, XssPatterns)
    {
      var hit := FindPattern(fields[i].1, XssPatterns);
      if hit {
        FirstFlaggedIs(fields, XssPatterns, i);
        return false, XssPrefix + fields[i].0;
      }
      i := i + 1;
    }
    return true, ScreenPassed;
  }

  /** The inner loop: one value against every pattern. */
  method FindPattern(v: Value, patterns: seq<string>) returns (hit: bool)
    ensures hit == Flagged(v, patterns)
  {
    if !v.JStr? {
      return false;
    }
    var lowered := Lower(v.s);
    var k := 0;
    while k < |patterns|
      invariant 0 <= k <= |patterns|
      invariant forall m :: 0 <= m < k ==> !Contains(lowered, patterns[m])
    {
      if Contains(lowered, patterns[k]) {
        return true;
      }
      k := k + 1;
    }
    return false;
  }

  lemma FirstFlaggedIs(fields: seq<(string, Value)>, patterns: seq<string>, i: nat)
    requires i < |fields| && Flagged(fields[i].1, patterns)
    requires forall j :: 0 <= j < i ==> !Flagged(fields[j].1, patterns)
    ensures FirstFlagged(fields, patterns) == Some(i)
  {
    var r := FirstFlagged(fields, patterns);
    if r.value < i {
    } else if r.value > i {
    }
  }

  // ---------------------------------------------------------------------
  // The in-memory store and its limiters

  /** One client's record: the `requests` and `setup_attempts` lists, either of which may be missing. */
  datatype Entry = Entry(requests: Option<seq<real>>, setupAttempts: Option<seq<real>>)

  /** The stamps strictly after the window start, in order. */
  function Recent(stamps: seq<real>, windowStart: real): (r: seq<real>)
    ensures |r| <= |stamps|
    ensures forall k :: 0 <= k < |r| ==> r[k] > windowStart
    ensures forall x :: x in r <==> x in stamps && x > windowStart
  {
    if stamps == [] then []
    else
      var last := stamps[|stamps| - 1];
      assert stamps == stamps[..|stamps| - 1] + [last];
      Recent(stamps[..|stamps| - 1], windowStart) + (if last > windowStart then [last] else [])
  }

  /** A stamp inside the window is kept at the end. */
  lemma RecentAppend(stamps: seq<real>, now: real, windowStart: real)
    requires now > windowStart
    ensures Recent(stamps + [now], windowStart) == Recent(stamps, windowStart) + [now]
  {
    assert (stamps + [now])[..|stamps|] == stamps;
  }

  /** Pruning with a later window start after an earlier one is pruning once with the later one. */
  lemma {:induction false} RecentTwice(stamps: seq<real>, early: real, late: real)
    requires early <= late
    ensures Recent(Recent(stamps, early), late) == Recent(stamps, late)
  {
    if stamps != [] {
      var init := stamps[..|stamps| - 1];
      var last := stamps[|stamps| - 1];
      RecentTwice(init, early, late);
      var once := Recent(init, early);
      if last > early {
        assert (once + [last])[..|once|] == once;
        assert Recent(once + [last], late) == Recent(once, late) + (if last > late then [last] else []);
      } else {
        assert Recent(stamps, early) == once;
        assert Recent(stamps, late) == Recent(init, late);
      }
    }
  }

  /** The stored list, or the empty one a missing list stands for. */
  function Requests(e: Option<Entry>): seq<real>
  {
    if e.Some? && e.value.requests.Some? then e.value.requests.value else []
  }

  function Attempts(e: Option<Entry>): seq<real>
  {
    if e.Some? && e.value.setupAttempts.Some? then e.value.setupAttempts.value else []
  }

  function RateWindowStart(cfg: Config, now: real): real
  {
    now - (cfg.rateLimitWindowMinutes * 60) as real
  }

  function SetupWindowStart(cfg: Config, now: real): real
  {
    now - (cfg.setupWindowMinutes * 60) as real
  }

  /**
   * `rate_limit_check` on one client's record: prune, refuse when the
   * window is full, otherwise record `now`. `None` is the `KeyError` of a
   * record that has no `requests` list.
   */
  function RateStep(e: Option<Entry>, now: real, cfg: Config): (r: Option<(bool, Entry)>)
    ensures r.None? <==> e.Some? && e.value.requests.None?
    ensures r.Some? ==> r.value.1.setupAttempts == (if e.Some? then e.value.setupAttempts else None)
    ensures r.Some? ==> (r.value.0 <==> |Recent(Requests(e), RateWindowStart(cfg, now))| < cfg.rateLimitRequests)
    ensures r.Some? ==> r.value.1.requests == Some(
      Recent(Requests(e), RateWindowStart(cfg, now)) + (if r.value.0 then [now] else []))
  {
    if e.Some? && e.value.requests.None? then None
    else
      var kept := Recent(Requests(e), RateWindowStart(cfg, now));
      var base := if e.Some? then e.value else Entry(Some([]), None);
      assert kept + [] == kept;
      if |kept| >= cfg.rateLimitRequests then Some((false, base.(requests := Some(kept))))
      else Some((true, base.(requests := Some(kept + [now]))))
  }

  /** The limiter keeps every stored list within the limit. */
  lemma RateStepBounded(e: Option<Entry>, now: real, cfg: Config)
    requires RateStep(e, now, cfg).Some? && |Requests(e)| <= cfg.rateLimitRequests
    ensures |RateStep(e, now, cfg).value.1.requests.value| <= cfg.rateLimitRequests
  {
  }

  /** With a positive window, requests made at one instant are all counted: after `limit` of them the next one is refused. */
  lemma BurstRefused(e: Option<Entry>, now: real, cfg: Config)
    requires cfg.rateLimitWindowMinutes > 0 && |Recent(Requests(e), RateWindowStart(cfg, now))| + 1 == cfg.rateLimitRequests
    requires RateStep(e, now, cfg).Some?
    ensures RateStep(e, now, cfg).value.0
    ensures !RateStep(Some(RateStep(e, now, cfg).value.1), now, cfg).value.0
  {
    var ws := RateWindowStart(cfg, now);
    var kept := Recent(Requests(e), ws);
    RecentAppend(kept, now, ws);
    RecentTwice(Requests(e), ws, ws);
  }

  /** `setup_attempt_check`: prune and answer whether the window has room; nothing is recorded. */
  function SetupCheckStep(e: Option<Entry>, now: real, cfg: Config): (r: (bool, Entry))
    ensures r.0 <==> |Recent(Attempts(e), SetupWindowStart(cfg, now))| < cfg.maxSetupAttempts
    ensures r.1.setupAttempts == Some(Recent(Attempts(e), SetupWindowStart(cfg, now)))
    ensures r.1.requests == (if e.Some? then e.value.requests else None)
  {
    var base := if e.Some? then e.value else Entry(None, Some([]));
    var kept := Recent(Attempts(e), SetupWindowStart(cfg, now));
    (|kept| < cfg.maxSetupAttempts, base.(setupAttempts := Some(kept)))
  }

  /** `record_setup_attempt`: exactly one stamp more, nothing pruned. */
  function RecordStep(e: Option<Entry>, now: real): (r: Entry)
    ensures r.setupAttempts == Some(Attempts(e) + [now])
    ensures r.requests == (if e.Some? then e.value.requests else None)
  {
    var base := if e.Some? then e.value else Entry(None, Some([]));
    base.(setupAttempts := Some(Attempts(e) + [now]))
  }

  /** At one instant a recorded attempt is counted by the next check. */
  lemma RecordThenCheck(e: Option<Entry>, now: real, cfg: Config)
    requires cfg.setupWindowMinutes > 0
    ensures var ws := SetupWindowStart(cfg, now);
      |Recent(Attempts(Some(RecordStep(e, now))), ws)| == |Recent(Attempts(e), ws)| + 1
  {
    RecentAppend(Attempts(e), now, SetupWindowStart(cfg, now));
  }

  function Lookup(entries: map<string, Entry>, ip: string): Option<Entry>
  {
    if ip in entries then Some(entries[ip]) else None
  }

  /** `security_storage`. */
  class SecurityStorage {
    var entries: map<string, Entry>

    /** The store starts empty. */
    constructor ()
      ensures entries == map[]
    {
      entries := map[];
    }

    /** Every record has a `requests` list, so the request limiter cannot raise. */
    predicate Tracked()
      reads this
    {
      forall ip :: ip in entries ==> entries[ip].requests.Some?
    }

    /** No stored request list is longer than `limit`. */
    predicate Bounded(limit: int)
      reads this
    {
      forall ip :: ip in entries ==> |Requests(Some(entries[ip]))| <= limit
    }

    method RateLimitCheck(ip: string, now: real, cfg: Config) returns (r: Option<bool>)
      modifies this`entries
      ensures var step := RateStep(Lookup(old(entries), ip), now, cfg);
        if step.None? then r.None? && entries == old(entries)
        else r == Some(step.value.0) && entries == old(entries)[ip := step.value.1]
    {
      var step := RateStep(Lookup(entries, ip), now, cfg);
      if step.None? {
        return None;
      }
      entries := entries[ip := step.value.1];
      return Some(step.value.0);
    }

    method SetupAttemptCheck(ip: string, now: real, cfg: Config) returns (ok: bool)
      modifies this`entries
      ensures var step := SetupCheckStep(Lookup(old(entries), ip), now, cfg);
        ok == step.0 && entries == old(entries)[ip := step.1]
    {
      var step := SetupCheckStep(Lookup(entries, ip), now, cfg);
      entries := entries[ip := step.1];
      ok := step.0;
    }

    method RecordSetupAttempt(ip: string, now: real)
      modifies this`entries
      ensures entries == old(entries)[ip := RecordStep(Lookup(old(entries), ip), now)]
    {
      entries := entries[ip := RecordStep(Lookup(entries, ip), now)];
    }
  }

  // ---------------------------------------------------------------------
  // The decorators

  datatype Gate = Pass | Refused(response: Response) | Raised

  const AccessDenied := Response(403, "Access denied")
  const HttpsRequired := Response(403, "HTTPS required")
  const BadCsrf := Response(403, "Invalid CSRF token")
  const BadInput := Response(400, "Invalid input")
  const RateLimited := Response(429, "Rate limit exceeded")
  const TooManyAttempts := Response(429, "Maximum setup attempts exceeded")
  const Post: string := "POST"

  /** The CSRF gate of a POST: the header, else the body's `csrf_token`; `.get` on a missing or non-dict body raises. */
  function CsrfGate(req: Request, session: Option<string>): Option<bool>
  {
    if Given(req.csrfHeader) then CsrfOk(JStr(req.csrfHeader.value), session)
    else if req.json.None? || !req.json.value.JObject? then None
    else CsrfOk(GetOr(req.json.value.fields, "csrf_token", JNull), session)
  }

  /** The first four gates, which read only the request: the refusal, if any. */
  function HeaderGate(cfg: Config, req: Request): (r: Option<Response>)
    ensures r.None? <==> IsIpAllowed(cfg.ipWhitelist, ClientIp(req)) && HttpsOk(cfg, req) && UserAgentOk(req.userAgent) && RefererOk(req)
  {
    if !IsIpAllowed(cfg.ipWhitelist, ClientIp(req)) then Some(AccessDenied)
    else if !HttpsOk(cfg, req) then Some(HttpsRequired)
    else if !UserAgentOk(req.userAgent) then Some(AccessDenied)
    else if !RefererOk(req) then Some(AccessDenied)
    else None
  }

  /** The gates of a POST after the limiters: the CSRF token and then the input screen of a truthy body. `None` lets it through. */
  function PostGate(req: Request, session: Option<string>): (r: Option<Gate>)
    ensures r.Some? ==> r.value != Pass
  {
    var csrf := CsrfGate(req, session);
    if csrf.None? then Some(Raised)
    else if !csrf.value then Some(Refused(BadCsrf))
    else if req.json.Some? && Truthy(req.json.value) && !Screen(req.json.value).0 then Some(Refused(BadInput))
    else None
  }

  /**
   * The gates after the request limiter, from the store `m` it left: the
   * attempt limiter, then for POST the CSRF token, the input screen and the
   * recording of the attempt.
   */
  function AttemptGate(cfg: Config, req: Request, m: map<string, Entry>, ip: string, now: real, session: Option<string>): (r: (Gate, map<string, Entry>))
    ensures var setup := SetupCheckStep(Lookup(m, ip), now, cfg);
      r.1 == m[ip := if r.0 == Pass && req.verb == Post then RecordStep(Some(setup.1), now) else setup.1]
    ensures r.0 == Pass ==> SetupCheckStep(Lookup(m, ip), now, cfg).0
  {
    var setup := SetupCheckStep(Lookup(m, ip), now, cfg);
    var checked := m[ip := setup.1];
    if !setup.0 then (Refused(TooManyAttempts), checked)
    else if req.verb != Post then (Pass, checked)
    else
      var post := PostGate(req, session);
      if post.Some? then (post.value, checked)
      else (Pass, m[ip := RecordStep(Some(setup.1), now)])
  }

  /** The request limiter and the gates after it, for the client `ip`, from the store `before`. */
  function LimitGate(cfg: Config, req: Request, before: map<string, Entry>, ip: string, now: real, session: Option<string>): (Gate, map<string, Entry>)
  {
    var rate := RateStep(Lookup(before, ip), now, cfg);
    if rate.None? then (Raised, before)
    else if !rate.value.0 then (Refused(RateLimited), before[ip := rate.value.1])
    else AttemptGate(cfg, req, before[ip := rate.value.1], ip, now, session)
  }

  /**
   * `secure_admin_setup_required` on a request, from the store `before`:
   * allow-list, HTTPS, agent and referer, then the limiters of `LimitGate`.
   * The gate reached and the store it leaves.
   */
  function SetupGate(cfg: Config, req: Request, before: map<string, Entry>, now: real, session: Option<string>): (r: (Gate, map<string, Entry>))
    ensures HeaderGate(cfg, req).Some? ==> r == (Refused(HeaderGate(cfg, req).value), before)
    ensures HeaderGate(cfg, req).None? ==> r == LimitGate(cfg, req, before, ClientIp(req), now, session)
  {
    var header := HeaderGate(cfg, req);
    if header.Some? then (Refused(header.value), before)
    else LimitGate(cfg, req, before, ClientIp(req), now, session)
  }

  /** The gates after the request limiter, calling the store's attempt limiter and recorder in their order. */
  method AttemptGates(storage: SecurityStorage, cfg: Config, req: Request, ip: string, now: real, session: Option<string>) returns (g: Gate)
    modifies storage`entries
    ensures (g, storage.entries) == AttemptGate(cfg, req, old(storage.entries), ip, now, session)
  {
    var room := storage.SetupAttemptCheck(ip, now, cfg);
    if !room {
      return Refused(TooManyAttempts);
    }
    if req.verb == Post {
      var csrf := CsrfGate(req, session);
      if csrf.None? {
        return Raised;
      }
      if !csrf.value {
        return Refused(BadCsrf);
      }
      if req.json.Some? && Truthy(req.json.value) {
        var ok, _ := ValidateInputSanitization(req.json.value);
        if !ok {
          return Refused(BadInput);
        }
      }
      ghost var checked := storage.entries;
      storage.RecordSetupAttempt(ip, now);
      assert storage.entries == old(storage.entries)[ip := RecordStep(Lookup(checked, ip), now)];
    }
    return Pass;
  }

  /** The decorator body, calling the store's limiters in its order. */
  method SecureAdminSetup(storage: SecurityStorage, cfg: Config, req: Request, now: real, session: Option<string>) returns (g: Gate)
    modifies storage`entries
    ensures (g, storage.entries) == SetupGate(cfg, req, old(storage.entries), now, session)
  {
    var ip := ClientIp(req);
    var header := HeaderGate(cfg, req);
    if header.Some? {
      return Refused(header.value);
    }
    var rate := storage.RateLimitCheck(ip, now, cfg);
    if rate.None? {
      return Raised;
    }
    if !rate.value {
      return Refused(RateLimited);
    }
    g := AttemptGates(storage, cfg, req, ip, now, session);
  }

  /** Past the request limiter, a tracked store stays tracked. */
  lemma AttemptGateKeepsTracked(cfg: Config, req: Request, m: map<string, Entry>, ip: string, now: real, session: Option<string>)
    requires forall k :: k in m ==> m[k].requests.Some?
    requires ip in m
    ensures var after := AttemptGate(cfg, req, m, ip, now, session).1;
      forall k :: k in after ==> after[k].requests.Some?
  {
    var setup := SetupCheckStep(Lookup(m, ip), now, cfg);
    assert setup.1.requests.Some? && RecordStep(Some(setup.1), now).requests.Some?;
  }

  /** The limiters keep a tracked store tracked, and on such a store the request limiter never raises. */
  lemma LimitGateKeepsTracked(cfg: Config, req: Request, before: map<string, Entry>, ip: string, now: real, session: Option<string>)
    requires forall k :: k in before ==> before[k].requests.Some?
    ensures var after := LimitGate(cfg, req, before, ip, now, session).1;
      forall k :: k in after ==> after[k].requests.Some?
    ensures RateStep(Lookup(before, ip), now, cfg).Some?
  {
    var rate := RateStep(Lookup(before, ip), now, cfg);
    assert rate.Some? && rate.value.1.requests.Some?;
    if rate.value.0 {
      AttemptGateKeepsTracked(cfg, req, before[ip := rate.value.1], ip, now, session);
    }
  }

  /** Through the decorators the store stays tracked, so the request limiter never raises. */
  lemma SetupGateKeepsTracked(cfg: Config, req: Request, before: map<string, Entry>, now: real, session: Option<string>)
    requires forall ip :: ip in before ==> before[ip].requests.Some?
    ensures var after := SetupGate(cfg, req, before, now, session).1;
      forall ip :: ip in after ==> after[ip].requests.Some?
    ensures RateStep(Lookup(before, ClientIp(req)), now, cfg).Some?
  {
    LimitGateKeepsTracked(cfg, req, before, ClientIp(req), now, session);
  }

  /** Past the request limiter, the stored request lists are untouched. */
  lemma AttemptGateKeepsRequests(cfg: Config, req: Request, m: map<string, Entry>, ip: string, now: real, session: Option<string>)
    ensures var after := AttemptGate(cfg, req, m, ip, now, session).1;
      forall k :: k in after ==> Requests(Some(after[k])) == Requests(Lookup(m, k))
  {
    var setup := SetupCheckStep(Lookup(m, ip), now, cfg);
    assert Requests(Some(setup.1)) == Requests(Lookup(m, ip));
    assert Requests(Some(RecordStep(Some(setup.1), now))) == Requests(Lookup(m, ip));
  }

  /** The limiters keep every stored request list within the configured limit. */
  lemma LimitGateKeepsBounded(cfg: Config, req: Request, before: map<string, Entry>, ip: string, now: real, session: Option<string>)
    requires forall k :: k in before ==> |Requests(Some(before[k]))| <= cfg.rateLimitRequests
    requires cfg.rateLimitRequests >= 0
    ensures var after := LimitGate(cfg, req, before, ip, now, session).1;
      forall k :: k in after ==> |Requests(Some(after[k]))| <= cfg.rateLimitRequests
  {
    var rate := RateStep(Lookup(before, ip), now, cfg);
    if rate.Some? {
      RateStepBounded(Lookup(before, ip), now, cfg);
      var m := before[ip := rate.value.1];
      assert forall k :: |Requests(Lookup(m, k))| <= cfg.rateLimitRequests;
      if rate.value.0 {
        AttemptGateKeepsRequests(cfg, req, m, ip, now, session);
      }
    }
  }

  /** The stored request lists stay within the configured limit. */
  lemma SetupGateKeepsBounded(cfg: Config, req: Request, before: map<string, Entry>, now: real, session: Option<string>)
    requires forall ip :: ip in before ==> |Requests(Some(before[ip]))| <= cfg.rateLimitRequests
    requires cfg.rateLimitRequests >= 0
    ensures var after := SetupGate(cfg, req, before, now, session).1;
      forall ip :: ip in after ==> |Requests(Some(after[ip]))| <= cfg.rateLimitRequests
  {
    LimitGateKeepsBounded(cfg, req, before, ClientIp(req), now, session);
  }

  /** The attempts of one client that the attempt limiter would count at `now`. */
  function Counted(m: map<string, Entry>, ip: string, cfg: Config, now: real): nat
  {
    |Recent(Attempts(Lookup(m, ip)), SetupWindowStart(cfg, now))|
  }

  /** The attempt limiter's own pruning does not change what it counts; a recording adds one. */
  lemma CountsAcrossSteps(m: map<string, Entry>, ip: string, now: real, cfg: Config)
    requires cfg.setupWindowMinutes > 0
    ensures var setup := SetupCheckStep(Lookup(m, ip), now, cfg);
      Counted(m[ip := setup.1], ip, cfg, now) == Counted(m, ip, cfg, now)
      && Counted(m[ip := RecordStep(Some(setup.1), now)], ip, cfg, now) == Counted(m, ip, cfg, now) + 1
  {
    var ws := SetupWindowStart(cfg, now);
    var previous := Attempts(Lookup(m, ip));
    var setup := SetupCheckStep(Lookup(m, ip), now, cfg);
    assert Attempts(Some(setup.1)) == Recent(previous, ws);
    RecentTwice(previous, ws, ws);
    RecentAppend(Recent(previous, ws), now, ws);
    assert Attempts(Lookup(m[ip := RecordStep(Some(setup.1), now)], ip)) == Recent(previous, ws) + [now];
  }

  /** Past the request limiter, an attempt is counted exactly when every later gate passed on a POST. */
  lemma AttemptGateCounts(cfg: Config, req: Request, m: map<string, Entry>, ip: string, now: real, session: Option<string>)
    requires cfg.setupWindowMinutes > 0
    ensures var r := AttemptGate(cfg, req, m, ip, now, session);
      Counted(r.1, ip, cfg, now) == Counted(m, ip, cfg, now) + (if r.0 == Pass && req.verb == Post then 1 else 0)
  {
    CountsAcrossSteps(m, ip, now, cfg);
  }

  /** Through the limiters, an attempt is counted exactly when every later gate passed on a POST. */
  lemma LimitGateCounts(cfg: Config, req: Request, before: map<string, Entry>, ip: string, now: real, session: Option<string>)
    requires cfg.setupWindowMinutes > 0
    ensures var r := LimitGate(cfg, req, before, ip, now, session);
      Counted(r.1, ip, cfg, now) == Counted(before, ip, cfg, now) + (if r.0 == Pass && req.verb == Post then 1 else 0)
  {
    var rate := RateStep(Lookup(before, ip), now, cfg);
    if rate.Some? {
      var m := before[ip := rate.value.1];
      assert Attempts(Lookup(m, ip)) == Attempts(Lookup(before, ip));
      if rate.value.0 {
        AttemptGateCounts(cfg, req, m, ip, now, session);
      }
    }
  }

  /** An attempt is recorded only when every gate passed on a POST; otherwise no new stamp is counted. */
  lemma AttemptRecordedOnlyOnPass(cfg: Config, req: Request, before: map<string, Entry>, now: real, session: Option<string>)
    requires cfg.setupWindowMinutes > 0
    ensures var r := SetupGate(cfg, req, before, now, session);
      Counted(r.1, ClientIp(req), cfg, now) ==
        Counted(before, ClientIp(req), cfg, now) + (if r.0 == Pass && req.verb == Post then 1 else 0)
  {
    LimitGateCounts(cfg, req, before, ClientIp(req), now, session);
  }

  /** With the attempt window full, a request that clears the earlier gates is refused with 429 and nothing recorded. */
  lemma FullWindowLocksOut(cfg: Config, req: Request, before: map<string, Entry>, now: real, session: Option<string>)
    requires HeaderGate(cfg, req).None?
    requires RateStep(Lookup(before, ClientIp(req)), now, cfg).Some? && RateStep(Lookup(before, ClientIp(req)), now, cfg).value.0
    requires |Recent(Attempts(Lookup(before, ClientIp(req))), SetupWindowStart(cfg, now))| >= cfg.maxSetupAttempts
    ensures SetupGate(cfg, req, before, now, session).0 == Refused(TooManyAttempts)
  {
    var ip := ClientIp(req);
    var m := before[ip := RateStep(Lookup(before, ip), now, cfg).value.1];
    assert Attempts(Lookup(m, ip)) == Attempts(Lookup(before, ip));
  }

  /** `secure_admin_setup_check_required`: the agent, then the request limiter. */
  function CheckGate(req: Request, before: map<string, Entry>, now: real, cfg: Config): (r: (Gate, map<string, Entry>))
    ensures !UserAgentOk(req.userAgent) ==> r == (Refused(AccessDenied), before)
    ensures r.0 == Pass ==> UserAgentOk(req.userAgent) && RateStep(Lookup(before, ClientIp(req)), now, cfg).Some?
    ensures r.0 == Pass ==> RateStep(Lookup(before, ClientIp(req)), now, cfg).value.0
  {
    var ip := ClientIp(req);
    if !UserAgentOk(req.userAgent) then (Refused(AccessDenied), before)
    else
      var rate := RateStep(Lookup(before, ip), now, cfg);
      if rate.None? then (Raised, before)
      else if !rate.value.0 then (Refused(RateLimited), before[ip := rate.value.1])
      else (Pass, before[ip := rate.value.1])
  }

  method SecureAdminSetupCheck(storage: SecurityStorage, cfg: Config, req: Request, now: real) returns (g: Gate)
    modifies storage`entries
    ensures (g, storage.entries) == CheckGate(req, old(storage.entries), now, cfg)
  {
    if !UserAgentOk(req.userAgent) {
      return Refused(AccessDenied);
    }
    var rate := storage.RateLimitCheck(ClientIp(req), now, cfg);
    if rate.None? {
      return Raised;
    }
    return if rate.value then Pass else Refused(RateLimited);
  }
}
