/**
 * The server's configuration, read once from the process environment:
 * `mustEnv`, the numeric settings and the record of values with their
 * defaults.
 */
module Env {

  import opened Wrappers
  import opened Text

  /** The process environment: variable names to their values; an unset variable has no key. */
  type Environment = map<string, string>

  /**
   * `mustEnv(name, fallback)`: the variable's value, or the fallback when the
   * variable is unset; an empty result is an error. A variable set to ""
   * is not replaced by the fallback, since `??` only replaces a missing value.
   */
  function MustEnv(env: Environment, name: string, fallback: Option<string>): (r: Result<string, string>)
    ensures r.Ok? ==> r.value != ""
    ensures r.Err? ==> r.error == "Missing env var: " + name
    ensures name in env && env[name] != "" ==> r == Ok(env[name])
    ensures name !in env && fallback.Some? && fallback.value != "" ==> r == Ok(fallback.value)
    ensures name in env && env[name] == "" ==> r.Err?
    ensures name !in env && (fallback.None? || fallback.value == "") ==> r.Err?
  {
    var v := if name in env then Some(env[name]) else fallback;
    if v.None? || v.value == "" then Err("Missing env var: " + name) else Ok(v.value)
  }

  // ---------------------------------------------------------------------------
  // Numbers

  predicate IsDigit(c: char) {
    '0' <= c <= '9'
  }

  predicate AllDigits(s: string) {
    forall i :: 0 <= i < |s| ==> IsDigit(s[i])
  }

  /** The value of a string of decimal digits. */
  function DigitsValue(s: string): nat
    requires AllDigits(s)
    decreases |s|
  {
    if s == [] then 0 else DigitsValue(s[..|s| - 1]) * 10 + (s[|s| - 1] as int - '0' as int)
  }

  /** A sign followed by at least one decimal digit. */
  predicate SignedDigits(u: string) {
    |u| > 1 && (u[0] == '-' || u[0] == '+') && AllDigits(u[1..])
  }

  /**
   * `Number(s)` on the forms the configuration uses: surrounding whitespace
   * is ignored, a blank string is 0, a run of decimal digits is its value,
   * with leading zeros allowed, and a leading `-` negates it while a
   * leading `+` leaves it as it is; anything else is not an integer.
   */
  function ParseNumber(s: string): (r: Num)
    ensures Trim(s) == [] ==> r == Integral(0)
    ensures Trim(s) != [] && AllDigits(Trim(s)) ==> r == Integral(DigitsValue(Trim(s)))
    ensures SignedDigits(Trim(s)) && Trim(s)[0] == '-' ==> r == Integral(-(DigitsValue(Trim(s)[1..]) as int))
    ensures SignedDigits(Trim(s)) && Trim(s)[0] == '+' ==> r == Integral(DigitsValue(Trim(s)[1..]))
    ensures r.Integral? <==> Trim(s) == [] || AllDigits(Trim(s)) || SignedDigits(Trim(s))
  {
    ParseTrimmed(Trim(s))
  }

  /** `Number` on text already trimmed. */
  function ParseTrimmed(u: string): (r: Num)
    ensures u == [] ==> r == Integral(0)
    ensures u != [] && AllDigits(u) ==> r == Integral(DigitsValue(u))
    ensures SignedDigits(u) && u[0] == '-' ==> r == Integral(-(DigitsValue(u[1..]) as int))
    ensures SignedDigits(u) && u[0] == '+' ==> r == Integral(DigitsValue(u[1..]))
    ensures r.Integral? <==> u == [] || AllDigits(u) || SignedDigits(u)
  {
    if u == [] then Integral(0)
    else if AllDigits(u) then Integral(DigitsValue(u))
    else if SignedDigits(u) then
      var v: int := DigitsValue(u[1..]);
      Integral(if u[0] == '-' then -v else v)
    else NotInteger
  }

  /** The decimal notation of a natural number. */
  function DecimalString(n: nat): (s: string)
    ensures s != [] && AllDigits(s)
  {
    if n < 10 then [('0' as int + n) as char]
    else DecimalString(n / 10) + [('0' as int + n % 10) as char]
  }

  lemma {:induction false} DigitsValueOfDecimal(n: nat)
    ensures DigitsValue(DecimalString(n)) == n
  {
    if n >= 10 {
      DigitsValueOfDecimal(n / 10);
      var s := DecimalString(n);
      assert s[..|s| - 1] == DecimalString(n / 10);
    }
  }

  lemma DigitNotSpace(c: char)
    requires IsDigit(c)
    ensures !IsSpace(c)
  {
  }

  /** A number written in decimal, with or without surrounding whitespace, reads back as itself. */
  lemma ParseDecimal(n: nat, pad: string)
    requires forall i :: 0 <= i < |pad| ==> IsSpace(pad[i])
    ensures ParseNumber(pad + DecimalString(n)) == Integral(n)
  {
    var s := DecimalString(n);
    DigitNotSpace(s[0]);
    DigitNotSpace(s[|s| - 1]);
    TrimDropsLeadingSpace(pad, s);
    DigitsValueOfDecimal(n);
  }

  /** A leading zero does not change the value of a run of digits. */
  lemma {:induction false} LeadingZeroIgnored(s: string)
    requires AllDigits(s)
    ensures AllDigits("0" + s) && DigitsValue("0" + s) == DigitsValue(s)
    decreases |s|
  {
    var z := "0" + s;
    assert AllDigits(z) by {
      forall i | 0 <= i < |z| ensures IsDigit(z[i]) {
        if i > 0 { assert z[i] == s[i - 1]; }
      }
    }
    if s != [] {
      var init := s[..|s| - 1];
      assert AllDigits(init) by {
        forall i | 0 <= i < |init| ensures IsDigit(init[i]) { assert init[i] == s[i]; }
      }
      LeadingZeroIgnored(init);
      assert z[..|z| - 1] == "0" + init;
    }
  }

  /** Leading zeros in front of a decimal number are ignored: `Number("007")` is 7. */
  lemma ParseZeroPadded(n: nat, zeros: nat)
    ensures ParseNumber(Zeros(zeros) + DecimalString(n)) == Integral(n)
  {
    ZeroPaddedValue(n, zeros);
    TrimmedDigits(Zeros(zeros) + DecimalString(n));
  }

  lemma {:induction false} ZeroPaddedValue(n: nat, zeros: nat)
    ensures AllDigits(Zeros(zeros) + DecimalString(n))
    ensures DigitsValue(Zeros(zeros) + DecimalString(n)) == n
    decreases zeros
  {
    if zeros == 0 {
      assert Zeros(0) + DecimalString(n) == DecimalString(n);
      DigitsValueOfDecimal(n);
    } else {
      ZeroPaddedValue(n, zeros - 1);
      var s' := Zeros(zeros - 1) + DecimalString(n);
      assert Zeros(zeros) + DecimalString(n) == "0" + s';
      LeadingZeroIgnored(s');
    }
  }

  function Zeros(k: nat): (z: string)
    ensures |z| == k && forall i :: 0 <= i < k ==> z[i] == '0'
  {
    if k == 0 then "" else "0" + Zeros(k - 1)
  }

  /** A nonempty run of digits has no surrounding whitespace. */
  lemma TrimmedDigits(s: string)
    requires s != [] && AllDigits(s)
    ensures Trim(s) == s
  {
    DigitNotSpace(s[0]);
    DigitNotSpace(s[|s| - 1]);
    TrimOfTrimmed(s);
  }

  /** A minus sign negates and a plus sign keeps the value of the digits it precedes. */
  lemma ParseSigned(d: string)
    requires d != [] && AllDigits(d)
    ensures ParseNumber("-" + d) == Integral(-ParseNumber(d).n)
    ensures ParseNumber("+" + d) == ParseNumber(d)
  {
    TrimmedDigits(d);
    DigitNotSpace(d[|d| - 1]);
    var m, p := "-" + d, "+" + d;
    assert m[1..] == d && p[1..] == d;
    assert m[|m| - 1] == d[|d| - 1] && p[|p| - 1] == d[|d| - 1];
    TrimOfTrimmed(m);
    TrimOfTrimmed(p);
    assert !IsDigit(m[0]) && !IsDigit(p[0]);
  }

  // ---------------------------------------------------------------------------
  // The configuration record

  /** `Number(process.env[name] ?? fallback)`. */
  function NumberOr(env: Environment, name: string, fallback: int): (r: Num)
    ensures name !in env ==> r == Integral(fallback)
  {
    if name in env then ParseNumber(env[name]) else Integral(fallback)
  }

  /** The retention window in days; 30 when `RETENTION_DAYS` is unset. */
  function RetentionDays(env: Environment): (r: Num)
    ensures "RETENTION_DAYS" !in env ==> r == Integral(30)
  {
    NumberOr(env, "RETENTION_DAYS", 30)
  }

  /** `process.env[name] ?? fallback` for a string setting. */
  function StringOr(env: Environment, name: string, fallback: string): string {
    if name in env then env[name] else fallback
  }

  datatype EnvConfig = EnvConfig(
    appEnv: string,
    retentionDays: Num,
    port: Num,
    corsOrigin: string,
    jwtAccessSecret: string,
    jwtRefreshSecret: string,
    accessTtl: string,
    refreshTtl: string,
    bootstrapAdminEmail: string,
    bootstrapAdminPassword: string)

  /**
   * The `env` record; loading fails, as the module's evaluation throws, when
   * either token secret is set to "".
   */
  function LoadEnv(env: Environment): (r: Result<EnvConfig, string>)
    ensures r.Ok? <==> StringOr(env, "JWT_ACCESS_SECRET", "x") != "" && StringOr(env, "JWT_REFRESH_SECRET", "x") != ""
    ensures r.Ok? ==> r.value.jwtAccessSecret != "" && r.value.jwtRefreshSecret != ""
    ensures r.Ok? ==> r.value.retentionDays == RetentionDays(env)
  {
    var appEnv := if "APP_ENV" in env then env["APP_ENV"] else StringOr(env, "NODE_ENV", "dev");
    match MustEnv(env, "JWT_ACCESS_SECRET", Some("dev-access-secret"))
    case Err(m) => Err(m)
    case Ok(access) =>
      match MustEnv(env, "JWT_REFRESH_SECRET", Some("dev-refresh-secret"))
      case Err(m) => Err(m)
      case Ok(refresh) =>
        Ok(EnvConfig(
          appEnv,
          RetentionDays(env),
          NumberOr(env, "PORT", 8787),
          StringOr(env, "CORS_ORIGIN", "http://localhost:5173"),
          access,
          refresh,
          StringOr(env, "ACCESS_TOKEN_TTL", "15m"),
          StringOr(env, "REFRESH_TOKEN_TTL", "30d"),
          StringOr(env, "BOOTSTRAP_ADMIN_EMAIL", "admin@example.com"),
          StringOr(env, "BOOTSTRAP_ADMIN_PASSWORD", "admin1234")))
  }

  /** With none of the settings' variables set, every setting takes its development default. */
  lemma UnsetEnvironmentDefaults(env: Environment)
    requires forall name :: name in Settings ==> name !in env
    ensures LoadEnv(env) == Ok(EnvConfig(
      "dev", Integral(30), Integral(8787), "http://localhost:5173",
      "dev-access-secret", "dev-refresh-secret", "15m", "30d",
      "admin@example.com", "admin1234"))
  {
    assert "APP_ENV" in Settings && "NODE_ENV" in Settings && "RETENTION_DAYS" in Settings && "PORT" in Settings;
    assert "CORS_ORIGIN" in Settings && "JWT_ACCESS_SECRET" in Settings && "JWT_REFRESH_SECRET" in Settings;
    assert "ACCESS_TOKEN_TTL" in Settings && "REFRESH_TOKEN_TTL" in Settings;
    assert "BOOTSTRAP_ADMIN_EMAIL" in Settings && "BOOTSTRAP_ADMIN_PASSWORD" in Settings;
  }

  /** The variables the configuration record reads. */
  const Settings: set<string> := {
    "APP_ENV", "NODE_ENV", "RETENTION_DAYS", "PORT", "CORS_ORIGIN",
    "JWT_ACCESS_SECRET", "JWT_REFRESH_SECRET", "ACCESS_TOKEN_TTL",
    "REFRESH_TOKEN_TTL", "BOOTSTRAP_ADMIN_EMAIL", "BOOTSTRAP_ADMIN_PASSWORD"}
}
