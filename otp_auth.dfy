/**
 * One-time-password bookkeeping, the public/admin path tables and the
 * versioned session cookie name of the authentication package.
 * Time is nanoseconds since an arbitrary origin, passed in by the caller;
 * the generated code and the e-mail that carries it are parameters.
 */
module OtpAuth {
  import opened GoStrings

  // ---------------------------------------------------------------------
  // The OTP store

  datatype OtpData = OtpData(email: string, otp: string, expiresAt: int, attempts: int)

  /** Five minutes, in nanoseconds */
  const OtpLifetime: int := 5 * 60 * 1_000_000_000

  /** More verifications than this on one entry lock it out */
  const MaxAttempts: int := 3

  const ErrNoRequest := "no OTP request found"
  const ErrExpired := "OTP has expired"
  const ErrTooMany := "too many incorrect attempts"
  const ErrInvalid := "invalid OTP"

  /** The store after SendOTP records `otp` for `email` at time `now` */
  function Send(store: map<string, OtpData>, email: string, otp: string, now: int): (r: map<string, OtpData>)
    ensures email in r && r[email] == OtpData(email, otp, now + OtpLifetime, 0)
    ensures forall k :: k != email ==> (k in r <==> k in store) && (k in store ==> r[k] == store[k])
  {
    store[email := OtpData(email, otp, now + OtpLifetime, 0)]
  }

  /** The new store and the answer of one VerifyOTP call */
  datatype Verified = Verified(store: map<string, OtpData>, result: Result<bool>)

  function Verify(store: map<string, OtpData>, email: string, otp: string, now: int): Verified {
    if email !in store then Verified(store, Err(ErrNoRequest))
    else
      var data := store[email];
      if now > data.expiresAt then Verified(store - {email}, Err(ErrExpired))
      else
        var counted := data.(attempts := data.attempts + 1);
        if counted.attempts > MaxAttempts then Verified(store - {email}, Err(ErrTooMany))
        else if data.otp != otp then Verified(store[email := counted], Err(ErrInvalid))
        else Verified(store - {email}, Ok(true))
  }

  /** r holds the same entries as store for every address other than email */
  ghost predicate OthersUnchanged(r: map<string, OtpData>, store: map<string, OtpData>, email: string) {
    forall k :: k != email ==> (k in r <==> k in store) && (k in store ==> r[k] == store[k])
  }

  /** No entry: an error, and the store is untouched */
  lemma VerifyNoEntry(store: map<string, OtpData>, email: string, otp: string, now: int)
    requires email !in store
    ensures Verify(store, email, otp, now).result == Err(ErrNoRequest)
    ensures Verify(store, email, otp, now).store == store
  {
  }

  /** An expired entry is deleted, whatever code is offered */
  lemma VerifyExpired(store: map<string, OtpData>, email: string, otp: string, now: int)
    requires email in store && now > store[email].expiresAt
    ensures Verify(store, email, otp, now).result == Err(ErrExpired)
    ensures email !in Verify(store, email, otp, now).store
  {
  }

  /** Past the attempt limit the entry is deleted, even for the right code */
  lemma VerifyTooMany(store: map<string, OtpData>, email: string, now: int)
    requires email in store && now <= store[email].expiresAt && store[email].attempts >= MaxAttempts
    ensures Verify(store, email, store[email].otp, now).result == Err(ErrTooMany)
    ensures email !in Verify(store, email, store[email].otp, now).store
  {
  }

  /** A wrong code within the limit keeps the entry, one attempt further on */
  lemma VerifyWrongCode(store: map<string, OtpData>, email: string, otp: string, now: int)
    requires email in store && now <= store[email].expiresAt && store[email].attempts < MaxAttempts
    requires otp != store[email].otp
    ensures Verify(store, email, otp, now).result == Err(ErrInvalid)
    ensures email in Verify(store, email, otp, now).store
    ensures Verify(store, email, otp, now).store[email] == store[email].(attempts := store[email].attempts + 1)
  {
  }

  /** A call succeeds exactly when an unexpired entry within the limit holds the offered code */
  lemma VerifySucceedsIff(store: map<string, OtpData>, email: string, otp: string, now: int)
    ensures Verify(store, email, otp, now).result.Ok? <==>
      email in store && now <= store[email].expiresAt &&
      store[email].attempts < MaxAttempts && store[email].otp == otp
    ensures Verify(store, email, otp, now).result.Ok? ==>
      Verify(store, email, otp, now).result.value && email !in Verify(store, email, otp, now).store
  {
  }

  /** Only the entry of the verified address can change */
  lemma VerifyOthersUnchanged(store: map<string, OtpData>, email: string, otp: string, now: int)
    ensures OthersUnchanged(Verify(store, email, otp, now).store, store, email)
  {
  }

  /** No stored entry ever carries more than the allowed number of attempts */
  ghost predicate AttemptsBounded(store: map<string, OtpData>) {
    forall k :: k in store ==> 0 <= store[k].attempts <= MaxAttempts
  }

  lemma SendKeepsBound(store: map<string, OtpData>, email: string, otp: string, now: int)
    requires AttemptsBounded(store)
    ensures AttemptsBounded(Send(store, email, otp, now))
  {
  }

  lemma VerifyKeepsBound(store: map<string, OtpData>, email: string, otp: string, now: int)
    requires AttemptsBounded(store)
    ensures AttemptsBounded(Verify(store, email, otp, now).store)
  {
  }

  /** A freshly sent code is accepted within its five minutes */
  lemma SendThenVerify(store: map<string, OtpData>, email: string, otp: string, now: int, later: int)
    requires now <= later <= now + OtpLifetime
    ensures Verify(Send(store, email, otp, now), email, otp, later).result == Ok(true)
    ensures email !in Verify(Send(store, email, otp, now), email, otp, later).store
  {
  }

  /** After a send, the entry seen by the n-th wrong guess (all within the lifetime) */
  lemma WrongGuessCounts(s0: map<string, OtpData>, email: string, otp: string, now: int, guess: string, t: int)
    requires email in s0 && s0[email].otp == otp && guess != otp
    requires now <= t <= s0[email].expiresAt && 0 <= s0[email].attempts < MaxAttempts
    ensures var v := Verify(s0, email, guess, t);
      v.result == Err(ErrInvalid) && email in v.store && v.store[email].otp == otp &&
      v.store[email].expiresAt == s0[email].expiresAt && v.store[email].attempts == s0[email].attempts + 1
  {
  }

  /** Three wrong guesses lock the entry: the fourth call fails even with the right code */
  lemma FourthAttemptLocked(store: map<string, OtpData>, email: string, otp: string, now: int,
                            g1: string, g2: string, g3: string, t1: int, t2: int, t3: int, t4: int)
    requires g1 != otp && g2 != otp && g3 != otp
    requires now <= t1 <= now + OtpLifetime && now <= t2 <= now + OtpLifetime
    requires now <= t3 <= now + OtpLifetime && now <= t4 <= now + OtpLifetime
    ensures var s0 := Send(store, email, otp, now);
      var s1 := Verify(s0, email, g1, t1).store;
      var s2 := Verify(s1, email, g2, t2).store;
      var s3 := Verify(s2, email, g3, t3).store;
      Verify(s3, email, otp, t4).result == Err(ErrTooMany) && email !in Verify(s3, email, otp, t4).store
  {
    var s0 := Send(store, email, otp, now);
    WrongGuessCounts(s0, email, otp, now, g1, t1);
    var s1 := Verify(s0, email, g1, t1).store;
    WrongGuessCounts(s1, email, otp, now, g2, t2);
    var s2 := Verify(s1, email, g2, t2).store;
    WrongGuessCounts(s2, email, otp, now, g3, t3);
    var s3 := Verify(s2, email, g3, t3).store;
    VerifyTooMany(s3, email, t4);
  }

  class OtpStore {
    var entries: map<string, OtpData>

    constructor()
      ensures entries == map[]
    {
      entries := map[];
    }

    /** The store half of SendOTP: the generated code and the clock are parameters */
    method SendOTP(email: string, otp: string, now: int)
      modifies this
      ensures entries == Send(old(entries), email, otp, now)
    {
      entries := entries[email := OtpData(email, otp, now + OtpLifetime, 0)];
    }

    method VerifyOTP(email: string, otp: string, now: int) returns (r: Result<bool>)
      modifies this
      ensures Verified(entries, r) == Verify(old(entries), email, otp, now)
    {
      if email !in entries {
        return Err(ErrNoRequest);
      }
      var data := entries[email];
      if now > data.expiresAt {
        entries := entries - {email};
        return Err(ErrExpired);
      }
      data := data.(attempts := data.attempts + 1);
      entries := entries[email := data];
      if data.attempts > MaxAttempts {
        entries := entries - {email};
        return Err(ErrTooMany);
      }
      if data.otp != otp {
        return Err(ErrInvalid);
      }
      entries := entries - {email};
      return Ok(true);
    }
  }

  // ---------------------------------------------------------------------
  // Path tables

  /** Some entry of the list is a prefix of path */
  const PublicPaths: seq<string> := ["/login", "/auth/request-otp", "/auth/verify-otp", "/static/", "/favicon.ico"]
  const AdminPaths: seq<string> := ["/admin", "/api/admin/"]

  predicate IsPublicPath(path: string) {
    AnyPrefix(path, PublicPaths)
  }

  predicate IsAdminPath(path: string) {
    AnyPrefix(path, AdminPaths)
  }

  /** The public paths are those under one of the five listed prefixes */
  lemma PublicPathIff(path: string)
    ensures IsPublicPath(path) <==>
      HasPrefix(path, "/login") || HasPrefix(path, "/auth/request-otp") || HasPrefix(path, "/auth/verify-otp") ||
      HasPrefix(path, "/static/") || HasPrefix(path, "/favicon.ico")
  {
    assert PublicPaths[0] == "/login" && PublicPaths[1] == "/auth/request-otp";
    assert PublicPaths[2] == "/auth/verify-otp" && PublicPaths[3] == "/static/" && PublicPaths[4] == "/favicon.ico";
  }

  /** The admin paths are those under `/admin` or `/api/admin/` */
  lemma AdminPathIff(path: string)
    ensures IsAdminPath(path) <==> HasPrefix(path, "/admin") || HasPrefix(path, "/api/admin/")
  {
    assert AdminPaths[0] == "/admin" && AdminPaths[1] == "/api/admin/";
  }

  /** The test is by prefix only: anything that extends `/login` is public */
  lemma LoginExtensionPublic(rest: string)
    ensures IsPublicPath("/login" + rest)
  {
    PublicPathIff("/login" + rest);
    assert ("/login" + rest)[..6] == "/login";
  }

  // ---------------------------------------------------------------------
  // Session cookie name

  /** s without its leading characters outside [a-zA-Z0-9] */
  function DropRun(s: string): (r: string)
    ensures |r| <= |s| && (r == [] || IsAlnum(r[0]))
    ensures Alnums(r) == Alnums(s)
  {
    if s == [] || IsAlnum(s[0]) then s else DropRun(s[1..])
  }

  /** The regular-expression rewrite of `[^a-zA-Z0-9]+` by `_` */
  function Sanitize(s: string): (r: string)
    decreases |s|
  {
    if s == [] then []
    else if IsAlnum(s[0]) then [s[0]] + Sanitize(s[1..])
    else "_" + Sanitize(DropRun(s[1..]))
  }

  /** The letters and digits of s, in order */
  function Alnums(s: string): string {
    if s == [] then [] else (if IsAlnum(s[0]) then [s[0]] else []) + Alnums(s[1..])
  }

  /** Only letters, digits and single underscores */
  predicate Sanitized(r: string) {
    (forall i :: 0 <= i < |r| ==> IsAlnum(r[i]) || r[i] == '_') &&
    (forall i :: 0 <= i < |r| - 1 ==> r[i] == '_' ==> r[i + 1] != '_')
  }

  lemma {:induction false} SanitizeShape(s: string)
    ensures Sanitized(Sanitize(s))
    ensures Sanitize(s) == [] || (IsAlnum(Sanitize(s)[0]) <==> IsAlnum(s[0]))
    decreases |s|
  {
    if s != [] {
      if IsAlnum(s[0]) {
        SanitizeShape(s[1..]);
      } else {
        var d := DropRun(s[1..]);
        SanitizeShape(d);
      }
    }
  }

  /** Every letter and digit survives, in order */
  lemma {:induction false} SanitizeKeepsAlnums(s: string)
    ensures Alnums(Sanitize(s)) == Alnums(s)
    decreases |s|
  {
    if s != [] {
      if IsAlnum(s[0]) {
        SanitizeKeepsAlnums(s[1..]);
        AlnumsCons(s[0], Sanitize(s[1..]));
      } else {
        SanitizeKeepsAlnums(DropRun(s[1..]));
        AlnumsCons('_', Sanitize(DropRun(s[1..])));
      }
    }
  }

  lemma AlnumsCons(c: char, t: string)
    ensures Alnums([c] + t) == (if IsAlnum(c) then [c] else []) + Alnums(t)
  {
    assert ([c] + t)[1..] == t;
  }

  /** An already sanitized name is left as it is, so sanitizing twice changes nothing */
  lemma {:induction false} SanitizeFixed(r: string)
    requires Sanitized(r)
    ensures Sanitize(r) == r
    decreases |r|
  {
    if r != [] {
      SanitizedTail(r);
      if IsAlnum(r[0]) {
        SanitizeFixed(r[1..]);
      } else {
        assert r[1..] == [] || IsAlnum(r[1]);
        assert DropRun(r[1..]) == r[1..];
        SanitizeFixed(r[1..]);
      }
    }
  }

  lemma SanitizedTail(r: string)
    requires r != [] && Sanitized(r)
    ensures Sanitized(r[1..])
  {
    forall i | 0 <= i < |r[1..]| - 1 && r[1..][i] == '_' ensures r[1..][i + 1] != '_' {
      assert r[i + 1] == '_';
    }
  }

  lemma SanitizeIdempotent(s: string)
    ensures Sanitize(Sanitize(s)) == Sanitize(s)
  {
    SanitizeShape(s);
    SanitizeFixed(Sanitize(s));
  }

  /** getEnvOrDefault: an unset (empty) variable takes the default */
  function OrDefault(value: string, default: string): (r: string)
    ensures value != "" ==> r == value
    ensures value == "" ==> r == default
  {
    if value == "" then default else value
  }

  const CookieNameLimit: nat := 64

  /** GetSessionCookieName, given the values of APP_NAME and APP_VERSION */
  function SessionCookieName(appName: string, version: string): string {
    var name := Sanitize(OrDefault(appName, "OpenAgent")) + "_" + Sanitize(OrDefault(version, "1.0.0.0"));
    if |name| > CookieNameLimit then name[..CookieNameLimit] else name
  }

  /** The cookie name is a prefix of `app_version`, at most 64 characters, of letters, digits and `_` */
  lemma SessionCookieNameShape(appName: string, version: string)
    ensures var full := Sanitize(OrDefault(appName, "OpenAgent")) + "_" + Sanitize(OrDefault(version, "1.0.0.0"));
      var r := SessionCookieName(appName, version);
      |r| <= CookieNameLimit && r <= full && (|full| <= CookieNameLimit ==> r == full)
    ensures forall i :: 0 <= i < |SessionCookieName(appName, version)| ==>
      IsAlnum(SessionCookieName(appName, version)[i]) || SessionCookieName(appName, version)[i] == '_'
  {
    var a := Sanitize(OrDefault(appName, "OpenAgent"));
    var v := Sanitize(OrDefault(version, "1.0.0.0"));
    SanitizeShape(OrDefault(appName, "OpenAgent"));
    SanitizeShape(OrDefault(version, "1.0.0.0"));
    var full := a + "_" + v;
    assert forall i :: 0 <= i < |full| ==> IsAlnum(full[i]) || full[i] == '_';
  }
}
