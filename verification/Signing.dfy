/** HMAC signing keys with a bounded current/previous lifecycle
    (src/hermes_mcp_bridge/signing.py). Times are in microseconds; `mac` stands for
    HMAC-SHA256 of a key and a payload. */
module Signing {
  import opened Wrappers

  const MAX_PREVIOUS_GRACE := 604_800 * 1_000_000

  /** A configured timestamp, as `_timestamp` reads it. */
  datatype Stamp = Unset | Malformed | WithoutZone | At(time: int)

  /** The environment: secrets and identifiers are read stripped, absent when empty. */
  datatype Env = Env(
    strict: bool, minimum: nat, current: Option<string>, previous: Option<string>,
    currentId: Option<string>, previousId: Option<string>, validFrom: Stamp, validUntil: Stamp)

  ghost predicate Readable(env: Env) {
    && env.minimum >= 1
    && (env.current.Some? ==> env.current.value != "") && (env.previous.Some? ==> env.previous.value != "")
  }

  datatype Complaint =
    | CurrentMissing | CurrentShort | BadStart | StartWithoutZone | BadDeadline | DeadlineWithoutZone
    | MetadataWithoutKey | PreviousShort | SameKeys | SameIds | NeedsInterval | NeedsBothEnds
    | DeadlineNotAfterStart | IntervalTooLong | NeedsKeyId

  datatype Posture = Posture(
    configured: bool, previousConfigured: bool, active: bool, pending: bool, expired: bool,
    unbounded: bool, error: Option<Complaint>)

  // ---- the specification ----

  /** The validity interval, when both ends are given, in order and close enough. */
  function Window(env: Env): Option<(int, int)> {
    if env.validFrom.At? && env.validUntil.At? && env.validFrom.time < env.validUntil.time
       && env.validUntil.time - env.validFrom.time <= MAX_PREVIOUS_GRACE
    then Some((env.validFrom.time, env.validUntil.time)) else None
  }

  function If(condition: bool, complaint: Complaint): seq<Complaint> { if condition then [complaint] else [] }

  function StampComplaints(stamp: Stamp, malformed: Complaint, zone: Complaint): seq<Complaint> {
    If(stamp.Malformed?, malformed) + If(stamp.WithoutZone?, zone)
  }

  function CurrentComplaints(env: Env): seq<Complaint> {
    If(env.current.None? && env.strict, CurrentMissing)
    + If(env.current.Some? && |env.current.value| < env.minimum, CurrentShort)
  }

  /** Neither stamp was read as a time. */
  predicate NoStamps(env: Env) { !env.validFrom.At? && !env.validUntil.At? }

  /** Complaints about the interval itself. */
  function IntervalComplaints(env: Env): seq<Complaint> {
    if env.validFrom.At? && env.validUntil.At? then
      var span := env.validUntil.time - env.validFrom.time;
      If(span <= 0, DeadlineNotAfterStart) + If(span > MAX_PREVIOUS_GRACE, IntervalTooLong)
    else if NoStamps(env) then If(env.strict, NeedsInterval)
    else [NeedsBothEnds]
  }

  /** Complaints about a configured previous key, in order. */
  function PreviousComplaints(env: Env, now: int): seq<Complaint>
    requires env.previous.Some?
  {
    If(|env.previous.value| < env.minimum, PreviousShort)
    + If(env.current == env.previous, SameKeys)
    + If(env.currentId.Some? && env.currentId == env.previousId, SameIds)
    + IntervalComplaints(env)
    + If(env.strict && env.previousId.None? && Window(env).Some? && now < env.validUntil.time, NeedsKeyId)
  }

  /** Complaints about the current key and the timestamps. */
  function BasicComplaints(env: Env): seq<Complaint> {
    CurrentComplaints(env)
    + StampComplaints(env.validFrom, BadStart, StartWithoutZone)
    + StampComplaints(env.validUntil, BadDeadline, DeadlineWithoutZone)
  }

  /** Everything wrong with the configuration at this time. */
  function Complaints(env: Env, now: int): seq<Complaint> {
    BasicComplaints(env)
    + (if env.previous.Some? then PreviousComplaints(env, now)
       else If(!NoStamps(env) || env.previousId.Some?, MetadataWithoutKey))
  }

  predicate Unbounded(env: Env) {
    env.previous.Some? && !env.strict && env.validFrom.Unset? && env.validUntil.Unset?
  }

  function PostureOf(env: Env, now: int): Posture {
    var complaints := Complaints(env, now);
    var w := Window(env);
    var bounded := env.previous.Some? && w.Some?;
    var fine := complaints == [];
    Posture(
      env.current.Some? && |env.current.value| >= env.minimum,
      env.previous.Some?,
      fine && (Unbounded(env) || (bounded && w.value.0 <= now < w.value.1)),
      fine && bounded && now < w.value.0,
      bounded && w.value.1 <= now,
      Unbounded(env),
      if fine then None else Some(complaints[0]))
  }

  // ---- the code ----

  /** Keep the first complaint. */
  function Fail(error: Option<Complaint>, complaint: Complaint): Option<Complaint> {
    if error.None? then Some(complaint) else error
  }

  /** The first of a list of complaints, after what was already wrong. */
  function First(error: Option<Complaint>, complaints: seq<Complaint>): Option<Complaint> {
    if error.Some? || complaints == [] then error else Some(complaints[0])
  }

  lemma FirstAppend(error: Option<Complaint>, a: seq<Complaint>, b: seq<Complaint>)
    ensures First(First(error, a), b) == First(error, a + b)
  {
  }

  /** Record a complaint when its condition holds. */
  method FailIf(error: Option<Complaint>, condition: bool, complaint: Complaint,
                ghost start: Option<Complaint>, ghost soFar: seq<Complaint>) returns (r: Option<Complaint>)
    requires error == First(start, soFar)
    ensures r == First(start, soFar + If(condition, complaint))
  {
    r := if condition then Fail(error, complaint) else error;
    FirstAppend(start, soFar, If(condition, complaint));
  }

  /** `_timestamp`, for its complaint. */
  method CheckStamp(stamp: Stamp, malformed: Complaint, zoneless: Complaint, error: Option<Complaint>,
                    ghost soFar: seq<Complaint>)
    returns (r: Option<Complaint>)
    requires error == First(None, soFar)
    ensures r == First(None, soFar + StampComplaints(stamp, malformed, zoneless))
  {
    r := error;
    if stamp.Malformed? { r := Fail(error, malformed); }
    if stamp.WithoutZone? { r := Fail(error, zoneless); }
    FirstAppend(None, soFar, StampComplaints(stamp, malformed, zoneless));
  }

  /** The current key. */
  method CheckCurrent(env: Env) returns (configured: bool, error: Option<Complaint>)
    ensures configured <==> env.current.Some? && |env.current.value| >= env.minimum
    ensures error == First(None, CurrentComplaints(env))
  {
    configured := env.current.Some? && |env.current.value| >= env.minimum;
    error := FailIf(None, env.current.None? && env.strict, CurrentMissing, None, []);
    error := FailIf(error, env.current.Some? && |env.current.value| < env.minimum, CurrentShort,
                    None, [] + If(env.current.None? && env.strict, CurrentMissing));
  }

  /** The current key and both timestamps. */
  method CheckBasics(env: Env) returns (configured: bool, error: Option<Complaint>)
    ensures configured <==> env.current.Some? && |env.current.value| >= env.minimum
    ensures error == First(None, BasicComplaints(env))
  {
    configured, error := CheckCurrent(env);
    ghost var c := CurrentComplaints(env);
    error := CheckStamp(env.validFrom, BadStart, StartWithoutZone, error, c);
    c := c + StampComplaints(env.validFrom, BadStart, StartWithoutZone);
    error := CheckStamp(env.validUntil, BadDeadline, DeadlineWithoutZone, error, c);
  }

  /** The previous key, or that there is none; the flags do not yet account for errors. */
  method CheckAnyPrevious(env: Env, now: int, start: Option<Complaint>)
    returns (error: Option<Complaint>, active: bool, pending: bool, expired: bool, unbounded: bool)
    requires start == First(None, BasicComplaints(env))
    ensures error == First(None, Complaints(env, now))
    ensures Placed(env, now, active, pending, expired, unbounded)
  {
    if env.previous.None? {
      error := FailIf(start, env.validFrom.At? || env.validUntil.At? || env.previousId.Some?,
                      MetadataWithoutKey, None, BasicComplaints(env));
      active, pending, expired, unbounded := false, false, false, false;
    } else {
      error, active, pending, expired, unbounded := CheckPrevious(env, now, start);
      FirstAppend(None, BasicComplaints(env), PreviousComplaints(env, now));
    }
  }

  /** The flags as the interval alone has them. */
  ghost predicate Placed(env: Env, now: int, active: bool, pending: bool, expired: bool, unbounded: bool) {
    var w := Window(env);
    var bounded := env.previous.Some? && w.Some?;
    && unbounded == Unbounded(env)
    && active == (unbounded || (bounded && w.value.0 <= now < w.value.1))
    && pending == (bounded && now < w.value.0)
    && expired == (bounded && w.value.1 <= now)
  }

  lemma PlacedIsPosture(env: Env, now: int, configured: bool, error: Option<Complaint>,
                        active: bool, pending: bool, expired: bool, unbounded: bool)
    requires configured <==> env.current.Some? && |env.current.value| >= env.minimum
    requires error == First(None, Complaints(env, now)) && Placed(env, now, active, pending, expired, unbounded)
    ensures PostureOf(env, now) == Posture(configured, env.previous.Some?, error.None? && active,
                                           error.None? && pending, expired, unbounded, error)
  {
  }

  method SigningPosture(env: Env, now: int) returns (p: Posture)
    ensures p == PostureOf(env, now)
  {
    var configured, error := CheckBasics(env);
    var active, pending, expired, unbounded;
    error, active, pending, expired, unbounded := CheckAnyPrevious(env, now, error);
    PlacedIsPosture(env, now, configured, error, active, pending, expired, unbounded);
    if error.Some? {
      active, pending := false, false;
    }
    p := Posture(configured, env.previous.Some?, active, pending, expired, unbounded, error);
  }

  /** The branch for a configured previous key. */
  method CheckPrevious(env: Env, now: int, start: Option<Complaint>)
    returns (error: Option<Complaint>, active: bool, pending: bool, expired: bool, unbounded: bool)
    requires env.previous.Some?
    ensures error == First(start, PreviousComplaints(env, now))
    ensures unbounded == Unbounded(env)
    ensures active == (unbounded || (Window(env).Some? && Window(env).value.0 <= now < Window(env).value.1))
    ensures pending == (Window(env).Some? && now < Window(env).value.0)
    ensures expired == (Window(env).Some? && Window(env).value.1 <= now)
  {
    error := FailIf(start, |env.previous.value| < env.minimum, PreviousShort, start, []);
    ghost var c := If(|env.previous.value| < env.minimum, PreviousShort);
    error := FailIf(error, env.current == env.previous, SameKeys, start, c);
    c := c + If(env.current == env.previous, SameKeys);
    error := FailIf(error, env.currentId.Some? && env.currentId == env.previousId, SameIds, start, c);
    c := c + If(env.currentId.Some? && env.currentId == env.previousId, SameIds);
    error, active, pending, expired, unbounded := CheckInterval(env, now, error);
    FirstAppend(start, c, IntervalComplaints(env));
    c := c + IntervalComplaints(env);
    error := FailIf(error, env.strict && (active || pending) && env.previousId.None?, NeedsKeyId, start, c);
  }

  /** Place the time in the interval; the flags do not yet account for errors. */
  method CheckInterval(env: Env, now: int, start: Option<Complaint>)
    returns (error: Option<Complaint>, active: bool, pending: bool, expired: bool, unbounded: bool)
    requires env.previous.Some?
    ensures error == First(start, IntervalComplaints(env))
    ensures unbounded == Unbounded(env)
    ensures active == (unbounded || (Window(env).Some? && Window(env).value.0 <= now < Window(env).value.1))
    ensures pending == (Window(env).Some? && now < Window(env).value.0)
    ensures expired == (Window(env).Some? && Window(env).value.1 <= now)
  {
    error, active, pending, expired, unbounded := start, false, false, false, false;
    if !env.validFrom.At? && !env.validUntil.At? {
      if env.strict {
        error := Fail(error, NeedsInterval);
      } else if env.validFrom.Unset? && env.validUntil.Unset? {
        active, unbounded := true, true;
      }
    } else if !env.validFrom.At? || !env.validUntil.At? {
      error := Fail(error, NeedsBothEnds);
    } else if env.validUntil.time <= env.validFrom.time {
      error := Fail(error, DeadlineNotAfterStart);
    } else if env.validUntil.time - env.validFrom.time > MAX_PREVIOUS_GRACE {
      error := Fail(error, IntervalTooLong);
    } else if now < env.validFrom.time {
      pending := true;
    } else if now >= env.validUntil.time {
      expired := true;
    } else {
      active := true;
    }
  }

  type Mac = (string, string) -> string

  ghost predicate Ideal(mac: Mac) {
    && (forall k, p, k', p' {:trigger mac(k, p), mac(k', p')} :: mac(k, p) == mac(k', p') ==> k == k' && p == p')
    && (forall k, p :: mac(k, p) != "")
  }

  const UNSIGNED := "unsigned"
  const ALGORITHM := "hmac-sha256"

  datatype Signed = Signed(status: string, signature: string, keyId: Option<string>)

  function Sign(payload: string, env: Env, now: int, mac: Mac): Result<Signed, Complaint> {
    var posture := PostureOf(env, now);
    if posture.error.Some? then Err(posture.error.value)
    else if env.current.None? then Ok(Signed(UNSIGNED, "", None))
    else Ok(Signed(ALGORITHM, mac(env.current.value, payload), env.currentId))
  }

  predicate PostureOk(env: Env, posture: Posture) { posture.error.None? && (posture.configured || !env.strict) }

  function Verify(payload: string, signature: string, env: Env, now: int, mac: Mac): bool {
    var posture := PostureOf(env, now);
    if signature == "" then false
    else if !PostureOk(env, posture) then false
    else if env.current.Some? && env.current.value != "" && mac(env.current.value, payload) == signature then true
    else if !posture.active then false
    else env.previous.Some? && env.previous.value != "" && mac(env.previous.value, payload) == signature
  }

  // ---- when the previous key is accepted ----

  /** The part of the configuration that time does not touch is in order. */
  ghost predicate HandoverConfigured(env: Env) {
    && env.current.Some? && |env.current.value| >= env.minimum
    && env.previous.Some? && |env.previous.value| >= env.minimum && env.previous != env.current
    && env.previousId.Some? && env.previousId != env.currentId
    && Window(env).Some?
  }

  /** Nothing is wrong with the keys, their identifiers and the interval at this time. */
  ghost predicate InOrder(env: Env, now: int) {
    && (env.strict ==> env.current.Some?)
    && (env.current.Some? ==> |env.current.value| >= env.minimum)
    && (env.validFrom.Unset? || env.validFrom.At?) && (env.validUntil.Unset? || env.validUntil.At?)
    && (env.previous.None? ==> env.validFrom.Unset? && env.validUntil.Unset? && env.previousId.None?)
    && (env.previous.Some? ==>
          && |env.previous.value| >= env.minimum && env.previous != env.current
          && (env.previousId.Some? ==> env.previousId != env.currentId)
          && (if env.validFrom.Unset? && env.validUntil.Unset? then !env.strict else Bounded(env))
          && (env.strict && now < Deadline(env) ==> env.previousId.Some?))
  }

  /** Both ends are given, in order, and at most seven days apart. */
  ghost predicate Bounded(env: Env) {
    && env.validFrom.At? && env.validUntil.At?
    && 0 < env.validUntil.time - env.validFrom.time <= 604_800_000_000
  }

  ghost function Deadline(env: Env): int { if env.validUntil.At? then env.validUntil.time else 0 }

  lemma ComplaintsExact(env: Env, now: int)
    ensures Complaints(env, now) == [] <==> InOrder(env, now)
  {
    if env.previous.Some? && !env.validFrom.Malformed? && !env.validFrom.WithoutZone?
       && !env.validUntil.Malformed? && !env.validUntil.WithoutZone? {
      PreviousExact(env, now);
    }
  }

  lemma PreviousExact(env: Env, now: int)
    requires env.previous.Some?
    requires (env.validFrom.Unset? || env.validFrom.At?) && (env.validUntil.Unset? || env.validUntil.At?)
    ensures PreviousComplaints(env, now) == [] <==>
              && |env.previous.value| >= env.minimum && env.previous != env.current
              && (env.previousId.Some? ==> env.previousId != env.currentId)
              && (if env.validFrom.Unset? && env.validUntil.Unset? then !env.strict else Bounded(env))
              && (env.strict && now < Deadline(env) ==> env.previousId.Some?)
  {
    assert Window(env).Some? <==> Bounded(env);
    assert IntervalComplaints(env) == [] <==>
             (if env.validFrom.Unset? && env.validUntil.Unset? then !env.strict else Bounded(env));
  }

  /** Main result, exact, strict or not: when the configuration is in error, and when the
      previous key is accepted, awaited, past, or accepted without bounds. */
  lemma PostureExact(env: Env, now: int)
    ensures var p := PostureOf(env, now);
      && (p.error.None? <==> InOrder(env, now))
      && (p.configured <==> env.current.Some? && |env.current.value| >= env.minimum)
      && (p.previousConfigured <==> env.previous.Some?)
      && (p.unbounded <==>
            env.previous.Some? && !env.strict && env.validFrom.Unset? && env.validUntil.Unset?)
      && (p.active <==>
            InOrder(env, now) && env.previous.Some?
            && (env.validFrom.Unset? || env.validFrom.time <= now < Deadline(env)))
      && (p.pending <==>
            InOrder(env, now) && env.previous.Some? && env.validFrom.At? && now < env.validFrom.time)
      && (p.expired <==> env.previous.Some? && Bounded(env) && Deadline(env) <= now)
  {
    ComplaintsExact(env, now);
    assert Window(env).Some? <==> Bounded(env);
  }

  /** What signing does: nothing without a current key, its key's mark otherwise, and an
      error exactly when the configuration is not in order. */
  lemma SignExact(payload: string, env: Env, now: int, mac: Mac)
    ensures var r := Sign(payload, env, now, mac);
      && (r.Ok? <==> InOrder(env, now))
      && (r.Err? ==> Some(r.error) == PostureOf(env, now).error)
      && (r.Ok? && env.current.None? ==> r.value == Signed("unsigned", "", None))
      && (r.Ok? && env.current.Some? ==>
            r.value == Signed("hmac-sha256", mac(env.current.value, payload), env.currentId))
  {
    PostureExact(env, now);
  }

  /** Main result: in strict mode the instants at which the previous key is accepted
      are none, or exactly one half-open interval of at most seven days. */
  lemma PreviousKeyWindow(env: Env, now: int)
    requires env.strict
    ensures PostureOf(env, now).active <==>
            HandoverConfigured(env) && Window(env).value.0 <= now < Window(env).value.1
    ensures HandoverConfigured(env) ==>
              0 < Window(env).value.1 - Window(env).value.0 <= MAX_PREVIOUS_GRACE
  {
    if HandoverConfigured(env) {
      assert Complaints(env, now) == [];
    } else if env.previous.Some? {
      SomethingWrong(env, now);
    }
  }

  /** A strict configuration that is not in order has a complaint, but for a missing
      identifier, which is complained of only until the deadline. */
  lemma SomethingWrong(env: Env, now: int)
    requires env.strict && env.previous.Some? && !HandoverConfigured(env)
    ensures Window(env).Some? && now < Window(env).value.1 ==> Complaints(env, now) != []
    ensures Window(env).None? ==> Complaints(env, now) != []
  {
    assert Complaints(env, now) == CurrentComplaints(env)
           + StampComplaints(env.validFrom, BadStart, StartWithoutZone)
           + StampComplaints(env.validUntil, BadDeadline, DeadlineWithoutZone)
           + PreviousComplaints(env, now);
    if Window(env).Some? && now < Window(env).value.1 && PreviousComplaints(env, now) == [] {
      assert CurrentComplaints(env) != [];
    }
    if Window(env).None? {
      assert PreviousComplaints(env, now) != [];
    }
  }

  /** Complaints only go away with time, so what could be signed stays verifiable. */
  lemma ComplaintsLapse(env: Env, t: int, t': int)
    requires t <= t' && Complaints(env, t) == []
    ensures Complaints(env, t') == []
  {
    if env.previous.Some? {
      assert PreviousComplaints(env, t) == [];
      assert PreviousComplaints(env, t') == [];
    }
  }

  /** The one complaint that time can bring: before its deadline the previous key must
      have an identifier. */
  predicate IdentifierDue(env: Env, now: int) {
    env.strict && env.previous.Some? && env.previousId.None? && Window(env).Some? && now < env.validUntil.time
  }

  lemma OnlyIdentifierComes(env: Env, t: int, t': int)
    requires Complaints(env, t) == []
    ensures Complaints(env, t') == [] <==> !IdentifierDue(env, t')
  {
    if env.previous.Some? {
      assert PreviousComplaints(env, t) == [];
      assert PreviousComplaints(env, t') == if IdentifierDue(env, t') then [NeedsKeyId] else [];
    }
  }

  /** Main result, exact: a fresh signature verifies at every instant, earlier or later,
      but those at which the previous key needs an identifier and has none; so at every
      later one. */
  lemma FreshSignatureVerifies(payload: string, env: Env, t: int, t': int, mac: Mac)
    requires Ideal(mac) && Readable(env)
    requires Sign(payload, env, t, mac).Ok? && env.current.Some?
    ensures Verify(payload, Sign(payload, env, t, mac).value.signature, env, t', mac) <==> !IdentifierDue(env, t')
    ensures t <= t' ==> Verify(payload, Sign(payload, env, t, mac).value.signature, env, t', mac)
  {
    OnlyIdentifierComes(env, t, t');
    if t <= t' { ComplaintsLapse(env, t, t'); }
    assert |env.current.value| >= env.minimum by {
      assert Complaints(env, t) == [];
      assert CurrentComplaints(env) == [];
    }
  }

  /** Signed after the deadline without a previous key identifier, not verifiable
      at an instant before it: the direction of time matters. */
  lemma EarlierVerificationMayFail(key: string, former: string, mac: Mac)
    requires Ideal(mac) && |key| >= 32 && |former| >= 32 && key != former
    ensures var env := Env(true, 32, Some(key), Some(former), None, None, At(0), At(10));
            && Sign("p", env, 10, mac) == Ok(Signed(ALGORITHM, mac(key, "p"), None))
            && !Verify("p", mac(key, "p"), env, 9, mac)
  {
    var env := Env(true, 32, Some(key), Some(former), None, None, At(0), At(10));
    assert Complaints(env, 10) == [];
    assert PreviousComplaints(env, 9) == [NeedsKeyId];
  }

  /** Main result: after a handover, a signature made with the old key verifies
      exactly inside the configured window. */
  lemma OldSignatureVerifiesInWindow(payload: string, before: Env, signedAt: int, env: Env, now: int, mac: Mac)
    requires Ideal(mac) && Readable(env) && env.strict
    requires Sign(payload, before, signedAt, mac).Ok? && before.current.Some?
    requires env.previous == before.current && env.current != before.current
    ensures Verify(payload, Sign(payload, before, signedAt, mac).value.signature, env, now, mac) <==>
            HandoverConfigured(env) && Window(env).value.0 <= now < Window(env).value.1
  {
    PreviousKeyWindow(env, now);
  }

  /** Nothing else verifies: an accepted signature is one of the two keys' own. */
  lemma VerifyExact(payload: string, signature: string, env: Env, now: int, mac: Mac)
    requires Ideal(mac) && Readable(env)
    ensures Verify(payload, signature, env, now, mac) <==>
            && PostureOk(env, PostureOf(env, now))
            && ((env.current.Some? && signature == mac(env.current.value, payload))
                || (PostureOf(env, now).active && signature == mac(env.previous.value, payload)))
  {
  }
}
