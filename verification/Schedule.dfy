/** When the controller rotates: the arithmetic of the rotation window
    (internal/controller/ephemeralcredential_controller.go). Status times are
    persisted as RFC 3339 date-times without a fraction, so they lose what lies
    below `unit`; the cluster has `unit == SECOND`, and `unit == 1` is the
    arithmetic with nothing lost. */
module Schedule {
  import opened Api

  const DEFAULT_ROTATE_BEFORE: Time := 600 * SECOND
  const MIN_REQUEUE_AFTER: Time := 5 * SECOND

  /** An instant as the API server persists it. */
  function Truncate(unit: nat, t: Time): (r: Time)
    requires unit > 0
    ensures r <= t < r + unit
    ensures unit == 1 ==> r == t
  {
    t - t % unit
  }

  /** What is persisted is a whole number of units. */
  lemma TruncatesToUnits(unit: nat, t: Time)
    requires unit > 0
    ensures exists q: int :: Truncate(unit, t) == unit * q
    ensures Truncate(1_000_000_000, t) % 1_000_000_000 == 0
  {
    assert Truncate(unit, t) == unit * (t / unit);
  }

  lemma TruncateMonotone(unit: nat, t: Time, t': Time)
    requires unit > 0 && t <= t'
    ensures Truncate(unit, t) <= Truncate(unit, t')
  {
    if t / unit <= t' / unit {
      MultiplesOrdered(unit, t / unit, t' / unit);
    } else {
      MultiplesOrdered(unit, t' / unit + 1, t / unit);
    }
  }

  lemma MultiplesOrdered(unit: nat, a: int, b: int)
    requires a <= b
    ensures unit * a <= unit * b
  {
    assert unit * (b - a) >= 0;
  }

  function RequestedRotateBefore(spec: Spec): (d: Time)
    ensures d > 0
  {
    var d := spec.rotateBeforeSeconds * SECOND;
    if d <= 0 then DEFAULT_ROTATE_BEFORE else d
  }

  function GrantedLifetime(status: Status): Time {
    if status.expiresAt.None? || status.lastRotatedAt.None? then 0
    else status.expiresAt.value - status.lastRotatedAt.value
  }

  /** The effective window, and whether it had to be reduced: at most half of a
      known lifetime, never more than asked for, and reduced only when needed. */
  function ClampRotateBefore(requested: Time, granted: Time): (r: (Time, bool))
    ensures granted > 0 ==> 2 * r.0 <= granted
    ensures requested > 0 ==> 0 <= r.0 <= requested
    ensures requested > 0 ==> (r.1 <==> 2 * requested > granted > 0)
    ensures r.1 ==> 2 * r.0 <= granted <= 2 * r.0 + 1
    ensures requested > 0 && !r.1 ==> r.0 == requested
  {
    var req := if requested <= 0 then DEFAULT_ROTATE_BEFORE else requested;
    if granted <= 0 then (req, false)
    else if req > granted / 2 then (granted / 2, true)
    else (req, false)
  }

  /** The window used before a mint is decided, recomputed from persisted status. */
  function StatusWindow(spec: Spec, status: Status): (w: Time)
    ensures w >= 0
  {
    ClampRotateBefore(RequestedRotateBefore(spec), GrantedLifetime(status)).0
  }

  /** The window used right after a mint, from what the provider granted. */
  function GrantWindow(spec: Spec, expiresAt: Time, now: Time): (w: Time)
    ensures w >= 0
  {
    ClampRotateBefore(RequestedRotateBefore(spec), expiresAt - now).0
  }

  predicate NeedsMint(ec: EC, now: Time) {
    || ec.status.expiresAt.None?
    || ec.generation != ec.status.observedGeneration
    || !(now + StatusWindow(ec.spec, ec.status) < ec.status.expiresAt.value)
  }

  function RequeueAfter(expiresAt: Time, window: Time, now: Time): (d: Time)
    ensures d >= MIN_REQUEUE_AFTER
  {
    var d := expiresAt - window - now;
    if d < MIN_REQUEUE_AFTER then MIN_REQUEUE_AFTER else d
  }

  /** The status a mint at `now` persists. */
  function MintedStatus(unit: nat, generation: int, now: Time, expiresAt: Time): Status
    requires unit > 0
  {
    Status(Active, Some(Truncate(unit, expiresAt)), Some(Truncate(unit, now)), generation,
           Ready(true, MintSucceeded, generation))
  }

  /** The instant for which a mint at `now` schedules the next reconcile. */
  function WakeUp(spec: Spec, now: Time, expiresAt: Time): Time {
    now + RequeueAfter(expiresAt, GrantWindow(spec, expiresAt, now), now)
  }

  /** The first instant at which the rotation window of a persisted status is open. */
  function WindowOpens(spec: Spec, status: Status): Time
    requires status.expiresAt.Some?
  {
    status.expiresAt.value - StatusWindow(spec, status)
  }

  /** With the spec unchanged since the mint, `NeedsMint` turns true exactly there. */
  lemma NeedsMintFrom(ec: EC, now: Time)
    requires ec.status.expiresAt.Some? && ec.generation == ec.status.observedGeneration
    ensures NeedsMint(ec, now) <==> WindowOpens(ec.spec, ec.status) <= now
  {
  }

  /** What the spec asks for decides: with a lifetime on record of at least twice the
      window asked for, a mint is due exactly from that long before the expiry on; with a
      shorter one, from the middle of the lifetime on. A spec that asks for no positive
      window gets ten minutes. A change of the spec, and a status without expiry, make a
      mint due at once. */
  lemma RotatesAsAsked(ec: EC, now: Time)
    ensures ec.status.expiresAt.None? || ec.generation != ec.status.observedGeneration ==> NeedsMint(ec, now)
    ensures ec.status.expiresAt.Some? && ec.status.lastRotatedAt.Some? && ec.generation == ec.status.observedGeneration ==>
      var asked := (if ec.spec.rotateBeforeSeconds > 0 then ec.spec.rotateBeforeSeconds else 600) * 1_000_000_000;
      var lifetime := ec.status.expiresAt.value - ec.status.lastRotatedAt.value;
      && (lifetime >= 2 * asked ==> (NeedsMint(ec, now) <==> ec.status.expiresAt.value - asked <= now))
      && (0 < lifetime <= 2 * asked ==> (NeedsMint(ec, now) <==> ec.status.expiresAt.value - lifetime / 2 <= now))
  {
    if ec.status.expiresAt.Some? && ec.generation == ec.status.observedGeneration {
      NeedsMintFrom(ec, now);
    }
  }

  /** Of the spec, only the window asked for matters to the schedule. */
  lemma OnlyTheWindowMatters(ec: EC, spec: Spec, now: Time, expiresAt: Time, t: Time)
    requires spec.rotateBeforeSeconds == ec.spec.rotateBeforeSeconds
    ensures NeedsMint(ec.(spec := spec), t) <==> NeedsMint(ec, t)
    ensures WakeUp(spec, now, expiresAt) == WakeUp(ec.spec, now, expiresAt)
  {
  }

  /** The window recomputed from truncated status opens no later than the window
      computed at mint time, and less than one unit earlier. This holds for every
      grant that is positive once truncated. */
  lemma WindowsAgree(unit: nat, spec: Spec, generation: int, now: Time, expiresAt: Time)
    requires unit > 0 && (unit == 1 || unit % 2 == 0)
    requires Truncate(unit, expiresAt) > Truncate(unit, now)
    ensures var opens := WindowOpens(spec, MintedStatus(unit, generation, now, expiresAt));
            var planned := expiresAt - GrantWindow(spec, expiresAt, now);
            opens <= planned < opens + unit
  {
    TruncatedHalves(unit, now, expiresAt);
    if expiresAt <= now {
      TruncateMonotone(unit, expiresAt, now);
    }
    ClampsAgree(unit, RequestedRotateBefore(spec), now, expiresAt,
                Truncate(unit, now), Truncate(unit, expiresAt));
  }

  /** The clamp applied to a lifetime and to its truncation. */
  lemma ClampsAgree(unit: nat, requested: Time, now: Time, expiresAt: Time, now': Time, expiresAt': Time)
    requires requested > 0 && expiresAt > now && expiresAt' > now'
    requires expiresAt' <= expiresAt < expiresAt' + unit
    requires var planned, opens := expiresAt - (expiresAt - now) / 2, expiresAt' - (expiresAt' - now') / 2;
             opens <= planned < opens + unit
    ensures var planned := expiresAt - ClampRotateBefore(requested, expiresAt - now).0;
            var opens := expiresAt' - ClampRotateBefore(requested, expiresAt' - now').0;
            opens <= planned < opens + unit
  {
  }

  /** Half of a lifetime, measured before and after truncation. */
  lemma TruncatedHalves(unit: nat, now: Time, expiresAt: Time)
    requires unit > 0 && (unit == 1 || unit % 2 == 0)
    ensures var e, l := Truncate(unit, expiresAt), Truncate(unit, now);
            var planned, opens := expiresAt - (expiresAt - now) / 2, e - (e - l) / 2;
            opens <= planned < opens + unit
  {
    var e, l := Truncate(unit, expiresAt), Truncate(unit, now);
    assert e == unit * (expiresAt / unit) && l == unit * (now / unit);
    if unit != 1 {
      var h := unit / 2;
      assert unit == 2 * h;
      var a, b := expiresAt / unit, now / unit;
      assert e - l == 2 * (h * (a - b)) by {
        assert unit * a == 2 * (h * a) && unit * b == 2 * (h * b);
      }
    }
  }

  /** A reconcile at the scheduled wake-up finds the window open, whatever was
      granted; for grants of at least ten seconds it is less than one unit late. */
  lemma ScheduleMeetsPredicate(unit: nat, ec: EC, now: Time, expiresAt: Time)
    requires unit > 0 && (unit == 1 || unit % 2 == 0) && unit <= SECOND
    requires ec.status == MintedStatus(unit, ec.generation, now, expiresAt)
    ensures NeedsMint(ec, WakeUp(ec.spec, now, expiresAt))
    ensures expiresAt - now >= 2 * MIN_REQUEUE_AFTER ==>
      forall t :: t <= WakeUp(ec.spec, now, expiresAt) - unit ==> !NeedsMint(ec, t)
  {
    NeedsMintFrom(ec, WakeUp(ec.spec, now, expiresAt));
    if Truncate(unit, expiresAt) > Truncate(unit, now) {
      WindowsAgree(unit, ec.spec, ec.generation, now, expiresAt);
    }
  }

  /** Exactly when the wake-up is less than one unit late: when the floor on requeues
      reaches no further than one unit past the opening of the window. */
  lemma WakesPromptlyExactly(unit: nat, ec: EC, now: Time, expiresAt: Time)
    requires unit > 0 && (unit == 1 || unit % 2 == 0)
    requires unit <= MIN_REQUEUE_AFTER || Truncate(unit, expiresAt) > Truncate(unit, now)
    requires ec.status == MintedStatus(unit, ec.generation, now, expiresAt)
    ensures (forall t :: t <= WakeUp(ec.spec, now, expiresAt) - unit ==> !NeedsMint(ec, t))
       <==> now + MIN_REQUEUE_AFTER < WindowOpens(ec.spec, ec.status) + unit
  {
    var wake := WakeUp(ec.spec, now, expiresAt);
    NeedsMintFrom(ec, wake - unit);
    if Truncate(unit, expiresAt) > Truncate(unit, now) {
      WindowsAgree(unit, ec.spec, ec.generation, now, expiresAt);
    }
  }

  /** With nothing lost to truncation the wake-up is the first instant at which a
      mint is due, exactly when the floor on requeues does not apply. */
  lemma ScheduleIsExact(ec: EC, now: Time, expiresAt: Time)
    requires ec.status == MintedStatus(1, ec.generation, now, expiresAt)
    requires expiresAt > now
    ensures WakeUp(ec.spec, now, expiresAt) == WindowOpens(ec.spec, ec.status)
       <==> expiresAt - now >= MIN_REQUEUE_AFTER + GrantWindow(ec.spec, expiresAt, now)
  {
  }

  /** Eight seconds can be too short: the floor holds the wake-up back a whole second. */
  lemma ShortGrantWakesLate()
    ensures var spec := Spec("github-app", 60, 600);
            WakeUp(spec, 0, 8 * SECOND)
              >= WindowOpens(spec, MintedStatus(SECOND, 1, 0, 8 * SECOND)) + SECOND
  {
  }

  /** A mint that the open window triggers comes at least half a lifetime after the
      previous one, up to what truncation loses: strictly less than one unit. */
  lemma RotationGap(unit: nat, ec: EC, before: Time, expiresAt: Time, now: Time)
    requires unit > 0
    requires ec.status.expiresAt == Some(Truncate(unit, expiresAt))
    requires ec.status.lastRotatedAt == Some(Truncate(unit, before))
    requires ec.generation == ec.status.observedGeneration
    requires Truncate(unit, expiresAt) > Truncate(unit, before)
    requires NeedsMint(ec, now)
    ensures 2 * (now - before) >= expiresAt - before - 2 * (unit - 1)
  {
  }

  /** All reconciles that find the window closed name the same instant for the next
      one, until fewer than five seconds remain. */
  lemma StableWakeUp(expiresAt: Time, window: Time, now: Time)
    ensures now + RequeueAfter(expiresAt, window, now) ==
      if now <= expiresAt - window - MIN_REQUEUE_AFTER then expiresAt - window
      else now + MIN_REQUEUE_AFTER
  {
  }
}
