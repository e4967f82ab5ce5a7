/**
Rotation of the policy encryption key of a managed cluster
(controllers/encryptionkeys/encryptionkeys_controller.go).
*/
module KeyRotation {
  import opened Basics
  import opened GoTime

  type Bytes = seq<bv8>

  /** The "key" and "previousKey" fields; a missing field reads as empty. */
  datatype Keys = Keys(key: Bytes, previous: Bytes)

  /** `data` is None when the Secret has no data at all, a nil map that cannot be written to.
      `lastRotated` is None when the annotation is missing or empty. */
  datatype Secret = Secret(data: Option<Keys>, lastRotated: Option<Stamp>, rotationDisabled: bool)

  const DAY: int := 86_400 * SECOND

  /** The most rotation days whose duration fits in an int64 of nanoseconds. */
  const MAX_DAYS: nat := 106_751

  /** One reconcile: the clock when the schedule is checked, the clock when a rotation is recorded,
      the generated key (none if generation fails) and whether the API server takes the update. */
  datatype Tick = Tick(now: int, later: int, generated: Option<Bytes>, updateOk: bool)

  /** Failed: the request is retried and the Secret is as it was. */
  datatype Outcome = Failed | Succeeded(requeueAfter: Option<int>)

  /** aes.NewCipher accepts the key: 128, 192 or 256 bits (section 6.1 of FIPS 197). */
  predicate ValidKey(k: Bytes)
  {
    |k| == 16 || |k| == 24 || |k| == 32
  }

  function KeysOf(s: Secret): Keys
  {
    if s.data.None? then Keys([], []) else s.data.value
  }

  /** time.Hour * 24 * time.Duration(KeyRotationDays) */
  function Period(days: nat): int
  {
    Wrap64(DAY * days)
  }

  /** getNextRotationFromNow, with 0 for an annotation that cannot be used. */
  function UntilNext(lastRotated: Option<Stamp>, days: nat, now: int): int
  {
    if lastRotated.None? || lastRotated.value.Unparsable? then 0
    else Sub(Parse(lastRotated.value) + Period(days), now)
  }

  predicate Rotates(s: Secret, days: nat, now: int)
  {
    !ValidKey(KeysOf(s).key) || UntilNext(s.lastRotated, days, now) <= 0
  }

  /** The new key replaces the current one, which becomes the previous key unless it is invalid. */
  function Rotated(s: Secret, newKey: Bytes, later: int): Secret
  {
    var key := KeysOf(s).key;
    s.(data := Some(Keys(newKey, if ValidKey(key) then key else [])), lastRotated := Some(Format(later)))
  }

  /** What a reconcile leaves on the API server. */
  function Reconciled(s: Secret, days: nat, t: Tick): (Secret, Outcome)
  {
    if s.rotationDisabled then (s, Succeeded(None))
    else if s.data.None? then (s, Failed)
    else if Rotates(s, days, t.now) then
      if t.generated.None? || !t.updateOk then (s, Failed)
      else
        var r := Rotated(s, t.generated.value, t.later);
        (r, Succeeded(Some(UntilNext(r.lastRotated, days, t.later))))
    else if KeysOf(s).previous == [] || ValidKey(KeysOf(s).previous) then
      (s, Succeeded(Some(UntilNext(s.lastRotated, days, t.now))))
    else if !t.updateOk then (s, Failed)
    else (s.(data := Some(s.data.value.(previous := []))), Succeeded(Some(UntilNext(s.lastRotated, days, t.now))))
  }

  /******* The reconcile as the controller runs it *******/

  class Controller {
    var secret: Secret

    constructor (initial: Secret)
      ensures secret == initial
    {
      secret := initial;
    }

    /** A local copy of the Secret is edited and sent as an update; a write to a nil map panics. */
    method Reconcile(days: nat, t: Tick) returns (outcome: Outcome)
      modifies this
      ensures (secret, outcome) == Reconciled(old(secret), days, t)
      ensures var was := old(secret);
              days <= MAX_DAYS && !was.rotationDisabled && was.data.Some? && outcome.Succeeded? ==>
                if Due(was, days, t.now) then
                  && t.generated.Some?
                  && secret.data.Some? && secret.data.value.key == t.generated.value
                  && secret.data.value.previous == (if ValidKey(was.data.value.key) then was.data.value.key else [])
                  && secret.lastRotated == Some(At(t.later / SECOND))
                else KeysOf(secret).key == was.data.value.key && secret.lastRotated == was.lastRotated
    {
      if days <= MAX_DAYS {
        PeriodFits(days);
      }
      if secret.rotationDisabled {
        return Succeeded(None);
      }
      var copy := secret;
      var next := UntilNext(copy.lastRotated, days, t.now);
      if !ValidKey(KeysOf(copy).key) {
        next := 0;
        if copy.data.None? {
          return Failed;
        }
        copy := copy.(data := Some(copy.data.value.(key := [])));
      }
      if next > 0 {
        if KeysOf(copy).previous != [] && !ValidKey(KeysOf(copy).previous) {
          copy := copy.(data := Some(KeysOf(copy).(previous := [])));
          if !t.updateOk {
            return Failed;
          }
          secret := copy;
        }
        return Succeeded(Some(next));
      }
      if t.generated.None? {
        return Failed;
      }
      copy := copy.(data := Some(KeysOf(copy).(previous := KeysOf(copy).key)));
      copy := copy.(data := Some(KeysOf(copy).(key := t.generated.value)), lastRotated := Some(Format(t.later)));
      if !t.updateOk {
        return Failed;
      }
      secret := copy;
      return Succeeded(Some(UntilNext(secret.lastRotated, days, t.later)));
    }
  }

  /******* Every reconcile *******/

  /** GenerateEncryptionKey makes 256-bit keys. */
  predicate Generates(t: Tick)
  {
    t.generated.Some? ==> |t.generated.value| == 32
  }

  predicate KeysOk(s: Secret)
  {
    s.data.Some? && ValidKey(s.data.value.key) && (s.data.value.previous == [] || ValidKey(s.data.value.previous))
  }

  /** Whatever was done to the Secret before, a successful reconcile leaves usable keys. */
  lemma SuccessLeavesUsableKeys(s: Secret, days: nat, t: Tick)
    requires !s.rotationDisabled && Generates(t)
    ensures Reconciled(s, days, t).1.Succeeded? ==> KeysOk(Reconciled(s, days, t).0)
  {
  }

  /** A rotation is due: the key is not usable, the last rotation is not known, or the period is over. */
  predicate Due(s: Secret, days: nat, now: int)
  {
    || !ValidKey(KeysOf(s).key)
    || s.lastRotated.None? || s.lastRotated.value.Unparsable?
    || now >= s.lastRotated.value.seconds * SECOND + DAY * days
  }

  /** A reconcile rotates exactly when a rotation is due: the new key is the generated one, the key it
      replaces becomes the previous one unless it was not usable, and the second of the rotation is recorded. */
  lemma RotatesWhenDue(s: Secret, days: nat, t: Tick)
    requires days <= MAX_DAYS && !s.rotationDisabled && s.data.Some? && Due(s, days, t.now)
    ensures var (r, outcome) := Reconciled(s, days, t);
            if t.generated.Some? && t.updateOk then
              && outcome.Succeeded? && r.data.Some? && !r.rotationDisabled
              && r.data.value.key == t.generated.value
              && r.data.value.previous == (if ValidKey(s.data.value.key) then s.data.value.key else [])
              && r.lastRotated == Some(At(t.later / SECOND))
            else r == s && outcome == Failed
  {
    PeriodFits(days);
  }

  /** Otherwise the key stays, a usable or empty previous key stays, and any other is cleared. */
  lemma KeepsWhenNotDue(s: Secret, days: nat, t: Tick)
    requires days <= MAX_DAYS && !s.rotationDisabled && s.data.Some? && !Due(s, days, t.now)
    ensures var (r, outcome) := Reconciled(s, days, t);
            var clear := s.data.value.previous != [] && !ValidKey(s.data.value.previous);
            if clear && !t.updateOk then r == s && outcome == Failed
            else
              && outcome.Succeeded? && !r.rotationDisabled && r.lastRotated == s.lastRotated
              && r.data == Some(Keys(s.data.value.key, if clear then [] else s.data.value.previous))
  {
    PeriodFits(days);
  }

  /** With rotation disabled nothing is done; a Secret without data is never written. */
  lemma LeavesAlone(s: Secret, days: nat, t: Tick)
    requires s.rotationDisabled || s.data.None?
    ensures Reconciled(s, days, t) == (s, if s.rotationDisabled then Succeeded(None) else Failed)
  {
  }

  /** The next reconcile is asked for when the period after the recorded rotation is over: a moment after
      the clock reading that was used, unless that is beyond what a duration can hold. */
  lemma RequeueIsRestOfPeriod(s: Secret, days: nat, t: Tick)
    requires days <= MAX_DAYS && !s.rotationDisabled && Reconciled(s, days, t).1.Succeeded?
    ensures var (r, outcome) := Reconciled(s, days, t);
            && outcome.requeueAfter.Some? && r.lastRotated.Some? && r.lastRotated.value.At?
            && var rest := r.lastRotated.value.seconds * SECOND + DAY * days -
                           (if Due(s, days, t.now) then t.later else t.now);
               rest <= MAX_INT64 ==> outcome.requeueAfter.value == rest
    ensures Due(s, days, t.now) ==>
              DAY * days - SECOND < Reconciled(s, days, t).1.requeueAfter.value <= DAY * days
  {
    PeriodFits(days);
    assert DAY * days <= DAY * MAX_DAYS <= MAX_INT64;
  }

  /******* Runs *******/

  ghost predicate Ordered(ticks: seq<Tick>)
  {
    && (forall i :: 0 <= i < |ticks| ==> ticks[i].now <= ticks[i].later && Generates(ticks[i]))
    && (forall i, j :: 0 <= i < j < |ticks| ==> ticks[i].later <= ticks[j].now)
  }

  /** The Secret before reconcile `i`, with nobody else editing it. */
  function Before(initial: Secret, days: nat, ticks: seq<Tick>, i: nat): Secret
    requires i <= |ticks|
  {
    if i == 0 then initial else Reconciled(Before(initial, days, ticks, i - 1), days, ticks[i - 1]).0
  }

  /** Reconcile `i` replaced the key. */
  predicate Supersedes(initial: Secret, days: nat, ticks: seq<Tick>, i: nat)
    requires i < |ticks|
  {
    var s := Before(initial, days, ticks, i);
    && !s.rotationDisabled && s.data.Some? && Rotates(s, days, ticks[i].now)
    && ticks[i].generated.Some? && ticks[i].updateOk
  }

  lemma PeriodFits(days: nat)
    requires days <= MAX_DAYS
    ensures Period(days) == DAY * days
  {
    assert DAY * days <= DAY * MAX_DAYS <= MAX_INT64;
  }

  /** Before the period is over, a reconcile changes nothing. */
  lemma QuietTick(s: Secret, days: nat, t: Tick, last: int)
    requires 1 <= days <= MAX_DAYS && !s.rotationDisabled && KeysOk(s) && s.lastRotated == Some(At(last))
    requires last * SECOND <= t.now < last * SECOND + DAY * days
    ensures Reconciled(s, days, t).0 == s
  {
    PeriodFits(days);
  }

  lemma {:induction false} SupersededStays(initial: Secret, days: nat, ticks: seq<Tick>, i: nat, j: nat)
    requires 1 <= days <= MAX_DAYS && Ordered(ticks) && i < j <= |ticks| && Supersedes(initial, days, ticks, i)
    requires forall k :: i < k < j ==> ticks[k].now < Parse(Format(ticks[i].later)) + DAY * days
    ensures Before(initial, days, ticks, j) ==
            Rotated(Before(initial, days, ticks, i), ticks[i].generated.value, ticks[i].later)
    decreases j
  {
    if j > i + 1 {
      SupersededStays(initial, days, ticks, i, j - 1);
      var s := Before(initial, days, ticks, j - 1);
      assert Generates(ticks[i]);
      assert ticks[i].later <= ticks[j - 1].now;
      QuietTick(s, days, ticks[j - 1], Format(ticks[i].later).seconds);
    }
  }

  /** A superseded key is still the previous key after every reconcile whose clock reads no later than
      one period, less a second, after the rotation was recorded. */
  lemma SupersededKeyStaysReadable(initial: Secret, days: nat, ticks: seq<Tick>, i: nat, j: nat)
    requires 1 <= days <= MAX_DAYS && Ordered(ticks) && i < j <= |ticks| && Supersedes(initial, days, ticks, i)
    requires ValidKey(KeysOf(Before(initial, days, ticks, i)).key)
    requires i + 1 == j || ticks[j - 1].now <= ticks[i].later + DAY * days - SECOND
    ensures KeysOf(Before(initial, days, ticks, j)).previous == KeysOf(Before(initial, days, ticks, i)).key
  {
    forall k | i < k < j
      ensures ticks[k].now < Parse(Format(ticks[i].later)) + DAY * days
    {
      assert k == j - 1 || ticks[k].now <= ticks[k].later <= ticks[j - 1].now;
    }
    SupersededStays(initial, days, ticks, i, j);
  }

  /******* The bound on the number of days *******/

  /** No valid key is rotated before its period is over. */
  ghost predicate PeriodHonoured(days: nat)
  {
    forall s: Secret, now: int, last: int ::
      ValidKey(KeysOf(s).key) && s.lastRotated == Some(At(last)) && last * SECOND <= now && Rotates(s, days, now) ==>
        now >= last * SECOND + DAY * days
  }

  /** The configured period is honoured exactly when it fits in an int64 duration. */
  lemma PeriodHonouredExactly(days: nat)
    ensures PeriodHonoured(days) <==> days <= MAX_DAYS
  {
    if days <= MAX_DAYS {
      PeriodFits(days);
    } else {
      var key: Bytes := seq(32, i => 0 as bv8);
      var s := Secret(Some(Keys(key, [])), Some(At(0)), false);
      var now := if Period(days) > 0 then Period(days) else 0;
      assert DAY * days >= DAY * (MAX_DAYS + 1) > MAX_INT64;
      assert ValidKey(KeysOf(s).key) && s.lastRotated == Some(At(0)) && 0 * SECOND <= now && Rotates(s, days, now);
      assert now < 0 * SECOND + DAY * days;
    }
  }
}
