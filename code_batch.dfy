/** `calculateCodes` of `src/components/TOTPCard/utils.ts`: a batch of TOTP
    codes, one per time step, from a window start onwards. */
module CodeBatch {
  import opened Wrappers
  import opened Radix
  import opened JsText
  import opened TotpTypes
  import opened Hmac
  import opened Base32
  import opened Hotp

  /** The TOTP counter of section 4.2 of RFC 6238: `Math.floor(t / period)`. */
  function Counter(t: int, period: int): (c: int)
    requires period > 0
    ensures period * c <= t < period * c + period
  {
    t / period
  }

  /** The code a TOTP display shows at second `t`. */
  function TotpCode(hmac: HmacFn, key: seq<Byte>, t: int, period: int, digits: nat, algorithm: Algorithm): Option<string>
    requires period > 0
  {
    HotpCode(hmac, key, Counter(t, period), digits, algorithm)
  }

  /** `Math.ceil((durationHours * 3600) / period)`: the number of steps in the batch. */
  function BatchCount(durationHours: nat, period: int): nat
    requires period > 0
  {
    (durationHours * 3600 + period - 1) / period
  }

  /** The batch covers the whole duration, and with no step to spare. */
  lemma BatchCountCovers(durationHours: nat, period: int)
    requires period > 0
    ensures var count := BatchCount(durationHours, period);
      count * period >= durationHours * 3600 && (count == 0 || (count - 1) * period < durationHours * 3600)
  {
    var total := durationHours * 3600;
    var count := (total + period - 1) / period;
    var r := (total + period - 1) % period;
    assert total + period - 1 == period * count + r;
    assert (count - 1) * period == count * period - period;
  }

  /** The secret as `calculateCodes` decodes it: whitespace removed, upper-cased, Base32-decoded. */
  function SecretKey(secret: string): seq<Byte>
  {
    Decoded(Upper(RemoveWhitespace(secret)))
  }

  /** The outcome of generating the code of step `i` of a batch starting at `start`. */
  function StepCode(hmac: HmacFn, key: seq<Byte>, period: int, digits: nat, algorithm: Algorithm,
                    start: int, i: nat): Option<string>
    requires period > 0
  {
    TotpCode(hmac, key, start + i * period, period, digits, algorithm)
  }

  /** Step `i`'s outcome is the HOTP code of the counter its timestamp falls on. */
  lemma StepCodeOf(hmac: HmacFn, key: seq<Byte>, period: int, digits: nat, algorithm: Algorithm,
                   start: int, i: nat, counter: int)
    requires period > 0 && counter == Counter(start + i * period, period)
    ensures StepCode(hmac, key, period, digits, algorithm, start, i) == HotpCode(hmac, key, counter, digits, algorithm)
  {
  }

  /** Every step's outcome, as a function of the step's index. */
  function Steps(hmac: HmacFn, key: seq<Byte>, period: int, digits: nat, algorithm: Algorithm,
                 start: int): nat -> Option<string>
    requires period > 0
  {
    (i: nat) => StepCode(hmac, key, period, digits, algorithm, start, i)
  }

  /** The outcomes of the first `count` steps, in step order. */
  function Attempts(step: nat -> Option<string>, count: nat): (a: seq<Option<string>>)
    ensures |a| == count && forall j :: 0 <= j < count ==> a[j] == step(j)
  {
    seq(count, (j: int) requires 0 <= j => step(j))
  }

  /** One more step appends its outcome. */
  lemma AttemptsSnoc(step: nat -> Option<string>, i: nat)
    ensures Attempts(step, i + 1) == Attempts(step, i) + [step(i)]
  {
    assert Attempts(step, i + 1)[..i] == Attempts(step, i);
  }

  /** The codes of the attempts that succeeded, in step order; a failed step is skipped. */
  function Successes(a: seq<Option<string>>): seq<string>
  {
    if a == [] then []
    else Successes(a[..|a| - 1]) + (if a[|a| - 1].Some? then [a[|a| - 1].value] else [])
  }

  /** The batch `calculateCodes` returns. */
  function Batch(hmac: HmacFn, secret: string, period: int, digits: nat, algorithm: Algorithm,
                 durationHours: nat, startTimestamp: int): (codes: seq<string>)
    requires period > 0
    ensures |codes| <= BatchCount(durationHours, period)
  {
    SuccessesLength(Attempts(Steps(hmac, SecretKey(secret), period, digits, algorithm, startTimestamp),
                             BatchCount(durationHours, period)));
    Successes(Attempts(Steps(hmac, SecretKey(secret), period, digits, algorithm, startTimestamp),
                       BatchCount(durationHours, period)))
  }

  /** `calculateCodes`: a counted loop that pushes each step's code and skips
      (after logging) a step whose generation throws. */
  method CalculateCodes(secret: string, period: int, digits: nat, algorithm: Algorithm,
                        durationHours: nat, startTimestamp: int, hmac: HmacFn)
    returns (codes: seq<string>)
    requires period > 0
    ensures codes == Batch(hmac, secret, period, digits, algorithm, durationHours, startTimestamp)
  {
    var cleanSecret := Upper(RemoveWhitespace(secret));
    var secretBytes := Base32Decode(cleanSecret);
    var count := BatchCount(durationHours, period);
    ghost var steps := Steps(hmac, secretBytes, period, digits, algorithm, startTimestamp);
    codes := [];
    var i := 0;
    while i < count
      invariant 0 <= i <= count
      invariant codes == Successes(Attempts(steps, i))
    {
      var code := GenerateStep(secretBytes, period, digits, algorithm, startTimestamp, i, hmac);
      assert steps(i) == code;
      AttemptsSnoc(steps, i);
      SuccessesSnoc(Attempts(steps, i), code);
      if code.Some? {
        codes := codes + [code.value];
      }
      i := i + 1;
    }
  }

  /** One pass of the loop body: the step's timestamp, its counter, and the HOTP code. */
  method GenerateStep(key: seq<Byte>, period: int, digits: nat, algorithm: Algorithm,
                      start: int, i: nat, hmac: HmacFn)
    returns (code: Option<string>)
    requires period > 0
    ensures code == StepCode(hmac, key, period, digits, algorithm, start, i)
  {
    var timestamp := start + i * period;
    var counter := Counter(timestamp, period);
    assert counter == Counter(start + i * period, period);
    code := GenerateHOTP(key, counter, digits, algorithm, hmac);
  }

  // ---------------------------------------------------------------------------
  // Properties

  /** Skipping failures keeps order: the successes of two runs of steps are
      the successes of the first followed by those of the second. */
  lemma {:induction false} SuccessesAppend(a: seq<Option<string>>, b: seq<Option<string>>)
    ensures Successes(a + b) == Successes(a) + Successes(b)
    decreases |b|
  {
    if b == [] {
      assert a + b == a;
    } else {
      var init := b[..|b| - 1];
      assert (a + b)[..|a + b| - 1] == a + init;
      SuccessesAppend(a, init);
    }
  }

  /** One more step adds its code, if it has one, at the end. */
  lemma SuccessesSnoc(a: seq<Option<string>>, x: Option<string>)
    ensures Successes(a + [x]) == Successes(a) + (if x.Some? then [x.value] else [])
  {
    assert (a + [x])[..|a|] == a;
  }

  /** At most one code per step, and exactly one per step iff no step failed. */
  lemma {:induction false} SuccessesLength(a: seq<Option<string>>)
    ensures |Successes(a)| <= |a|
    ensures |Successes(a)| == |a| <==> forall i :: 0 <= i < |a| ==> a[i].Some?
  {
    if a != [] {
      var init := a[..|a| - 1];
      SuccessesLength(init);
      if a[|a| - 1].Some? && forall i :: 0 <= i < |init| ==> init[i].Some? {
        assert forall i :: 0 <= i < |a| ==> a[i].Some? by {
          forall i | 0 <= i < |a|
            ensures a[i].Some?
          {
            if i < |init| {
              assert init[i] == a[i];
            }
          }
        }
      }
    }
  }

  /** When no step failed, code `i` is step `i`'s code. */
  lemma {:induction false} SuccessesAllSome(a: seq<Option<string>>, i: nat)
    requires forall j :: 0 <= j < |a| ==> a[j].Some?
    requires i < |a|
    ensures |Successes(a)| == |a| && Successes(a)[i] == a[i].value
  {
    SuccessesLength(a);
    var init := a[..|a| - 1];
    if i < |a| - 1 {
      SuccessesAllSome(init, i);
    } else {
      SuccessesLength(init);
    }
  }

  /** A hash that never throws gives every step a code. */
  lemma StepCodeSucceeds(hmac: HmacFn, key: seq<Byte>, period: int, digits: nat, algorithm: Algorithm,
                         start: int, i: nat)
    requires period > 0 && NeverFails(hmac, algorithm, key)
    ensures StepCode(hmac, key, period, digits, algorithm, start, i).Some?
  {
    var counter := Counter(start + i * period, period);
    StepCodeOf(hmac, key, period, digits, algorithm, start, i, counter);
    assert hmac(algorithm, key, CounterMessage(counter)).Some?;
  }

  /** With a hash that never throws, the batch holds exactly `count` codes and
      code `i` is the code of the TOTP step that starts at `start + i*period`. */
  lemma BatchComplete(hmac: HmacFn, secret: string, period: int, digits: nat, algorithm: Algorithm,
                      durationHours: nat, start: int, i: nat)
    requires period > 0
    requires NeverFails(hmac, algorithm, SecretKey(secret))
    requires i < BatchCount(durationHours, period)
    ensures var codes := Batch(hmac, secret, period, digits, algorithm, durationHours, start);
      var code := StepCode(hmac, SecretKey(secret), period, digits, algorithm, start, i);
      |codes| == BatchCount(durationHours, period) && code.Some? && codes[i] == code.value
  {
    var key := SecretKey(secret);
    var count := BatchCount(durationHours, period);
    var a := Attempts(Steps(hmac, key, period, digits, algorithm, start), count);
    forall j | 0 <= j < |a|
      ensures a[j].Some?
    {
      StepCodeSucceeds(hmac, key, period, digits, algorithm, start, j);
    }
    SuccessesAllSome(a, i);
  }

  /** A window start on a step boundary gives consecutive counters. */
  lemma AlignedCounters(start: int, period: int, i: nat)
    requires period > 0 && start % period == 0
    ensures Counter(start + i * period, period) == start / period + i
  {
    var q := start / period;
    assert start == period * q;
    assert period * (q + i) == period * q + i * period;
    DivModUnique(start + i * period, period, q + i, 0);
  }

  /** Every second of step `i` falls on the counter of that step's start. */
  lemma StepCounter(start: int, period: int, i: nat, t: int)
    requires period > 0 && start % period == 0
    requires start + i * period <= t < start + (i + 1) * period
    ensures Counter(t, period) == Counter(start + i * period, period) == start / period + i
  {
    AlignedCounters(start, period, i);
    var q := start / period;
    var stepStart := start + i * period;
    assert stepStart == period * (q + i) by {
      assert start == period * q;
      assert period * (q + i) == period * q + i * period;
    }
    assert (i + 1) * period == i * period + period;
    DivModUnique(t, period, q + i, t - stepStart);
  }

  /** Every second of step `i` shows the batch's code `i`: a display that
      derives its counter from the clock agrees with the precomputed batch. */
  lemma BatchMatchesClock(hmac: HmacFn, secret: string, period: int, digits: nat, algorithm: Algorithm,
                          durationHours: nat, start: int, i: nat, t: int)
    requires period > 0 && start % period == 0
    requires NeverFails(hmac, algorithm, SecretKey(secret))
    requires i < BatchCount(durationHours, period)
    requires start + i * period <= t < start + (i + 1) * period
    ensures var codes := Batch(hmac, secret, period, digits, algorithm, durationHours, start);
      var code := TotpCode(hmac, SecretKey(secret), t, period, digits, algorithm);
      i < |codes| && code.Some? && codes[i] == code.value
  {
    BatchComplete(hmac, secret, period, digits, algorithm, durationHours, start, i);
    StepCounter(start, period, i, t);
  }

  /** The cleaning `calculateCodes` does first leaves the key unchanged. */
  lemma SecretKeyIsDecoded(secret: string)
    ensures SecretKey(secret) == Decoded(secret)
  {
    CleanedSecretDecodes(secret);
  }
}
