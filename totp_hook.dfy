/** The countdown state of `src/hooks/useTOTP.ts`. The code generator is a
    library and is not modelled: its result for the current moment is an
    input, `None` when it throws. The clock is an input too. */
module TotpHook {
  import opened Wrappers
  import opened JsText
  import opened TotpTypes
  import Radix
  import Base32
  import CodeBatch

  /** The token shown while there is no code. */
  const Placeholder: string := "------"

  /** `secret.replace(/\s/g, '').toUpperCase()` */
  function NormalizeSecret(secret: string): (clean: string)
    ensures NoWhitespace(clean)
    ensures forall i :: 0 <= i < |clean| ==> !IsLowerAscii(clean[i])
  {
    UpperKeepsWhitespaceFree(RemoveWhitespace(secret));
    Upper(RemoveWhitespace(secret))
  }

  /** `step - (epoch % step)`: the seconds left in the current time step. */
  function Remaining(epoch: int, period: int): (left: int)
    requires period > 0
    ensures 1 <= left <= period
  {
    period - epoch % period
  }

  /** The card's display state. */
  class TotpDisplay {
    var token: string
    var timeLeft: int
    var progress: real
    var isValid: bool

    /** Either the reset state's zeros, or a countdown within one step. */
    predicate Valid()
      reads this
    {
      || (timeLeft == 0 && progress == 0.0)
      || (1 <= timeLeft <= 60 && 0.0 < progress <= 100.0)
    }

    constructor()
      ensures token == Placeholder && timeLeft == 0 && progress == 0.0 && !isValid
      ensures Valid()
    {
      token := Placeholder;
      timeLeft := 0;
      progress := 0.0;
      isValid := false;
    }

    /** The branch for an empty secret. */
    method Reset()
      modifies this
      ensures !isValid && token == Placeholder && progress == 0.0 && timeLeft == 0
      ensures Valid()
    {
      isValid := false;
      token := Placeholder;
      progress := 0.0;
      timeLeft := 0;
    }

    /** One tick of `update()`: `generated` is the generator's result and
        `epochMs` is `Date.now()`, never before 1970. A failure only clears
        `isValid`. */
    method Update(epochMs: nat, period: Period, generated: Option<string>)
      requires Valid()
      modifies this
      ensures Valid()
      ensures generated.Some? ==> && token == generated.value && isValid
                                  && timeLeft == Remaining(epochMs / 1000, period)
                                  && progress == (timeLeft as real / period as real) * 100.0
      ensures generated.None? ==> && !isValid && token == old(token)
                                  && timeLeft == old(timeLeft) && progress == old(progress)
    {
      match generated
      case Some(newToken) =>
        token := newToken;
        isValid := true;
        var epoch := epochMs / 1000;
        var step := period;
        var remaining := Remaining(epoch, step);
        RemainingBounds(epoch, step);
        ProgressRange(epoch, step);
        timeLeft := remaining;
        progress := (remaining as real / step as real) * 100.0;
      case None =>
        isValid := false;
    }

    /** The effect that runs when the secret or the parameters change: an
        empty normalised secret resets the display, any other runs the first
        tick. */
    method Refresh(secret: string, params: TOTPParams, epochMs: nat, generated: Option<string>)
      requires Valid()
      modifies this
      ensures Valid()
      ensures NormalizeSecret(secret) == "" ==> !isValid && token == Placeholder && progress == 0.0 && timeLeft == 0
      ensures NormalizeSecret(secret) != "" && generated.Some?
              ==> token == generated.value && isValid && timeLeft == Remaining(epochMs / 1000, params.period)
      ensures NormalizeSecret(secret) != "" && generated.None?
              ==> !isValid && token == old(token) && timeLeft == old(timeLeft) && progress == old(progress)
    {
      var cleanSecret := NormalizeSecret(secret);
      if cleanSecret == "" {
        Reset();
      } else {
        Update(epochMs, params.period, generated);
      }
    }
  }

  // ---------------------------------------------------------------------------
  // Properties

  /** The normalised secret has no whitespace and no lower-case letter, is
      empty exactly when the secret is all whitespace, normalising twice
      changes nothing, and it decodes to the same key as the secret. */
  lemma NormalizeSecretClean(secret: string)
    ensures var clean := NormalizeSecret(secret);
      && NoWhitespace(clean)
      && (forall i :: 0 <= i < |clean| ==> !IsLowerAscii(clean[i]))
      && (clean == "" <==> RemoveWhitespace(secret) == "")
      && NormalizeSecret(clean) == clean
      && Base32.Decoded(clean) == Base32.Decoded(secret)
  {
    var r := RemoveWhitespace(secret);
    UpperKeepsWhitespaceFree(r);
    Base32.CleanedSecretDecodes(secret);
  }

  lemma {:induction false} UpperKeepsWhitespaceFree(s: string)
    requires NoWhitespace(s)
    ensures NoWhitespace(Upper(s))
  {
    if s != [] {
      assert !IsWhitespace(s[0]);
      UpperKeepsWhitespaceFree(s[1..]);
      assert Upper(s) == [UpperChar(s[0])] + Upper(s[1..]);
    }
  }

  /** The countdown is within `[1, period]`, is the full period exactly on a
      step boundary, and runs out exactly when the TOTP counter moves on. */
  lemma RemainingBounds(epoch: int, period: int)
    requires period > 0
    ensures 1 <= Remaining(epoch, period) <= period
    ensures Remaining(epoch, period) == period <==> epoch % period == 0
    ensures var next := epoch + Remaining(epoch, period);
      && next % period == 0
      && CodeBatch.Counter(next - 1, period) == CodeBatch.Counter(epoch, period)
      && CodeBatch.Counter(next, period) == CodeBatch.Counter(epoch, period) + 1
  {
    var q, r := epoch / period, epoch % period;
    var next := epoch + Remaining(epoch, period);
    assert epoch == period * q + r;
    assert next == period * (q + 1) + 0;
    Radix.DivModUnique(next, period, q + 1, 0);
    Radix.DivModUnique(next - 1, period, q, period - 1);
  }

  /** Every displayed countdown leaves a progress in `(0, 100]`. */
  lemma ProgressRange(epoch: int, period: int)
    requires period > 0
    ensures var p := (Remaining(epoch, period) as real / period as real) * 100.0;
      0.0 < p <= 100.0
  {
    RemainingBounds(epoch, period);
  }
}
