/** The closed enumerations of `src/components/TOTPCard/types.ts`. */
module TotpTypes {
  import opened Wrappers

  datatype Algorithm = SHA1 | SHA256 | SHA512

  const AllowedDigits: seq<int> := [6, 8]
  const AllowedPeriods: seq<int> := [15, 30, 60]
  const AllowedAlgos: seq<Algorithm> := [SHA1, SHA256, SHA512]

  type Digits = d: int | d in AllowedDigits witness 6
  type Period = p: int | p in AllowedPeriods witness 30

  /** The code length, time step in seconds and hash of one TOTP configuration. */
  datatype TOTPParams = TOTPParams(digits: Digits, period: Period, algorithm: Algorithm)

  /** The card's initial parameters and the values a clean URL leaves out. */
  const DefaultParams: TOTPParams := TOTPParams(6, 30, SHA1)

  /** The name the code, the URL and the otpauth URI use for an algorithm. */
  function AlgorithmName(a: Algorithm): string
  {
    match a
    case SHA1 => "SHA1"
    case SHA256 => "SHA256"
    case SHA512 => "SHA512"
  }

  /** `ALLOWED_ALGOS.includes(name)`, returning the member it found. */
  function AlgorithmFromName(name: string): (r: Option<Algorithm>)
    ensures r.Some? ==> AlgorithmName(r.value) == name
    ensures r.None? <==> forall a :: AlgorithmName(a) != name
  {
    if name == "SHA1" then Some(SHA1)
    else if name == "SHA256" then Some(SHA256)
    else if name == "SHA512" then Some(SHA512)
    else None
  }

  lemma AllowedValues()
    ensures forall d :: d in AllowedDigits <==> d == 6 || d == 8
    ensures forall p :: p in AllowedPeriods <==> p == 15 || p == 30 || p == 60
    ensures forall a: Algorithm :: a in AllowedAlgos
    ensures forall a: Algorithm :: multiset(AllowedAlgos)[a] == 1
  {
    forall a: Algorithm
      ensures a in AllowedAlgos && multiset(AllowedAlgos)[a] == 1
    {
      assert AllowedAlgos == [SHA1] + [SHA256] + [SHA512];
      match a
      case SHA1 =>
      case SHA256 =>
      case SHA512 =>
    }
  }

  /** Every allowed period divides an hour, so an hour holds a whole number of steps. */
  lemma PeriodDividesHour(p: Period)
    ensures p > 0 && 3600 % p == 0
  {
  }

  /** Distinct algorithms have distinct names. */
  lemma AlgorithmNameInjective(a: Algorithm, b: Algorithm)
    ensures AlgorithmName(a) == AlgorithmName(b) ==> a == b
  {
    if a != b {
      assert AlgorithmName(a)[3] != AlgorithmName(b)[3] || |AlgorithmName(a)| != |AlgorithmName(b)|
        || AlgorithmName(a)[4] != AlgorithmName(b)[4];
    }
  }
}
