/** CVSS severity ratings and the qualitative scale of CVSS version 3.1 (section 5). */
module Cvss {
  import opened Wrappers

  /** The enumeration; the declaration order is the order of `Value`. */
  datatype CvssSeverity = NONE | UNIMPORTANT | LOW | MEDIUM | HIGH | CRITICAL

  /** The enum member's integer value. */
  function Value(s: CvssSeverity): int {
    match s
    case NONE => 0
    case UNIMPORTANT => 1
    case LOW => 2
    case MEDIUM => 3
    case HIGH => 4
    case CRITICAL => 5
  }

  /** `CvssSeverity(v)`: the member with value `v`, and a failure for any other integer. */
  function FromValue(v: int): (r: Result<CvssSeverity>)
    ensures r.Ok? <==> 0 <= v <= 5
    ensures r.Ok? ==> Value(r.value) == v
  {
    if v == 0 then Ok(NONE)
    else if v == 1 then Ok(UNIMPORTANT)
    else if v == 2 then Ok(LOW)
    else if v == 3 then Ok(MEDIUM)
    else if v == 4 then Ok(HIGH)
    else if v == 5 then Ok(CRITICAL)
    else Err(ValueError)
  }

  /** Values are distinct (the enumeration is declared unique) and `FromValue` inverts `Value`. */
  lemma ValueRoundTrip(s: CvssSeverity)
    ensures 0 <= Value(s) <= 5
    ensures FromValue(Value(s)) == Ok(s)
  {
  }

  /** The member's name. */
  function Name(s: CvssSeverity): string {
    match s
    case NONE => "NONE"
    case UNIMPORTANT => "UNIMPORTANT"
    case LOW => "LOW"
    case MEDIUM => "MEDIUM"
    case HIGH => "HIGH"
    case CRITICAL => "CRITICAL"
  }

  /** `CvssSeverity[name]`: lookup by member name, `KeyError` for anything else. */
  function FromName(n: string): (r: Result<CvssSeverity>)
    ensures r.Ok? ==> Name(r.value) == n
    ensures r.Err? ==> r.error == KeyError(n)
  {
    if n == "NONE" then Ok(NONE)
    else if n == "UNIMPORTANT" then Ok(UNIMPORTANT)
    else if n == "LOW" then Ok(LOW)
    else if n == "MEDIUM" then Ok(MEDIUM)
    else if n == "HIGH" then Ok(HIGH)
    else if n == "CRITICAL" then Ok(CRITICAL)
    else Err(KeyError(n))
  }

  lemma NameRoundTrip(s: CvssSeverity)
    ensures FromName(Name(s)) == Ok(s)
  {
  }

  /**
   * The qualitative rating scale: None 0.0, Low 0.1-3.9, Medium 4.0-6.9,
   * High 7.0-8.9, Critical 9.0-10.0 (stated over reals, so the gaps between
   * the one-decimal bands belong to the band below).
   */
  predicate InBand(s: CvssSeverity, score: real) {
    match s
    case NONE => score == 0.0
    case UNIMPORTANT => false
    case LOW => 0.0 < score < 4.0
    case MEDIUM => 4.0 <= score < 7.0
    case HIGH => 7.0 <= score < 9.0
    case CRITICAL => 9.0 <= score <= 10.0
  }

  /**
   * `CvssSeverity.from_score`: scores outside 0..10 are refused, every other
   * score gets the one rating whose band contains it, so `UNIMPORTANT` never
   * comes out.
   */
  function FromScore(score: real): (r: Result<CvssSeverity>)
    ensures r.Err? <==> score < 0.0 || score > 10.0
    ensures r.Err? ==> r.error == ValueError
    ensures r.Ok? ==> InBand(r.value, score) && r.value != UNIMPORTANT
  {
    if score < 0.0 || score > 10.0 then Err(ValueError)
    else if score >= 9.0 then Ok(CRITICAL)
    else if score >= 7.0 then Ok(HIGH)
    else if score >= 4.0 then Ok(MEDIUM)
    else if score > 0.0 then Ok(LOW)
    else Ok(NONE)
  }

  /** The bands do not overlap: a score in 0..10 has exactly one rating. */
  lemma BandsDisjoint(s: CvssSeverity, t: CvssSeverity, score: real)
    requires InBand(s, score) && InBand(t, score)
    ensures s == t
  {
  }

  /** A higher score never gets a lower rating. */
  lemma FromScoreMonotone(a: real, b: real)
    requires 0.0 <= a <= b <= 10.0
    ensures FromScore(a).Ok? && FromScore(b).Ok?
    ensures Value(FromScore(a).value) <= Value(FromScore(b).value)
  {
  }

  /** The scores `tests/data/test_cvss.py` uses: -0.1 and 10.1 are refused. */
  lemma FromScoreOutOfRange()
    ensures FromScore(-0.1) == Err(ValueError) && FromScore(10.1) == Err(ValueError)
    ensures FromScore(0.0) == Ok(NONE) && FromScore(10.0) == Ok(CRITICAL)
  {
  }
}
