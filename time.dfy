/**
 * Timestamps. `new Date(ms).toISOString()` and `new Date(text).getTime()` are modelled by
 * `ToIso` and `TimeOf`: the text is a signed decimal count of milliseconds instead of the
 * calendar layout; what listing relies upon, that the text parses back to the same instant,
 * is proved below.
 */
module Time {
  import opened Json

  predicate IsDigit(c: char) {
    '0' <= c <= '9'
  }

  function DigitChar(d: nat): (c: char)
    requires d < 10
    ensures IsDigit(c) && c as int - '0' as int == d
  {
    ('0' as int + d) as char
  }

  /** The decimal digits of `n`, most significant first, without leading zeros. */
  function Decimal(n: nat): (s: string)
    ensures |s| > 0
    ensures forall i :: 0 <= i < |s| ==> IsDigit(s[i])
  {
    if n < 10 then [DigitChar(n)] else Decimal(n / 10) + [DigitChar(n % 10)]
  }

  /** Reads a non-empty run of decimal digits; anything else is `None`. */
  function ParseDecimal(s: string): Option<nat>
  {
    if |s| == 0 || !IsDigit(s[|s| - 1]) then None
    else
      var last := s[|s| - 1] as int - '0' as int;
      if |s| == 1 then Some(last)
      else match ParseDecimal(s[..|s| - 1])
        case None => None
        case Some(high) => Some(high * 10 + last)
  }

  /** The text form of an instant given in milliseconds since the epoch. */
  function ToIso(ms: int): string
  {
    if ms < 0 then "-" + Decimal(-ms) else Decimal(ms)
  }

  /** The instant a text denotes; text that is not of the `ToIso` form reads as 0. */
  function TimeOf(s: string): int
  {
    if |s| > 0 && s[0] == '-' then
      match ParseDecimal(s[1..])
      case Some(v) => -(v as int)
      case None => 0
    else
      match ParseDecimal(s)
      case Some(v) => v
      case None => 0
  }

  lemma {:induction false} ParseDecimalOfDecimal(n: nat)
    ensures ParseDecimal(Decimal(n)) == Some(n)
  {
    if n >= 10 {
      var s := Decimal(n);
      assert s[..|s| - 1] == Decimal(n / 10);
      ParseDecimalOfDecimal(n / 10);
    }
  }

  /** Normalising a number to text and reading it back yields the same instant. */
  lemma TimeOfToIso(ms: int)
    ensures TimeOf(ToIso(ms)) == ms
  {
    if ms < 0 {
      assert ToIso(ms)[1..] == Decimal(-ms);
      ParseDecimalOfDecimal(-ms);
    } else {
      ParseDecimalOfDecimal(ms);
    }
  }

  /** Distinct instants have distinct text forms. */
  lemma ToIsoInjective(a: int, b: int)
    requires ToIso(a) == ToIso(b)
    ensures a == b
  {
    TimeOfToIso(a);
    TimeOfToIso(b);
  }
}
