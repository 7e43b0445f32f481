/**
 * Shared vocabulary of the port-ranger model: optional values and results,
 * the error cases the script raises, and the small string operations the
 * script borrows from Python (`str.lower` and decimal rendering of an `int`
 * inside an f-string).
 */
module Common {

  datatype Option<T> = None | Some(value: T)

  /** The ways the script stops without writing any output. */
  datatype Error =
    | MissingSpec        // `data['spec']['ports'] = ports` on a manifest without `spec` (KeyError)
    | ChunkSizeZero      // `range(0, len(all_ports), 0)` (ValueError)
    | UdpRouteNeedsUdp   // "UDPRoute only supports UDP protocol."
    | UnsupportedKind    // "Unsupported kind in YAML file. Supported kinds are: Service, UDPRoute."

  datatype Result<T> = Ok(value: T) | Err(error: Error)

  predicate Distinct<T(==)>(s: seq<T>)
  {
    forall i, j :: 0 <= i < j < |s| ==> s[i] != s[j]
  }

  /** Concatenation of a sequence of sequences, in order. */
  function Flatten<T>(ss: seq<seq<T>>): seq<T>
    decreases |ss|
  {
    if ss == [] then [] else ss[0] + Flatten(ss[1..])
  }

  function Min(a: int, b: int): int
  {
    if a <= b then a else b
  }

  // ---------------------------------------------------------------------------
  // Case folding

  predicate IsUpper(c: char)
  {
    'A' <= c <= 'Z'
  }

  function LowerChar(c: char): char
  {
    if IsUpper(c) then (c as int + 32) as char else c
  }

  /**
   * `str.lower()` on the ASCII letters: every capital becomes its small
   * letter, every other character stays.
   */
  function Lower(s: string): (r: string)
    ensures |r| == |s|
    ensures forall i :: 0 <= i < |r| ==> !IsUpper(r[i])
    ensures forall i :: 0 <= i < |s| && !IsUpper(s[i]) ==> r[i] == s[i]
    ensures forall i :: 0 <= i < |s| && IsUpper(s[i]) ==> r[i] as int == s[i] as int + 32
  {
    seq(|s|, i requires 0 <= i < |s| => LowerChar(s[i]))
  }

  /** Lower-casing twice is lower-casing once. */
  lemma LowerIdempotent(s: string)
    ensures Lower(Lower(s)) == Lower(s)
  {
    var t := Lower(s);
    assert forall i :: 0 <= i < |t| ==> Lower(t)[i] == t[i];
  }

  // ---------------------------------------------------------------------------
  // Decimal rendering of the indices used in generated names

  predicate IsDigit(c: char)
  {
    '0' <= c <= '9'
  }

  predicate AllDigits(s: string)
  {
    forall i :: 0 <= i < |s| ==> IsDigit(s[i])
  }

  function DigitChar(d: nat): (c: char)
    requires d < 10
    ensures IsDigit(c) && c as int - '0' as int == d
  {
    ('0' as int + d) as char
  }

  /** `str(n)` for a non-negative integer: at least one digit, no sign, no separators. */
  function Decimal(n: nat): (r: string)
    ensures |r| >= 1 && AllDigits(r)
    ensures r[0] == '0' ==> n == 0
    decreases n
  {
    if n < 10 then [DigitChar(n)] else Decimal(n / 10) + [DigitChar(n % 10)]
  }

  /** The value of a string of decimal digits. */
  function DecimalValue(s: string): nat
    requires AllDigits(s)
    decreases |s|
  {
    if s == [] then 0
    else DecimalValue(s[..|s| - 1]) * 10 + (s[|s| - 1] as int - '0' as int)
  }

  /** Reading back a rendered number gives the number. */
  lemma {:induction false} DecimalRoundTrip(n: nat)
    ensures DecimalValue(Decimal(n)) == n
    decreases n
  {
    if n >= 10 {
      var r := Decimal(n);
      DecimalRoundTrip(n / 10);
      assert r[..|r| - 1] == Decimal(n / 10);
    }
  }

  /** Distinct numbers render as distinct strings. */
  lemma DecimalInjective(m: nat, n: nat)
    requires Decimal(m) == Decimal(n)
    ensures m == n
  {
    DecimalRoundTrip(m);
    DecimalRoundTrip(n);
  }

  lemma DashAt(a: string, d: string)
    ensures (a + "-" + d)[|a|] == '-'
  {
  }

  /**
   * In `a + "-" + d` with `d` made of digits, `d` is everything after the
   * last dash; so two such strings that are equal have equal digit suffixes,
   * whatever their heads.
   */
  lemma DigitSuffixDetermined(a: string, d: string, b: string, e: string)
    requires AllDigits(d) && AllDigits(e)
    requires a + "-" + d == b + "-" + e
    ensures d == e
  {
    var s := a + "-" + d;
    var t := b + "-" + e;
    if |d| < |e| {
      DashAt(a, d);
      assert false;
    } else if |e| < |d| {
      DashAt(b, e);
      assert false;
    }
    assert d == s[|s| - |d|..];
    assert e == t[|t| - |e|..];
  }

  /** Names of the form `head + "-" + str(n)` determine `n`. */
  lemma NumberedNameInjective(a: string, m: nat, b: string, n: nat)
    requires a + "-" + Decimal(m) == b + "-" + Decimal(n)
    ensures m == n
  {
    DigitSuffixDetermined(a, Decimal(m), b, Decimal(n));
    DecimalInjective(m, n);
  }
}
