/** The hexadecimal renderings the connection layer relies on: `%x` of a
    session ID with `strconv.ParseUint(s, 16, 64)` as its inverse, and
    `hex.EncodeToString` / `hex.DecodeString` for the bulletin root. */
module Hex {
  import opened Types

  const TwoTo64: nat := 0x1_0000_0000_0000_0000

  predicate IsHexDigit(c: char) {
    ('0' <= c <= '9') || ('a' <= c <= 'f') || ('A' <= c <= 'F')
  }

  predicate AllHex(s: string) {
    forall i :: 0 <= i < |s| ==> IsHexDigit(s[i])
  }

  /** The lower-case digit `fmt` and `hex` print for a value below 16. */
  function DigitChar(d: nat): (c: char)
    requires d < 16
    ensures IsHexDigit(c) && !('A' <= c <= 'F')
    ensures (c == '0') <==> d == 0
  {
    if d < 10 then ('0' as int + d) as char else ('a' as int + d - 10) as char
  }

  /** The value of one hexadecimal digit, either case. */
  function DigitValue(c: char): (v: nat)
    requires IsHexDigit(c)
    ensures v < 16
    ensures v == 0 <==> c == '0'
  {
    if '0' <= c <= '9' then c as nat - '0' as nat
    else if 'a' <= c <= 'f' then c as nat - 'a' as nat + 10
    else c as nat - 'A' as nat + 10
  }

  lemma DigitRoundTrip(d: nat)
    requires d < 16
    ensures DigitValue(DigitChar(d)) == d
  {
  }

  /** A lower-case digit is the one printed for its value. */
  lemma DigitCharValue(c: char)
    requires IsHexDigit(c) && !('A' <= c <= 'F')
    ensures DigitChar(DigitValue(c)) == c
  {
  }

  /** The number a string of hex digits spells, most significant first. */
  function HexValue(s: string): nat
    requires AllHex(s)
  {
    if s == [] then 0 else HexValue(s[..|s| - 1]) * 16 + DigitValue(s[|s| - 1])
  }

  /** `fmt.Sprintf("%x", n)`: lower case, no leading zeros, "0" for zero. */
  function FormatHex(n: nat): (s: string)
    ensures Canonical(s)
    decreases n
  {
    if n < 16 then [DigitChar(n)] else FormatHex(n / 16) + [DigitChar(n % 16)]
  }

  /** A string `%x` could have printed: lower-case digits without a
      leading zero (except "0" itself). */
  predicate Canonical(s: string) {
    s != [] && AllHex(s) && (forall i :: 0 <= i < |s| ==> !('A' <= s[i] <= 'F')) &&
    (|s| > 1 ==> s[0] != '0')
  }

  /** Appending a digit multiplies the value so far by sixteen. */
  lemma HexValueSnoc(s: string, c: char)
    requires AllHex(s) && IsHexDigit(c)
    ensures AllHex(s + [c]) && HexValue(s + [c]) == HexValue(s) * 16 + DigitValue(c)
  {
    assert (s + [c])[..|s + [c]| - 1] == s;
  }

  /** `%x` spells its argument. */
  lemma {:induction false} FormatHexValue(n: nat)
    ensures HexValue(FormatHex(n)) == n
    decreases n
  {
    if n < 16 {
      assert FormatHex(n)[..0] == [];
      DigitRoundTrip(n);
    } else {
      FormatHexValue(n / 16);
      HexValueSnoc(FormatHex(n / 16), DigitChar(n % 16));
      DigitRoundTrip(n % 16);
    }
  }

  /** The session ID Bob renders with `%x` parses back, under
      `ParseUint(s, 16, 64)`, to the same 64-bit value. */
  lemma ParseFormatRoundTrip(id: uint64)
    ensures ParseUint16(FormatHex(id as nat)) == Some(id)
  {
    FormatHexValue(id as nat);
  }

  /** A digit string that does not start with zero spells a positive
      number. */
  lemma {:induction false} LeadingDigitBound(s: string)
    requires AllHex(s) && s != [] && s[0] != '0'
    ensures HexValue(s) >= 1
    decreases |s|
  {
    if |s| > 1 {
      var p := s[..|s| - 1];
      assert p[0] == s[0];
      LeadingDigitBound(p);
    }
  }

  /** `%x` of a number of two or more digits is `%x` of its quotient by
      sixteen followed by the digit of its remainder. */
  lemma FormatHexSnoc(a: nat, d: nat)
    requires a >= 1 && d < 16
    ensures FormatHex(a * 16 + d) == FormatHex(a) + [DigitChar(d)]
  {
    var v := a * 16 + d;
    assert v / 16 == a && v % 16 == d;
  }

  /** Dropping the last digit of a canonical string of two or more digits
      leaves a canonical string. */
  lemma CanonicalPrefix(s: string)
    requires Canonical(s) && |s| > 1
    ensures Canonical(s[..|s| - 1]) && s[..|s| - 1][0] != '0'
  {
    var p := s[..|s| - 1];
    forall i | 0 <= i < |p|
      ensures IsHexDigit(p[i]) && !('A' <= p[i] <= 'F')
    {
      assert p[i] == s[i];
    }
  }

  /** Conversely, a canonical string is exactly what `%x` prints for the
      value it parses to. */
  lemma {:induction false} FormatParseCanonical(s: string)
    requires Canonical(s)
    ensures FormatHex(HexValue(s)) == s
    decreases |s|
  {
    var p := s[..|s| - 1];
    var c := s[|s| - 1];
    var d := DigitValue(c);
    assert s == p + [c];
    DigitCharValue(c);
    if |s| == 1 {
      assert p == [];
      assert HexValue(s) == d;
    } else {
      CanonicalPrefix(s);
      var v := HexValue(p);
      assert HexValue(s) == v * 16 + d;
      LeadingDigitBound(p);
      FormatParseCanonical(p);
      FormatHexSnoc(v, d);
    }
  }

  /** `%x`'s largest 64-bit value and the cutoff `strconv.ParseUint` checks
      before each multiplication: `maxUint64/16 + 1`. */
  const MaxUint64: nat := TwoTo64 - 1
  const Cutoff: nat := MaxUint64 / 16 + 1

  /** The digit loop of `strconv.ParseUint(s, 16, 64)`, left to right from
      the value `n` read so far: a non-digit is a syntax error; a value at
      or above the cutoff, or a sum above the 64-bit maximum, is a range
      error. */
  function Accumulate(s: string, n: nat): (r: Option<nat>)
    requires n < TwoTo64
    ensures r.Some? ==> r.value < TwoTo64
    decreases |s|
  {
    if s == [] then Some(n)
    else if !IsHexDigit(s[0]) then None
    else if n >= Cutoff then None
    else
      var n1 := n * 16 + DigitValue(s[0]);
      if n1 > MaxUint64 then None else Accumulate(s[1..], n1)
  }

  /** `strconv.ParseUint(s, 16, 64)`: the empty string is a syntax error;
      otherwise the digit loop from zero. It succeeds exactly on non-empty
      strings of hex digits of either case (no sign, prefix or underscore)
      whose value fits in 64 bits, and then yields that value. */
  function ParseUint16(s: string): (r: Option<uint64>)
    ensures r.Some? <==> s != [] && AllHex(s) && HexValue(s) < TwoTo64
    ensures r.Some? ==> r.value as nat == HexValue(s)
  {
    AccumulateValue([], s);
    assert [] + s == s;
    if s == [] then None
    else match Accumulate(s, 0)
      case None => None
      case Some(v) => Some(v as uint64)
  }

  /** Extending a digit string never lowers its value. */
  lemma {:induction false} HexValueMonotone(q: string, t: string)
    requires AllHex(q + t)
    ensures AllHex(q) && HexValue(q + t) >= HexValue(q)
    decreases |t|
  {
    assert forall i :: 0 <= i < |q| ==> q[i] == (q + t)[i];
    if t == [] {
      assert q + t == q;
    } else {
      var t' := t[..|t| - 1];
      var c := t[|t| - 1];
      assert q + t == (q + t') + [c];
      assert forall i :: 0 <= i < |q + t'| ==> (q + t')[i] == (q + t)[i];
      assert (q + t)[|q + t| - 1] == c;
      HexValueMonotone(q, t');
      HexValueSnoc(q + t', c);
    }
  }

  /** The digit loop, continued from the value of an already read prefix
      `p`, yields the value of `p + s` exactly when all of `s` is digits
      and that value fits in 64 bits. */
  lemma {:induction false} AccumulateValue(p: string, s: string)
    requires AllHex(p) && HexValue(p) < TwoTo64
    ensures Accumulate(s, HexValue(p)) ==
      if AllHex(p + s) && HexValue(p + s) < TwoTo64 then Some(HexValue(p + s)) else None
    decreases |s|
  {
    if s == [] {
      assert p + s == p;
    } else {
      var c := s[0];
      assert p + s == (p + [c]) + s[1..];
      if !IsHexDigit(c) {
        assert (p + s)[|p|] == c;
      } else {
        HexValueSnoc(p, c);
        if HexValue(p) >= Cutoff {
          if AllHex(p + s) {
            HexValueMonotone(p + [c], s[1..]);
          }
        } else {
          AccumulateValue(p + [c], s[1..]);
          if AllHex(p + s) {
            assert forall i :: 0 <= i < |p + [c]| ==> (p + [c])[i] == (p + s)[i];
          }
        }
      }
    }
  }

  /** `hex.EncodeToString`: two lower-case digits per byte. */
  function EncodeHexBytes(b: Bytes): (s: string)
    ensures |s| == 2 * |b| && AllHex(s)
  {
    if b == [] then ""
    else [DigitChar(b[0] as nat / 16), DigitChar(b[0] as nat % 16)] + EncodeHexBytes(b[1..])
  }

  /** `hex.DecodeString`: pairs of digits of either case; an odd length
      or a non-digit is an error. */
  function DecodeHexString(s: string): (r: Option<Bytes>)
    ensures r.Some? <==> |s| % 2 == 0 && AllHex(s)
    ensures r.Some? ==> 2 * |r.value| == |s|
    decreases |s|
  {
    if s == [] then Some([])
    else if |s| == 1 || !IsHexDigit(s[0]) || !IsHexDigit(s[1]) then None
    else
      match DecodeHexString(s[2..])
      case None => None
      case Some(rest) => Some([(DigitValue(s[0]) * 16 + DigitValue(s[1])) as uint8] + rest)
  }

  /** The bulletin root Alice prints with `hex.EncodeToString` decodes back
      to the same bytes. */
  lemma {:induction false} DecodeEncodeBytes(b: Bytes)
    ensures DecodeHexString(EncodeHexBytes(b)) == Some(b)
  {
    if b != [] {
      var s := EncodeHexBytes(b);
      DecodeEncodeBytes(b[1..]);
      assert s[2..] == EncodeHexBytes(b[1..]);
      DigitRoundTrip(b[0] as nat / 16);
      DigitRoundTrip(b[0] as nat % 16);
      assert [b[0]] + b[1..] == b;
    }
  }
}
