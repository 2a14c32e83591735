/**
 * The JavaScript string operations the glob synthesiser relies on: the
 * decimal text of numbers (`toString`), `Number()` on such text,
 * `padStart` and `Array.prototype.join`. `IndexOf` and `Split` are not
 * used by the synthesiser: they define how a pattern is read back, for the
 * round-trip lemmas about it.
 */
module Text {
  import opened Wrappers

  predicate IsDigit(c: char) { '0' <= c <= '9' }

  predicate AllDigits(s: string) { forall i :: 0 <= i < |s| ==> IsDigit(s[i]) }

  function DigitValue(c: char): (d: nat)
    requires IsDigit(c)
    ensures d < 10
  {
    c as int - '0' as int
  }

  function DigitChar(d: nat): (c: char)
    requires d < 10
    ensures IsDigit(c) && DigitValue(c) == d
  {
    ('0' as int + d) as char
  }

  /** The value of a run of decimal digits; leading zeros add nothing. */
  function DigitsValue(s: string): nat
    requires AllDigits(s)
  {
    if s == [] then 0 else 10 * DigitsValue(s[..|s| - 1]) + DigitValue(s[|s| - 1])
  }

  /** `n.toString()` for a non-negative integer: no leading zero unless n is 0. */
  function NatToString(n: nat): (r: string)
    ensures |r| >= 1 && AllDigits(r)
    ensures DigitsValue(r) == n
    ensures r[0] == '0' <==> n == 0
  {
    if n < 10 then [DigitChar(n)]
    else
      var prefix := NatToString(n / 10);
      var r := prefix + [DigitChar(n % 10)];
      assert r[..|r| - 1] == prefix;
      r
  }

  /**
   * `v.toString()` for the integers the calendar yields (below 1e21, where
   * JavaScript would switch to exponent notation): a minus sign for a
   * negative value, then the digits of |v|.
   */
  function IntToString(v: int): string
  {
    if v < 0 then "-" + NatToString(-v) else NatToString(v)
  }

  /**
   * `Number(s)` on the strings this core produces: an optional minus sign
   * followed by at least one digit. The model gives None for every other
   * text; JavaScript reads some of those as numbers, but only padded
   * numerals reach `numSort`.
   */
  function NumberValue(s: string): Option<int>
  {
    if |s| >= 2 && s[0] == '-' && AllDigits(s[1..]) then Some(0 - DigitsValue(s[1..]))
    else if |s| >= 1 && AllDigits(s) then Some(DigitsValue(s))
    else None
  }

  /** `s.padStart(len, fill)` with a one-character fill. */
  function PadStart(s: string, len: nat, fill: char): (r: string)
    ensures |r| == if |s| >= len then |s| else len
    ensures r[|r| - |s|..] == s
    ensures forall i :: 0 <= i < |r| - |s| ==> r[i] == fill
  {
    if |s| >= len then s else seq(len - |s|, _ => fill) + s
  }

  /** `xs.join(sep)`. */
  function Join(xs: seq<string>, sep: string): string
  {
    if xs == [] then "" else if |xs| == 1 then xs[0] else xs[0] + sep + Join(xs[1..], sep)
  }

  /** The first position holding c, if any; used only to read patterns back. */
  function IndexOf(s: string, c: char): (r: Option<nat>)
    ensures r.Some? ==> r.value < |s| && s[r.value] == c && c !in s[..r.value]
    ensures r.None? ==> c !in s
  {
    if s == [] then None
    else if s[0] == c then Some(0)
    else match IndexOf(s[1..], c)
      case None => None
      case Some(i) =>
        assert s[..i + 1] == [s[0]] + s[1..][..i];
        Some(i + 1)
  }

  /**
   * The pieces between the occurrences of c, always at least one, as
   * `s.split(c)` gives them; used only to read patterns back.
   */
  function Split(s: string, c: char): (r: seq<string>)
    ensures |r| >= 1
    decreases |s|
  {
    match IndexOf(s, c)
    case None => [s]
    case Some(i) => [s[..i]] + Split(s[i + 1..], c)
  }

  lemma {:induction false} ZerosValue(z: string)
    requires forall i :: 0 <= i < |z| ==> z[i] == '0'
    ensures AllDigits(z) && DigitsValue(z) == 0
  {
    if z != [] {
      ZerosValue(z[..|z| - 1]);
    }
  }

  lemma {:induction false} LeadingZeros(z: string, s: string)
    requires AllDigits(s)
    requires forall i :: 0 <= i < |z| ==> z[i] == '0'
    ensures AllDigits(z + s) && DigitsValue(z + s) == DigitsValue(s)
  {
    if s == [] {
      assert z + s == z;
      ZerosValue(z);
    } else {
      var s' := s[..|s| - 1];
      LeadingZeros(z, s');
      assert (z + s)[..|z + s| - 1] == z + s';
    }
  }

  /**
   * Reading back the zero-padded decimal text of v gives v. A negative value
   * is already two characters long, so it is padded only when len > 2, and
   * then `Number()` would read NaN: hence the precondition.
   */
  lemma PaddedValue(v: int, len: nat)
    requires v >= 0 || len <= 2
    ensures NumberValue(PadStart(IntToString(v), len, '0')) == Some(v)
  {
    var t := IntToString(v);
    if v < 0 {
      assert t[1..] == NatToString(-v);
    } else if |t| < len {
      var z := seq(len - |t|, _ => '0');
      LeadingZeros(z, t);
      assert PadStart(t, len, '0') == z + t;
    }
  }

  lemma {:induction false} SplitJoin(xs: seq<string>, c: char)
    requires |xs| >= 1
    requires forall i :: 0 <= i < |xs| ==> c !in xs[i]
    ensures Split(Join(xs, [c]), c) == xs
  {
    if |xs| > 1 {
      var head, rest := xs[0], Join(xs[1..], [c]);
      var s := head + [c] + rest;
      assert s[|head|] == c;
      assert s[..|head|] == head;
      assert s[|head| + 1..] == rest;
      assert IndexOf(s, c) == Some(|head|);
      SplitJoin(xs[1..], c);
    }
  }

  /** Every character of a join comes from an element or from the separator. */
  lemma {:induction false} JoinChars(xs: seq<string>, sep: string, ok: char -> bool)
    requires forall i :: 0 <= i < |xs| ==> forall c :: c in xs[i] ==> ok(c)
    requires forall c :: c in sep ==> ok(c)
    ensures forall c :: c in Join(xs, sep) ==> ok(c)
  {
    if |xs| > 1 {
      JoinChars(xs[1..], sep, ok);
    }
  }
}
