/**
 * Reading the `duration` option ("3DAYS", "2 W", ...) into a count and a
 * calendar unit, as the first lines of `#make_glob_pattern` do with the
 * regular expression `([0-9]+)\s*([A-Z])` and the `periods` table.
 */
module DurationParse {
  import opened Wrappers
  import opened Text

  datatype Unit = Hour | Day | Week | Month | Year

  datatype Duration = Duration(count: nat, unit: Unit)

  const WrongDuration: string := "Wrong duration formatting"

  /** `\s` of a JavaScript regular expression. */
  predicate IsSpace(c: char)
  {
    c == '\t' || c == '\n' || c == '\U{000B}' || c == '\U{000C}' || c == '\r' || c == ' '
    || c == '\U{00A0}' || c == '\U{1680}' || ('\U{2000}' <= c <= '\U{200A}')
    || c == '\U{2028}' || c == '\U{2029}' || c == '\U{202F}' || c == '\U{205F}'
    || c == '\U{3000}' || c == '\U{FEFF}'
  }

  /** `[A-Z]`. */
  predicate IsUpper(c: char) { 'A' <= c <= 'Z' }

  /** The `periods` lookup with its `|| 'day'` fallback. */
  function UnitOf(letter: char): (u: Unit)
    ensures u == Hour <==> letter == 'H'
    ensures u == Week <==> letter == 'W'
    ensures u == Month <==> letter == 'M'
    ensures u == Year <==> letter == 'Y'
    ensures u == Day <==> letter != 'H' && letter != 'W' && letter != 'M' && letter != 'Y'
  {
    match letter
    case 'H' => Hour
    case 'D' => Day
    case 'W' => Week
    case 'M' => Month
    case 'Y' => Year
    case _ => Day
  }

  /**
   * One way the regular expression can match: digits on [i, j), whitespace
   * on [j, k) and an upper-case letter at k.
   */
  predicate RegexMatch(s: string, i: int, j: int, k: int)
  {
    0 <= i < j <= k < |s|
    && (forall t :: i <= t < j ==> IsDigit(s[t]))
    && (forall t :: j <= t < k ==> IsSpace(s[t]))
    && IsUpper(s[k])
  }

  /** The end of the run of digits that starts at i. */
  function DigitRunEnd(s: string, i: nat): (j: nat)
    requires i <= |s|
    ensures i <= j <= |s|
    ensures forall t :: i <= t < j ==> IsDigit(s[t])
    ensures j < |s| ==> !IsDigit(s[j])
    decreases |s| - i
  {
    if i < |s| && IsDigit(s[i]) then DigitRunEnd(s, i + 1) else i
  }

  /** The end of the run of whitespace that starts at i. */
  function SpaceRunEnd(s: string, i: nat): (j: nat)
    requires i <= |s|
    ensures i <= j <= |s|
    ensures forall t :: i <= t < j ==> IsSpace(s[t])
    ensures j < |s| ==> !IsSpace(s[j])
    decreases |s| - i
  {
    if i < |s| && IsSpace(s[i]) then SpaceRunEnd(s, i + 1) else i
  }

  /** The greedy match attempt that the regular expression engine makes at i. */
  predicate MatchesAt(s: string, i: nat)
  {
    i < |s| && IsDigit(s[i])
    && var j := DigitRunEnd(s, i);
       var k := SpaceRunEnd(s, j);
       k < |s| && IsUpper(s[k])
  }

  /** The leftmost position at or after `from` where the expression matches. */
  function FirstMatch(s: string, from: nat): (r: Option<nat>)
    requires from <= |s|
    ensures r.Some? ==> from <= r.value < |s| && MatchesAt(s, r.value)
    ensures r.Some? ==> forall i :: from <= i < r.value ==> !MatchesAt(s, i)
    ensures r.None? ==> forall i :: from <= i ==> !MatchesAt(s, i)
    decreases |s| - from
  {
    if from == |s| then None
    else if MatchesAt(s, from) then Some(from)
    else FirstMatch(s, from + 1)
  }

  /**
   * `duration.match(/([0-9]+)\s*([A-Z])/)`, then `periods[m[2]] || 'day'`
   * and the numeric value of `m[1]`; no match throws.
   */
  function ParseDuration(duration: string): (r: Result<Duration>)
    ensures r.Err? ==> r.message == WrongDuration
  {
    match FirstMatch(duration, 0)
    case None => Err(WrongDuration)
    case Some(i) =>
      var j := DigitRunEnd(duration, i);
      var k := SpaceRunEnd(duration, j);
      Ok(Duration(DigitsValue(duration[i..j]), UnitOf(duration[k])))
  }

  lemma DigitRunEndAt(s: string, i: nat, j: nat)
    requires i <= j <= |s|
    requires forall t :: i <= t < j ==> IsDigit(s[t])
    requires j < |s| ==> !IsDigit(s[j])
    ensures DigitRunEnd(s, i) == j
  {
  }

  lemma SpaceRunEndAt(s: string, i: nat, j: nat)
    requires i <= j <= |s|
    requires forall t :: i <= t < j ==> IsSpace(s[t])
    requires j < |s| ==> !IsSpace(s[j])
    ensures SpaceRunEnd(s, i) == j
  {
  }

  /** Every way of matching is the greedy attempt at its start. */
  lemma MatchIsGreedy(s: string, i: int, j: int, k: int)
    requires RegexMatch(s, i, j, k)
    ensures j == DigitRunEnd(s, i) && k == SpaceRunEnd(s, j) && MatchesAt(s, i)
  {
    DigitRunEndAt(s, i, j);
    SpaceRunEndAt(s, j, k);
  }

  /** The call throws exactly when the regular expression matches nowhere. */
  lemma ParseDurationFails(s: string)
    ensures ParseDuration(s).Err? <==> forall i, j, k :: !RegexMatch(s, i, j, k)
  {
    if ParseDuration(s).Err? {
      forall i, j, k | RegexMatch(s, i, j, k) ensures false {
        MatchIsGreedy(s, i, j, k);
      }
    } else {
      var i := FirstMatch(s, 0).value;
      assert RegexMatch(s, i, DigitRunEnd(s, i), SpaceRunEnd(s, DigitRunEnd(s, i)));
    }
  }

  /**
   * A successful parse reads the leftmost match: its count is the value of
   * the digits, its unit the table entry of the letter, and no match starts
   * earlier; at that start the match is unique.
   */
  lemma ParseDurationReadsLeftmost(s: string) returns (i: int, j: int, k: int)
    requires ParseDuration(s).Ok?
    ensures RegexMatch(s, i, j, k)
    ensures forall i', j', k' :: RegexMatch(s, i', j', k') ==> i <= i'
    ensures forall j', k' :: RegexMatch(s, i, j', k') ==> j' == j && k' == k
    ensures ParseDuration(s).value == Duration(DigitsValue(s[i..j]), UnitOf(s[k]))
  {
    i := FirstMatch(s, 0).value;
    j := DigitRunEnd(s, i);
    k := SpaceRunEnd(s, j);
    forall i', j', k' | RegexMatch(s, i', j', k') ensures i <= i' {
      MatchIsGreedy(s, i', j', k');
    }
    forall j', k' | RegexMatch(s, i, j', k') ensures j' == j && k' == k {
      MatchIsGreedy(s, i, j', k');
    }
  }
}
