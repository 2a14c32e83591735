/**
 * Rendering one collected set as a brace alternation (`#format_set` and the
 * `for...in` loop of `#make_glob_pattern`): each value's decimal text is
 * left-padded with '0' to width 2, the texts are sorted by `numSort`
 * (numeric, not lexical, order), joined with ',' and wrapped in braces.
 */
module Fragment {
  import opened Wrappers
  import opened Text
  import opened Sequences

  predicate StrictlyIncreasing(s: seq<int>)
  {
    forall i, j :: 0 <= i < j < |s| ==> s[i] < s[j]
  }

  lemma HasMember(v: set<int>)
    requires v != {}
    ensures exists x :: x in v
  {
    if forall x :: x !in v {
      assert false;
    }
  }

  lemma {:induction false} MinExists(v: set<int>)
    requires v != {}
    ensures exists m :: m in v && forall x :: x in v ==> m <= x
    decreases |v|
  {
    HasMember(v);
    var x :| x in v;
    var w := v - {x};
    if y :| y in w {
      MinExists(w);
      var m' :| m' in w && forall y :: y in w ==> m' <= y;
      var m := if x < m' then x else m';
      assert forall y :: y in v ==> y == x || y in w;
      assert m in v && forall y :: y in v ==> m <= y;
    } else {
      assert forall y :: y in v ==> y == x || y in w;
      assert x in v && forall y :: y in v ==> x <= y;
    }
  }

  /** The least member of a non-empty set. */
  function Least(v: set<int>): (m: int)
    requires v != {}
    ensures m in v && forall x :: x in v ==> m <= x
  {
    MinExists(v);
    var m :| m in v && forall x :: x in v ==> m <= x;
    m
  }

  /** The values a sequence holds. */
  function Members(s: seq<int>): set<int>
  {
    set x | x in s
  }

  /** The members of v in ascending order. */
  function SortedValues(v: set<int>): (r: seq<int>)
    ensures StrictlyIncreasing(r)
    ensures forall x :: x in r <==> x in v
    ensures |r| == |v|
    decreases |v|
  {
    if v == {} then []
    else
      var m := Least(v);
      var rest := SortedValues(v - {m});
      assert forall x :: x in rest ==> m < x;
      [m] + rest
  }

  /** The padded text of one value: `v.toString().padStart(len, '0')`. */
  function Padded(v: int, len: nat): string
  {
    PadStart(IntToString(v), len, '0')
  }

  /** `#format_set(v, len)`: the padded texts, sorted by their numeric value. */
  function FormatSet(v: set<int>, len: nat): seq<string>
  {
    var vals := SortedValues(v);
    seq(|vals|, i requires 0 <= i < |vals| => Padded(vals[i], len))
  }

  /** A text that `Number()` reads as a number (not NaN). */
  predicate IsNumeral(s: string)
  {
    NumberValue(s).Some?
  }

  /** The number a numeral reads as: what `numSort` subtracts. */
  function Num(s: string): int
    requires IsNumeral(s)
  {
    NumberValue(s).value
  }

  /** In the order `sort(numSort)` leaves an array of numerals in. */
  predicate SortedByNumber(r: seq<string>)
  {
    (forall i :: 0 <= i < |r| ==> IsNumeral(r[i]))
    && forall i, j :: 0 <= i < j < |r| ==> Num(r[i]) <= Num(r[j])
  }

  /** Strictly ascending by numeric value: no two texts read as the same number. */
  predicate StrictlyByNumber(b: seq<string>)
  {
    (forall i :: 0 <= i < |b| ==> IsNumeral(b[i]))
    && forall i, j :: 0 <= i < j < |b| ==> Num(b[i]) < Num(b[j])
  }

  lemma FormatSetAt(v: set<int>, len: nat, i: int)
    requires len <= 2 || forall x :: x in v ==> x >= 0
    requires 0 <= i < |v|
    ensures |FormatSet(v, len)| == |v|
    ensures FormatSet(v, len)[i] == Padded(SortedValues(v)[i], len)
    ensures IsNumeral(FormatSet(v, len)[i]) && Num(FormatSet(v, len)[i]) == SortedValues(v)[i]
  {
    PaddedValue(SortedValues(v)[i], len);
  }

  /**
   * Each text `#format_set(v)` yields is the padded text of a member of v
   * and reads back as that member.
   */
  lemma FormatSetItems(v: set<int>, len: nat)
    requires len <= 2 || forall x :: x in v ==> x >= 0
    ensures |FormatSet(v, len)| == |v|
    ensures forall i :: 0 <= i < |FormatSet(v, len)| ==>
      IsNumeral(FormatSet(v, len)[i]) && Num(FormatSet(v, len)[i]) in v
      && FormatSet(v, len)[i] == Padded(Num(FormatSet(v, len)[i]), len)
  {
    var r := FormatSet(v, len);
    forall i | 0 <= i < |r|
      ensures IsNumeral(r[i]) && Num(r[i]) in v && r[i] == Padded(Num(r[i]), len)
    {
      FormatSetAt(v, len, i);
    }
  }

  /** Every member of v has its padded text in `#format_set(v)`. */
  lemma FormatSetCovers(v: set<int>, len: nat)
    requires len <= 2 || forall x :: x in v ==> x >= 0
    ensures forall x :: x in v ==> Padded(x, len) in FormatSet(v, len)
  {
    var vals := SortedValues(v);
    var r := FormatSet(v, len);
    forall x | x in v
      ensures Padded(x, len) in r
    {
      var i :| 0 <= i < |vals| && vals[i] == x;
      FormatSetAt(v, len, i);
    }
  }

  /** `#format_set(v)` is in strictly ascending numeric order. */
  lemma FormatSetStrict(v: set<int>, len: nat)
    requires len <= 2 || forall x :: x in v ==> x >= 0
    ensures StrictlyByNumber(FormatSet(v, len))
  {
    var vals := SortedValues(v);
    var r := FormatSet(v, len);
    forall i | 0 <= i < |r|
      ensures IsNumeral(r[i]) && Num(r[i]) == vals[i]
    {
      FormatSetAt(v, len, i);
    }
  }

  /**
   * `Array.from(v).map(pad).sort(numSort)` does not depend on the order in
   * which the set yields its members nor on the sorting algorithm: every
   * permutation of the padded texts that is sorted by numeric value is
   * `FormatSet(v, 2)`.
   */
  lemma NumSortDetermined(v: set<int>, r: seq<string>)
    requires multiset(r) == multiset(FormatSet(v, 2))
    requires SortedByNumber(r)
    ensures r == FormatSet(v, 2)
  {
    FormatSetStrict(v, 2);
    SortedPermutationUnique(r, FormatSet(v, 2));
  }

  lemma SortedPermutationHead(a: seq<string>, b: seq<string>)
    requires multiset(a) == multiset(b) && |a| > 0
    requires SortedByNumber(a) && StrictlyByNumber(b)
    ensures |b| > 0 && a[0] == b[0]
  {
    assert a[0] in multiset(b);
    var k :| 0 <= k < |b| && b[k] == a[0];
    assert b[0] in multiset(a);
    var m :| 0 <= m < |a| && a[m] == b[0];
    assert Num(a[0]) <= Num(b[0]);
    assert Num(b[0]) <= Num(a[0]);
    assert a[0] == b[0];
  }

  lemma SortedTail(a: seq<string>)
    requires SortedByNumber(a) && |a| > 0
    ensures SortedByNumber(a[1..])
  {
  }

  lemma StrictTail(b: seq<string>)
    requires StrictlyByNumber(b) && |b| > 0
    ensures StrictlyByNumber(b[1..])
  {
  }

  lemma {:induction false} SortedPermutationUnique(a: seq<string>, b: seq<string>)
    requires multiset(a) == multiset(b)
    requires SortedByNumber(a) && StrictlyByNumber(b)
    ensures a == b
    decreases |a|
  {
    assert |a| == |multiset(a)| == |multiset(b)| == |b|;
    if |a| > 0 {
      SortedPermutationHead(a, b);
      SameTails(a, b);
      SortedTail(a);
      StrictTail(b);
      SortedPermutationUnique(a[1..], b[1..]);
    }
  }

  /** The brace alternation `'{' + #format_set(v).join(',') + '}'`. */
  function Alternation(v: set<int>): string
  {
    "{" + Join(FormatSet(v, 2), ",") + "}"
  }

  /**
   * Reading back (not part of the synthesiser): the numbers a list of texts
   * reads as, or None if one is not a number.
   */
  function ParseItems(items: seq<string>): Option<set<int>>
  {
    if items == [] then Some({})
    else
      var head, rest := NumberValue(items[0]), ParseItems(items[1..]);
      if head.Some? && rest.Some? then Some({head.value} + rest.value) else None
  }

  /** Reading back (not part of the synthesiser): the set of numbers a brace alternation lists. */
  function ParseFragment(f: string): Option<set<int>>
  {
    if |f| < 2 || f[0] != '{' || f[|f| - 1] != '}' then None
    else
      var inner := f[1..|f| - 1];
      if inner == "" then Some({}) else ParseItems(Split(inner, ','))
  }

  lemma {:induction false} ParseItemsValues(items: seq<string>, vals: seq<int>)
    requires |items| == |vals|
    requires forall i :: 0 <= i < |items| ==> NumberValue(items[i]) == Some(vals[i])
    ensures ParseItems(items) == Some(Members(vals))
  {
    if items != [] {
      forall i | 0 <= i < |items| - 1
        ensures NumberValue(items[1..][i]) == Some(vals[1..][i])
      {
        assert items[1..][i] == items[i + 1];
      }
      ParseItemsValues(items[1..], vals[1..]);
      assert NumberValue(items[0]) == Some(vals[0]);
      assert vals == [vals[0]] + vals[1..];
      assert Members(vals) == {vals[0]} + Members(vals[1..]);
      assert ParseItems(items) == Some({vals[0]} + Members(vals[1..]));
    } else {
      assert Members(vals) == {};
    }
  }

  /**
   * A padded text holds only digits and the minus sign, and only digits
   * when the value is not negative.
   */
  lemma PaddedChars(x: int, len: nat)
    ensures forall c :: c in Padded(x, len) ==> IsDigit(c) || c == '-'
    ensures x >= 0 ==> forall c :: c in Padded(x, len) ==> IsDigit(c)
  {
  }

  lemma FormatSetReadsBack(v: set<int>)
    ensures ParseItems(FormatSet(v, 2)) == Some(v)
  {
    var xs := FormatSet(v, 2);
    var vals := SortedValues(v);
    forall i | 0 <= i < |xs|
      ensures NumberValue(xs[i]) == Some(vals[i])
    {
      PaddedValue(vals[i], 2);
    }
    ParseItemsValues(xs, vals);
    assert Members(vals) == v;
  }

  /**
   * The alternation lists exactly the members of the set: reading it back
   * gives the set again.
   */
  lemma FragmentRoundTrip(v: set<int>)
    ensures ParseFragment(Alternation(v)) == Some(v)
  {
    var xs := FormatSet(v, 2);
    var f := Alternation(v);
    assert f[1..|f| - 1] == Join(xs, ",");
    if v == {} {
      assert xs == [];
    } else {
      var vals := SortedValues(v);
      forall i | 0 <= i < |xs|
        ensures ',' !in xs[i]
      {
        FormatSetAt(v, 2, i);
        PaddedChars(vals[i], 2);
      }
      SplitJoin(xs, ',');
      assert |Join(xs, ",")| >= |xs[0]| >= 2;
      FormatSetReadsBack(v);
    }
  }
}
