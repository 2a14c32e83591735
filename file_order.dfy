/**
 * The order `list` returns files in: `files.sort()` with the default
 * comparator (ascending string order), then `reverse()` when the requested
 * sort is "DESC".
 */
module FileOrder {
  import opened Sequences

  /** `a <= b` in the lexicographic order on characters that `sort()` uses. */
  predicate LessEq(a: string, b: string)
  {
    |a| == 0 || (|b| > 0 && (a[0] < b[0] || (a[0] == b[0] && LessEq(a[1..], b[1..]))))
  }

  lemma {:induction false} LessEqTotal(a: string, b: string)
    ensures LessEq(a, b) || LessEq(b, a)
  {
    if |a| > 0 && |b| > 0 && a[0] == b[0] {
      LessEqTotal(a[1..], b[1..]);
    }
  }

  lemma {:induction false} LessEqAntisymmetric(a: string, b: string)
    requires LessEq(a, b) && LessEq(b, a)
    ensures a == b
  {
    if |a| > 0 {
      LessEqAntisymmetric(a[1..], b[1..]);
      assert a == [a[0]] + a[1..] && b == [b[0]] + b[1..];
    }
  }

  lemma {:induction false} LessEqTransitive(a: string, b: string, c: string)
    requires LessEq(a, b) && LessEq(b, c)
    ensures LessEq(a, c)
  {
    if |a| > 0 && a[0] == b[0] && b[0] == c[0] {
      LessEqTransitive(a[1..], b[1..], c[1..]);
    }
  }

  predicate Ascending(s: seq<string>)
  {
    forall i, j :: 0 <= i < j < |s| ==> LessEq(s[i], s[j])
  }

  predicate Descending(s: seq<string>)
  {
    forall i, j :: 0 <= i < j < |s| ==> LessEq(s[j], s[i])
  }

  /** x put in front of the first element of s it is not above. */
  function Insert(x: string, s: seq<string>): (r: seq<string>)
    requires Ascending(s)
    ensures Ascending(r)
    ensures multiset(r) == multiset(s) + multiset{x}
  {
    if s == [] || LessEq(x, s[0]) then
      forall j | 0 <= j < |s|
        ensures LessEq(x, s[j])
      {
        if j > 0 {
          LessEqTransitive(x, s[0], s[j]);
        }
      }
      [x] + s
    else
      LessEqTotal(x, s[0]);
      var t := Insert(x, s[1..]);
      assert s == [s[0]] + s[1..];
      forall j | 0 <= j < |t|
        ensures LessEq(s[0], t[j])
      {
        assert t[j] in multiset(t);
        if t[j] != x {
          assert t[j] in multiset(s[1..]);
          var k :| 0 <= k < |s[1..]| && s[1..][k] == t[j];
          assert s[k + 1] == t[j];
        }
      }
      [s[0]] + t
  }

  /** `files.sort()`: the ascending arrangement, built by insertion. */
  function SortAscending(s: seq<string>): (r: seq<string>)
    ensures Ascending(r)
    ensures multiset(r) == multiset(s)
  {
    if s == [] then []
    else
      assert s == [s[0]] + s[1..];
      Insert(s[0], SortAscending(s[1..]))
  }

  /** `reverse()`. */
  function Reverse(s: seq<string>): (r: seq<string>)
    ensures |r| == |s|
    ensures forall i :: 0 <= i < |s| ==> r[i] == s[|s| - 1 - i]
  {
    if s == [] then [] else Reverse(s[1..]) + [s[0]]
  }

  /** What `list` leaves in `this.files` for a glob result and a sort option. */
  function Ordered(files: seq<string>, sort: string): seq<string>
  {
    var asc := SortAscending(files);
    if sort == "DESC" then Reverse(asc) else asc
  }

  lemma {:induction false} ReversePermutation(s: seq<string>)
    ensures multiset(Reverse(s)) == multiset(s)
  {
    if s != [] {
      ReversePermutation(s[1..]);
      assert s == [s[0]] + s[1..];
    }
  }

  lemma ReverseAscending(s: seq<string>)
    requires Ascending(s)
    ensures Descending(Reverse(s))
  {
  }

  /** Two ascending arrangements of the same files start with the same file. */
  lemma AscendingHead(a: seq<string>, b: seq<string>)
    requires multiset(a) == multiset(b) && |a| > 0
    requires Ascending(a) && Ascending(b)
    ensures |b| > 0 && a[0] == b[0]
  {
    assert a[0] in multiset(b);
    var k :| 0 <= k < |b| && b[k] == a[0];
    assert b[0] in multiset(a);
    var m :| 0 <= m < |a| && a[m] == b[0];
    LessEqTotal(a[0], b[0]);
    assert LessEq(a[0], b[0]) && LessEq(b[0], a[0]);
    LessEqAntisymmetric(a[0], b[0]);
  }

  lemma AscendingTail(a: seq<string>)
    requires Ascending(a) && |a| > 0
    ensures Ascending(a[1..])
  {
  }

  /** Two ascending arrangements of the same files are the same sequence. */
  lemma {:induction false} AscendingUnique(a: seq<string>, b: seq<string>)
    requires multiset(a) == multiset(b)
    requires Ascending(a) && Ascending(b)
    ensures a == b
    decreases |a|
  {
    assert |a| == |multiset(a)| == |multiset(b)| == |b|;
    if |a| > 0 {
      AscendingHead(a, b);
      SameTails(a, b);
      AscendingTail(a);
      AscendingTail(b);
      AscendingUnique(a[1..], b[1..]);
      assert a == [a[0]] + a[1..] && b == [b[0]] + b[1..];
    }
  }

  /**
   * `list` returns a permutation of the glob result, ascending unless the
   * sort is "DESC", and then descending and exactly the ascending order
   * reversed.
   */
  lemma OrderedSpec(files: seq<string>, sort: string)
    ensures multiset(Ordered(files, sort)) == multiset(files)
    ensures sort != "DESC" ==> Ascending(Ordered(files, sort))
    ensures sort == "DESC" ==> Descending(Ordered(files, sort))
    ensures sort == "DESC" ==> Ordered(files, sort) == Reverse(Ordered(files, "ASC"))
  {
    ReversePermutation(SortAscending(files));
    ReverseAscending(SortAscending(files));
  }

  /**
   * The ascending result is the only ascending permutation of the glob
   * result: any sorting algorithm gives it.
   */
  lemma SortIsDetermined(files: seq<string>, r: seq<string>)
    requires multiset(r) == multiset(files) && Ascending(r)
    ensures r == SortAscending(files)
  {
    AscendingUnique(r, SortAscending(files));
  }

  /** The order in which the glob call yields the files does not matter. */
  lemma OrderedIgnoresGlobOrder(a: seq<string>, b: seq<string>, sort: string)
    requires multiset(a) == multiset(b)
    ensures Ordered(a, sort) == Ordered(b, sort)
  {
    AscendingUnique(SortAscending(a), SortAscending(b));
  }
}
