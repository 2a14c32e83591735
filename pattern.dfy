/**
 * Assembling the glob pattern at the end of `#make_glob_pattern`: the four
 * collected sets are rendered into the pattern table, the component order
 * given by the date format keeps the names present in that table, the kept
 * fragments are joined with '-', and the joined text replaces the first
 * case-insensitive `{date}` of the name format.
 */
module Pattern {
  import opened Wrappers
  import opened Text
  import opened Calendar
  import opened Walk
  import opened Fragment

  /** The keys of the `patterns` object, in declaration order. */
  const ComponentNames: seq<string> := ["hour", "day", "month", "year"]

  /** The pattern table once the `for...in` loop has rendered the given names. */
  function FragmentsOf(sets: map<string, set<int>>, names: seq<string>): (p: map<string, string>)
    requires forall k :: k in names ==> k in sets
    ensures forall k :: k in p <==> k in names
    ensures forall k :: k in p ==> p[k] == Alternation(sets[k])
  {
    if names == [] then map[]
    else
      var last := names[|names| - 1];
      FragmentsOf(sets, names[..|names| - 1])[last := Alternation(sets[last])]
  }

  /** The collected table has a set under each component name. */
  lemma ComponentsNamed(w: seq<DateTime>)
    ensures forall k :: k in ComponentNames ==> k in Components(w)
  {
  }

  /** `orderedPat` after the loop over the component order. */
  function SelectFragments(order: seq<string>, p: map<string, string>): seq<string>
  {
    if order == [] then []
    else
      var init := SelectFragments(order[..|order| - 1], p);
      var last := order[|order| - 1];
      if last in p then init + [p[last]] else init
  }

  /** The positions of the order whose name is one of the keys, ascending. */
  function KeptIndices(order: seq<string>, keys: set<string>): (idx: seq<nat>)
    ensures forall t :: 0 <= t < |idx| ==> idx[t] < |order|
    ensures forall s, t :: 0 <= s < t < |idx| ==> idx[s] < idx[t]
    ensures forall i :: 0 <= i < |order| ==> (order[i] in keys <==> i in idx)
  {
    if order == [] then []
    else
      var init := KeptIndices(order[..|order| - 1], keys);
      if order[|order| - 1] in keys then init + [|order| - 1] else init
  }

  /**
   * The selected fragments are exactly the fragments of the names of the
   * order that the table holds, in the order's own relative order.
   */
  lemma {:induction false} SelectFragmentsKept(order: seq<string>, p: map<string, string>)
    ensures |SelectFragments(order, p)| == |KeptIndices(order, p.Keys)|
    ensures forall t :: 0 <= t < |SelectFragments(order, p)| ==>
      order[KeptIndices(order, p.Keys)[t]] in p
      && SelectFragments(order, p)[t] == p[order[KeptIndices(order, p.Keys)[t]]]
  {
    if order != [] {
      var init := order[..|order| - 1];
      SelectFragmentsKept(init, p);
      var sel, idx := SelectFragments(order, p), KeptIndices(order, p.Keys);
      var sel', idx' := SelectFragments(init, p), KeptIndices(init, p.Keys);
      forall t | 0 <= t < |sel'|
        ensures idx[t] == idx'[t] && sel[t] == sel'[t] && order[idx[t]] == init[idx'[t]]
      {
      }
    }
  }

  /**
   * The `for...in` loop over the pattern table (whose keys are
   * `ComponentNames`): each component's set is replaced by its alternation.
   */
  method RenderPatterns(sets: map<string, set<int>>, names: seq<string>) returns (patterns: map<string, string>)
    requires forall k :: k in names ==> k in sets
    ensures patterns == FragmentsOf(sets, names)
  {
    patterns := map[];
    for n := 0 to |names|
      invariant patterns == FragmentsOf(sets, names[..n])
    {
      var k := names[n];
      patterns := patterns[k := Alternation(sets[k])];
      assert names[..n + 1][..n] == names[..n];
    }
    assert names[..|names|] == names;
  }

  /**
   * The loop over the component order: push the table entry of each name
   * the table holds.
   */
  method OrderPatterns(order: seq<string>, patterns: map<string, string>) returns (orderedPat: seq<string>)
    ensures orderedPat == SelectFragments(order, patterns)
  {
    orderedPat := [];
    for n := 0 to |order|
      invariant orderedPat == SelectFragments(order[..n], patterns)
    {
      var dateComp := order[n];
      if dateComp in patterns {
        orderedPat := orderedPat + [patterns[dateComp]];
      }
      assert order[..n + 1][..n] == order[..n];
    }
    assert order[..|order|] == order;
  }

  /** `orderedPat.join('-')`. */
  function DateText(order: seq<string>, p: map<string, string>): string
  {
    Join(SelectFragments(order, p), "-")
  }

  /** The case folding of a `/i` regular expression on the letters of `{date}`. */
  function AsciiLower(c: char): char
  {
    if 'A' <= c <= 'Z' then (c as int + 32) as char else c
  }

  /** `/\{date\}/i` matches at position i. */
  predicate PlaceholderAt(s: string, i: int)
  {
    0 <= i && i + 6 <= |s| && forall t :: 0 <= t < 6 ==> AsciiLower(s[i + t]) == "{date}"[t]
  }

  /** The leftmost match at or after `from`. */
  function FirstPlaceholder(s: string, from: nat): (r: Option<nat>)
    requires from <= |s|
    ensures r.Some? ==> from <= r.value && PlaceholderAt(s, r.value)
    ensures r.Some? ==> forall i :: from <= i < r.value ==> !PlaceholderAt(s, i)
    ensures r.None? ==> forall i :: from <= i ==> !PlaceholderAt(s, i)
    decreases |s| - from
  {
    if from == |s| then None
    else if PlaceholderAt(s, from) then Some(from)
    else FirstPlaceholder(s, from + 1)
  }

  /**
   * `s.replace(/\{date\}/i, rep)` for a replacement without '$': the text is
   * unchanged when nothing matches, and otherwise only the leftmost match
   * is replaced.
   */
  function ReplaceDate(s: string, rep: string): (r: string)
    ensures (forall i :: !PlaceholderAt(s, i)) ==> r == s
    ensures forall i :: PlaceholderAt(s, i) && (forall j :: 0 <= j < i ==> !PlaceholderAt(s, j)) ==>
      r == s[..i] + rep + s[i + 6..]
  {
    match FirstPlaceholder(s, 0)
    case None => s
    case Some(i) => s[..i] + rep + s[i + 6..]
  }

  /** `this.globPattern` for a name format, a component order and a walk from now back to since. */
  function GlobPattern(nameFormat: string, order: seq<string>, now: DateTime, since: DateTime): string
  {
    var sets := Components(Window(now, since));
    ReplaceDate(nameFormat, DateText(order, FragmentsOf(sets, ComponentNames)))
  }

  predicate FragmentChar(c: char)
  {
    IsDigit(c) || c == '{' || c == '}' || c == ',' || c == '-'
  }

  /**
   * An alternation is made of digits, braces, commas and minus signs, and
   * holds no minus sign when no value is negative.
   */
  lemma FragmentChars(v: set<int>)
    ensures forall c :: c in Alternation(v) ==> FragmentChar(c)
    ensures (forall x :: x in v ==> x >= 0) ==> '-' !in Alternation(v)
  {
    var xs := FormatSet(v, 2);
    var vals := SortedValues(v);
    forall i | 0 <= i < |xs|
      ensures forall c :: c in xs[i] ==> FragmentChar(c)
      ensures (forall x :: x in v ==> x >= 0) ==> '-' !in xs[i]
    {
      FormatSetAt(v, 2, i);
      PaddedChars(vals[i], 2);
    }
    JoinChars(xs, ",", FragmentChar);
    if forall x :: x in v ==> x >= 0 {
      JoinChars(xs, ",", c => c != '-');
    }
  }

  /**
   * The joined date text holds no '$', so `replace` inserts it literally:
   * no `$&`, `$1` or `$$` pattern can occur in it.
   */
  lemma DateTextIsLiteral(sets: map<string, set<int>>, order: seq<string>)
    requires forall k :: k in ComponentNames ==> k in sets
    ensures forall c :: c in DateText(order, FragmentsOf(sets, ComponentNames)) ==> FragmentChar(c)
    ensures '$' !in DateText(order, FragmentsOf(sets, ComponentNames))
  {
    var p := FragmentsOf(sets, ComponentNames);
    var sel := SelectFragments(order, p);
    SelectFragmentsKept(order, p);
    forall t | 0 <= t < |sel|
      ensures forall c :: c in sel[t] ==> FragmentChar(c)
    {
      FragmentChars(sets[order[KeptIndices(order, p.Keys)[t]]]);
    }
    JoinChars(sel, "-", FragmentChar);
  }

  /**
   * With no negative value in any set, the date text splits on '-' back
   * into its fragments, one per kept name of the order, and each fragment
   * reads back as the set collected for that name.
   */
  lemma DateTextReadsBack(sets: map<string, set<int>>, order: seq<string>)
    requires forall k :: k in ComponentNames ==> k in sets
    requires forall k, x :: k in ComponentNames && x in sets[k] ==> x >= 0
    requires SelectFragments(order, FragmentsOf(sets, ComponentNames)) != []
    ensures var p := FragmentsOf(sets, ComponentNames);
      var parts := Split(DateText(order, p), '-');
      var idx := KeptIndices(order, p.Keys);
      |parts| == |idx|
      && forall t :: 0 <= t < |parts| ==>
           order[idx[t]] in ComponentNames && ParseFragment(parts[t]) == Some(sets[order[idx[t]]])
  {
    var p := FragmentsOf(sets, ComponentNames);
    var sel := SelectFragments(order, p);
    var idx := KeptIndices(order, p.Keys);
    SelectFragmentsKept(order, p);
    forall t | 0 <= t < |sel|
      ensures '-' !in sel[t]
      ensures order[idx[t]] in ComponentNames && ParseFragment(sel[t]) == Some(sets[order[idx[t]]])
    {
      var name := order[idx[t]];
      FragmentChars(sets[name]);
      FragmentRoundTrip(sets[name]);
    }
    SplitJoin(sel, '-');
  }

  /**
   * The pattern is the name format with its leftmost `{date}` (in any case)
   * replaced by the date text, every other character kept, and the date
   * text inserted literally.
   */
  lemma GlobPatternSubstitutes(nameFormat: string, order: seq<string>, now: DateTime, since: DateTime, i: nat)
    requires PlaceholderAt(nameFormat, i) && forall j :: 0 <= j < i ==> !PlaceholderAt(nameFormat, j)
    ensures var text := DateText(order, FragmentsOf(Components(Window(now, since)), ComponentNames));
      GlobPattern(nameFormat, order, now, since) == nameFormat[..i] + text + nameFormat[i + 6..]
      && '$' !in text
  {
    DateTextIsLiteral(Components(Window(now, since)), order);
  }

  /**
   * For a valid `now` and a `since` in a year that is not negative, the
   * date text of the walk splits into one alternation per kept name, each
   * listing exactly the values the walk collected for that name.
   */
  lemma WalkTextReadsBack(order: seq<string>, now: DateTime, since: DateTime)
    requires Valid(now) && since.years >= 0
    ensures var sets := Components(Window(now, since));
      var p := FragmentsOf(sets, ComponentNames);
      var parts := Split(DateText(order, p), '-');
      var idx := KeptIndices(order, p.Keys);
      SelectFragments(order, p) != [] ==>
        |parts| == |idx|
        && forall t :: 0 <= t < |parts| ==>
             order[idx[t]] in ComponentNames && ParseFragment(parts[t]) == Some(sets[order[idx[t]]])
  {
    var sets := Components(Window(now, since));
    ComponentRanges(now, since);
    forall k, x | k in ComponentNames && x in sets[k]
      ensures x >= 0
    {
      assert k == "hour" || k == "day" || k == "month" || k == "year";
    }
    if SelectFragments(order, FragmentsOf(sets, ComponentNames)) != [] {
      DateTextReadsBack(sets, order);
    }
  }
}
