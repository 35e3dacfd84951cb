/** The string operations the CLI relies on from Rust's standard library and
    the `regex` crate, written out: whitespace and `trim`, literal search,
    `split` on a literal, `join`, `lines`, `split_whitespace().last()`,
    literal `replace_all` with the empty string, and UTF-8 byte length. */
module Text {
  import opened Wrappers

  // ---------------------------------------------------------------------
  // Whitespace and trimming
  // ---------------------------------------------------------------------

  /** Rust's `char::is_whitespace`: the Unicode White_Space property. */
  predicate IsWhitespace(c: char)
  {
    var n := c as int;
    || (0x09 <= n <= 0x0D) || n == 0x20 || n == 0x85 || n == 0xA0 || n == 0x1680
    || (0x2000 <= n <= 0x200A) || n == 0x2028 || n == 0x2029 || n == 0x202F
    || n == 0x205F || n == 0x3000
  }

  predicate AllWhitespace(s: string)
  {
    forall i | 0 <= i < |s| :: IsWhitespace(s[i])
  }

  /** The end of the run of whitespace that starts at index `k`. */
  function SkipWhitespace(s: string, k: nat): (n: nat)
    requires k <= |s|
    ensures k <= n <= |s|
    ensures forall j | k <= j < n :: IsWhitespace(s[j])
    ensures n < |s| ==> !IsWhitespace(s[n])
    decreases |s| - k
  {
    if k == |s| || !IsWhitespace(s[k]) then k else SkipWhitespace(s, k + 1)
  }

  /** The start of the run of whitespace that ends at index `m`, not going
      below `lo`. */
  function SkipWhitespaceBack(s: string, m: nat, lo: nat): (n: nat)
    requires lo <= m <= |s|
    ensures lo <= n <= m
    ensures forall j | n <= j < m :: IsWhitespace(s[j])
    ensures n > lo ==> !IsWhitespace(s[n - 1])
    decreases m
  {
    if m == lo || !IsWhitespace(s[m - 1]) then m else SkipWhitespaceBack(s, m - 1, lo)
  }

  /** `s[i..j]` is what trimming leaves: only whitespace lies outside it, and
      when it is not empty it starts and ends with non-whitespace. */
  predicate TrimBounds(s: string, i: nat, j: nat)
  {
    && i <= j <= |s|
    && (forall k | 0 <= k < i :: IsWhitespace(s[k]))
    && (forall k | j <= k < |s| :: IsWhitespace(s[k]))
    && (i < j ==> !IsWhitespace(s[i]) && !IsWhitespace(s[j - 1]))
  }

  /** `str::trim`. */
  function Trim(s: string): (r: string)
    ensures |r| <= |s|
  {
    var i := SkipWhitespace(s, 0);
    var j := SkipWhitespaceBack(s, |s|, i);
    s[i..j]
  }

  /** What `Trim` keeps: the slice after the leading whitespace that has only
      whitespace outside it and non-whitespace at both of its ends; nothing
      exactly when `s` is all whitespace. */
  lemma TrimSpec(s: string)
    ensures var i, r := SkipWhitespace(s, 0), Trim(s);
      i + |r| <= |s| && TrimBounds(s, i, i + |r|) && r == s[i..i + |r|]
    ensures Trim(s) == [] <==> AllWhitespace(s)
  {
  }

  /** There is only one way to trim: any bounds with whitespace outside and
      non-whitespace at both ends delimit `Trim(s)`. */
  lemma TrimUnique(s: string, i: nat, j: nat)
    requires TrimBounds(s, i, j)
    ensures Trim(s) == s[i..j]
  {
    var i' := SkipWhitespace(s, 0);
    var j' := i' + |Trim(s)|;
    TrimSpec(s);
    assert i < j <==> !AllWhitespace(s);
    assert i' < j' <==> !AllWhitespace(s);
    if i < j {
      assert i == i';
      assert j == j';
    }
  }

  /** Whitespace around a string never survives `trim`. */
  lemma TrimAbsorbsWhitespace(a: string, s: string, b: string)
    requires AllWhitespace(a) && AllWhitespace(b)
    ensures Trim(a + s + b) == Trim(s)
  {
    var i := SkipWhitespace(s, 0);
    var j := SkipWhitespaceBack(s, |s|, i);
    assert TrimBounds(s, i, j);
    TrimWidened(a, s, b, i, j);
    SliceOfMiddle(a, s, b, i, j);
  }

  lemma TrimWidened(a: string, s: string, b: string, i: nat, j: nat)
    requires AllWhitespace(a) && AllWhitespace(b) && TrimBounds(s, i, j)
    ensures |a| + j <= |a + s + b| && Trim(a + s + b) == (a + s + b)[|a| + i..|a| + j]
  {
    TrimBoundsWiden(a, s, b, i, j);
    TrimUnique(a + s + b, |a| + i, |a| + j);
  }

  lemma SliceOfMiddle(a: string, s: string, b: string, i: nat, j: nat)
    requires i <= j <= |s|
    ensures (a + s + b)[|a| + i..|a| + j] == s[i..j]
  {
    var x := a + s + b;
    assert |x[|a| + i..|a| + j]| == |s[i..j]|;
    forall k | 0 <= k < j - i ensures x[|a| + i..|a| + j][k] == s[i..j][k] {
      assert x[|a| + i + k] == s[i + k];
    }
  }

  lemma TrimBoundsWiden(a: string, s: string, b: string, i: nat, j: nat)
    requires AllWhitespace(a) && AllWhitespace(b) && TrimBounds(s, i, j)
    ensures TrimBounds(a + s + b, |a| + i, |a| + j)
  {
    var x := a + s + b;
    forall k | 0 <= k < |a| + i ensures IsWhitespace(x[k]) {
      if k >= |a| { assert x[k] == s[k - |a|]; }
    }
    forall k | |a| + j <= k < |x| ensures IsWhitespace(x[k]) {
      if k < |a| + |s| { assert x[k] == s[k - |a|]; } else { assert x[k] == b[k - |a| - |s|]; }
    }
    if i < j {
      assert x[|a| + i] == s[i];
      assert x[|a| + j - 1] == s[j - 1];
    }
  }

  // ---------------------------------------------------------------------
  // Literal search
  // ---------------------------------------------------------------------

  /** `pat` occurs in `s` starting at index `i`. */
  predicate OccursAt(s: string, pat: string, i: nat)
  {
    i + |pat| <= |s| && MatchesFrom(s, pat, i, 0)
  }

  /** The characters of `pat` from index `k` on sit at `i + k` onwards in
      `s`. */
  predicate MatchesFrom(s: string, pat: string, i: nat, k: nat)
    requires i + |pat| <= |s| && k <= |pat|
    decreases |pat| - k
  {
    k == |pat| || (s[i + k] == pat[k] && MatchesFrom(s, pat, i, k + 1))
  }

  lemma {:induction false} MatchesFromSlice(s: string, pat: string, i: nat, k: nat)
    requires i + |pat| <= |s| && k <= |pat|
    ensures MatchesFrom(s, pat, i, k) <==> s[i + k..i + |pat|] == pat[k..]
    decreases |pat| - k
  {
    if k < |pat| {
      MatchesFromSlice(s, pat, i, k + 1);
      assert s[i + k..i + |pat|] == [s[i + k]] + s[i + k + 1..i + |pat|];
      assert pat[k..] == [pat[k]] + pat[k + 1..];
    }
  }

  /** An occurrence is a window of `s` equal to `pat`. */
  lemma OccursAtSlice(s: string, pat: string, i: nat)
    ensures OccursAt(s, pat, i) <==> i + |pat| <= |s| && s[i..i + |pat|] == pat
  {
    if i + |pat| <= |s| {
      MatchesFromSlice(s, pat, i, 0);
      assert pat[0..] == pat;
    }
  }

  /** The first occurrence of `pat` at or after index `k`. */
  function FindFrom(s: string, pat: string, k: nat): (r: Option<nat>)
    requires k <= |s|
    ensures r.Some? ==> k <= r.value && r.value + |pat| <= |s|
    decreases |s| - k
  {
    if k + |pat| > |s| then None
    else if OccursAt(s, pat, k) then Some(k)
    else FindFrom(s, pat, k + 1)
  }

  /** `FindFrom` finds an occurrence, none lies between `k` and it, and
      reporting nothing means there is none from `k` on. */
  lemma {:induction false} FindFromSpec(s: string, pat: string, k: nat)
    requires k <= |s|
    ensures var r := FindFrom(s, pat, k);
      && (r.Some? ==> OccursAt(s, pat, r.value))
      && (r.Some? ==> forall j: nat | k <= j < r.value :: !OccursAt(s, pat, j))
      && (r.None? ==> forall j: nat | k <= j :: !OccursAt(s, pat, j))
    decreases |s| - k
  {
    if k + |pat| > |s| {
    } else if !OccursAt(s, pat, k) {
      FindFromSpec(s, pat, k + 1);
    }
  }

  /** The leftmost occurrence of `pat` in `s`, if any. */
  function FindFirst(s: string, pat: string): (r: Option<nat>)
    ensures r.Some? ==> r.value + |pat| <= |s|
  {
    FindFrom(s, pat, 0)
  }

  /** What `FindFirst` reports: an occurrence with none before it, or nothing
      when there is no occurrence at all. */
  lemma FindFirstSpec(s: string, pat: string)
    ensures var r := FindFirst(s, pat);
      && (r.Some? ==> OccursAt(s, pat, r.value))
      && (r.Some? ==> forall j: nat | j < r.value :: !OccursAt(s, pat, j))
      && (r.None? ==> forall j: nat :: !OccursAt(s, pat, j))
  {
    FindFromSpec(s, pat, 0);
  }

  /** `str::contains` with a string pattern. */
  predicate Contains(s: string, pat: string)
  {
    FindFirst(s, pat).Some?
  }

  lemma OccursContains(s: string, pat: string, i: nat)
    requires OccursAt(s, pat, i)
    ensures Contains(s, pat)
  {
    FindFirstSpec(s, pat);
  }

  /** An occurrence with none before it is the one `FindFirst` reports. */
  lemma FirstOccurrence(s: string, pat: string, i: nat)
    requires OccursAt(s, pat, i)
    requires forall j: nat | j < i :: !OccursAt(s, pat, j)
    ensures FindFirst(s, pat) == Some(i)
  {
    FindFirstSpec(s, pat);
  }

  /** The characters of an occurrence are those of the pattern. */
  lemma OccursChar(s: string, pat: string, i: nat, k: nat)
    requires OccursAt(s, pat, i) && k < |pat|
    ensures s[i + k] == pat[k]
  {
    OccursAtSlice(s, pat, i);
    assert s[i..i + |pat|][k] == s[i + k];
  }

  /** A text that does not contain `pat` has no occurrence anywhere. */
  lemma Absent(s: string, pat: string, j: nat)
    requires !Contains(s, pat)
    ensures !OccursAt(s, pat, j)
  {
    FindFirstSpec(s, pat);
  }

  /** A text with no occurrence anywhere does not contain `pat`. */
  lemma NoOccurrence(s: string, pat: string)
    requires forall j: nat :: !OccursAt(s, pat, j)
    ensures !Contains(s, pat)
  {
    FindFirstSpec(s, pat);
  }

  /** The text before the leftmost occurrence contains no occurrence. */
  lemma PrefixBeforeFirst(s: string, pat: string, i: nat)
    requires |pat| > 0 && i <= |s|
    requires forall j: nat | j < i :: !OccursAt(s, pat, j)
    ensures !Contains(s[..i], pat)
  {
    forall j: nat ensures !OccursAt(s[..i], pat, j) {
      OccursAtSlice(s[..i], pat, j);
      OccursAtSlice(s, pat, j);
      if j + |pat| <= i {
        assert s[..i][j..j + |pat|] == s[j..j + |pat|];
        assert !OccursAt(s, pat, j);
      }
    }
    NoOccurrence(s[..i], pat);
  }

  /** The one-character pattern of a character of `s` occurs in `s`. */
  lemma CharContained(s: string, i: nat)
    requires i < |s|
    ensures Contains(s, [s[i]])
  {
    assert OccursAt(s, [s[i]], i);
    OccursContains(s, [s[i]], i);
  }

  /** A character whose one-character pattern is not contained in `s` is not
      in `s`. */
  lemma NotContainsChar(s: string, c: char)
    requires !Contains(s, [c])
    ensures c !in s
  {
    forall i | 0 <= i < |s| ensures s[i] != c {
      CharContained(s, i);
    }
  }

  // ---------------------------------------------------------------------
  // split, join, replace_all
  // ---------------------------------------------------------------------

  /** `str::split` on a non-empty literal: the pieces between the
      non-overlapping occurrences of `pat`, found left to right. */
  function Split(s: string, pat: string): (parts: seq<string>)
    requires |pat| > 0
    ensures |parts| >= 1
    ensures |parts| == 1 <==> !Contains(s, pat)
    decreases |s|
  {
    match FindFirst(s, pat)
    case None => [s]
    case Some(i) => [s[..i]] + Split(s[i + |pat|..], pat)
  }

  /** No piece `Split` returns contains the pattern. */
  lemma {:induction false} SplitPiecesMatchFree(s: string, pat: string)
    requires |pat| > 0
    ensures forall k | 0 <= k < |Split(s, pat)| :: !Contains(Split(s, pat)[k], pat)
    decreases |s|
  {
    match FindFirst(s, pat)
    case None =>
    case Some(i) =>
      var tail := s[i + |pat|..];
      SplitStep(s, pat, i);
      FindFirstSpec(s, pat);
      PrefixBeforeFirst(s, pat, i);
      SplitPiecesMatchFree(tail, pat);
      forall k | 0 <= k < |Split(s, pat)| ensures !Contains(Split(s, pat)[k], pat) {
        if k > 0 {
          assert Split(s, pat)[k] == Split(tail, pat)[k - 1];
        }
      }
  }

  /** One step of `Split`: cut at the leftmost occurrence. */
  lemma SplitStep(s: string, pat: string, i: nat)
    requires |pat| > 0 && FindFirst(s, pat) == Some(i)
    ensures Split(s, pat) == [s[..i]] + Split(s[i + |pat|..], pat)
  {
  }

  /** The number of occurrences `Split` cuts at. */
  function Count(s: string, pat: string): nat
    requires |pat| > 0
  {
    |Split(s, pat)| - 1
  }

  /** The last piece `Split` returns. */
  function LastPiece(s: string, pat: string): string
    requires |pat| > 0
  {
    var parts := Split(s, pat);
    parts[|parts| - 1]
  }

  /** The last piece holds no occurrence. */
  lemma LastPieceMatchFree(s: string, pat: string)
    requires |pat| > 0
    ensures !Contains(LastPiece(s, pat), pat)
  {
    SplitPiecesMatchFree(s, pat);
  }

  /** Sum of the lengths of `parts`. */
  function TotalLength(parts: seq<string>): nat
  {
    if |parts| == 0 then 0 else |parts[0]| + TotalLength(parts[1..])
  }

  /** `[String]::join`: the parts with `sep` between neighbours. */
  function Join(parts: seq<string>, sep: string): (r: string)
    ensures |r| >= TotalLength(parts)
    ensures sep == [] ==> |r| == TotalLength(parts)
    ensures |parts| >= 2 ==> |r| >= TotalLength(parts) + |sep|
    decreases |parts|
  {
    if |parts| == 0 then ""
    else if |parts| == 1 then parts[0]
    else parts[0] + sep + Join(parts[1..], sep)
  }

  /** The joined text starts with the first part. */
  lemma JoinPrefix(parts: seq<string>, sep: string)
    requires |parts| >= 1
    ensures |parts[0]| <= |Join(parts, sep)| && Join(parts, sep)[..|parts[0]|] == parts[0]
  {
  }

  lemma JoinCons(head: string, tail: seq<string>, sep: string)
    requires |tail| >= 1
    ensures Join([head] + tail, sep) == head + sep + Join(tail, sep)
  {
    assert ([head] + tail)[1..] == tail;
  }

  lemma {:induction false} JoinSnoc(init: seq<string>, last: string, sep: string)
    requires |init| >= 1
    ensures Join(init + [last], sep) == Join(init, sep) + sep + last
    decreases |init|
  {
    if |init| == 1 {
      assert (init + [last])[1..] == [last];
    } else {
      assert (init + [last])[1..] == init[1..] + [last];
      JoinSnoc(init[1..], last, sep);
    }
  }

  /** Splitting and re-joining with the same literal gives back the input. */
  lemma {:induction false} JoinSplit(s: string, pat: string)
    requires |pat| > 0
    ensures Join(Split(s, pat), pat) == s
    decreases |s|
  {
    match FindFirst(s, pat)
    case None =>
      assert Split(s, pat) == [s];
    case Some(i) =>
      var tail := s[i + |pat|..];
      SplitStep(s, pat, i);
      JoinSplit(tail, pat);
      JoinCons(s[..i], Split(tail, pat), pat);
      FindFirstSpec(s, pat);
      OccursAtSlice(s, pat, i);
      Recompose(s, i, |pat|);
  }

  /** A text is what precedes a window, the window, and what follows it. */
  lemma Recompose<T>(s: seq<T>, i: nat, n: nat)
    requires i + n <= |s|
    ensures s == s[..i] + s[i..i + n] + s[i + n..]
  {
  }

  /** Removing every match of a literal pattern, as `Regex::replace_all` with
      the escaped pattern and an empty replacement does. An empty pattern
      matches only the empty string, so it removes nothing. */
  function RemoveAll(s: string, pat: string): (r: string)
    ensures !Contains(s, pat) ==> r == s
    ensures |r| <= |s|
    ensures |pat| > 0 && Contains(s, pat) ==> |r| < |s|
  {
    if |pat| == 0 then s
    else
      var parts := Split(s, pat);
      JoinSplit(s, pat);
      Join(parts, "")
  }

  /** What `RemoveAll` computes: cut `s` at the non-overlapping left-to-right
      occurrences of `pat` (so that joining the pieces with `pat` is `s`
      again) and join the pieces with nothing in between. */
  lemma RemoveAllDeletesMatches(s: string, pat: string)
    requires |pat| > 0
    ensures s == Join(Split(s, pat), pat)
    ensures RemoveAll(s, pat) == Join(Split(s, pat), "")
    ensures forall i | 0 <= i < |Split(s, pat)| :: !Contains(Split(s, pat)[i], pat)
  {
    JoinSplit(s, pat);
    SplitPiecesMatchFree(s, pat);
  }

  /** Removal is idempotent exactly when it leaves no new occurrence behind. */
  lemma RemoveAllIdempotentIff(s: string, pat: string)
    ensures RemoveAll(RemoveAll(s, pat), pat) == RemoveAll(s, pat)
        <==> (|pat| == 0 || !Contains(RemoveAll(s, pat), pat))
  {
  }

  /** A removal can create a new occurrence: removing "ab" from "aabb" leaves
      "ab", so a second removal changes the content again. */
  lemma RemoveAllNotIdempotent()
    ensures RemoveAll("aabb", "ab") == "ab"
    ensures RemoveAll(RemoveAll("aabb", "ab"), "ab") == ""
  {
    assert "aabb"[0..2][1] != "ab"[1];
    assert "aabb"[1..3] == "ab";
    assert FindFrom("aabb", "ab", 1) == Some(1);
    assert FindFirst("aabb", "ab") == Some(1);
    assert "aabb"[..1] == "a";
    assert "aabb"[1 + 2..] == "b";
    SplitStep("aabb", "ab", 1);
    assert !Contains("b", "ab");
    assert Split("aabb", "ab") == ["a", "b"];
    assert Join(["a", "b"], "") == "ab";
    SplitSelf("ab");
    assert Join(["", ""], "") == "";
  }

  /** When no occurrence of `pat` starts inside `a`, splitting `a + b` cuts
      exactly where splitting `b` does, with `a` glued to the first piece. */
  lemma SplitShift(a: string, b: string, pat: string)
    requires |pat| > 0
    requires forall j: nat | j < |a| :: !OccursAt(a + b, pat, j)
    ensures Split(a + b, pat) == [a + Split(b, pat)[0]] + Split(b, pat)[1..]
  {
    match FindFirst(b, pat)
    case None => SplitShiftNone(a, b, pat);
    case Some(i) => SplitShiftSome(a, b, pat, i);
  }

  lemma SplitShiftNone(a: string, b: string, pat: string)
    requires |pat| > 0 && FindFirst(b, pat).None?
    requires forall j: nat | j < |a| :: !OccursAt(a + b, pat, j)
    ensures Split(a + b, pat) == [a + b]
  {
    NoneAfterPrefix(a, b, pat);
    SplitWhole(a + b, pat);
  }

  /** `a + b` does not contain `pat` when `b` does not and no occurrence
      starts inside `a`. */
  lemma NoneAfterPrefix(a: string, b: string, pat: string)
    requires !Contains(b, pat)
    requires forall j: nat | j < |a| :: !OccursAt(a + b, pat, j)
    ensures !Contains(a + b, pat)
  {
    forall j: nat ensures !OccursAt(a + b, pat, j) {
      if j >= |a| {
        OccursShift(a, b, pat, j);
        Absent(b, pat, j - |a|);
      }
    }
    NoOccurrence(a + b, pat);
  }

  /** A text that does not contain the pattern is one piece. */
  lemma SplitWhole(s: string, pat: string)
    requires |pat| > 0 && !Contains(s, pat)
    ensures Split(s, pat) == [s]
  {
  }

  lemma SplitShiftSome(a: string, b: string, pat: string, i: nat)
    requires |pat| > 0 && FindFirst(b, pat) == Some(i)
    requires forall j: nat | j < |a| :: !OccursAt(a + b, pat, j)
    ensures Split(a + b, pat) == [a + b[..i]] + Split(b[i + |pat|..], pat)
  {
    ShiftedFirst(a, b, pat, i);
    SplitStep(a + b, pat, |a| + i);
    ConcatSlices(a, b, i, |pat|);
  }

  /** The leftmost occurrence in `b` is the leftmost in `a + b`, shifted,
      when none starts inside `a`. */
  lemma ShiftedFirst(a: string, b: string, pat: string, i: nat)
    requires FindFirst(b, pat) == Some(i)
    requires forall j: nat | j < |a| :: !OccursAt(a + b, pat, j)
    ensures FindFirst(a + b, pat) == Some(|a| + i)
  {
    var s := a + b;
    FindFirstSpec(b, pat);
    forall j: nat | j < |a| + i ensures !OccursAt(s, pat, j) {
      if j >= |a| {
        OccursShift(a, b, pat, j);
      }
    }
    OccursShift(a, b, pat, |a| + i);
    FirstOccurrence(s, pat, |a| + i);
  }

  /** Cutting `a + b` inside `b`. */
  lemma ConcatSlices<T>(a: seq<T>, b: seq<T>, i: nat, n: nat)
    requires i + n <= |b|
    ensures (a + b)[..|a| + i] == a + b[..i]
    ensures (a + b)[|a| + i + n..] == b[i + n..]
  {
  }

  /** An occurrence past `a` in `a + b` is an occurrence in `b`. */
  lemma OccursShift(a: string, b: string, pat: string, j: nat)
    requires j >= |a|
    ensures OccursAt(a + b, pat, j) <==> OccursAt(b, pat, j - |a|)
  {
    OccursAtSlice(a + b, pat, j);
    OccursAtSlice(b, pat, j - |a|);
    if j + |pat| <= |a + b| {
      assert (a + b)[j..j + |pat|] == b[j - |a|..j - |a| + |pat|];
    }
  }

  /** No occurrence of `pat` starts inside `a` when `a` contains none and
      ends with a character `pat` does not contain. */
  lemma NoOccurrenceBeforeSeparator(a: string, b: string, pat: string)
    requires |a| > 0 && !Contains(a, pat)
    requires a[|a| - 1] !in pat
    ensures forall j: nat | j < |a| :: !OccursAt(a + b, pat, j)
  {
    forall j: nat | j < |a| ensures !OccursAt(a + b, pat, j) {
      OccursAtSlice(a + b, pat, j);
      OccursAtSlice(a, pat, j);
      if j + |pat| <= |a| {
        assert (a + b)[j..j + |pat|] == a[j..j + |pat|];
        Absent(a, pat, j);
      } else if j + |pat| <= |a + b| {
        var w := (a + b)[j..j + |pat|];
        assert w[|a| - 1 - j] == a[|a| - 1];
        assert w[|a| - 1 - j] in w;
      }
    }
  }

  /** Splitting `pat` itself gives two empty pieces. */
  lemma SplitSelf(pat: string)
    requires |pat| > 0
    ensures Split(pat, pat) == ["", ""]
  {
    OccursAtSlice(pat, pat, 0);
    FirstOccurrence(pat, pat, 0);
    SplitStep(pat, pat, 0);
    assert pat[|pat|..] == "";
    assert !Contains("", pat);
  }

  /** Appending a character that `pat` does not contain creates no
      occurrence of `pat`. */
  lemma AppendForeignChar(x: string, c: char, pat: string)
    requires |pat| > 0 && !Contains(x, pat) && c !in pat
    ensures !Contains(x + [c], pat)
  {
    var y := x + [c];
    forall j: nat ensures !OccursAt(y, pat, j) {
      OccursAtSlice(y, pat, j);
      OccursAtSlice(x, pat, j);
      if j + |pat| <= |x| {
        assert y[j..j + |pat|] == x[j..j + |pat|];
        Absent(x, pat, j);
      } else if j + |pat| <= |y| {
        var w := y[j..j + |pat|];
        assert w[|pat| - 1] == c;
        assert w[|pat| - 1] in w;
      }
    }
    NoOccurrence(y, pat);
  }

  /** Prepending a character that `pat` does not contain creates no
      occurrence of `pat`. */
  lemma PrependForeignChar(c: char, x: string, pat: string)
    requires |pat| > 0 && !Contains(x, pat) && c !in pat
    ensures !Contains([c] + x, pat)
  {
    var y := [c] + x;
    forall j: nat ensures !OccursAt(y, pat, j) {
      if j == 0 {
        OccursAtSlice(y, pat, 0);
        if |pat| <= |y| {
          assert y[0..|pat|][0] == c;
          assert pat[0] in pat;
          assert pat[0] != c;
        }
      } else {
        OccursShift([c], x, pat, j);
        Absent(x, pat, j - 1);
      }
    }
    NoOccurrence(y, pat);
  }

  /** The last piece `Split` returns is what follows some occurrence of the
      pattern, when there is one. */
  lemma {:induction false} SplitLastPiece(s: string, pat: string) returns (i: nat)
    requires |pat| > 0 && Contains(s, pat)
    ensures OccursAt(s, pat, i)
    ensures LastPiece(s, pat) == s[i + |pat|..]
    decreases |s|
  {
    var f := FindFirst(s, pat).value;
    var t := s[f + |pat|..];
    FindFirstSpec(s, pat);
    SplitStepLast(s, pat, f);
    if Contains(t, pat) {
      var i' := SplitLastPiece(t, pat);
      i := f + |pat| + i';
      OccursInSuffix(s, f + |pat|, pat, i');
      DropDrop(s, f + |pat|, i' + |pat|);
    } else {
      i := f;
      SplitWhole(t, pat);
    }
  }

  /** Cutting at the leftmost occurrence keeps the last piece. */
  lemma SplitStepLast(s: string, pat: string, i: nat)
    requires |pat| > 0 && FindFirst(s, pat) == Some(i)
    ensures LastPiece(s, pat) == LastPiece(s[i + |pat|..], pat)
  {
    SplitStep(s, pat, i);
    LastOfCons(s[..i], Split(s[i + |pat|..], pat));
  }

  lemma LastOfCons<T>(x: T, xs: seq<T>)
    requires |xs| > 0
    ensures ([x] + xs)[|xs|] == xs[|xs| - 1]
  {
  }

  /** An occurrence in a suffix is an occurrence in the whole, shifted. */
  lemma OccursInSuffix(s: string, d: nat, pat: string, j: nat)
    requires d <= |s| && OccursAt(s[d..], pat, j)
    ensures OccursAt(s, pat, d + j)
  {
    OccursAtSlice(s[d..], pat, j);
    OccursAtSlice(s, pat, d + j);
    assert s[d..][j..j + |pat|] == s[d + j..d + j + |pat|];
  }

  /** A suffix of a suffix is a suffix. */
  lemma DropDrop<T>(s: seq<T>, d: nat, n: nat)
    requires d + n <= |s|
    ensures s[d..][n..] == s[d + n..]
  {
  }

  /** A literal written after a text that contains it nowhere and ends with a
      character the literal does not contain occurs there exactly once;
      removing it gives the text back. */
  lemma SplitAppendedPattern(a: string, pat: string)
    requires |pat| > 0 && |a| > 0 && !Contains(a, pat) && a[|a| - 1] !in pat
    ensures Split(a + pat, pat) == [a, ""]
    ensures Count(a + pat, pat) == 1
    ensures RemoveAll(a + pat, pat) == a
  {
    NoOccurrenceBeforeSeparator(a, pat, pat);
    SplitShift(a, pat, pat);
    SplitSelf(pat);
    assert a + "" == a;
    assert Join([a, ""], "") == a + "" + Join([""], "");
  }

  /** Joining `n` parts puts `n - 1` separators between them. */
  lemma {:induction false} JoinLength(parts: seq<string>, sep: string)
    requires |parts| >= 1
    ensures |Join(parts, sep)| == TotalLength(parts) + (|parts| - 1) * |sep|
    decreases |parts|
  {
    if |parts| > 1 {
      JoinLength(parts[1..], sep);
    }
  }

  /** A character in neither the parts nor the separator is not in the join. */
  lemma {:induction false} JoinAvoidsChar(parts: seq<string>, sep: string, c: char)
    requires c !in sep
    requires forall k | 0 <= k < |parts| :: c !in parts[k]
    ensures c !in Join(parts, sep)
    decreases |parts|
  {
    if |parts| > 1 {
      JoinAvoidsChar(parts[1..], sep, c);
      assert c !in parts[0];
    }
  }

  /** Regrouping five concatenated pieces. */
  lemma Regroup5<T>(a: seq<T>, b: seq<T>, c: seq<T>, d: seq<T>, e: seq<T>)
    ensures a + (b + c + d + e) == (a + b) + (c + (d + e))
  {
  }

  /** A prefix of a prefix is a prefix. */
  lemma PrefixTrans<T>(a: seq<T>, b: seq<T>, c: seq<T>)
    requires |a| <= |b| && b[..|a|] == a
    requires |b| <= |c| && c[..|b|] == b
    ensures |a| <= |c| && c[..|a|] == a
  {
    assert c[..|a|] == c[..|b|][..|a|];
  }

  // ---------------------------------------------------------------------
  // lines and split_whitespace
  // ---------------------------------------------------------------------

  function StripCarriageReturn(line: string): string
  {
    if |line| > 0 && line[|line| - 1] == '\r' then line[..|line| - 1] else line
  }

  /** `str::lines`: split at "\n", drop one "\r" before each "\n", and do not
      yield an empty piece after a final "\n". */
  function Lines(s: string): (ls: seq<string>)
    ensures forall i | 0 <= i < |ls| :: '\n' !in ls[i]
  {
    var parts := Split(s, "\n");
    var last := parts[|parts| - 1];
    var init := seq(|parts| - 1, i requires 0 <= i < |parts| - 1 => StripCarriageReturn(parts[i]));
    var ls := init + (if last == "" then [] else [last]);
    assert forall i | 0 <= i < |ls| :: '\n' !in ls[i] by {
      forall i | 0 <= i < |ls| ensures '\n' !in ls[i] {
        SplitPiecesMatchFree(s, "\n");
        if i < |init| {
          NotContainsChar(parts[i], '\n');
        } else {
          NotContainsChar(last, '\n');
        }
      }
    }
    ls
  }

  /** Line `k` is the first of `lines` that contains `marker`. */
  predicate FirstHolding(lines: seq<string>, marker: string, k: int)
  {
    && 0 <= k < |lines|
    && Contains(lines[k], marker)
    && forall j | 0 <= j < k :: !Contains(lines[j], marker)
  }

  /** At most one line is the first to hold a marker, and it is the one
      `FirstContaining` finds. */
  lemma FirstHoldingFound(lines: seq<string>, marker: string, k: int)
    requires FirstHolding(lines, marker, k)
    ensures FirstContaining(lines, marker) == Some(lines[k])
  {
    var r := FirstContaining(lines, marker);
    assert r.Some?;
    var k0 :| 0 <= k0 < |lines| && lines[k0] == r.value && forall j | 0 <= j < k0 :: !Contains(lines[j], marker);
    assert k0 <= k;
    assert k <= k0;
  }

  /** The first of `lines` that contains `marker` (`Iterator::find_map` with a
      `contains` test). */
  function FirstContaining(lines: seq<string>, marker: string): (r: Option<string>)
    ensures r.Some? ==> r.value in lines && Contains(r.value, marker)
    ensures r.Some? ==> exists k | 0 <= k < |lines| ::
      (lines[k] == r.value && forall j | 0 <= j < k :: !Contains(lines[j], marker))
    ensures r.None? <==> forall j | 0 <= j < |lines| :: !Contains(lines[j], marker)
    decreases |lines|
  {
    if |lines| == 0 then None
    else if Contains(lines[0], marker) then Some(lines[0])
    else
      var r := FirstContaining(lines[1..], marker);
      assert forall j | 1 <= j < |lines| :: lines[j] == lines[1..][j - 1];
      if r.Some? then
        ghost var k :| 0 <= k < |lines[1..]| && lines[1..][k] == r.value
          && forall j | 0 <= j < k :: !Contains(lines[1..][j], marker);
        assert lines[k + 1] == r.value;
        assert forall j | 0 <= j < k + 1 :: !Contains(lines[j], marker) by {
          forall j | 0 <= j < k + 1 ensures !Contains(lines[j], marker) {
            if j > 0 { assert lines[j] == lines[1..][j - 1]; }
          }
        }
        r
      else r
  }

  /** The start of the run of non-whitespace that ends at index `m`. */
  function SkipFieldBack(s: string, m: nat): (n: nat)
    requires m <= |s|
    ensures n <= m
    ensures forall j | n <= j < m :: !IsWhitespace(s[j])
    ensures n > 0 ==> IsWhitespace(s[n - 1])
    decreases m
  {
    if m == 0 || IsWhitespace(s[m - 1]) then m else SkipFieldBack(s, m - 1)
  }

  /** `split_whitespace().last()`: the last maximal run of non-whitespace
      characters, if there is one. */
  function LastField(s: string): (r: Option<string>)
    ensures r.None? <==> AllWhitespace(s)
    ensures r.Some? ==> exists i: nat, j: nat | i < j <= |s| ::
      && r.value == s[i..j]
      && (forall k | i <= k < j :: !IsWhitespace(s[k]))
      && (i == 0 || IsWhitespace(s[i - 1]))
      && (forall k | j <= k < |s| :: IsWhitespace(s[k]))
  {
    var j := SkipWhitespaceBack(s, |s|, 0);
    if j == 0 then None
    else
      var i := SkipFieldBack(s, j);
      Some(s[i..j])
  }

  // ---------------------------------------------------------------------
  // Byte length and decimal rendering
  // ---------------------------------------------------------------------

  /** Number of bytes the UTF-8 encoding of `c` takes. */
  function Utf8Width(c: char): nat
  {
    var n := c as int;
    if n < 0x80 then 1 else if n < 0x800 then 2 else if n < 0x10000 then 3 else 4
  }

  /** `String::len`: the length of the UTF-8 encoding, in bytes. */
  function Utf8Length(s: string): (r: nat)
    ensures |s| <= r <= 4 * |s|
    ensures (forall i | 0 <= i < |s| :: s[i] as int < 0x80) ==> r == |s|
    decreases |s|
  {
    if |s| == 0 then 0 else Utf8Width(s[0]) + Utf8Length(s[1..])
  }

  /** `Display` of an unsigned integer: its decimal digits, no leading zero. */
  function NatToString(n: nat): (r: string)
    ensures |r| >= 1
    ensures forall i | 0 <= i < |r| :: '0' <= r[i] <= '9'
    ensures |r| > 1 ==> r[0] != '0'
    decreases n
  {
    var d := [('0' as int + n % 10) as char];
    if n < 10 then d else NatToString(n / 10) + d
  }

  predicate StartsWith(s: string, prefix: string)
  {
    |prefix| <= |s| && s[..|prefix|] == prefix
  }

  predicate EndsWith(s: string, suffix: string)
  {
    |suffix| <= |s| && s[|s| - |suffix|..] == suffix
  }
}
