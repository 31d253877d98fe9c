/** What the two REST route files ask of the document store and how they turn
    query-string parameters into pagination metadata: filtering, a descending
    sort on a timestamp, `skip`/`limit`, `distinct` + `sort()`, and the
    `{ current, total, hasNext, hasPrev }` block. */
module Query {
  import opened Text

  // ---------------------------------------------------------------- arithmetic

  /** `Math.ceil(n / d)` for a non-zero integer divisor. */
  function CeilDiv(n: nat, d: int): (r: int)
    requires d != 0
    ensures d > 0 ==> r >= 0 && r * d >= n && (r - 1) * d < n
    ensures d < 0 ==> r <= 0
  {
    if d > 0 then CeilDivPos(n, d) else -(n / -d)
  }

  function CeilDivPos(n: nat, d: nat): (r: nat)
    requires d > 0
    ensures r * d >= n && (r - 1) * d < n
  {
    var q := (n + d - 1) / d;
    assert q * d <= n + d - 1 < q * d + d;
    q
  }

  // ---------------------------------------------------------------- parameters

  /** `parseInt(x) || dflt`: the parsed value unless the parameter is absent or
      unparsable (`None`, standing for NaN) or parses to 0. */
  function ParsedOr(q: Option<int>, dflt: int): (r: int)
    ensures q.Some? && q.value != 0 ==> r == q.value
    ensures q.None? || q.value == 0 ==> r == dflt
  {
    if q.Some? && q.value != 0 then q.value else dflt
  }

  /** The metadata block `{ current, total, hasNext, hasPrev }`; `total` counts pages. */
  datatype Pagination = Pagination(current: int, total: int, hasNext: bool, hasPrev: bool)

  function Paginate(page: int, limit: int, count: nat): (r: Pagination)
    requires limit != 0
    ensures r.current == page && r.total == CeilDiv(count, limit)
    ensures r.hasNext <==> page < r.total
    ensures r.hasPrev <==> page > 1
  {
    var total := CeilDiv(count, limit);
    Pagination(page, total, page < total, page > 1)
  }

  /** `(page - 1) * limit`. */
  function SkipOf(page: int, limit: int): int {
    (page - 1) * limit
  }

  function Abs(x: int): nat { if x < 0 then -x else x }

  function Min(a: int, b: int): int { if a < b then a else b }

  /** A cursor's `.skip(skip).limit(limit)` on a result already in order. The
      store refuses a negative skip (modelled by the caller); a negative limit
      behaves as its absolute value. */
  function Window<T>(s: seq<T>, skip: nat, limit: int): (r: seq<T>)
    ensures |r| <= Abs(limit)
    ensures skip <= |s| ==> |r| == Min(Abs(limit), |s| - skip)
    ensures skip >= |s| ==> r == []
    ensures forall i :: 0 <= i < |r| ==> skip + i < |s| && r[i] == s[skip + i]
  {
    var lo := Min(skip, |s|);
    var hi := Min(skip + Abs(limit), |s|);
    s[lo..hi]
  }

  // ---------------------------------------------------------------- filtering

  /** `find(filter)`: the elements satisfying `keep`, in store order. */
  function Where<T>(s: seq<T>, keep: T -> bool): (r: seq<T>)
    ensures |r| <= |s|
    ensures forall i :: 0 <= i < |r| ==> r[i] in s && keep(r[i])
    ensures forall i :: 0 <= i < |s| && keep(s[i]) ==> s[i] in r
  {
    if s == [] then []
    else if keep(s[0]) then [s[0]] + Where(s[1..], keep)
    else Where(s[1..], keep)
  }

  /** An element is kept exactly when it occurs and satisfies the filter. */
  lemma {:induction false} WhereIn<T>(s: seq<T>, keep: T -> bool, x: T)
    ensures x in Where(s, keep) <==> x in s && keep(x)
  {
    var r := Where(s, keep);
    if x in r {
      var i :| 0 <= i < |r| && r[i] == x;
    } else if x in s {
      var i :| 0 <= i < |s| && s[i] == x;
    }
  }

  lemma {:induction false} WhereConcat<T>(a: seq<T>, b: seq<T>, keep: T -> bool)
    ensures Where(a + b, keep) == Where(a, keep) + Where(b, keep)
  {
    if a != [] {
      assert (a + b)[0] == a[0] && (a + b)[1..] == a[1..] + b;
      WhereConcat(a[1..], b, keep);
    } else {
      assert a + b == b;
    }
  }

  /** Filters that agree everywhere keep the same elements. */
  lemma {:induction false} WhereSame<T>(s: seq<T>, f: T -> bool, g: T -> bool)
    requires forall x :: f(x) == g(x)
    ensures Where(s, f) == Where(s, g)
  {
    if s != [] { WhereSame(s[1..], f, g); }
  }

  lemma {:induction false} WhereNone<T>(s: seq<T>, keep: T -> bool)
    requires forall i :: 0 <= i < |s| ==> !keep(s[i])
    ensures Where(s, keep) == []
  {
    if s != [] { WhereNone(s[1..], keep); }
  }

  lemma {:induction false} WhereAll<T>(s: seq<T>, keep: T -> bool)
    requires forall i :: 0 <= i < |s| ==> keep(s[i])
    ensures Where(s, keep) == s
  {
    if s != [] { WhereAll(s[1..], keep); }
  }

  // ---------------------------------------------------------------- ordering

  ghost predicate SortedDesc<T>(s: seq<T>, key: T -> int) {
    forall i, j :: 0 <= i < j < |s| ==> key(s[i]) >= key(s[j])
  }

  function InsertDesc<T>(x: T, s: seq<T>, key: T -> int): (r: seq<T>)
    requires SortedDesc(s, key)
    ensures SortedDesc(r, key)
    ensures multiset(r) == multiset(s) + multiset{x}
  {
    if s == [] then [x]
    else if key(x) >= key(s[0]) then
      ConsSorted(x, s, key);
      [x] + s
    else
      var t := InsertDesc(x, s[1..], key);
      HeadBoundsInsert(x, s, t, key);
      ConsSorted(s[0], t, key);
      assert s == [s[0]] + s[1..];
      [s[0]] + t
  }

  /** Putting a key no smaller than all the others in front keeps the order. */
  lemma {:induction false} ConsSorted<T>(h: T, t: seq<T>, key: T -> int)
    requires SortedDesc(t, key)
    requires forall k :: 0 <= k < |t| ==> key(h) >= key(t[k])
    ensures SortedDesc([h] + t, key)
  {
    var r := [h] + t;
    forall i, j | 0 <= i < j < |r| ensures key(r[i]) >= key(r[j]) {
      assert r[j] == t[j - 1];
      if i > 0 { assert r[i] == t[i - 1]; }
    }
  }

  /** The head of a descending sequence bounds what inserting a smaller key
      into its tail gives. */
  lemma {:induction false} HeadBoundsInsert<T>(x: T, s: seq<T>, t: seq<T>, key: T -> int)
    requires s != [] && SortedDesc(s, key) && key(x) < key(s[0])
    requires multiset(t) == multiset(s[1..]) + multiset{x}
    ensures forall k :: 0 <= k < |t| ==> key(s[0]) >= key(t[k])
  {
    forall k | 0 <= k < |t| ensures key(s[0]) >= key(t[k]) {
      assert t[k] in multiset(t);
      if t[k] != x {
        assert t[k] in multiset(s[1..]);
        var j :| 0 <= j < |s[1..]| && s[1..][j] == t[k];
        assert s[j + 1] == t[k];
      }
    }
  }

  /** `.sort({ field: -1 })`: descending by `key`; equal keys keep store order. */
  function SortDesc<T>(s: seq<T>, key: T -> int): (r: seq<T>)
    ensures SortedDesc(r, key)
    ensures multiset(r) == multiset(s)
  {
    if s == [] then []
    else
      assert s == [s[0]] + s[1..];
      InsertDesc(s[0], SortDesc(s[1..], key), key)
  }

  /** Sorting keeps the length and draws every element from the input. */
  lemma {:induction false} SortDescMembers<T>(s: seq<T>, key: T -> int)
    ensures |SortDesc(s, key)| == |s|
    ensures forall i :: 0 <= i < |s| ==> SortDesc(s, key)[i] in s
  {
    var r := SortDesc(s, key);
    assert |r| == |s| by { assert |multiset(r)| == |multiset(s)|; }
    forall i | 0 <= i < |s| ensures r[i] in s {
      assert r[i] in multiset(r);
    }
  }

  /** A window of a descending sequence is descending. */
  lemma {:induction false} WindowSorted<T>(s: seq<T>, key: T -> int, skip: nat, limit: int)
    requires SortedDesc(s, key)
    ensures SortedDesc(Window(s, skip, limit), key)
  {
    var w := Window(s, skip, limit);
    forall i, j | 0 <= i < j < |w| ensures key(w[i]) >= key(w[j]) {
      assert w[i] == s[skip + i] && w[j] == s[skip + j];
    }
  }

  /** A window of the sorted sequence is descending and drawn from the input. */
  lemma {:induction false} SortedWindow<T>(s: seq<T>, key: T -> int, skip: nat, limit: int)
    ensures var w := Window(SortDesc(s, key), skip, limit);
      && (forall i :: 0 <= i < |w| ==> w[i] in s)
      && (forall i, j :: 0 <= i < j < |w| ==> key(w[i]) >= key(w[j]))
  {
    var ordered := SortDesc(s, key);
    SortDescMembers(s, key);
    WindowSorted(ordered, key, skip, limit);
    var w := Window(ordered, skip, limit);
    forall i | 0 <= i < |w| ensures w[i] in s { assert w[i] == ordered[skip + i]; }
  }

  /** Lexicographic order on characters. JavaScript's default `sort()`
      compares UTF-16 code units, which agree with code points on the ASCII
      strings this model works on. */
  predicate LexLess(a: string, b: string)
    decreases |a|
  {
    if a == [] then b != []
    else b != [] && (a[0] < b[0] || (a[0] == b[0] && LexLess(a[1..], b[1..])))
  }

  lemma {:induction false} LexIrreflexive(a: string)
    ensures !LexLess(a, a)
    decreases |a|
  {
    if a != [] { LexIrreflexive(a[1..]); }
  }

  lemma {:induction false} LexTransitive(a: string, b: string, c: string)
    requires LexLess(a, b) && LexLess(b, c)
    ensures LexLess(a, c)
    decreases |a|
  {
    if a != [] && a[0] == b[0] && b[0] == c[0] {
      LexTransitive(a[1..], b[1..], c[1..]);
    }
  }

  lemma {:induction false} LexTotal(a: string, b: string)
    ensures a == b || LexLess(a, b) || LexLess(b, a)
    decreases |a|
  {
    if a != [] && b != [] && a[0] == b[0] {
      LexTotal(a[1..], b[1..]);
      if a[1..] == b[1..] { assert a == [a[0]] + a[1..] && b == [b[0]] + b[1..]; }
    }
  }

  ghost predicate StrictlySorted(s: seq<string>) {
    forall i, j :: 0 <= i < j < |s| ==> LexLess(s[i], s[j])
  }

  function InsertDistinct(x: string, s: seq<string>): (r: seq<string>)
    requires StrictlySorted(s)
    ensures StrictlySorted(r)
    ensures forall y :: y in r <==> y == x || y in s
  {
    if s == [] then [x]
    else if x == s[0] then s
    else if LexLess(x, s[0]) then
      assert forall k :: 0 < k < |s| ==> LexLess(x, s[k]) by {
        forall k | 0 < k < |s| ensures LexLess(x, s[k]) { LexTransitive(x, s[0], s[k]); }
      }
      [x] + s
    else
      LexTotal(x, s[0]);
      var t := InsertDistinct(x, s[1..]);
      assert forall k :: 0 <= k < |t| ==> LexLess(s[0], t[k]) by {
        forall k | 0 <= k < |t| ensures LexLess(s[0], t[k]) {
          if t[k] != x {
            assert t[k] in s[1..];
            var m :| 0 <= m < |s| - 1 && s[1..][m] == t[k];
            assert s[m + 1] == t[k];
          }
        }
      }
      [s[0]] + t
  }

  /** `distinct(...)` followed by `sort()`: the values of `s`, each once, ascending. */
  function DistinctSorted(s: seq<string>): (r: seq<string>)
    ensures StrictlySorted(r)
    ensures forall y :: y in r <==> y in s
  {
    if s == [] then [] else InsertDistinct(s[0], DistinctSorted(s[1..]))
  }

  /** Strict sortedness is what makes the listing duplicate-free. */
  lemma {:induction false} StrictlySortedDistinct(s: seq<string>)
    requires StrictlySorted(s)
    ensures forall i, j :: 0 <= i < j < |s| ==> s[i] != s[j]
  {
    forall i, j | 0 <= i < j < |s| ensures s[i] != s[j] { LexIrreflexive(s[i]); }
  }
}
