/** String operations of the JavaScript runtime that the portfolio's code relies on,
    restricted to ASCII case mapping and ASCII whitespace. */
module Text {

  /** The ASCII characters JavaScript's `\s` and `String.prototype.trim` treat as whitespace. */
  const Whitespace: set<char> := {' ', '\t', '\n', '\r', '\U{0B}', '\U{0C}'}

  predicate IsWs(c: char) { c in Whitespace }

  predicate NoWs(s: string) { forall i :: 0 <= i < |s| ==> !IsWs(s[i]) }

  predicate IsUpper(c: char) { 'A' <= c <= 'Z' }

  function LowerChar(c: char): (r: char)
    ensures !IsUpper(r)
    ensures !IsUpper(c) ==> r == c
  {
    if IsUpper(c) then (c as int + 32) as char else c
  }

  /** `toLowerCase()` on ASCII letters. */
  function Lower(s: string): (r: string)
    ensures |r| == |s|
    ensures forall i :: 0 <= i < |s| ==> r[i] == LowerChar(s[i])
  {
    if s == [] then [] else [LowerChar(s[0])] + Lower(s[1..])
  }

  /** Lower-casing twice is lower-casing once. */
  lemma {:induction false} LowerIdempotent(s: string)
    ensures Lower(Lower(s)) == Lower(s)
  {
    assert forall i :: 0 <= i < |s| ==> Lower(Lower(s))[i] == Lower(s)[i];
  }

  lemma {:induction false} LowerConcat(a: string, b: string)
    ensures Lower(a + b) == Lower(a) + Lower(b)
  {
    var l, r := Lower(a + b), Lower(a) + Lower(b);
    assert |l| == |r|;
    forall i | 0 <= i < |l| ensures l[i] == r[i] {
      if i < |a| { assert (a + b)[i] == a[i]; } else { assert (a + b)[i] == b[i - |a|]; }
    }
  }

  /** Removes the longest prefix whose characters all lie in `cs` (the regular
      expression `^[cs]+`). */
  function StripStart(s: string, cs: set<char>): (r: string)
    ensures |r| <= |s|
    ensures r != [] ==> r[0] !in cs
    ensures s != [] && s[0] in cs ==> |r| < |s|
    decreases |s|
  {
    if s != [] && s[0] in cs then StripStart(s[1..], cs) else s
  }

  /** What `StripStart` removes is a prefix of characters of `cs`: the
      result is the rest of `s`. */
  lemma {:induction false} StripStartSuffix(s: string, cs: set<char>)
    ensures var r := StripStart(s, cs);
      && r == s[|s| - |r|..]
      && forall i :: 0 <= i < |s| - |r| ==> s[i] in cs
    decreases |s|
  {
    if s != [] && s[0] in cs {
      StripStartSuffix(s[1..], cs);
      var r := StripStart(s, cs);
      forall i | 0 <= i < |s| - |r| ensures s[i] in cs {
        if i > 0 { assert s[i] == s[1..][i - 1]; }
      }
    }
  }

  /** Removes the longest suffix whose characters all lie in `cs` (`[cs]+$`). */
  function StripEnd(s: string, cs: set<char>): (r: string)
    ensures |r| <= |s| && r == s[..|r|]
    ensures forall i :: |r| <= i < |s| ==> s[i] in cs
    ensures r != [] ==> r[|r| - 1] !in cs
    decreases |s|
  {
    if s != [] && s[|s| - 1] in cs then StripEnd(s[..|s| - 1], cs) else s
  }

  /** `String.prototype.trim`. */
  function Trim(s: string): (r: string)
    ensures |r| <= |s|
    ensures r != [] ==> r[0] !in Whitespace && r[|r| - 1] !in Whitespace
  {
    StripEnds(s, Whitespace);
    StripEnd(StripStart(s, Whitespace), Whitespace)
  }

  /** After stripping both ends, neither end lies in `cs`. */
  lemma {:induction false} StripEnds(s: string, cs: set<char>)
    ensures var r := StripEnd(StripStart(s, cs), cs);
      r != [] ==> r[0] !in cs && r[|r| - 1] !in cs
  {
    var a := StripStart(s, cs);
    var r := StripEnd(a, cs);
    assert r != [] ==> r[0] == a[0];
  }

  /** Neither end of `s` lies in `cs`, so stripping removes nothing. */
  lemma {:induction false} StripUntouched(s: string, cs: set<char>)
    requires s != [] ==> s[0] !in cs && s[|s| - 1] !in cs
    ensures StripStart(s, cs) == s && StripEnd(s, cs) == s
  {
  }

  lemma {:induction false} TrimOfUnpadded(s: string)
    requires s == [] || (!IsWs(s[0]) && !IsWs(s[|s| - 1]))
    ensures Trim(s) == s
  {
  }

  /** Trimming twice is trimming once. */
  lemma {:induction false} TrimIdempotent(s: string)
    ensures Trim(Trim(s)) == Trim(s)
  {
    TrimOfUnpadded(Trim(s));
  }

  /** Trimming and lowering commute, so the order in which a schema applies its
      `trim` and `lowercase` setters does not matter. */
  lemma {:induction false} TrimLowerCommute(s: string)
    ensures Lower(Trim(s)) == Trim(Lower(s))
  {
    StripStartLower(s);
    StripEndLower(StripStart(s, Whitespace));
  }

  lemma {:induction false} LowerCharWs(c: char)
    ensures IsWs(LowerChar(c)) <==> IsWs(c)
    ensures IsWs(c) ==> LowerChar(c) == c
  {
  }

  lemma {:induction false} StripStartLower(s: string)
    ensures Lower(StripStart(s, Whitespace)) == StripStart(Lower(s), Whitespace)
  {
    if s != [] {
      LowerCharWs(s[0]);
      assert Lower(s)[0] == LowerChar(s[0]);
      if s[0] in Whitespace {
        assert Lower(s)[1..] == Lower(s[1..]);
        StripStartLower(s[1..]);
      }
    }
  }

  lemma {:induction false} StripEndLower(s: string)
    ensures Lower(StripEnd(s, Whitespace)) == StripEnd(Lower(s), Whitespace)
  {
    if s != [] {
      var p := s[..|s| - 1];
      assert s == p + [s[|s| - 1]];
      LowerConcat(p, [s[|s| - 1]]);
      assert Lower(s)[..|s| - 1] == Lower(p);
      LowerCharWs(s[|s| - 1]);
      assert Lower(s)[|s| - 1] == LowerChar(s[|s| - 1]);
      if s[|s| - 1] in Whitespace {
        StripEndLower(p);
      }
    }
  }

  /** `s.substring(0, n)` for a non-negative `n`. */
  function Take(s: string, n: nat): (r: string)
    ensures |r| == if |s| < n then |s| else n
    ensures r == s[..|r|]
  {
    if |s| < n then s else s[..n]
  }

  predicate OccursAt(s: string, t: string, k: int) {
    0 <= k && k + |t| <= |s| && s[k..k + |t|] == t
  }

  /** The first index at or after `from` where `t` occurs in `s`. */
  function FindFrom(s: string, t: string, from: nat): (r: Option<nat>)
    ensures r.Some? ==> from <= r.value && OccursAt(s, t, r.value)
    ensures r.Some? ==> forall j :: from <= j < r.value ==> !OccursAt(s, t, j)
    ensures r.None? ==> forall j :: from <= j ==> !OccursAt(s, t, j)
    decreases |s| - from
  {
    if from + |t| > |s| then None
    else if s[from..from + |t|] == t then Some(from)
    else FindFrom(s, t, from + 1)
  }

  function Find(s: string, t: string): (r: Option<nat>)
    ensures r.Some? ==> OccursAt(s, t, r.value) && forall j :: 0 <= j < r.value ==> !OccursAt(s, t, j)
    ensures r.None? ==> forall j :: !OccursAt(s, t, j)
  {
    FindFrom(s, t, 0)
  }

  /** `s.includes(t)`. */
  predicate Includes(s: string, t: string) {
    Find(s, t).Some?
  }

  lemma {:induction false} IncludesIff(s: string, t: string)
    ensures Includes(s, t) <==> exists k :: OccursAt(s, t, k)
  {
  }

  /** `s.split(sep)` for a non-empty literal separator: the pieces between the
      successive leftmost non-overlapping occurrences of `sep`. */
  function Split(s: string, sep: string): (r: seq<string>)
    requires sep != []
    ensures |r| >= 1
    ensures Includes(s, sep) ==> |r| >= 2
    decreases |s|
  {
    match Find(s, sep)
    case None => [s]
    case Some(k) => [s[..k]] + Split(s[k + |sep|..], sep)
  }

  /** `pieces.join(sep)`. */
  function Join(pieces: seq<string>, sep: string): string {
    if |pieces| == 0 then ""
    else if |pieces| == 1 then pieces[0]
    else pieces[0] + sep + Join(pieces[1..], sep)
  }

  /** Joining the pieces of a split gives back the string. */
  lemma {:induction false} JoinSplit(s: string, sep: string)
    requires sep != []
    ensures Join(Split(s, sep), sep) == s
    decreases |s|
  {
    match Find(s, sep)
    case None =>
    case Some(k) =>
      var rest := s[k + |sep|..];
      JoinSplit(rest, sep);
      assert Split(s, sep) == [s[..k]] + Split(rest, sep);
      assert s == s[..k] + sep + rest;
  }

  /** No piece of a split contains the separator. */
  lemma {:induction false} SplitPiecesFree(s: string, sep: string)
    requires sep != []
    ensures forall i :: 0 <= i < |Split(s, sep)| ==> !Includes(Split(s, sep)[i], sep)
    decreases |s|
  {
    match Find(s, sep)
    case None =>
    case Some(k) =>
      var rest := s[k + |sep|..];
      SplitPiecesFree(rest, sep);
      var head := s[..k];
      forall j | 0 <= j && j + |sep| <= |head| ensures !OccursAt(head, sep, j) {
        assert head[j..j + |sep|] == s[j..j + |sep|];
        assert !OccursAt(s, sep, j);
      }
      assert Split(s, sep) == [head] + Split(rest, sep);
  }

  /** Replaces the first occurrence of `t` (`s.replace(t, u)` with a string pattern). */
  function ReplaceFirst(s: string, t: string, u: string): (r: string)
    ensures Find(s, t).None? ==> r == s
  {
    match Find(s, t)
    case None => s
    case Some(k) => s[..k] + u + s[k + |t|..]
  }

  function DigitChar(d: nat): char
    requires d < 10
  {
    ['0', '1', '2', '3', '4', '5', '6', '7', '8', '9'][d]
  }

  /** Decimal rendering of a natural number, as in a template literal. */
  function NatToString(n: nat): (r: string)
    ensures |r| >= 1
    ensures forall i :: 0 <= i < |r| ==> '0' <= r[i] <= '9'
  {
    if n < 10 then [DigitChar(n)] else NatToString(n / 10) + [DigitChar(n % 10)]
  }

  datatype Option<+T> = None | Some(value: T)

  /** JavaScript truthiness of an optional string (an environment variable or a
      header): present and not empty. */
  predicate Truthy(o: Option<string>) {
    o.Some? && o.value != ""
  }

  /** `a || b` on optional strings. */
  function OrElse(a: Option<string>, b: Option<string>): (r: Option<string>)
    ensures Truthy(a) ==> r == a
    ensures !Truthy(a) ==> r == b
  {
    if Truthy(a) then a else b
  }
}
