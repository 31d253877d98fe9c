/** The blog post document: its fields and schema limits, the slug derived from
    the title and the read time derived from the content by the two `pre("save")`
    hooks, and the document whose hooks run on save. */
module BlogPostModel {
  import opened Text
  import opened Query

  // ---------------------------------------------------------------- slug

  predicate IsAlnum(c: char) { 'a' <= c <= 'z' || '0' <= c <= '9' }

  /** The class `[a-z0-9 -]` that survives the first replacement. */
  predicate IsSlugSource(c: char) { IsAlnum(c) || c == ' ' || c == '-' }

  /** The characters a finished slug is made of: `[a-z0-9-]`. */
  predicate IsSlugChar(c: char) { IsAlnum(c) || c == '-' }

  predicate AllSlugSource(s: string) { forall i :: 0 <= i < |s| ==> IsSlugSource(s[i]) }

  predicate AllSlugChars(s: string) { forall i :: 0 <= i < |s| ==> IsSlugChar(s[i]) }

  /** `.replace(/[^a-z0-9 -]/g, "")` */
  function KeepSlugSource(s: string): (r: string)
    ensures AllSlugSource(r)
  {
    if s == [] then []
    else if IsSlugSource(s[0]) then [s[0]] + KeepSlugSource(s[1..])
    else KeepSlugSource(s[1..])
  }

  /** Every maximal run of characters from `cs` becomes a single `-`: with
      `cs` the whitespace this is `.replace(/\s+/g, "-")`, with `cs = {'-'}`
      it is `.replace(/-+/g, "-")`. */
  function RunsToHyphen(s: string, cs: set<char>): (r: string)
    ensures s == [] <==> r == []
    ensures s != [] ==> r[0] == if s[0] in cs then '-' else s[0]
    decreases |s|
  {
    if s == [] then []
    else if s[0] in cs then ['-'] + RunsToHyphen(StripStart(s, cs), cs)
    else [s[0]] + RunsToHyphen(s[1..], cs)
  }

  /** Turning the whitespace runs of a `[a-z0-9 -]` string into hyphens leaves
      only `[a-z0-9-]`; any further run replacement keeps it so. */
  lemma {:induction false} RunsToHyphenChars(s: string, cs: set<char>)
    requires AllSlugSource(s)
    requires ' ' in cs || AllSlugChars(s)
    ensures AllSlugChars(RunsToHyphen(s, cs))
    decreases |s|
  {
    if s != [] {
      if s[0] in cs {
        var t := StripStart(s, cs);
        StripStartSuffix(s, cs);
        assert forall i :: 0 <= i < |t| ==> t[i] == s[|s| - |t| + i];
        RunsToHyphenChars(t, cs);
        var rt := RunsToHyphen(t, cs);
        assert RunsToHyphen(s, cs) == ['-'] + rt;
      } else {
        assert forall i :: 0 <= i < |s| - 1 ==> s[1..][i] == s[i + 1];
        RunsToHyphenChars(s[1..], cs);
        var rt := RunsToHyphen(s[1..], cs);
        assert RunsToHyphen(s, cs) == [s[0]] + rt;
      }
    }
  }

  const Hyphen: set<char> := {'-'}

  /** The slug the first hook assigns: lower-case, trim, drop everything outside
      `[a-z0-9 -]`, turn whitespace runs into `-`, collapse `-` runs, then strip
      leading and trailing `-`. */
  function DeriveSlug(title: string): string {
    Hyphenate(KeepSlugSource(Trim(Lower(title))))
  }

  /** The last three steps of the slug derivation, on the kept characters. */
  function Hyphenate(kept: string): string {
    var collapsed := RunsToHyphen(RunsToHyphen(kept, Whitespace), Hyphen);
    StripEnd(StripStart(collapsed, Hyphen), Hyphen)
  }

  predicate NoDoubleHyphen(s: string) {
    forall i :: 0 <= i < |s| - 1 ==> !(s[i] == '-' && s[i + 1] == '-')
  }

  /** A well-formed slug: only `[a-z0-9-]`, no `-` at either end, no `--`. */
  predicate IsSlug(s: string) {
    && AllSlugChars(s)
    && (s != [] ==> s[0] != '-' && s[|s| - 1] != '-')
    && NoDoubleHyphen(s)
  }

  lemma {:induction false} CollapsedHasNoDoubleHyphen(s: string)
    ensures NoDoubleHyphen(RunsToHyphen(s, Hyphen))
    decreases |s|
  {
    if s != [] {
      var r := RunsToHyphen(s, Hyphen);
      if s[0] in Hyphen {
        var t := StripStart(s, Hyphen);
        CollapsedHasNoDoubleHyphen(t);
        assert r == ['-'] + RunsToHyphen(t, Hyphen);
      } else {
        CollapsedHasNoDoubleHyphen(s[1..]);
        assert r == [s[0]] + RunsToHyphen(s[1..], Hyphen);
      }
    }
  }

  lemma {:induction false} SubstringKeepsNoDoubleHyphen(s: string, lo: nat, hi: nat)
    requires lo <= hi <= |s| && NoDoubleHyphen(s)
    ensures NoDoubleHyphen(s[lo..hi])
  {
    var t := s[lo..hi];
    forall i | 0 <= i < |t| - 1 ensures !(t[i] == '-' && t[i + 1] == '-') {
      assert t[i] == s[lo + i] && t[i + 1] == s[lo + i + 1];
    }
  }

  /** The derived slug is always well formed: only `[a-z0-9-]`, no leading or
      trailing hyphen, never two hyphens in a row. */
  lemma {:induction false} DeriveSlugIsSlug(title: string)
    ensures IsSlug(DeriveSlug(title))
  {
    HyphenateIsSlug(KeepSlugSource(Trim(Lower(title))));
  }

  lemma {:induction false} HyphenateIsSlug(kept: string)
    requires AllSlugSource(kept)
    ensures IsSlug(Hyphenate(kept))
  {
    var hyphenated := RunsToHyphen(kept, Whitespace);
    RunsToHyphenChars(kept, Whitespace);
    assert AllSlugSource(hyphenated) by {
      forall i | 0 <= i < |hyphenated| ensures IsSlugSource(hyphenated[i]) {
        assert IsSlugChar(hyphenated[i]);
      }
    }
    RunsToHyphenChars(hyphenated, Hyphen);
    CollapsedHasNoDoubleHyphen(hyphenated);
    StripHyphensIsSlug(RunsToHyphen(hyphenated, Hyphen));
  }

  /** Stripping the edge hyphens of a collapsed string leaves a slug. */
  lemma {:induction false} StripHyphensIsSlug(collapsed: string)
    requires AllSlugChars(collapsed) && NoDoubleHyphen(collapsed)
    ensures IsSlug(StripEnd(StripStart(collapsed, Hyphen), Hyphen))
  {
    StripStartSlug(collapsed);
    StripEndSlug(StripStart(collapsed, Hyphen));
  }

  lemma {:induction false} StripStartSlug(s: string)
    requires AllSlugChars(s) && NoDoubleHyphen(s)
    ensures var a := StripStart(s, Hyphen);
      AllSlugChars(a) && NoDoubleHyphen(a) && (a != [] ==> a[0] != '-')
  {
    var a := StripStart(s, Hyphen);
    StripStartSuffix(s, Hyphen);
    SlugSegment(s, |s| - |a|, |s|);
  }

  lemma {:induction false} StripEndSlug(a: string)
    requires AllSlugChars(a) && NoDoubleHyphen(a) && (a != [] ==> a[0] != '-')
    ensures IsSlug(StripEnd(a, Hyphen))
  {
    var r := StripEnd(a, Hyphen);
    SlugSegment(a, 0, |r|);
    assert r != [] ==> r[0] == a[0];
  }

  /** A segment of a string of slug characters without `--` is one too. */
  lemma {:induction false} SlugSegment(s: string, lo: nat, hi: nat)
    requires lo <= hi <= |s| && AllSlugChars(s) && NoDoubleHyphen(s)
    ensures AllSlugChars(s[lo..hi]) && NoDoubleHyphen(s[lo..hi])
  {
    SubstringKeepsNoDoubleHyphen(s, lo, hi);
    var t := s[lo..hi];
    forall i | 0 <= i < |t| ensures IsSlugChar(t[i]) { assert t[i] == s[lo + i]; }
  }

  // ---- letters and digits survive in order

  /** The letters and digits of `s`, in order. */
  function Alnums(s: string): (r: string)
    ensures |r| <= |s|
  {
    if s == [] then [] else if IsAlnum(s[0]) then [s[0]] + Alnums(s[1..]) else Alnums(s[1..])
  }

  lemma {:induction false} AlnumsConcat(a: string, b: string)
    ensures Alnums(a + b) == Alnums(a) + Alnums(b)
  {
    if a == [] {
      assert a + b == b;
    } else {
      assert (a + b)[0] == a[0] && (a + b)[1..] == a[1..] + b;
      AlnumsConcat(a[1..], b);
      if IsAlnum(a[0]) {
        assert Alnums(a + b) == [a[0]] + Alnums(a[1..] + b);
      }
    }
  }

  lemma {:induction false} AlnumsEmpty(s: string)
    ensures Alnums(s) == [] <==> forall i :: 0 <= i < |s| ==> !IsAlnum(s[i])
  {
    if s != [] {
      AlnumsEmpty(s[1..]);
      assert forall i :: 1 <= i < |s| ==> s[i] == s[1..][i - 1];
    }
  }

  lemma {:induction false} KeepSlugSourceAlnums(s: string)
    ensures Alnums(KeepSlugSource(s)) == Alnums(s)
  {
    if s != [] {
      KeepSlugSourceAlnums(s[1..]);
      if IsSlugSource(s[0]) {
        assert KeepSlugSource(s) == [s[0]] + KeepSlugSource(s[1..]);
        AlnumsConcat([s[0]], KeepSlugSource(s[1..]));
      }
    }
  }

  lemma {:induction false} RunsToHyphenAlnums(s: string, cs: set<char>)
    requires forall c :: c in cs ==> !IsAlnum(c)
    ensures Alnums(RunsToHyphen(s, cs)) == Alnums(s)
    decreases |s|
  {
    if s != [] {
      if s[0] in cs {
        var t := StripStart(s, cs);
        var rt := RunsToHyphen(t, cs);
        RunsToHyphenAlnums(t, cs);
        assert RunsToHyphen(s, cs) == ['-'] + rt;
        assert Alnums(['-'] + rt) == Alnums(rt) by {
          assert (['-'] + rt)[0] == '-' && (['-'] + rt)[1..] == rt;
        }
        AlnumsStripStart(s, cs);
      } else {
        var rt := RunsToHyphen(s[1..], cs);
        RunsToHyphenAlnums(s[1..], cs);
        assert RunsToHyphen(s, cs) == [s[0]] + rt;
        assert ([s[0]] + rt)[0] == s[0] && ([s[0]] + rt)[1..] == rt;
      }
    }
  }

  /** The slug holds exactly the letters and digits of the lower-cased title,
      in their order; every other character is gone or became a hyphen. */
  lemma {:induction false} DeriveSlugAlnums(title: string)
    ensures Alnums(DeriveSlug(title)) == Alnums(Lower(title))
  {
    var l := Lower(title);
    TrimAlnums(l);
    KeepSlugSourceAlnums(Trim(l));
    HyphenateAlnums(KeepSlugSource(Trim(l)));
  }

  lemma {:induction false} TrimAlnums(s: string)
    ensures Alnums(Trim(s)) == Alnums(s)
  {
    forall c | c in Whitespace ensures !IsAlnum(c) { WsNotAlnum(c); }
    AlnumsStripStart(s, Whitespace);
    AlnumsStripEnd(StripStart(s, Whitespace), Whitespace);
  }

  lemma {:induction false} WsNotAlnum(c: char)
    requires IsWs(c)
    ensures !IsAlnum(c)
  {
  }

  lemma {:induction false} AlnumNotWs(c: char)
    requires IsAlnum(c)
    ensures c !in Whitespace
  {
  }

  lemma {:induction false} HyphenateAlnums(kept: string)
    ensures Alnums(Hyphenate(kept)) == Alnums(kept)
  {
    var hyphenated := RunsToHyphen(kept, Whitespace);
    var collapsed := RunsToHyphen(hyphenated, Hyphen);
    assert Alnums(collapsed) == Alnums(kept) by {
      RunsToHyphenAlnums(kept, Whitespace);
      RunsToHyphenAlnums(hyphenated, Hyphen);
    }
    StripHyphensAlnums(collapsed);
  }

  lemma {:induction false} StripHyphensAlnums(s: string)
    ensures Alnums(StripEnd(StripStart(s, Hyphen), Hyphen)) == Alnums(s)
  {
    AlnumsStripStart(s, Hyphen);
    AlnumsStripEnd(StripStart(s, Hyphen), Hyphen);
  }

  /** Stripping a prefix of non-alphanumerics keeps `Alnums`. */
  lemma {:induction false} AlnumsStripStart(s: string, cs: set<char>)
    requires forall c :: c in cs ==> !IsAlnum(c)
    ensures Alnums(StripStart(s, cs)) == Alnums(s)
    decreases |s|
  {
    if s != [] && s[0] in cs {
      AlnumsStripStart(s[1..], cs);
    }
  }

  /** Stripping a suffix of non-alphanumerics keeps `Alnums`. */
  lemma {:induction false} AlnumsStripEnd(s: string, cs: set<char>)
    requires forall c :: c in cs ==> !IsAlnum(c)
    ensures Alnums(StripEnd(s, cs)) == Alnums(s)
    decreases |s|
  {
    if s != [] && s[|s| - 1] in cs {
      var init, last := s[..|s| - 1], s[|s| - 1];
      AlnumsStripEnd(init, cs);
      assert s == init + [last];
      AlnumsConcat(init, [last]);
      assert Alnums([last]) == [] by { assert [last][1..] == []; }
    }
  }

  /** The slug is empty exactly when the lower-cased title has no letter or digit. */
  lemma {:induction false} DeriveSlugEmptyIff(title: string)
    ensures DeriveSlug(title) == [] <==> forall i :: 0 <= i < |title| ==> !IsAlnum(Lower(title)[i])
  {
    var r := DeriveSlug(title);
    DeriveSlugAlnums(title);
    DeriveSlugIsSlug(title);
    AlnumsEmpty(r);
    AlnumsEmpty(Lower(title));
    if r != [] {
      assert IsAlnum(r[0]);
    }
  }

  // ---- deriving twice changes nothing

  lemma {:induction false} KeepSlugSourceIdentity(s: string)
    requires forall i :: 0 <= i < |s| ==> IsSlugSource(s[i])
    ensures KeepSlugSource(s) == s
  {
    if s != [] { KeepSlugSourceIdentity(s[1..]); }
  }

  lemma {:induction false} RunsToHyphenNoRun(s: string, cs: set<char>)
    requires forall i :: 0 <= i < |s| ==> s[i] !in cs
    ensures RunsToHyphen(s, cs) == s
  {
    if s != [] { RunsToHyphenNoRun(s[1..], cs); }
  }

  lemma {:induction false} CollapseIdentity(s: string)
    requires NoDoubleHyphen(s)
    ensures RunsToHyphen(s, Hyphen) == s
  {
    if s != [] {
      SubstringKeepsNoDoubleHyphen(s, 1, |s|);
      CollapseIdentity(s[1..]);
      if s[0] == '-' {
        var t := StripStart(s, Hyphen);
        assert |s| > 1 ==> s[1] != '-';
        assert t == StripStart(s[1..], Hyphen);
        assert t == s[1..];
      }
    }
  }

  /** Deriving a slug from a slug returns it unchanged. */
  lemma {:induction false} DeriveSlugIdempotent(title: string)
    ensures DeriveSlug(DeriveSlug(title)) == DeriveSlug(title)
  {
    var s := DeriveSlug(title);
    DeriveSlugIsSlug(title);
    SlugIsFixedPoint(s);
  }

  lemma {:induction false} SlugIsFixedPoint(s: string)
    requires IsSlug(s)
    ensures DeriveSlug(s) == s
  {
    assert Lower(s) == s by {
      forall i | 0 <= i < |s| ensures !IsUpper(s[i]) { assert IsSlugChar(s[i]); }
      LowerOfLower(s);
    }
    assert Trim(s) == s by {
      if s != [] { SlugCharNotWs(s[0]); SlugCharNotWs(s[|s| - 1]); }
      TrimOfUnpadded(s);
    }
    assert KeepSlugSource(s) == s by {
      forall i | 0 <= i < |s| ensures IsSlugSource(s[i]) { assert IsSlugChar(s[i]); }
      KeepSlugSourceIdentity(s);
    }
    HyphenateSlug(s);
  }

  lemma {:induction false} SlugCharNotWs(c: char)
    requires IsSlugChar(c)
    ensures !IsWs(c)
  {
  }

  lemma {:induction false} HyphenateSlug(s: string)
    requires IsSlug(s)
    ensures Hyphenate(s) == s
  {
    assert RunsToHyphen(s, Whitespace) == s by {
      forall i | 0 <= i < |s| ensures s[i] !in Whitespace { SlugCharNotWs(s[i]); }
      RunsToHyphenNoRun(s, Whitespace);
    }
    CollapseIdentity(s);
    StripUntouched(s, Hyphen);
  }

  /** A string without upper-case ASCII letters is its own lower-casing. */
  lemma {:induction false} LowerOfLower(s: string)
    requires forall i :: 0 <= i < |s| ==> !IsUpper(s[i])
    ensures Lower(s) == s
  {
    assert forall i :: 0 <= i < |s| ==> Lower(s)[i] == s[i];
  }

  lemma {:induction false} KeepSlugSourceConcat(a: string, b: string)
    ensures KeepSlugSource(a + b) == KeepSlugSource(a) + KeepSlugSource(b)
  {
    if a == [] {
      assert a + b == b;
    } else {
      assert (a + b)[0] == a[0] && (a + b)[1..] == a[1..] + b;
      KeepSlugSourceConcat(a[1..], b);
    }
  }

  lemma {:induction false} RunsToHyphenNoRunThen(a: string, b: string, cs: set<char>)
    requires forall i :: 0 <= i < |a| ==> a[i] !in cs
    ensures RunsToHyphen(a + b, cs) == a + RunsToHyphen(b, cs)
    decreases |a|
  {
    if a == [] {
      assert a + b == b;
    } else {
      var t := a[1..];
      assert forall i :: 0 <= i < |t| ==> t[i] !in cs by {
        forall i | 0 <= i < |t| ensures t[i] !in cs { assert t[i] == a[i + 1]; }
      }
      RunsToHyphenNoRunThen(t, b, cs);
      assert a + b == [a[0]] + (t + b) && a == [a[0]] + t;
      RunsToHyphenCons(a[0], t + b, cs);
    }
  }

  /** A character outside `cs` passes through unchanged. */
  lemma {:induction false} RunsToHyphenCons(c: char, s: string, cs: set<char>)
    requires c !in cs
    ensures RunsToHyphen([c] + s, cs) == [c] + RunsToHyphen(s, cs)
  {
    assert ([c] + s)[0] == c && ([c] + s)[1..] == s;
  }

  /** A title of two words joined by a space, perhaps followed by
      punctuation, gets the slug of the two lower-cased words joined by a
      hyphen. */
  lemma {:induction false} TwoWordSlug(u: string, v: string, p: string)
    requires u != [] && v != []
    requires forall i :: 0 <= i < |u| ==> IsAlnum(LowerChar(u[i]))
    requires forall i :: 0 <= i < |v| ==> IsAlnum(LowerChar(v[i]))
    requires forall i :: 0 <= i < |p| ==> !IsWs(p[i]) && !IsSlugSource(LowerChar(p[i]))
    ensures DeriveSlug(u + " " + v + p) == Lower(u) + "-" + Lower(v)
  {
    var lu, lv, lp := Lower(u), Lower(v), Lower(p);
    assert Lower(u + " " + v + p) == lu + " " + lv + lp by {
      LowerConcat(u + " " + v, p);
      LowerConcat(u + " ", v);
      LowerConcat(u, " ");
    }
    forall i | 0 <= i < |lp| ensures !IsWs(lp[i]) && !IsSlugSource(lp[i]) {
      LowerCharWs(p[i]);
    }
    SlugOfWords(lu, lv, lp);
  }

  /** The kept characters of two lower-case words and a tail of punctuation. */
  lemma {:induction false} SlugOfWords(lu: string, lv: string, lp: string)
    requires lu != [] && lv != []
    requires forall i :: 0 <= i < |lu| ==> IsAlnum(lu[i])
    requires forall i :: 0 <= i < |lv| ==> IsAlnum(lv[i])
    requires forall i :: 0 <= i < |lp| ==> !IsWs(lp[i]) && !IsSlugSource(lp[i])
    ensures Hyphenate(KeepSlugSource(Trim(lu + " " + lv + lp))) == lu + "-" + lv
  {
    TrimWords(lu, lv, lp);
    KeepWords(lu, lv, lp);
    HyphenateTwoWords(lu, lv);
  }

  lemma {:induction false} TrimWords(lu: string, lv: string, lp: string)
    requires lu != [] && lv != []
    requires IsAlnum(lu[0]) && IsAlnum(lv[|lv| - 1])
    requires lp != [] ==> !IsWs(lp[|lp| - 1])
    ensures Trim(lu + " " + lv + lp) == lu + " " + lv + lp
  {
    var w := lu + " " + lv + lp;
    assert w[0] == lu[0];
    AlnumNotWs(lu[0]);
    if lp == [] {
      assert w[|w| - 1] == lv[|lv| - 1];
      AlnumNotWs(lv[|lv| - 1]);
    } else {
      assert w[|w| - 1] == lp[|lp| - 1];
    }
    TrimOfUnpadded(w);
  }

  lemma {:induction false} KeepWords(lu: string, lv: string, lp: string)
    requires forall i :: 0 <= i < |lu| ==> IsAlnum(lu[i])
    requires forall i :: 0 <= i < |lv| ==> IsAlnum(lv[i])
    requires forall i :: 0 <= i < |lp| ==> !IsSlugSource(lp[i])
    ensures KeepSlugSource(lu + " " + lv + lp) == lu + " " + lv
  {
    var words := lu + " " + lv;
    KeepSlugSourceConcat(words, lp);
    WordsSlugSource(lu, lv);
    KeepSlugSourceIdentity(words);
    KeepSlugSourceNone(lp);
  }

  lemma {:induction false} WordsSlugSource(lu: string, lv: string)
    requires forall i :: 0 <= i < |lu| ==> IsAlnum(lu[i])
    requires forall i :: 0 <= i < |lv| ==> IsAlnum(lv[i])
    ensures forall i :: 0 <= i < |lu + " " + lv| ==> IsSlugSource((lu + " " + lv)[i])
  {
    var words := lu + " " + lv;
    forall i | 0 <= i < |words| ensures IsSlugSource(words[i]) {
      if i < |lu| { assert words[i] == lu[i]; }
      else if i > |lu| { assert words[i] == lv[i - |lu| - 1]; }
    }
  }

  /** The hyphenation of two lower-case words joined by a space. */
  lemma {:induction false} HyphenateTwoWords(lu: string, lv: string)
    requires lu != [] && lv != []
    requires forall i :: 0 <= i < |lu| ==> IsAlnum(lu[i])
    requires forall i :: 0 <= i < |lv| ==> IsAlnum(lv[i])
    ensures Hyphenate(lu + " " + lv) == lu + "-" + lv
  {
    var h := lu + "-" + lv;
    assert RunsToHyphen(lu + " " + lv, Whitespace) == h by {
      forall i | 0 <= i < |lu| ensures lu[i] !in Whitespace { AlnumNotWs(lu[i]); }
      forall i | 0 <= i < |lv| ensures lv[i] !in Whitespace { AlnumNotWs(lv[i]); }
      SpaceToHyphen(lu, lv);
    }
    assert RunsToHyphen(h, Hyphen) == h by {
      WordsNoDoubleHyphen(lu, lv);
      CollapseIdentity(h);
    }
    assert h[0] !in Hyphen && h[|h| - 1] !in Hyphen by {
      assert h[0] == lu[0] && h[|h| - 1] == lv[|lv| - 1];
    }
    StripUntouched(h, Hyphen);
  }

  lemma {:induction false} SpaceToHyphen(lu: string, lv: string)
    requires forall i :: 0 <= i < |lu| ==> lu[i] !in Whitespace
    requires forall i :: 0 <= i < |lv| ==> lv[i] !in Whitespace
    ensures RunsToHyphen(lu + " " + lv, Whitespace) == lu + "-" + lv
  {
    var tail := " " + lv;
    assert lu + " " + lv == lu + tail;
    RunsToHyphenNoRunThen(lu, tail, Whitespace);
    assert StripStart(tail, Whitespace) == lv by {
      assert tail[0] in Whitespace && tail[1..] == lv;
      assert StripStart(lv, Whitespace) == lv;
    }
    RunsToHyphenNoRun(lv, Whitespace);
    assert RunsToHyphen(tail, Whitespace) == ['-'] + lv;
  }

  lemma {:induction false} WordsNoDoubleHyphen(lu: string, lv: string)
    requires forall i :: 0 <= i < |lu| ==> IsAlnum(lu[i])
    requires forall i :: 0 <= i < |lv| ==> IsAlnum(lv[i])
    ensures NoDoubleHyphen(lu + "-" + lv)
  {
    var h := lu + "-" + lv;
    forall i | 0 <= i < |h| - 1 ensures !(h[i] == '-' && h[i + 1] == '-') {
      if i < |lu| { assert h[i] == lu[i]; } else { assert h[i + 1] == lv[i - |lu|]; }
    }
  }

  lemma {:induction false} KeepSlugSourceNone(s: string)
    requires forall i :: 0 <= i < |s| ==> !IsSlugSource(s[i])
    ensures KeepSlugSource(s) == []
  {
    if s != [] { KeepSlugSourceNone(s[1..]); }
  }

  /** The title "Hello World!" gets the slug "hello-world". */
  lemma {:induction false} HelloWorld(title: string)
    requires title == "Hello World!"
    ensures DeriveSlug(title) == "hello-world"
  {
    assert title == "Hello" + " " + "World" + "!";
    HelloWorldPieces();
    TwoWordSlug("Hello", "World", "!");
    HelloWorldLower();
  }

  lemma {:induction false} HelloWorldPieces()
    ensures forall i :: 0 <= i < 5 ==> IsAlnum(LowerChar("Hello"[i])) && IsAlnum(LowerChar("World"[i]))
    ensures !IsWs('!') && !IsSlugSource(LowerChar('!'))
  {
  }

  lemma {:induction false} HelloWorldLower()
    ensures Lower("Hello") + "-" + Lower("World") == "hello-world"
  {
    LowerCapitalized("Hello", "hello");
    LowerCapitalized("World", "world");
  }

  /** A capitalised word lowers to its tail behind the lowered capital. */
  lemma {:induction false} LowerCapitalized(w: string, l: string)
    requires w != [] && IsUpper(w[0]) && |l| == |w| && l[0] == LowerChar(w[0])
    requires forall i :: 1 <= i < |w| ==> !IsUpper(w[i]) && l[i] == w[i]
    ensures Lower(w) == l
  {
    assert forall i :: 0 <= i < |w| ==> Lower(w)[i] == l[i];
  }

  // ---------------------------------------------------------------- read time

  const WordsPerMinute := 200

  /** `s.split(/\s+/)`: the pieces between maximal whitespace runs; a leading or
      trailing run gives an empty edge piece and the empty string gives `[""]`. */
  function SplitWs(s: string): (r: seq<string>)
    ensures |r| >= 1
    ensures forall i :: 0 <= i < |r| ==> NoWs(r[i])
    decreases |s|
  {
    if s == [] then [""]
    else if IsWs(s[0]) then [""] + SplitWs(StripStart(s, Whitespace))
    else
      var rest := SplitWs(s[1..]);
      [[s[0]] + rest[0]] + rest[1..]
  }

  /** The second hook's value: `Math.ceil(content.split(/\s+/).length / 200)`. */
  function ReadTime(content: string): (r: int)
    ensures r >= 1
    ensures r * WordsPerMinute >= |SplitWs(content)| > (r - 1) * WordsPerMinute
  {
    CeilDiv(|SplitWs(content)|, WordsPerMinute)
  }

  predicate IsWord(w: string) { w != [] && NoWs(w) }

  /** Words joined by single spaces. */
  function Sentence(words: seq<string>): string {
    Join(words, " ")
  }

  lemma {:induction false} SplitWsOfWordThen(w: string, rest: string)
    requires NoWs(w)
    ensures SplitWs(w + rest) == [w + SplitWs(rest)[0]] + SplitWs(rest)[1..]
    decreases |w|
  {
    if w == [] {
      var r := SplitWs(rest);
      assert w + rest == rest;
      assert w + r[0] == r[0];
      assert r == [r[0]] + r[1..];
    } else {
      assert (w + rest)[0] == w[0] && (w + rest)[1..] == w[1..] + rest;
      SplitWsOfWordThen(w[1..], rest);
      assert [w[0]] + (w[1..] + SplitWs(rest)[0]) == w + SplitWs(rest)[0];
    }
  }

  /** Splitting a sentence of words recovers the words. */
  lemma {:induction false} SplitWsSentence(words: seq<string>)
    requires |words| >= 1
    requires forall i :: 0 <= i < |words| ==> IsWord(words[i])
    ensures SplitWs(Sentence(words)) == words
  {
    if |words| == 1 {
      SplitWsOfWordThen(words[0], "");
      assert words[0] + "" == words[0];
    } else {
      var tail := Join(words[1..], " ");
      SplitWsSentence(words[1..]);
      SplitWsOfWordThen(words[0], " " + tail);
      var w1 := words[1];
      assert tail != [] && !IsWs(tail[0]) by {
        assert tail == if |words[1..]| == 1 then w1 else w1 + " " + Join(words[2..], " ");
      }
      assert StripStart(" " + tail, Whitespace) == tail by {
        assert (" " + tail)[1..] == tail;
      }
      var st := " " + tail;
      assert st != [] && IsWs(st[0]);
      assert SplitWs(st) == [""] + words[1..];
      assert SplitWs(st)[0] == "" && SplitWs(st)[1..] == words[1..];
      assert Sentence(words) == words[0] + st;
      assert words[0] + "" == words[0];
      assert words == [words[0]] + words[1..];
    }
  }

  /** A content of 450 words takes three minutes to read. */
  lemma {:induction false} ReadTimeOfWords(words: seq<string>)
    requires |words| == 450
    requires forall i :: 0 <= i < |words| ==> IsWord(words[i])
    ensures ReadTime(Sentence(words)) == 3
  {
    SplitWsSentence(words);
  }

  /** The value the create route passes in, `Math.ceil(content.split(' ').length / 200)`;
      the hook replaces it. */
  function RouteReadTime(content: string): (r: int)
    ensures r >= 1
  {
    CeilDiv(|Split(content, " ")|, WordsPerMinute)
  }

  // ---------------------------------------------------------------- document

  /** A stored blog post; `id` is the store-assigned identity and times are
      abstract timestamps. */
  datatype Post = Post(
    id: nat,
    title: string,
    content: string,
    excerpt: string,
    slug: string,
    author: string,
    tags: seq<string>,
    publishedAt: int,
    updatedAt: int,
    isPublished: bool,
    featuredImage: Option<string>,
    readTime: int)

  const TitleMax := 100
  const ExcerptMax := 200

  /** The schema's `trim` + `lowercase` setters on a tag. */
  function NormalizeTag(t: string): (r: string)
    ensures forall i :: 0 <= i < |r| ==> !IsUpper(r[i])
    ensures r == Trim(Lower(t))
  {
    TrimLowerCommute(t);
    Lower(Trim(t))
  }

  /** The schema's validators on the values they see: required (non-empty)
      for title, content, excerpt, slug and author; title at most 100 and
      excerpt at most 200 characters. The title and slug passed in have already
      been through their setters. */
  predicate SchemaAccepts(title: string, content: string, excerpt: string, slug: string, author: string) {
    && 1 <= |title| <= TitleMax
    && |content| >= 1
    && 1 <= |excerpt| <= ExcerptMax
    && |slug| >= 1
    && |author| >= 1
  }

  /** The document fields a save can change; `isModified(path)` asks about them. */
  datatype Path = TitlePath | ContentPath | OtherPath

  /** A document in memory, before and after `save()` runs its hooks. */
  class PostDocument {
    var title: string
    var content: string
    var slug: string
    var readTime: int
    var updatedAt: int
    var modified: set<Path>

    /** `new BlogPost({...})`: every path given is modified. */
    constructor (title: string, content: string, slug: string, readTime: int, now: int)
      ensures this.title == title && this.content == content && this.slug == slug
      ensures this.readTime == readTime && this.updatedAt == now
      ensures modified == {TitlePath, ContentPath, OtherPath}
    {
      this.title := title;
      this.content := content;
      this.slug := slug;
      this.readTime := readTime;
      this.updatedAt := now;
      modified := {TitlePath, ContentPath, OtherPath};
    }

    /** The two `pre("save")` hooks in order: the slug is re-derived only when
        the title changed, `updatedAt` is refreshed on every save, and the read
        time is recomputed only when the content changed. */
    method RunSaveHooks(now: int)
      modifies this
      ensures slug == if TitlePath in old(modified) then DeriveSlug(title) else old(slug)
      ensures updatedAt == now
      ensures readTime == if ContentPath in old(modified) then ReadTime(content) else old(readTime)
      ensures title == old(title) && content == old(content) && modified == old(modified)
    {
      var newSlug := if TitlePath in modified then DeriveSlug(title) else slug;
      var newReadTime := if ContentPath in modified then ReadTime(content) else readTime;
      slug, updatedAt, readTime := newSlug, now, newReadTime;
    }
  }
}
