/**
 * The Python `str` built-ins the tutor relies on, over Dafny strings (sequences of
 * Unicode scalar values, as Python's `str` is a sequence of code points):
 * `isspace`, `lower`/`upper`, `strip`, `split()`, `sep.join`, the `in` substring test,
 * `str(int)` and `int(str)`.
 */
module PyStrings {
  import opened Wrappers

  // ---------------------------------------------------------------------------
  // Whitespace
  // ---------------------------------------------------------------------------

  /**
   * Python's `str.isspace` for one character: the characters `strip()` removes and
   * `split()` splits on. The set is finite: ASCII 9-13 and 28-32, and eleven ranges of
   * Unicode separators.
   */
  predicate IsSpace(c: char) {
    || ('\t' <= c <= '\r')
    || ('\U{1c}' <= c <= ' ')
    || c == '\U{85}' || c == '\U{a0}' || c == '\U{1680}'
    || ('\U{2000}' <= c <= '\U{200a}')
    || c == '\U{2028}' || c == '\U{2029}' || c == '\U{202f}' || c == '\U{205f}'
    || c == '\U{3000}'
  }

  predicate AllSpace(s: string) {
    forall i :: 0 <= i < |s| ==> IsSpace(s[i])
  }

  predicate NoSpace(s: string) {
    forall i :: 0 <= i < |s| ==> !IsSpace(s[i])
  }

  // ---------------------------------------------------------------------------
  // Case mapping (ASCII letters only)
  // ---------------------------------------------------------------------------

  function LowerChar(c: char): char {
    if 'A' <= c <= 'Z' then (c as int + 32) as char else c
  }

  function UpperChar(c: char): char {
    if 'a' <= c <= 'z' then (c as int - 32) as char else c
  }

  /** `s.lower()` restricted to ASCII letters; every other character is kept. */
  function Lower(s: string): (r: string)
    ensures |r| == |s| && LowerCased(r)
  {
    if s == [] then [] else [LowerChar(s[0])] + Lower(s[1..])
  }

  /** `s.upper()` restricted to ASCII letters; every other character is kept. */
  function Upper(s: string): (r: string)
    ensures |r| == |s|
    ensures forall i :: 0 <= i < |r| ==> !('a' <= r[i] <= 'z')
  {
    if s == [] then [] else [UpperChar(s[0])] + Upper(s[1..])
  }

  /** No ASCII capital letters: `lower()` leaves the string as it is. */
  predicate LowerCased(s: string) {
    forall i :: 0 <= i < |s| ==> !('A' <= s[i] <= 'Z')
  }

  /** Lower-casing keeps the length and maps each character on its own. */
  lemma {:induction false} LowerAt(s: string)
    ensures |Lower(s)| == |s|
    ensures forall i :: 0 <= i < |s| ==> Lower(s)[i] == LowerChar(s[i])
  {
    if s != [] {
      LowerAt(s[1..]);
    }
  }

  /** Lower-casing keeps whitespace where it is, so it commutes with `strip()`. */
  lemma {:induction false} LowerKeepsSpace(s: string)
    ensures |Lower(s)| == |s|
    ensures forall i :: 0 <= i < |s| ==> (IsSpace(Lower(s)[i]) <==> IsSpace(s[i]))
  {
    LowerAt(s);
  }

  /** Lower-casing works piece by piece. */
  lemma {:induction false} LowerConcat(a: string, b: string)
    ensures Lower(a + b) == Lower(a) + Lower(b)
  {
    if a != [] {
      assert (a + b)[0] == a[0];
      assert (a + b)[1..] == a[1..] + b;
      LowerConcat(a[1..], b);
    } else {
      assert a + b == b;
    }
  }

  /** Upper-casing works piece by piece. */
  lemma {:induction false} UpperConcat(a: string, b: string)
    ensures Upper(a + b) == Upper(a) + Upper(b)
  {
    if a != [] {
      assert (a + b)[0] == a[0];
      assert (a + b)[1..] == a[1..] + b;
      UpperConcat(a[1..], b);
    } else {
      assert a + b == b;
    }
  }

  /** Upper-casing leaves whitespace as it is. */
  lemma {:induction false} UpperOfSpace(s: string)
    requires AllSpace(s)
    ensures Upper(s) == s
  {
    if s != [] {
      UpperOfSpace(s[1..]);
    }
  }

  /** Lower-casing whitespace leaves it whitespace. */
  lemma LowerAllSpace(s: string)
    requires AllSpace(s)
    ensures AllSpace(Lower(s))
  {
    LowerKeepsSpace(s);
  }

  /** `s.lower().lower() == s.lower()`. */
  lemma {:induction false} LowerIdempotent(s: string)
    ensures Lower(Lower(s)) == Lower(s)
  {
    if s != [] {
      LowerIdempotent(s[1..]);
    }
  }

  // ---------------------------------------------------------------------------
  // strip()
  // ---------------------------------------------------------------------------

  /** True of a string with no whitespace at either end: what `strip()` returns. */
  predicate Stripped(s: string) {
    s == [] || (!IsSpace(s[0]) && !IsSpace(s[|s| - 1]))
  }

  /** The number of whitespace characters `s` starts with. */
  function LeadingSpaces(s: string): nat {
    if s != [] && IsSpace(s[0]) then 1 + LeadingSpaces(s[1..]) else 0
  }

  /** The number of whitespace characters `s` ends with. */
  function TrailingSpaces(s: string): nat {
    if s != [] && IsSpace(s[|s| - 1]) then 1 + TrailingSpaces(s[..|s| - 1]) else 0
  }

  lemma {:induction false} LeadingSpacesSpec(s: string)
    ensures LeadingSpaces(s) <= |s|
    ensures AllSpace(s[..LeadingSpaces(s)])
    ensures LeadingSpaces(s) < |s| ==> !IsSpace(s[LeadingSpaces(s)])
  {
    if s != [] && IsSpace(s[0]) {
      LeadingSpacesSpec(s[1..]);
      var n := LeadingSpaces(s[1..]);
      assert forall k :: 1 <= k < n + 1 ==> s[k] == s[1..][..n][k - 1];
    }
  }

  lemma {:induction false} TrailingSpacesSpec(s: string)
    ensures TrailingSpaces(s) <= |s|
    ensures AllSpace(s[|s| - TrailingSpaces(s)..])
    ensures TrailingSpaces(s) < |s| ==> !IsSpace(s[|s| - 1 - TrailingSpaces(s)])
  {
    if s != [] && IsSpace(s[|s| - 1]) {
      var front := s[..|s| - 1];
      TrailingSpacesSpec(front);
      var n := TrailingSpaces(front);
      assert forall k :: |s| - 1 - n <= k < |s| - 1 ==> s[k] == front[|front| - n..][k - (|front| - n)];
    }
  }

  /**
   * `s.strip()`: the slice of `s` between its leading and its trailing whitespace,
   * found from the left and then from the right as Python does.
   */
  function Strip(s: string): (r: string)
    ensures |r| <= |s| && Stripped(r)
  {
    var a := LeadingSpaces(s);
    LeadingSpacesSpec(s);
    var t := s[a..];
    var b := TrailingSpaces(t);
    TrailingSpacesSpec(t);
    assert |t| - b > 0 ==> t[0] == s[a] && t[..|t| - b][|t| - b - 1] == t[|t| - 1 - b];
    t[..|t| - b]
  }

  /**
   * What `strip()` returns has no whitespace at either end, and `s` is that result
   * framed by whitespace only.
   */
  lemma StripSpec(s: string)
    ensures Stripped(Strip(s))
    ensures exists p, q :: AllSpace(p) && AllSpace(q) && s == p + Strip(s) + q
  {
    var p, q := StripParts(s);
  }

  lemma StripParts(s: string) returns (p: string, q: string)
    ensures AllSpace(p) && AllSpace(q) && s == p + Strip(s) + q
  {
    var a := LeadingSpaces(s);
    LeadingSpacesSpec(s);
    var t := s[a..];
    var b := TrailingSpaces(t);
    TrailingSpacesSpec(t);
    var r := t[..|t| - b];
    assert Strip(s) == r;
    p, q := s[..a], t[|t| - b..];
    SliceParts(t, |t| - b);
    SliceParts(s, a);
    Assoc(p, r, q);
  }

  lemma Assoc<T>(a: seq<T>, b: seq<T>, c: seq<T>)
    ensures a + (b + c) == a + b + c
  {
  }

  lemma SliceParts<T>(s: seq<T>, i: nat)
    requires i <= |s|
    ensures s == s[..i] + s[i..]
  {
  }

  lemma {:induction false} LeadingSpacesOf(p: string, t: string)
    requires AllSpace(p)
    requires t == [] || !IsSpace(t[0])
    ensures LeadingSpaces(p + t) == |p|
  {
    if p != [] {
      assert (p + t)[0] == p[0];
      assert (p + t)[1..] == p[1..] + t;
      LeadingSpacesOf(p[1..], t);
    } else {
      assert p + t == t;
    }
  }

  lemma {:induction false} TrailingSpacesOf(t: string, q: string)
    requires AllSpace(q)
    requires t == [] || !IsSpace(t[|t| - 1])
    ensures TrailingSpaces(t + q) == |q|
  {
    if q != [] {
      assert (t + q)[|t + q| - 1] == q[|q| - 1];
      assert (t + q)[..|t + q| - 1] == t + q[..|q| - 1];
      TrailingSpacesOf(t, q[..|q| - 1]);
    } else {
      assert t + q == t;
    }
  }

  /**
   * The characterisation of `strip()` is unique: a stripped string framed by
   * whitespace strips back to itself.
   */
  lemma StripUnique(p: string, r: string, q: string)
    requires AllSpace(p) && AllSpace(q) && Stripped(r)
    ensures Strip(p + r + q) == r
  {
    var s := p + r + q;
    if r == [] {
      assert s == (p + q) + [];
      LeadingSpacesOf(p + q, []);
      assert s[|s|..] == [];
    } else {
      assert s == p + (r + q);
      LeadingSpacesOf(p, r + q);
      assert s[|p|..] == r + q;
      TrailingSpacesOf(r, q);
    }
  }

  /** Whitespace added around a string is removed again by `strip()`. */
  lemma StripPadded(p: string, s: string, q: string)
    requires AllSpace(p) && AllSpace(q)
    ensures Strip(p + s + q) == Strip(s)
  {
    var p', q' := StripParts(s);
    var r := Strip(s);
    Regroup(p, p', r, q', q);
    StripUnique(p + p', r, q' + q);
  }

  lemma Regroup<T>(p: seq<T>, p': seq<T>, r: seq<T>, q': seq<T>, q: seq<T>)
    ensures p + (p' + r + q') + q == (p + p') + r + (q' + q)
  {
  }

  /** Where each part of a three-part concatenation sits. */
  lemma Framed<T>(a: seq<T>, b: seq<T>, c: seq<T>)
    ensures a <= a + b + c
    ensures (a + b + c)[|a|..|a| + |b|] == b
    ensures (a + b + c)[|a| + |b|..] == c
  {
  }

  /** A string with no whitespace at its ends is its own `strip()`. */
  lemma StrippedIsFixed(s: string)
    requires Stripped(s)
    ensures Strip(s) == s
  {
    StripUnique([], s, []);
    assert [] + s + [] == s;
  }

  /** Stripping a string without capitals gives a string without capitals. */
  lemma StripKeepsLowerCase(s: string)
    requires LowerCased(s)
    ensures LowerCased(Strip(s))
  {
    var p, q := StripParts(s);
    var r := Strip(s);
    assert forall i :: 0 <= i < |r| ==> r[i] == s[|p| + i];
  }

  // ---------------------------------------------------------------------------
  // The `in` operator on strings
  // ---------------------------------------------------------------------------

  /** `pat` occurs in `text` starting at index `i`. */
  predicate OccursAt(text: string, pat: string, i: int) {
    0 <= i && i + |pat| <= |text| && text[i..i + |pat|] == pat
  }

  /** `pat in text`, searched from the left. */
  predicate Contains(text: string, pat: string): (r: bool)
    ensures r ==> |pat| <= |text|
    decreases |text|
  {
    if |pat| > |text| then false
    else if text[..|pat|] == pat then true
    else Contains(text[1..], pat)
  }

  /** The search finds `pat` exactly when some index of `text` starts an occurrence of it. */
  lemma {:induction false} ContainsIff(text: string, pat: string)
    ensures Contains(text, pat) <==> exists i :: OccursAt(text, pat, i)
    decreases |text|
  {
    if |pat| > |text| {
    } else if text[..|pat|] == pat {
      assert OccursAt(text, pat, 0);
    } else {
      ContainsIff(text[1..], pat);
      if Contains(text[1..], pat) {
        var i :| OccursAt(text[1..], pat, i);
        assert text[i + 1..i + 1 + |pat|] == text[1..][i..i + |pat|];
        assert OccursAt(text, pat, i + 1);
      }
      if exists i :: OccursAt(text, pat, i) {
        var i :| OccursAt(text, pat, i);
        assert i != 0;
        assert text[1..][i - 1..i - 1 + |pat|] == text[i..i + |pat|];
        assert OccursAt(text[1..], pat, i - 1);
      }
    }
  }

  /** An occurrence in a part is an occurrence in the whole. */
  lemma OccursInConcat(a: string, b: string, c: string, pat: string, i: int)
    requires OccursAt(b, pat, i)
    ensures OccursAt(a + b + c, pat, |a| + i)
  {
    assert (a + b + c)[|a| + i..|a| + i + |pat|] == b[i..i + |pat|];
  }

  /** An occurrence inside an occurrence is an occurrence in the whole text. */
  lemma OccursTransitive(text: string, mid: string, pat: string, i: int, j: int)
    requires OccursAt(text, mid, i) && OccursAt(mid, pat, j)
    ensures OccursAt(text, pat, i + j)
  {
    forall k | 0 <= k < |pat|
      ensures text[i + j + k] == pat[k]
    {
      assert text[i..i + |mid|][j + k] == mid[j + k];
      assert mid[j..j + |pat|][k] == pat[k];
    }
    assert text[i + j..i + j + |pat|] == pat;
  }

  /** An occurrence of an already lower-case pattern survives lower-casing the text. */
  lemma LowerOccurs(text: string, pat: string, i: int)
    requires OccursAt(text, pat, i) && LowerCased(pat)
    ensures OccursAt(Lower(text), pat, i)
  {
    LowerAt(text);
    forall j | 0 <= j < |pat|
      ensures Lower(text)[i + j] == pat[j]
    {
      assert text[i..i + |pat|][j] == text[i + j];
    }
    assert Lower(text)[i..i + |pat|] == pat;
  }

  /** The middle part of a concatenation occurs in it. */
  lemma ContainsMiddle(a: string, b: string, c: string)
    ensures Contains(a + b + c, b)
  {
    assert OccursAt(b, b, 0);
    OccursInConcat(a, b, c, b, 0);
    ContainsIff(a + b + c, b);
  }

  /** A string with no capitals lower-cases to itself. */
  lemma {:induction false} LowerOfLowerCased(s: string)
    requires LowerCased(s)
    ensures Lower(s) == s
  {
    if s != [] {
      LowerOfLowerCased(s[1..]);
    }
  }

  /**
   * An occurrence of a whitespace-free pattern in `p + r + q`, where `p` and `q` are
   * all whitespace, lies inside `r`.
   */
  lemma OccursInMiddle(p: string, r: string, q: string, pat: string, i: int)
    requires AllSpace(p) && AllSpace(q) && NoSpace(pat) && pat != []
    requires OccursAt(p + r + q, pat, i)
    ensures OccursAt(r, pat, i - |p|)
  {
    var s := p + r + q;
    var last := i + |pat| - 1;
    assert s[i] == pat[0] && s[last] == pat[|pat| - 1] by {
      assert s[i..i + |pat|][0] == s[i];
      assert s[i..i + |pat|][|pat| - 1] == s[last];
    }
    assert r[i - |p|..i - |p| + |pat|] == s[i..i + |pat|];
  }

  lemma {:induction false} ContainsFramed(p: string, r: string, q: string, pat: string)
    requires AllSpace(p) && AllSpace(q) && NoSpace(pat)
    ensures Contains(r, pat) <==> Contains(p + r + q, pat)
  {
    ContainsIff(r, pat);
    ContainsIff(p + r + q, pat);
    if exists i :: OccursAt(r, pat, i) {
      var i :| OccursAt(r, pat, i);
      OccursInConcat(p, r, q, pat, i);
    }
    if pat != [] && exists i :: OccursAt(p + r + q, pat, i) {
      var i :| OccursAt(p + r + q, pat, i);
      OccursInMiddle(p, r, q, pat, i);
    }
    if pat == [] {
      assert OccursAt(r, pat, 0);
    }
  }

  /**
   * A pattern free of whitespace occurs in a string exactly when it occurs in the
   * string's `strip()`: whitespace at the ends can never be part of an occurrence.
   */
  lemma ContainsStripped(s: string, pat: string)
    requires NoSpace(pat)
    ensures Contains(Strip(s), pat) <==> Contains(s, pat)
  {
    var p, q := StripParts(s);
    ContainsFramed(p, Strip(s), q, pat);
  }

  // ---------------------------------------------------------------------------
  // split() and sep.join(parts)
  // ---------------------------------------------------------------------------

  /** A word of `split()`: non-empty, without whitespace. */
  predicate IsWord(w: string) {
    w != [] && NoSpace(w)
  }

  /** The number of non-whitespace characters `s` starts with. */
  function WordLength(s: string): nat {
    if s != [] && !IsSpace(s[0]) then 1 + WordLength(s[1..]) else 0
  }

  lemma {:induction false} WordLengthSpec(s: string)
    ensures WordLength(s) <= |s|
    ensures NoSpace(s[..WordLength(s)])
    ensures WordLength(s) < |s| ==> IsSpace(s[WordLength(s)])
  {
    if s != [] && !IsSpace(s[0]) {
      WordLengthSpec(s[1..]);
      var n := WordLength(s[1..]);
      assert forall k :: 1 <= k < n + 1 ==> s[k] == s[1..][..n][k - 1];
    }
  }

  /**
   * `s.split()` with no separator: the maximal runs of non-whitespace characters, in
   * order. Every word is non-empty and holds no whitespace.
   */
  function Split(s: string): (words: seq<string>)
    ensures forall w :: w in words ==> IsWord(w)
    decreases |s|
  {
    var a := LeadingSpaces(s);
    LeadingSpacesSpec(s);
    if a == |s| then []
    else
      var n := WordLength(s[a..]);
      WordLengthSpec(s[a..]);
      assert n > 0 by { assert s[a..][0] == s[a]; }
      assert s[a..a + n] == s[a..][..n];
      [s[a..a + n]] + Split(s[a + n..])
  }

  /** `sep.join(parts)`. */
  function Join(sep: string, parts: seq<string>): (r: string)
    ensures parts != [] ==> parts[0] <= r
  {
    if |parts| == 0 then ""
    else if |parts| == 1 then parts[0]
    else parts[0] + sep + Join(sep, parts[1..])
  }

  /** Joining one more part appends the separator and that part. */
  lemma {:induction false} JoinSnoc(sep: string, parts: seq<string>, p: string)
    requires parts != []
    ensures Join(sep, parts + [p]) == Join(sep, parts) + sep + p
  {
    if |parts| > 1 {
      assert (parts + [p])[1..] == parts[1..] + [p];
      JoinSnoc(sep, parts[1..], p);
    }
  }

  /** Every part occurs in the joined string. */
  lemma {:induction false} JoinHasPart(sep: string, parts: seq<string>, k: nat)
    requires k < |parts|
    ensures exists i :: OccursAt(Join(sep, parts), parts[k], i)
  {
    if |parts| == 1 {
      assert OccursAt(Join(sep, parts), parts[k], 0);
    } else if k == 0 {
      OccursInConcat([], parts[0], sep + Join(sep, parts[1..]), parts[0], 0);
      assert [] + parts[0] + (sep + Join(sep, parts[1..])) == Join(sep, parts);
    } else {
      JoinHasPart(sep, parts[1..], k - 1);
      var i :| OccursAt(Join(sep, parts[1..]), parts[k], i);
      OccursInConcat(parts[0] + sep, Join(sep, parts[1..]), [], parts[k], i);
      assert parts[0] + sep + Join(sep, parts[1..]) + [] == Join(sep, parts);
    }
  }

  lemma {:induction false} WordLengthOf(w: string, rest: string)
    requires NoSpace(w)
    requires rest == [] || IsSpace(rest[0])
    ensures WordLength(w + rest) == |w|
  {
    if w != [] {
      assert (w + rest)[0] == w[0];
      assert (w + rest)[1..] == w[1..] + rest;
      WordLengthOf(w[1..], rest);
    } else {
      assert w + rest == rest;
    }
  }

  /** One step of `split()`: its first word, then the split of what follows that word. */
  lemma SplitStep(s: string) returns (p: string, w: string, rest: string)
    requires !AllSpace(s)
    ensures AllSpace(p) && IsWord(w) && (rest == [] || IsSpace(rest[0]))
    ensures s == p + w + rest
    ensures Split(s) == [w] + Split(rest)
  {
    var a := LeadingSpaces(s);
    LeadingSpacesSpec(s);
    var n := WordLength(s[a..]);
    WordLengthSpec(s[a..]);
    assert n > 0 by { assert s[a..][0] == s[a]; }
    p, w, rest := s[..a], s[a..a + n], s[a + n..];
    assert s[a..][..n] == w;
    if rest != [] {
      assert rest[0] == s[a..][n];
    }
    assert s == p + w + rest;
  }

  /** Splitting `p + w + rest`, where `p` is whitespace, `w` one word and `rest` starts with whitespace. */
  lemma SplitCons(p: string, w: string, rest: string)
    requires AllSpace(p) && IsWord(w)
    requires rest == [] || IsSpace(rest[0])
    ensures Split(p + w + rest) == [w] + Split(rest)
  {
    var s := p + w + rest;
    assert s == p + (w + rest);
    LeadingSpacesOf(p, w + rest);
    assert s[|p|..] == w + rest;
    WordLengthOf(w, rest);
    assert s[|p|..|p| + |w|] == w;
    assert s[|p| + |w|..] == rest;
  }

  /**
   * `" ".join(words).split() == words` for words that are non-empty and hold no
   * whitespace: splitting undoes joining with a single space.
   */
  lemma {:induction false} SplitJoin(words: seq<string>)
    requires forall w :: w in words ==> IsWord(w)
    ensures Split(Join(" ", words)) == words
  {
    if |words| == 1 {
      SplitCons([], words[0], []);
      assert [] + words[0] + [] == words[0];
    } else if |words| > 1 {
      var w, tail := words[0], words[1..];
      assert w in words;
      assert Join(" ", words) == w + " " + Join(" ", tail);
      SplitJoinStep(w, Join(" ", tail));
      assert forall v :: v in tail ==> v in words;
      SplitJoin(tail);
      HeadTail(words);
    }
  }

  lemma SplitJoinStep(w: string, rest: string)
    requires IsWord(w)
    ensures Split(w + " " + rest) == [w] + Split(rest)
  {
    SplitCons([], w, " " + rest);
    assert [] + w + (" " + rest) == w + " " + rest;
    SplitBlank(rest);
  }

  lemma HeadTail<T>(s: seq<T>)
    requires s != []
    ensures s == [s[0]] + s[1..]
  {
  }

  /** A string of whitespace only splits into no words. */
  lemma SplitAllSpace(s: string)
    requires AllSpace(s)
    ensures Split(s) == []
  {
    LeadingSpacesOf(s, []);
    assert s + [] == s;
  }

  /** A leading blank changes nothing for `split()`. */
  lemma SplitBlank(rest: string)
    ensures Split(" " + rest) == Split(rest)
  {
    AllSpaceCons(' ', rest);
    if AllSpace(rest) {
      SplitAllSpace(rest);
      SplitAllSpace(" " + rest);
    } else {
      SplitBlankWord(rest);
    }
  }

  lemma SplitBlankWord(rest: string)
    requires !AllSpace(rest)
    ensures Split(" " + rest) == Split(rest)
  {
    var p, w, r := SplitStep(rest);
    AllSpaceCons(' ', p);
    PrependAssoc(" ", p, w, r);
    SplitCons(" " + p, w, r);
  }

  lemma PrependAssoc<T>(x: seq<T>, a: seq<T>, b: seq<T>, c: seq<T>)
    ensures x + (a + b + c) == (x + a) + b + c
  {
  }

  /** Whitespace followed by whitespace only is whitespace only. */
  lemma AllSpaceCons(c: char, p: string)
    requires IsSpace(c)
    ensures AllSpace([c] + p) <==> AllSpace(p)
  {
    assert forall k :: 0 <= k < |p| ==> ([c] + p)[k + 1] == p[k];
  }

  // ---------------------------------------------------------------------------
  // Word count: an independent reference for len(s.split())
  // ---------------------------------------------------------------------------

  /**
   * The number of positions of `s` that start a word: a non-whitespace character
   * that is first or follows whitespace. `afterSpace` says whether the character
   * before `s` was whitespace (or `s` is at the start).
   */
  function WordStarts(s: string, afterSpace: bool): nat {
    if s == [] then 0
    else (if afterSpace && !IsSpace(s[0]) then 1 else 0) + WordStarts(s[1..], IsSpace(s[0]))
  }

  /** The number of words in `s`. */
  function WordCount(s: string): nat {
    WordStarts(s, true)
  }

  lemma {:induction false} WordStartsSkipSpace(p: string, rest: string)
    requires AllSpace(p)
    ensures WordStarts(p + rest, true) == WordStarts(rest, true)
  {
    if p != [] {
      assert (p + rest)[0] == p[0];
      assert (p + rest)[1..] == p[1..] + rest;
      WordStartsSkipSpace(p[1..], rest);
    } else {
      assert p + rest == rest;
    }
  }

  lemma {:induction false} WordStartsInsideWord(w: string, rest: string)
    requires NoSpace(w)
    ensures WordStarts(w + rest, false) == WordStarts(rest, false)
  {
    if w != [] {
      var s := w + rest;
      assert s[0] == w[0] && !IsSpace(s[0]);
      assert s[1..] == w[1..] + rest;
      assert WordStarts(s, false) == WordStarts(s[1..], false);
      WordStartsInsideWord(w[1..], rest);
    } else {
      assert w + rest == rest;
    }
  }

  /** A word followed by whitespace (or nothing) adds exactly one word start. */
  lemma WordStartsOneWord(w: string, rest: string)
    requires IsWord(w)
    requires rest == [] || IsSpace(rest[0])
    ensures WordStarts(w + rest, true) == 1 + WordStarts(rest, true)
  {
    var s := w + rest;
    assert s[0] == w[0] && s[1..] == w[1..] + rest;
    WordStartsInsideWord(w[1..], rest);
    if rest != [] {
      assert WordStarts(rest, false) == WordStarts(rest[1..], true);
    }
  }

  /** `len(s.split())` is the number of word starts of `s`. */
  lemma {:induction false} SplitCountsWords(s: string)
    ensures |Split(s)| == WordCount(s)
    decreases |s|
  {
    if AllSpace(s) {
      LeadingSpacesOf(s, []);
      assert s + [] == s;
      WordStartsSkipSpace(s, []);
    } else {
      var p, w, rest := SplitStep(s);
      Assoc(p, w, rest);
      WordStartsSkipSpace(p, w + rest);
      WordStartsOneWord(w, rest);
      SplitCountsWords(rest);
    }
  }

  /** Two strings with whitespace at the same positions have the same word starts. */
  lemma {:induction false} WordStartsSamePattern(s: string, t: string, afterSpace: bool)
    requires |s| == |t|
    requires forall i :: 0 <= i < |s| ==> (IsSpace(s[i]) <==> IsSpace(t[i]))
    ensures WordStarts(s, afterSpace) == WordStarts(t, afterSpace)
    decreases |s|
  {
    if s != [] {
      assert forall i :: 0 <= i < |s| - 1 ==> s[1..][i] == s[i + 1] && t[1..][i] == t[i + 1];
      WordStartsSamePattern(s[1..], t[1..], IsSpace(s[0]));
    }
  }

  /** `len(s.lower().split()) == len(s.split())`: lower-casing never moves word boundaries. */
  lemma SplitIgnoresCase(s: string)
    ensures |Split(Lower(s))| == |Split(s)|
  {
    LowerKeepsSpace(s);
    WordStartsSamePattern(Lower(s), s, true);
    SplitCountsWords(s);
    SplitCountsWords(Lower(s));
  }

  // ---------------------------------------------------------------------------
  // str(int) and int(str), decimal
  // ---------------------------------------------------------------------------

  predicate IsDigit(c: char) {
    '0' <= c <= '9'
  }

  predicate AllDigits(s: string) {
    forall i :: 0 <= i < |s| ==> IsDigit(s[i])
  }

  function DigitChar(d: nat): (c: char)
    requires d < 10
    ensures IsDigit(c)
  {
    ('0' as int + d) as char
  }

  /** `str(n)` for a non-negative integer: decimal, no leading zero. */
  function NatToString(n: nat): (s: string)
    ensures s != [] && AllDigits(s)
    ensures |s| > 1 ==> s[0] != '0'
  {
    if n < 10 then [DigitChar(n)] else NatToString(n / 10) + [DigitChar(n % 10)]
  }

  /** `str(n)`. */
  function IntToString(n: int): (r: string)
    ensures n >= 0 ==> AllDigits(r) && r != []
    ensures n < 0 ==> |r| > 1 && r[0] == '-' && AllDigits(r[1..])
  {
    if n < 0 then "-" + NatToString(-n) else NatToString(n)
  }

  /** The value of a string of decimal digits. */
  function DigitsValue(s: string): nat
    requires AllDigits(s)
  {
    if s == [] then 0 else DigitsValue(s[..|s| - 1]) * 10 + (s[|s| - 1] as int - '0' as int)
  }

  /** A string of digits with single underscores between digits, as `int()` accepts. */
  predicate DigitGroups(s: string) {
    && s != []
    && IsDigit(s[0]) && IsDigit(s[|s| - 1])
    && (forall i :: 0 <= i < |s| ==> IsDigit(s[i]) || s[i] == '_')
    && (forall i :: 0 <= i < |s| - 1 ==> s[i] == '_' ==> s[i + 1] != '_')
  }

  function RemoveUnderscores(s: string): (r: string)
    ensures (forall i :: 0 <= i < |s| ==> IsDigit(s[i]) || s[i] == '_') ==> AllDigits(r)
  {
    if s == [] then []
    else (if s[0] == '_' then [] else [s[0]]) + RemoveUnderscores(s[1..])
  }

  function ParseDigitGroups(s: string): Option<int> {
    if DigitGroups(s) then Some(DigitsValue(RemoveUnderscores(s))) else None
  }

  /**
   * The whitespace `int()` skips around a number. CPython first turns every non-ASCII
   * `isspace` character into a blank, then skips only the ASCII blank and `\t\n\v\f\r`;
   * the separators U+001C..U+001F, whitespace to `isspace`, are not skipped.
   */
  predicate IsIntSpace(c: char) {
    IsSpace(c) && !('\U{1c}' <= c <= '\U{1f}')
  }

  function IntLeading(s: string): (n: nat)
    ensures n <= |s|
  {
    if s != [] && IsIntSpace(s[0]) then 1 + IntLeading(s[1..]) else 0
  }

  function IntTrailing(s: string): (n: nat)
    ensures n <= |s|
  {
    if s != [] && IsIntSpace(s[|s| - 1]) then 1 + IntTrailing(s[..|s| - 1]) else 0
  }

  /** What `int()` reads of `s`: `s` without the whitespace it skips at either end. */
  function IntTrim(s: string): (t: string)
    ensures IntLeading(s) + |t| <= |s| && t == s[IntLeading(s)..IntLeading(s) + |t|]
  {
    var a := IntLeading(s);
    var u := s[a..];
    u[..|u| - IntTrailing(u)]
  }

  /**
   * `int(s)` in base 10: surrounding whitespace is ignored, one optional sign, then
   * digit groups. `None` stands for the `ValueError` Python raises. A number is only
   * ever read from a string holding a digit.
   */
  function ParseInt(s: string): (r: Option<int>)
    ensures r.Some? ==> exists i :: 0 <= i < |s| && IsDigit(s[i])
  {
    var a := IntLeading(s);
    var t := IntTrim(s);
    if t == [] then None
    else if t[0] == '-' || t[0] == '+' then
      match ParseDigitGroups(t[1..])
      case Some(v) =>
        assert t[1..][0] == s[a + 1];
        if t[0] == '-' then Some(-v) else Some(v)
      case None => None
    else
      match ParseDigitGroups(t)
      case Some(v) =>
        assert t[0] == s[a];
        Some(v)
      case None => None
  }

  lemma {:induction false} NatToStringValue(n: nat)
    ensures DigitsValue(NatToString(n)) == n
  {
    if n >= 10 {
      NatToStringValue(n / 10);
      var s := NatToString(n);
      assert s[..|s| - 1] == NatToString(n / 10);
    }
  }

  lemma {:induction false} RemoveUnderscoresOfDigits(s: string)
    requires AllDigits(s)
    ensures RemoveUnderscores(s) == s
  {
    if s != [] {
      RemoveUnderscoresOfDigits(s[1..]);
    }
  }

  lemma ParseDigitsPrinted(m: nat)
    ensures ParseDigitGroups(NatToString(m)) == Some(m)
  {
    var digits := NatToString(m);
    RemoveUnderscoresOfDigits(digits);
    NatToStringValue(m);
    assert DigitGroups(digits);
  }

  lemma TrimPrinted(n: int)
    ensures IntTrim(IntToString(n)) == IntToString(n)
  {
    var s := IntToString(n);
    assert !IsIntSpace(s[0]) && !IsIntSpace(s[|s| - 1]);
    assert s[0..] == s;
  }

  /** `int(str(n)) == n`: parsing undoes printing. */
  lemma ParsePrinted(n: int)
    ensures ParseInt(IntToString(n)) == Some(n)
  {
    var m: nat := if n < 0 then -n else n;
    var s := IntToString(n);
    TrimPrinted(n);
    ParseDigitsPrinted(m);
    if n < 0 {
      assert s[0] == '-' && s[1..] == NatToString(m);
    } else {
      assert s == NatToString(m) && s[0] != '-' && s[0] != '+';
    }
  }

  /**
   * `int()` skips a no-break space and a line feed around a number, but a file
   * separator (U+001C) in front of it is an error, although `isspace` accepts it.
   */
  lemma SeparatorIsNotSkipped()
    ensures ParseInt("\U{1c}5") == None
    ensures ParseInt("\U{a0}5\n") == Some(5)
  {
    assert IntTrim("\U{1c}5") == "\U{1c}5";
    var t := IntTrim("\U{a0}5\n");
    assert IntLeading("\U{a0}5\n") == 1;
    assert IntTrailing("5\n") == 1;
    assert t == "5";
    assert ParseDigitGroups("5") == Some(5);
  }
}
