// String vocabulary shared by the redaction, environment and interpolation models.
module Text {

  /** `v` occurs in `t` starting at index `i`. */
  predicate OccursAt(t: string, v: string, i: nat) {
    i + |v| <= |t| && t[i..i + |v|] == v
  }

  /** Python's `v in t`. */
  predicate Contains(t: string, v: string) {
    exists i: nat :: i <= |t| && OccursAt(t, v, i)
  }

  predicate StartsWith(t: string, v: string) {
    v <= t
  }

  predicate EndsWith(t: string, v: string) {
    |v| <= |t| && t[|t| - |v|..] == v
  }

  /** An occurrence of `v` in `a + b` begins inside `a` and ends inside `b`. */
  ghost predicate Straddles(a: string, b: string, v: string) {
    exists i: nat :: i < |a| < i + |v| && OccursAt(a + b, v, i)
  }

  /** A non-empty proper suffix of `u` is a proper prefix of `w`. */
  ghost predicate Overlaps(u: string, w: string) {
    exists k :: OverlapsAt(u, w, k)
  }

  predicate OverlapsAt(u: string, w: string, k: int) {
    0 < k < |u| && |u| - k < |w| && u[k..] == w[..|u| - k]
  }

  /** Python's `t.replace(v, by)` for a non-empty `v`: leftmost, non-overlapping. */
  function ReplaceAll(t: string, v: string, fill: string): string
    requires v != ""
  {
    if t == "" then ""
    else if StartsWith(t, v) then fill + ReplaceAll(t[|v|..], v, fill)
    else [t[0]] + ReplaceAll(t[1..], v, fill)
  }

  /** Characters `str.strip` removes. */
  predicate IsSpace(c: char) {
    || '\U{9}' <= c <= '\U{D}' || '\U{1C}' <= c <= '\U{20}' || c == '\U{85}' || c == '\U{A0}' || c == '\U{1680}'
    || '\U{2000}' <= c <= '\U{200A}' || c == '\U{2028}' || c == '\U{2029}' || c == '\U{202F}' || c == '\U{205F}'
    || c == '\U{3000}'
  }

  function Strip(t: string): string
    ensures |Strip(t)| <= |t|
    decreases |t|
  {
    if t == "" then ""
    else if IsSpace(t[0]) then Strip(t[1..])
    else if IsSpace(t[|t| - 1]) then Strip(t[..|t| - 1])
    else t
  }

  lemma OneAround(t: string, a: string, x: string, b: string, c: char)
    requires t == a + x + b
    ensures [c] + t == [c] + a + x + b && t + [c] == a + x + (b + [c])
  {
  }

  /** Stripping takes off whitespace at both ends, and all of it. */
  lemma {:induction false} StripTakesOff(t: string) returns (a: string, b: string)
    ensures t == a + Strip(t) + b && (forall c :: c in a || c in b ==> IsSpace(c))
    ensures Strip(t) != "" ==> !IsSpace(Strip(t)[0]) && !IsSpace(Strip(t)[|Strip(t)| - 1])
    decreases |t|
  {
    if t == "" {
      a, b := "", "";
    } else if IsSpace(t[0]) {
      a, b := StripTakesOff(t[1..]);
      OneAround(t[1..], a, Strip(t[1..]), b, t[0]);
      a := [t[0]] + a;
    } else if IsSpace(t[|t| - 1]) {
      var init, last := t[..|t| - 1], t[|t| - 1];
      a, b := StripTakesOff(init);
      OneAround(init, a, Strip(init), b, last);
      b := b + [last];
    } else {
      a, b := "", "";
    }
  }

  /** Stripping leaves nothing exactly of whitespace. */
  lemma {:induction false} StripEmptyIff(t: string)
    ensures Strip(t) == "" <==> forall c :: c in t ==> IsSpace(c)
    decreases |t|
  {
    if t == "" {
    } else if IsSpace(t[0]) {
      StripEmptyIff(t[1..]);
      assert forall c :: c in t <==> c == t[0] || c in t[1..];
    } else {
      assert t[0] in t;
      if IsSpace(t[|t| - 1]) {
        StripEmptyIff(t[..|t| - 1]);
        assert t[..|t| - 1][0] == t[0];
      }
    }
  }

  /** Where a character first occurs, the length of the text if it does not. */
  function IndexOf(t: string, c: char): (n: nat)
    ensures n <= |t| && (n < |t| ==> t[n] == c) && forall i :: 0 <= i < n ==> t[i] != c
  {
    if t == "" || t[0] == c then 0 else 1 + IndexOf(t[1..], c)
  }

  /** Python's `t.find(v, start)`. */
  function Find(t: string, v: string, start: nat): (i: int)
    ensures i == -1 || (start <= i && i + |v| <= |t|)
    decreases |t| - start
  {
    if start + |v| > |t| then -1
    else if forall j :: 0 <= j < |v| ==> t[start + j] == v[j] then start
    else Find(t, v, start + 1)
  }

  lemma {:induction false} FindOccurs(t: string, v: string, start: nat)
    ensures Find(t, v, start) != -1 ==> OccursAt(t, v, Find(t, v, start))
    decreases |t| - start
  {
    if start + |v| <= |t| {
      OccursPointwise(t, v, start);
      if !OccursAt(t, v, start) { FindOccurs(t, v, start + 1); }
    }
  }

  /** Nothing before the index found, and nothing at all when none is. */
  lemma {:induction false} FindIsFirst(t: string, v: string, start: nat, j: nat)
    requires start <= j && OccursAt(t, v, j)
    ensures start <= Find(t, v, start) <= j
    decreases |t| - start
  {
    OccursPointwise(t, v, start);
    if !OccursAt(t, v, start) { FindIsFirst(t, v, start + 1, j); }
  }

  /** What is found is the first occurrence, and `-1` stands for none. */
  lemma {:induction false} FindIs(t: string, v: string, start: nat, i: nat)
    requires start <= i && forall j: nat :: start <= j < i ==> !OccursAt(t, v, j)
    ensures OccursAt(t, v, i) ==> Find(t, v, start) == i
    ensures i > |t| ==> Find(t, v, start) == -1
  {
    FindOccurs(t, v, start);
    if OccursAt(t, v, i) { FindIsFirst(t, v, start, i); }
  }

  /** Python's `t.split(c)`. */
  function SplitOn(t: string, c: char): (parts: seq<string>)
    ensures parts != []
  {
    if t == "" then [""]
    else
      var rest := SplitOn(t[1..], c);
      if t[0] == c then [""] + rest else [[t[0]] + rest[0]] + rest[1..]
  }

  /** Splitting cuts at every separator: what stands before the first is the first part. */
  lemma {:induction false} SplitAtFirst(a: string, c: char, b: string)
    requires c !in a
    ensures SplitOn(a, c) == [a] && SplitOn(a + [c] + b, c) == [a] + SplitOn(b, c)
    decreases |a|
  {
    var t := a + [c] + b;
    if a == "" {
      assert t[1..] == b;
    } else {
      assert a[0] in a && forall d :: d in a[1..] ==> d in a;
      SplitAtFirst(a[1..], c, b);
      assert t[1..] == a[1..] + [c] + b && [a[0]] + a[1..] == a;
    }
  }

  /** Python's `a <= b`, character by character. */
  predicate AtMost(a: string, b: string) {
    a == "" || (b != "" && (a[0] < b[0] || (a[0] == b[0] && AtMost(a[1..], b[1..]))))
  }

  lemma {:induction false} AtMostTotal(a: string, b: string)
    ensures AtMost(a, b) || AtMost(b, a)
    ensures AtMost(a, b) && AtMost(b, a) ==> a == b
  {
    if a == "" || b == "" || a[0] != b[0] {
    } else {
      AtMostTotal(a[1..], b[1..]);
      assert a == [a[0]] + a[1..] && b == [b[0]] + b[1..];
    }
  }

  lemma {:induction false} AtMostTransitive(a: string, b: string, c: string)
    requires AtMost(a, b) && AtMost(b, c)
    ensures AtMost(a, c)
  {
    if a == "" || a[0] < b[0] || b[0] < c[0] {
    } else {
      AtMostTransitive(a[1..], b[1..], c[1..]);
    }
  }

  /** A character of an environment variable's name. */
  predicate IsNameChar(c: char) {
    'A' <= c <= 'Z' || '0' <= c <= '9' || c == '_'
  }

  lemma ContainsTail(t: string, v: string)
    requires t != "" && !Contains(t, v)
    ensures !Contains(t[1..], v)
  {
    forall i: nat | i <= |t[1..]| ensures !OccursAt(t[1..], v, i) {
      assert !OccursAt(t, v, i + 1);
      assert i + |v| <= |t[1..]| ==> t[1..][i..i + |v|] == t[i + 1..i + 1 + |v|];
    }
  }

  lemma {:induction false} ReplaceAbsent(t: string, v: string, fill: string)
    requires v != "" && !Contains(t, v)
    ensures ReplaceAll(t, v, fill) == t
    decreases |t|
  {
    if t == "" {
    } else {
      assert !OccursAt(t, v, 0);
      ContainsTail(t, v);
      ReplaceAbsent(t[1..], v, fill);
    }
  }

  lemma OccursPointwise(t: string, v: string, i: nat)
    requires i + |v| <= |t|
    ensures OccursAt(t, v, i) <==> forall j :: 0 <= j < |v| ==> t[i + j] == v[j]
  {
  }

  /** A part of an occurrence is the same part of the text. */
  lemma OccursPart(t: string, v: string, i: nat, lo: nat, hi: nat)
    requires OccursAt(t, v, i) && lo <= hi <= |v|
    ensures v[lo..hi] == t[i + lo..i + hi]
  {
    var s := t[i..i + |v|];
    assert forall k :: 0 <= k < |v| ==> s[k] == t[i + k];
    assert |s[lo..hi]| == |t[i + lo..i + hi]|;
  }

  lemma OccursInTail(a: string, b: string, v: string, i: nat)
    ensures OccursAt(b, v, i) <==> OccursAt(a + b, v, |a| + i)
  {
    if i + |v| <= |b| {
      assert (a + b)[|a| + i..|a| + i + |v|] == b[i..i + |v|];
    }
  }

  lemma OccursInHead(a: string, b: string, v: string, i: nat)
    requires i + |v| <= |a|
    ensures OccursAt(a, v, i) <==> OccursAt(a + b, v, i)
  {
    assert (a + b)[i..i + |v|] == a[i..i + |v|];
  }

  lemma SuffixOfConcat(a: string, b: string, y: string)
    requires EndsWith(b, y)
    ensures EndsWith(a + b, y)
  {
    assert (a + b)[|a + b| - |y|..] == b[|b| - |y|..];
  }

  /** An occurrence within `mid` is found wherever `mid` stands. */
  lemma OccurrenceMoves(x: string, y: string, mid: string, p: string, q: string, v: string, i: nat)
    requires |x| <= i && i + |v| <= |x + mid|
    requires OccursAt(x + mid + p, v, i)
    ensures OccursAt(y + mid + q, v, |y| + i - |x|)
  {
    OccursInHead(x + mid, p, v, i);
    OccursInTail(x, mid, v, i - |x|);
    OccursInTail(y, mid, v, i - |x|);
    OccursInHead(y + mid, q, v, |y| + i - |x|);
  }
}
