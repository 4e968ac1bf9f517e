// Value-based redaction of known secrets (cli/secret_leak.py): the rewriting of a whole
// text, and the candidate list it searches for.
module SecretLeak {
  import opened Sequences
  import opened Text

  const REDACTED := "***REDACTED***"
  const MIN_SECRET_LENGTH := 8

  /** One string to search for, with the environment name it is reported under. */
  datatype Candidate = Candidate(name: string, value: string)

  // ---------------------------------------------------------------------------
  // Hypotheses on the candidate list, each of which a caller can check up front
  // ---------------------------------------------------------------------------

  ghost predicate NonEmpty(cands: seq<Candidate>) {
    forall c :: c in cands ==> c.value != ""
  }

  ghost predicate SingleLine(cands: seq<Candidate>) {
    forall c :: c in cands ==> '\n' !in c.value
  }

  /** Neither string's tail is the other's head, and neither lies in the other. */
  ghost predicate Apart(v: string, m: string) {
    !Overlaps(m, v) && !Overlaps(v, m) && !Contains(v, m) && !Contains(m, v)
  }

  /** Every candidate keeps clear of the redaction marker. */
  ghost predicate MarkerApart(cands: seq<Candidate>) {
    forall c :: c in cands ==> Apart(c.value, REDACTED)
  }

  /** No candidate's tail is the head of a candidate (itself included). */
  ghost predicate NoOverlap(cands: seq<Candidate>) {
    forall c, d :: c in cands && d in cands ==> !Overlaps(c.value, d.value)
  }

  /** No candidate lies inside a different one. */
  ghost predicate NoContainment(cands: seq<Candidate>) {
    forall c, d :: c in cands && d in cands && c.value != d.value ==> !Contains(c.value, d.value)
  }

  ghost predicate LongestFirst(cands: seq<Candidate>) {
    forall i, j :: 0 <= i < j < |cands| ==> |cands[i].value| >= |cands[j].value|
  }

  // ---------------------------------------------------------------------------
  // One-shot redaction
  // ---------------------------------------------------------------------------

  function Redact(t: string, cands: seq<Candidate>): string
    requires NonEmpty(cands)
    decreases |cands|
  {
    if cands == [] then t
    else Redact(ReplaceAll(t, cands[0].value, REDACTED), cands[1..])
  }

  function Hits(t: string, cands: seq<Candidate>): set<string>
    requires NonEmpty(cands)
    decreases |cands|
  {
    if cands == [] then {}
    else (if Contains(t, cands[0].value) then {cands[0].name} else {})
         + Hits(ReplaceAll(t, cands[0].value, REDACTED), cands[1..])
  }

  method RedactText(text: string, cands: seq<Candidate>) returns (redacted: string, hit: set<string>)
    requires NonEmpty(cands)
    ensures redacted == Redact(text, cands)
    ensures hit == Hits(text, cands)
  {
    redacted, hit := text, {};
    for i := 0 to |cands|
      invariant Redact(redacted, cands[i..]) == Redact(text, cands)
      invariant hit + Hits(redacted, cands[i..]) == Hits(text, cands)
    {
      assert cands[i..][0] == cands[i] && cands[i..][1..] == cands[i + 1..];
      var c := cands[i];
      if Contains(redacted, c.value) {
        hit := hit + {c.name};
        redacted := ReplaceAll(redacted, c.value, REDACTED);
      } else {
        ReplaceAbsent(redacted, c.value, REDACTED);
      }
    }
  }

  // ---------------------------------------------------------------------------
  // What replacing one value by a marker `m` does to the occurrences of others
  // ---------------------------------------------------------------------------

  /** Text that begins with `z`, up to its first marker, or is all of `z`. */
  ghost predicate MarkerAfter(t: string, r: string, z: string, m: string) {
    z <= t && z <= r && (r == t == z || OccursAt(r, m, |z|))
  }

  /** Up to its first marker a rewritten text is the original text. */
  lemma {:induction false} FirstMarker(t: string, v: string, m: string) returns (z: string)
    requires v != ""
    ensures MarkerAfter(t, ReplaceAll(t, v, m), z, m)
  {
    if t == "" {
      z := "";
    } else if StartsWith(t, v) {
      z := "";
      assert OccursAt(m + ReplaceAll(t[|v|..], v, m), m, 0);
    } else {
      z := FirstMarker(t[1..], v, m);
      MarkerFurtherOn(t[..1], ReplaceAll(t[1..], v, m), t[1..], z, m);
      z := t[..1] + z;
      assert t[..1] + t[1..] == t && ReplaceAll(t, v, m) == t[..1] + ReplaceAll(t[1..], v, m);
    }
  }

  lemma MarkerFurtherOn(head: string, r: string, t: string, z: string, m: string)
    requires MarkerAfter(t, r, z, m)
    ensures MarkerAfter(head + t, head + r, head + z, m)
  {
    OccursInTail(head, r, m, |z|);
  }

  /** Text that ends in `y`, behind its last marker, or is all of `y`. */
  ghost predicate MarkerBefore(t: string, r: string, y: string, j: int, m: string) {
    && EndsWith(t, y) && EndsWith(r, y)
    && (r == t == y || (0 <= j && OccursAt(r, m, j) && j + |m| + |y| == |r|))
  }

  lemma MarkerBehindHead(front: string, head: string, t: string, r: string, y: string, j: int, m: string)
    returns (y': string, j': int)
    requires MarkerBefore(t, r, y, j, m) && (head == front || head == m)
    ensures MarkerBefore(front + t, head + r, y', j', m)
  {
    SuffixOfConcat(front, t, y);
    SuffixOfConcat(head, r, y);
    if !(r == t == y) {
      OccursInTail(head, r, m, j);
      y', j' := y, j + |head|;
    } else if head == front {
      y', j' := front + t, j;
    } else {
      y', j' := y, 0;
      assert OccursAt(head + r, m, 0);
    }
  }

  /** After its last marker a rewritten text is the original text. */
  lemma {:induction false} LastMarker(t: string, v: string, m: string) returns (y: string, j: int)
    requires v != ""
    ensures MarkerBefore(t, ReplaceAll(t, v, m), y, j, m)
  {
    if t == "" {
      y, j := "", -1;
    } else {
      var head, k := if StartsWith(t, v) then m else t[..1], if StartsWith(t, v) then |v| else 1;
      assert ReplaceAll(t, v, m) == head + ReplaceAll(t[k..], v, m) && t == t[..k] + t[k..];
      y, j := LastMarker(t[k..], v, m);
      y, j := MarkerBehindHead(t[..k], head, t[k..], ReplaceAll(t[k..], v, m), y, j, m);
    }
  }

  /** No occurrence of `w` in `t` touches a marker standing at index `j`. */
  lemma ClearOfMarker(t: string, w: string, i: nat, m: string, j: nat)
    requires w != "" && OccursAt(t, w, i) && OccursAt(t, m, j)
    ensures Apart(w, m) ==> i + |w| <= j || j + |m| <= i
  {
    if i < j + |m| && j < i + |w| {
      if i <= j && j + |m| <= i + |w| {
        OccursPart(t, w, i, j - i, j - i + |m|);
        assert OccursAt(w, m, j - i);
      } else if j <= i && i + |w| <= j + |m| {
        OccursPart(t, m, j, i - j, i - j + |w|);
        assert OccursAt(m, w, i - j);
      } else if i < j {
        OccursPart(t, w, i, j - i, |w|);
        OccursPart(t, m, j, 0, i + |w| - j);
        assert OverlapsAt(w, m, j - i);
      } else {
        OccursPart(t, m, j, i - j, |m|);
        OccursPart(t, w, i, 0, j + |m| - i);
        assert OverlapsAt(m, w, i - j);
      }
    }
  }

  lemma {:induction false} ReplaceSplit(a: string, b: string, v: string, m: string)
    requires v != "" && !Straddles(a, b, v)
    ensures ReplaceAll(a + b, v, m) == ReplaceAll(a, v, m) + ReplaceAll(b, v, m)
  {
    var t := a + b;
    if a == "" {
      assert t == b;
    } else if StartsWith(t, v) {
      assert OccursAt(t, v, 0);
      assert t[|v|..] == a[|v|..] + b;
      StraddleWidens(a, b, v, |v|);
      ReplaceSplit(a[|v|..], b, v, m);
    } else {
      assert t[1..] == a[1..] + b;
      StraddleWidens(a, b, v, 1);
      ReplaceSplit(a[1..], b, v, m);
    }
  }

  lemma StraddleWidens(a: string, b: string, v: string, k: nat)
    requires k <= |a|
    ensures Straddles(a[k..], b, v) ==> Straddles(a, b, v)
  {
    if i: nat :| i < |a[k..]| < i + |v| && OccursAt(a[k..] + b, v, i) {
      assert a[..k] + (a[k..] + b) == a + b;
      OccursInTail(a[..k], a[k..] + b, v, i);
    }
  }

  lemma ContainsSplit(a: string, b: string, v: string)
    requires v != "" && !Straddles(a, b, v)
    ensures Contains(a + b, v) <==> Contains(a, v) || Contains(b, v)
  {
    if i: nat :| i <= |a| && OccursAt(a, v, i) {
      OccursInHead(a, b, v, i);
    }
    if i: nat :| i <= |b| && OccursAt(b, v, i) {
      OccursInTail(a, b, v, i);
    }
    if i: nat :| i <= |a + b| && OccursAt(a + b, v, i) {
      if i + |v| <= |a| {
        OccursInHead(a, b, v, i);
      } else if i >= |a| {
        OccursInTail(a, b, v, i - |a|);
      }
    }
  }

  /** Rewriting both sides of a cut cannot make another value straddle it. */
  lemma {:induction false} NoNewStraddle(a: string, b: string, v: string, w: string, m: string)
    requires v != "" && w != "" && m != "" && Apart(w, m)
    ensures Straddles(ReplaceAll(a, v, m), ReplaceAll(b, v, m), w) ==> Straddles(a, b, w)
  {
    var a', b' := ReplaceAll(a, v, m), ReplaceAll(b, v, m);
    if i: nat :| i < |a'| < i + |w| && OccursAt(a' + b', w, i) {
      var y, z := UntouchedAround(a, b, v, m, w, i);
      SameMiddle(a, b, a', b', y, z, w, i);
    }
  }

  /** An occurrence within a middle part common to two texts is one in both. */
  lemma SameMiddle(a: string, b: string, a': string, b': string, y: string, z: string, w: string, i: nat)
    requires EndsWith(a, y) && EndsWith(a', y) && z <= b && z <= b'
    requires |a'| - |y| <= i < |a'| < i + |w| <= |a'| + |z| && OccursAt(a' + b', w, i)
    ensures Straddles(a, b, w)
  {
    var x, x' := a[..|a| - |y|], a'[..|a'| - |y|];
    assert a' + b' == x' + (y + z) + b'[|z|..] by { assert a' == x' + y && b' == z + b'[|z|..]; }
    assert a + b == x + (y + z) + b[|z|..] by { assert a == x + y && b == z + b[|z|..]; }
    OccurrenceMoves(x', x, y + z, b'[|z|..], b[|z|..], w, i);
  }

  /** An occurrence across the cut stays within text the rewriting left alone. */
  lemma UntouchedAround(a: string, b: string, v: string, m: string, w: string, i: nat) returns (y: string, z: string)
    requires v != "" && w != "" && m != "" && Apart(w, m)
    requires i < |ReplaceAll(a, v, m)| < i + |w|
    requires OccursAt(ReplaceAll(a, v, m) + ReplaceAll(b, v, m), w, i)
    ensures EndsWith(a, y) && EndsWith(ReplaceAll(a, v, m), y) && |ReplaceAll(a, v, m)| - |y| <= i
    ensures z <= b && z <= ReplaceAll(b, v, m) && i + |w| <= |ReplaceAll(a, v, m)| + |z|
  {
    var a', b' := ReplaceAll(a, v, m), ReplaceAll(b, v, m);
    var j;
    y, j := LastMarker(a, v, m);
    z := FirstMarker(b, v, m);
    if !(a' == a == y) { ClearOfEarlier(a', b', m, j, w, i); }
    if !(b' == b == z) { ClearOfLater(a', b', m, |z|, w, i); }
  }

  lemma ClearOfEarlier(a: string, b: string, m: string, j: nat, w: string, i: nat)
    requires w != "" && m != "" && Apart(w, m) && OccursAt(a, m, j) && OccursAt(a + b, w, i) && i < |a| < i + |w|
    ensures j + |m| <= i
  {
    OccursInHead(a, b, m, j);
    ClearOfMarker(a + b, w, i, m, j);
  }

  lemma ClearOfLater(a: string, b: string, m: string, j: nat, w: string, i: nat)
    requires w != "" && m != "" && Apart(w, m) && OccursAt(b, m, j) && OccursAt(a + b, w, i) && i < |a| < i + |w|
    ensures i + |w| <= |a| + j
  {
    OccursInTail(a, b, m, j);
    ClearOfMarker(a + b, w, i, m, |a| + j);
  }

  ghost predicate SafeCut(a: string, b: string, cands: seq<Candidate>) {
    forall c :: c in cands ==> !Straddles(a, b, c.value)
  }

  /** Redaction distributes over a cut that no candidate straddles. */
  lemma {:induction false} RedactSplit(a: string, b: string, cands: seq<Candidate>)
    requires NonEmpty(cands) && MarkerApart(cands) && SafeCut(a, b, cands)
    ensures Redact(a + b, cands) == Redact(a, cands) + Redact(b, cands)
    ensures Hits(a + b, cands) == Hits(a, cands) + Hits(b, cands)
    decreases |cands|
  {
    if cands == [] {
    } else {
      var v := cands[0].value;
      ReplaceSplit(a, b, v, REDACTED);
      ContainsSplit(a, b, v);
      forall c | c in cands[1..]
        ensures !Straddles(ReplaceAll(a, v, REDACTED), ReplaceAll(b, v, REDACTED), c.value)
      {
        NoNewStraddle(a, b, v, c.value, REDACTED);
      }
      RedactSplit(ReplaceAll(a, v, REDACTED), ReplaceAll(b, v, REDACTED), cands[1..]);
    }
  }

  // ---------------------------------------------------------------------------
  // Nothing leaks through one-shot redaction
  // ---------------------------------------------------------------------------

  lemma {:induction false} ReplaceClears(t: string, v: string, w: string, m: string)
    requires v != "" && w != "" && m != "" && Apart(w, m)
    ensures Contains(ReplaceAll(t, v, m), w) ==> v != w && Contains(t, w)
  {
    if t == "" {
    } else {
      var head, k := if StartsWith(t, v) then m else t[..1], if StartsWith(t, v) then |v| else 1;
      var r, r' := ReplaceAll(t, v, m), ReplaceAll(t[k..], v, m);
      assert r == head + r' && t == t[..k] + t[k..];
      if i: nat :| i <= |r| && OccursAt(r, w, i) {
        if StartsWith(t, v) {
          assert OccursAt(r, m, 0);
          ClearOfMarker(r, w, i, m, 0);
        }
        if i >= |head| {
          OccursInTail(head, r', w, i - |head|);
          ReplaceClears(t[k..], v, w, m);
          ContainedBehind(t[..k], t[k..], w);
        } else {
          FrontUntouched(t, v, w, m);
        }
      }
    }
  }

  lemma ContainedBehind(a: string, b: string, w: string)
    requires Contains(b, w)
    ensures Contains(a + b, w)
  {
    var i: nat :| i <= |b| && OccursAt(b, w, i);
    OccursInTail(a, b, w, i);
  }

  /** What a rewritten text starts with, it started with before. */
  lemma {:induction false} FrontUntouched(t: string, v: string, w: string, m: string)
    requires v != "" && w != "" && m != "" && Apart(w, m) && t != "" && !StartsWith(t, v)
    ensures OccursAt(ReplaceAll(t, v, m), w, 0) ==> v != w && Contains(t, w)
  {
    var r := ReplaceAll(t, v, m);
    if OccursAt(r, w, 0) {
      var z := FirstMarker(t, v, m);
      if !(r == t == z) {
        ClearOfMarker(r, w, 0, m, |z|);
        assert r == z + r[|z|..] && t == z + t[|z|..];
        OccursInHead(z, r[|z|..], w, 0);
        OccursInHead(z, t[|z|..], w, 0);
      }
      assert OccursAt(t, w, 0);
    }
  }

  lemma {:induction false} RedactKeepsAbsent(t: string, cands: seq<Candidate>, w: string)
    requires NonEmpty(cands) && w != "" && Apart(w, REDACTED) && !Contains(t, w)
    ensures !Contains(Redact(t, cands), w)
    decreases |cands|
  {
    if cands == [] {
    } else {
      ReplaceClears(t, cands[0].value, w, REDACTED);
      RedactKeepsAbsent(ReplaceAll(t, cands[0].value, REDACTED), cands[1..], w);
    }
  }

  /** No candidate that keeps clear of the marker survives in the redacted text. */
  lemma {:induction false} RedactedTextHoldsNoCandidate(t: string, cands: seq<Candidate>, k: nat)
    requires NonEmpty(cands) && k < |cands| && Apart(cands[k].value, REDACTED)
    ensures !Contains(Redact(t, cands), cands[k].value)
    decreases |cands|
  {
    var t' := ReplaceAll(t, cands[0].value, REDACTED);
    if k == 0 {
      ReplaceClears(t, cands[0].value, cands[0].value, REDACTED);
      RedactKeepsAbsent(t', cands[1..], cands[0].value);
    } else {
      RedactedTextHoldsNoCandidate(t', cands[1..], k - 1);
    }
  }

  // ---------------------------------------------------------------------------
  // Which names are reported
  // ---------------------------------------------------------------------------

  /** A name is reported exactly when, at its turn, one of its values is still in the text. */
  lemma {:induction false} HitsIff(t: string, cands: seq<Candidate>, name: string)
    requires NonEmpty(cands)
    ensures name in Hits(t, cands) <==>
            exists k :: 0 <= k < |cands| && cands[k].name == name && Contains(Redact(t, cands[..k]), cands[k].value)
    decreases |cands|
  {
    if cands == [] {
    } else {
      var t', rest := ReplaceAll(t, cands[0].value, REDACTED), cands[1..];
      HitsIff(t', rest, name);
      assert Redact(t, cands[..0]) == t;
      forall k | 0 < k < |cands| ensures Redact(t, cands[..k]) == Redact(t', rest[..k - 1]) {
        assert cands[..k][1..] == rest[..k - 1];
      }
      if k :| 0 <= k < |rest| && rest[k].name == name && Contains(Redact(t', rest[..k]), rest[k].value) {
        assert cands[k + 1] == rest[k];
      }
      if k :| 0 < k < |cands| && cands[k].name == name && Contains(Redact(t, cands[..k]), cands[k].value) {
        assert cands[k] == rest[k - 1];
      }
    }
  }

  lemma CutOfApart(a: string, b: string, v: string, w: string, i: nat)
    requires v != "" && w != "" && Apart(w, v) && OccursAt(a + b, w, i) && (i == |a| || i + |w| == |a|)
    ensures !Straddles(a, b, v)
  {
    if j: nat :| j < |a| < j + |v| && OccursAt(a + b, v, j) {
      ClearOfMarker(a + b, w, i, v, j);
    }
  }

  /** Replacing a value leaves every other one where it was, if neither overlaps or holds the other. */
  lemma {:induction false} ReplaceKeeps(t: string, v: string, w: string, m: string)
    requires v != "" && w != "" && Apart(w, v) && Contains(t, w)
    ensures Contains(ReplaceAll(t, v, m), w)
  {
    var i: nat :| i <= |t| && OccursAt(t, w, i);
    var a, b := t[..i], t[i + |w|..];
    assert t == a + (w + b) && t == (a + w) + b;
    CutOfApart(a, w + b, v, w, i);
    CutOfApart(a + w, b, v, w, i);
    assert !Straddles(a, w, v) by {
      forall j: nat | j < |a| < j + |v| ensures !OccursAt(a + w, v, j) {
        if j + |v| <= |a + w| {
          OccursInHead(a + w, b, v, j);
          assert !OccursAt(a + (w + b), v, j);
        }
      }
    }
    ReplaceSplit(a + w, b, v, m);
    ReplaceSplit(a, w, v, m);
    ReplaceAbsent(w, v, m);
    var a', b' := ReplaceAll(a, v, m), ReplaceAll(b, v, m);
    OccursInTail(a', w, w, 0);
    OccursInHead(a' + w, b', w, |a'|);
    assert OccursAt(a' + w + b', w, |a'|);
  }

  /** No earlier candidate has this one's value. */
  predicate FirstOfItsValue(cands: seq<Candidate>, k: nat)
    requires k < |cands|
  {
    forall j :: 0 <= j < k ==> cands[j].value != cands[k].value
  }

  lemma {:induction false} StillThereIff(t: string, cands: seq<Candidate>, w: string)
    requires NonEmpty(cands) && w != "" && Apart(w, REDACTED)
    requires forall c :: c in cands && c.value != w ==> Apart(w, c.value)
    ensures Contains(Redact(t, cands), w) <==> Contains(t, w) && forall c :: c in cands ==> c.value != w
    decreases |cands|
  {
    if cands == [] {
    } else {
      var v := cands[0].value;
      StillThereIff(ReplaceAll(t, v, REDACTED), cands[1..], w);
      ReplaceClears(t, v, w, REDACTED);
      if Contains(t, w) && v != w { ReplaceKeeps(t, v, w, REDACTED); }
      assert forall c :: c in cands <==> c == cands[0] || c in cands[1..];
    }
  }

  /** Where no value overlaps or holds another, the names reported are those of the values in the text. */
  lemma {:induction false} HitsAreOccurrences(t: string, cands: seq<Candidate>, name: string)
    requires NonEmpty(cands) && MarkerApart(cands) && NoOverlap(cands) && NoContainment(cands)
    ensures name in Hits(t, cands) <==>
            exists k :: 0 <= k < |cands| && cands[k].name == name && FirstOfItsValue(cands, k) &&
                        Contains(t, cands[k].value)
  {
    HitsIff(t, cands, name);
    forall k | 0 <= k < |cands|
      ensures Contains(Redact(t, cands[..k]), cands[k].value) <==>
              Contains(t, cands[k].value) && FirstOfItsValue(cands, k)
    {
      assert forall c :: c in cands[..k] ==> c in cands;
      StillThereIff(t, cands[..k], cands[k].value);
      assert forall j :: 0 <= j < k ==> cands[..k][j] == cands[j] && cands[j] in cands[..k];
    }
  }

  /** Of two names with the same value only the first is ever reported. */
  lemma {:induction false} SecondNameUnreported(t: string, v: string, x: string, y: string)
    requires v != "" && Apart(v, REDACTED) && x != y
    ensures y !in Hits(t, [Candidate(x, v), Candidate(y, v)])
    ensures Contains(t, v) ==> x in Hits(t, [Candidate(x, v), Candidate(y, v)])
  {
    var cands := [Candidate(x, v), Candidate(y, v)];
    ReplaceClears(t, v, v, REDACTED);
    assert cands[1..] == [Candidate(y, v)] && cands[1..][1..] == [];
    var once := ReplaceAll(t, v, REDACTED);
    assert Hits(once, cands[1..]) == {} + Hits(ReplaceAll(once, v, REDACTED), []);
  }

  // ---------------------------------------------------------------------------
  // Reference definition: one left-to-right pass, longest match first
  // ---------------------------------------------------------------------------

  /** The longest candidate `t` begins with, or "" when there is none. */
  function LongestPrefix(t: string, cands: seq<Candidate>): (v: string)
    ensures v <= t
    ensures v == "" || exists c :: c in cands && c.value == v
    ensures forall c :: c in cands && c.value <= t ==> |c.value| <= |v|
  {
    if cands == [] then ""
    else
      var v := LongestPrefix(t, cands[1..]);
      if cands[0].value <= t && |cands[0].value| > |v| then cands[0].value else v
  }

  function Masked(t: string, cands: seq<Candidate>): string {
    if t == "" then ""
    else
      var v := LongestPrefix(t, cands);
      if v == "" then [t[0]] + Masked(t[1..], cands) else REDACTED + Masked(t[|v|..], cands)
  }

  lemma {:induction false} RedactUntouched(t: string, cands: seq<Candidate>)
    requires NonEmpty(cands) && forall c :: c in cands ==> !Contains(t, c.value)
    ensures Redact(t, cands) == t && Hits(t, cands) == {}
  {
    if cands == [] {
    } else {
      ReplaceAbsent(t, cands[0].value, REDACTED);
      RedactUntouched(t, cands[1..]);
    }
  }

  lemma OnlyItself(w: string, v: string)
    requires |v| >= |w|
    ensures Contains(w, v) ==> v == w
  {
  }

  lemma {:induction false} RedactOneValue(w: string, cands: seq<Candidate>)
    requires NonEmpty(cands) && MarkerApart(cands) && LongestFirst(cands)
    requires exists c :: c in cands && c.value == w
    ensures Redact(w, cands) == "***REDACTED***"
  {
    var v := cands[0].value;
    if v == w {
      assert ReplaceAll(w, w, REDACTED) == REDACTED + ReplaceAll(w[|w|..], w, REDACTED) == REDACTED;
      RedactUntouched(REDACTED, cands[1..]);
    } else {
      var c :| c in cands && c.value == w;
      assert c in cands[1..];
      OnlyItself(w, v);
      ReplaceAbsent(w, v, REDACTED);
      RedactOneValue(w, cands[1..]);
    }
  }

  /** The head taken by one step of the pass. */
  function Head(t: string, cands: seq<Candidate>): string
    requires t != ""
  {
    var v := LongestPrefix(t, cands);
    if v == "" then t[..1] else v
  }

  lemma LongestPrefixIsSafe(t: string, cands: seq<Candidate>)
    requires t != "" && NoOverlap(cands)
    ensures SafeCut(Head(t, cands), t[|Head(t, cands)|..], cands)
  {
    var head := Head(t, cands);
    var rest := t[|head|..];
    assert head + rest == t;
    forall c | c in cands ensures !Straddles(head, rest, c.value) {
      forall i: nat | i < |head| < i + |c.value| ensures !OccursAt(head + rest, c.value, i) {
        LongestPrefixBounds(t, cands, c, i);
      }
    }
  }

  lemma LongestPrefixBounds(t: string, cands: seq<Candidate>, c: Candidate, i: nat)
    requires t != "" && c in cands && i < |Head(t, cands)| < i + |c.value|
    ensures NoOverlap(cands) ==> !OccursAt(t, c.value, i)
  {
    var head := Head(t, cands);
    if OccursAt(t, c.value, i) && i > 0 {
      OccursPart(t, c.value, i, 0, |head| - i);
      assert head[i..] == t[i..|head|];
      assert OverlapsAt(head, c.value, i);
    }
  }

  /** Rewriting value by value, longest first, is the single longest-match pass. */
  lemma {:induction false} RedactIsMasked(t: string, cands: seq<Candidate>)
    requires NonEmpty(cands) && MarkerApart(cands) && NoOverlap(cands) && LongestFirst(cands)
    ensures Redact(t, cands) == Masked(t, cands)
  {
    if t == "" {
      forall c | c in cands ensures !Contains("", c.value) {}
      RedactUntouched("", cands);
    } else {
      var v := LongestPrefix(t, cands);
      var head := Head(t, cands);
      var rest := t[|head|..];
      assert t == head + rest;
      LongestPrefixIsSafe(t, cands);
      RedactSplit(head, rest, cands);
      RedactIsMasked(rest, cands);
      if v == "" {
        forall c | c in cands ensures !Contains(head, c.value) {
          OnlyItself(head, c.value);
        }
        RedactUntouched(head, cands);
      } else {
        RedactOneValue(v, cands);
      }
    }
  }

  // ---------------------------------------------------------------------------
  // The candidate list
  // ---------------------------------------------------------------------------

  /** Characters `str.splitlines` breaks at. */
  predicate IsLineBreak(c: char) {
    '\U{A}' <= c <= '\U{D}' || '\U{1C}' <= c <= '\U{1E}' || c == '\U{85}' || c == '\U{2028}' || c == '\U{2029}'
  }

  function SplitLines(t: string, line: string := ""): seq<string> {
    if t == "" then [line]
    else if IsLineBreak(t[0]) then [line] + SplitLines(t[1..])
    else SplitLines(t[1..], line + [t[0]])
  }

  lemma LineBreaks(c: char)
    ensures IsLineBreak(c) <==>
            c in {'\n', '\U{B}', '\U{C}', '\r', '\U{1C}', '\U{1D}', '\U{1E}', '\U{85}', '\U{2028}', '\U{2029}'}
  {
  }

  /** Lines end at the first break. */
  lemma {:induction false} FirstLine(line: string, a: string, c: char, b: string)
    requires (forall d :: d in a ==> !IsLineBreak(d)) && IsLineBreak(c)
    ensures SplitLines(a, line) == [line + a] && SplitLines(a + [c] + b, line) == [line + a] + SplitLines(b)
    decreases |a|
  {
    if a == "" {
      assert (a + [c] + b)[1..] == b && line + a == line;
    } else {
      assert a[0] in a && forall d :: d in a[1..] ==> d in a;
      FirstLine(line + [a[0]], a[1..], c, b);
      assert (a + [c] + b)[1..] == a[1..] + [c] + b;
      assert line + [a[0]] + a[1..] == line + a;
    }
  }

  /** The lines of a multi-line value long enough to be searched for on their own. */
  function LongLines(name: string, lines: seq<string>): seq<Candidate> {
    if lines == [] then []
    else
      var line := Strip(lines[0]);
      (if |line| >= MIN_SECRET_LENGTH then [Candidate(name, line)] else []) + LongLines(name, lines[1..])
  }

  function Expanded(secrets: seq<Candidate>): seq<Candidate> {
    if secrets == [] then []
    else
      var s := secrets[0];
      [s] + (if '\n' in s.value then LongLines(s.name, SplitLines(s.value)) else []) + Expanded(secrets[1..])
  }

  predicate NoShorter(c: Candidate, d: Candidate) {
    |c.value| >= |d.value|
  }

  function RedactionCandidates(secrets: seq<Candidate>): seq<Candidate> {
    SortedBy(Expanded(secrets), NoShorter)
  }

  /** Sorting loses no candidate and puts the longest first. */
  lemma {:induction false} SortedByLengthSorts(cands: seq<Candidate>)
    ensures LongestFirst(SortedBy(cands, NoShorter))
    ensures multiset(SortedBy(cands, NoShorter)) == multiset(cands)
  {
    assert IsOrder(NoShorter);
    SortedBySorts(cands, NoShorter);
    var sorted := SortedBy(cands, NoShorter);
    assert forall i, j :: 0 <= i < j < |sorted| ==> NoShorter(sorted[i], sorted[j]);
  }

  lemma {:induction false} LongLineListed(name: string, lines: seq<string>, line: string)
    requires line in lines && |Strip(line)| >= MIN_SECRET_LENGTH
    ensures Candidate(name, Strip(line)) in LongLines(name, lines)
  {
    if line != lines[0] { LongLineListed(name, lines[1..], line); }
  }

  lemma {:induction false} ExpandedCovers(secrets: seq<Candidate>, s: Candidate)
    requires s in secrets
    ensures s in Expanded(secrets)
    ensures '\n' in s.value ==> forall c :: c in LongLines(s.name, SplitLines(s.value)) ==> c in Expanded(secrets)
  {
    if s != secrets[0] { ExpandedCovers(secrets[1..], s); }
  }

  lemma {:induction false} LongLinesIff(name: string, lines: seq<string>, c: Candidate)
    ensures c in LongLines(name, lines) <==>
            c.name == name && |c.value| >= 8 && exists line :: line in lines && c.value == Strip(line)
  {
    if lines == [] {
    } else {
      LongLinesIff(name, lines[1..], c);
      assert c == Candidate(c.name, c.value) && lines[0] in lines;
      assert forall line :: line in lines <==> line == lines[0] || line in lines[1..];
    }
  }

  /** Searched for are the secrets, and of those with a newline each stripped line of at least eight characters. */
  lemma {:induction false} ExpandedIff(secrets: seq<Candidate>, c: Candidate)
    ensures c in Expanded(secrets) <==>
            exists s :: s in secrets &&
              (c == s ||
               ('\n' in s.value && c.name == s.name && |c.value| >= 8 &&
                exists line :: line in SplitLines(s.value) && c.value == Strip(line)))
  {
    if secrets == [] {
    } else {
      ExpandedIff(secrets[1..], c);
      LongLinesIff(secrets[0].name, SplitLines(secrets[0].value), c);
      assert forall s :: s in secrets <==> s == secrets[0] || s in secrets[1..];
    }
  }

  lemma {:induction false} LongLinesNonEmpty(name: string, lines: seq<string>)
    ensures NonEmpty(LongLines(name, lines))
  {
    if lines == [] {
    } else {
      LongLinesNonEmpty(name, lines[1..]);
    }
  }

  lemma {:induction false} ExpandedNonEmpty(secrets: seq<Candidate>)
    requires NonEmpty(secrets)
    ensures NonEmpty(Expanded(secrets))
  {
    if secrets == [] {
    } else {
      LongLinesNonEmpty(secrets[0].name, SplitLines(secrets[0].value));
      ExpandedNonEmpty(secrets[1..]);
    }
  }

  lemma {:induction false} CandidatesOf(secrets: seq<Candidate>)
    requires NonEmpty(secrets)
    ensures NonEmpty(RedactionCandidates(secrets)) && LongestFirst(RedactionCandidates(secrets))
    ensures forall c :: c in RedactionCandidates(secrets) <==> c in Expanded(secrets)
  {
    var e := Expanded(secrets);
    SortedByLengthSorts(e);
    ExpandedNonEmpty(secrets);
    forall c ensures c in RedactionCandidates(secrets) <==> c in e {
      assert c in multiset(RedactionCandidates(secrets)) <==> c in multiset(e);
    }
  }

  /** Neither a secret nor any long line of a multi-line one is left in the output. */
  lemma {:induction false} NoSecretSurvives(text: string, secrets: seq<Candidate>, s: Candidate)
    requires NonEmpty(secrets) && s in secrets
    ensures NonEmpty(RedactionCandidates(secrets))
    ensures Apart(s.value, REDACTED) ==> !Contains(Redact(text, RedactionCandidates(secrets)), s.value)
    ensures forall line :: '\n' in s.value && line in SplitLines(s.value) && |Strip(line)| >= 8
              && Apart(Strip(line), REDACTED)
              ==> !Contains(Redact(text, RedactionCandidates(secrets)), Strip(line))
  {
    var cands := RedactionCandidates(secrets);
    CandidatesOf(secrets);
    ExpandedCovers(secrets, s);
    forall c | c in cands && Apart(c.value, REDACTED) ensures !Contains(Redact(text, cands), c.value) {
      var k :| 0 <= k < |cands| && cands[k] == c;
      RedactedTextHoldsNoCandidate(text, cands, k);
    }
    forall line | '\n' in s.value && line in SplitLines(s.value) && |Strip(line)| >= MIN_SECRET_LENGTH
        && Apart(Strip(line), REDACTED)
      ensures !Contains(Redact(text, cands), Strip(line))
    {
      LongLineListed(s.name, SplitLines(s.value), line);
      assert Candidate(s.name, Strip(line)) in cands;
    }
  }
}
