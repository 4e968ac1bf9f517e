// Scanning generated files for secrets (cli/secret_leak.py).
module LeakScan {
  import opened Sequences
  import opened Text
  import opened SecretLeak

  datatype Leak = Leak(name: string, line: nat)

  /** 1-based line number of index `i`. */
  function LineOf(t: string, i: nat): nat
    requires i <= |t|
  {
    if i == 0 then 1 else LineOf(t, i - 1) + if t[i - 1] == '\n' then 1 else 0
  }

  function LeakAt(text: string, c: Candidate, i: nat): Leak
    requires i <= |text|
  {
    Leak(c.name, LineOf(text, i))
  }

  /** The occurrences of one value from `start` on, left to right and not overlapping. */
  function LeaksOf(text: string, c: Candidate, start: nat): seq<Leak>
    requires c.value != ""
    decreases |text| - start
  {
    var i := Find(text, c.value, start);
    if i == -1 then [] else [LeakAt(text, c, i)] + LeaksOf(text, c, i + |c.value|)
  }

  function AllLeaks(text: string, secrets: seq<Candidate>): seq<Leak>
    requires NonEmpty(secrets)
  {
    if secrets == [] then [] else LeaksOf(text, secrets[0], 0) + AllLeaks(text, secrets[1..])
  }

  /** All but the first `n` of these leaks are what is found from `start` on. */
  ghost predicate LeftToFind(all: seq<Leak>, n: nat, text: string, c: Candidate, start: nat)
    requires c.value != ""
  {
    n <= |all| && all[n..] == LeaksOf(text, c, start)
  }

  lemma {:induction false} NextLeak(all: seq<Leak>, n: nat, text: string, c: Candidate, start: nat)
    requires c.value != "" && LeftToFind(all, n, text, c, start)
    ensures var i := Find(text, c.value, start);
            if i == -1 then n == |all|
            else n < |all| && all[n] == LeakAt(text, c, i) && LeftToFind(all, n + 1, text, c, i + |c.value|)
  {
    var i := Find(text, c.value, start);
    if i != -1 {
      assert all[n..] == [LeakAt(text, c, i)] + LeaksOf(text, c, i + |c.value|);
      assert all[n + 1..] == all[n..][1..];
    }
  }

  /** One search, from `start` on. */
  method FindNext(text: string, c: Candidate, start: nat, ghost all: seq<Leak>, ghost n: nat) returns (index: int)
    requires c.value != "" && LeftToFind(all, n, text, c, start)
    ensures index == -1 ==> n == |all|
    ensures index != -1 ==> start <= index <= |text| - |c.value|
    ensures index != -1 ==>
              n < |all| && all[n] == LeakAt(text, c, index) && LeftToFind(all, n + 1, text, c, index + |c.value|)
  {
    index := Find(text, c.value, start);
    NextLeak(all, n, text, c, start);
  }

  method FindOccurrences(text: string, c: Candidate) returns (leaks: seq<Leak>)
    requires c.value != ""
    ensures leaks == LeaksOf(text, c, 0)
  {
    leaks := [];
    ghost var all, n := LeaksOf(text, c, 0), 0;
    var start := 0;
    var index := FindNext(text, c, start, all, n);
    while index != -1
      invariant n <= |all| && leaks == all[..n]
      invariant if index == -1 then n == |all|
                else && start <= index <= |text| - |c.value| && n < |all| && all[n] == LeakAt(text, c, index)
                     && LeftToFind(all, n + 1, text, c, index + |c.value|)
      decreases |text| - start
    {
      leaks, n := leaks + [LeakAt(text, c, index)], n + 1;
      start := index + |c.value|;
      index := FindNext(text, c, start, all, n);
    }
  }

  method FindAllOccurrences(text: string, secrets: seq<Candidate>) returns (leaks: seq<Leak>)
    requires NonEmpty(secrets)
    ensures leaks == AllLeaks(text, secrets)
  {
    leaks := [];
    for k := 0 to |secrets|
      invariant leaks + AllLeaks(text, secrets[k..]) == AllLeaks(text, secrets)
    {
      var here := FindOccurrences(text, secrets[k]);
      assert secrets[k..][1..] == secrets[k + 1..];
      Regroup(leaks, here, AllLeaks(text, secrets[k + 1..]));
      leaks := leaks + here;
    }
  }

  lemma Regroup(a: seq<Leak>, b: seq<Leak>, c: seq<Leak>)
    ensures a + (b + c) == (a + b) + c
  {
  }

  /** A leak is reported for a name exactly when its value is in the text. */
  lemma {:induction false} LeakNames(text: string, secrets: seq<Candidate>, name: string)
    requires NonEmpty(secrets)
    ensures (exists l :: l in AllLeaks(text, secrets) && l.name == name)
       <==> (exists c :: c in secrets && c.name == name && Contains(text, c.value))
  {
    if secrets == [] {
    } else {
      var c := secrets[0];
      LeakNames(text, secrets[1..], name);
      LeaksOfOneName(text, c, 0);
      var here := LeaksOf(text, c, 0);
      if Contains(text, c.value) {
        var i: nat :| i <= |text| && OccursAt(text, c.value, i);
        FindIsFirst(text, c.value, 0, i);
        assert here[0] in AllLeaks(text, secrets) && here[0].name == c.name;
      } else {
        FindOccurs(text, c.value, 0);
        assert here == [];
      }
      assert forall l :: l in AllLeaks(text, secrets) <==> l in here || l in AllLeaks(text, secrets[1..]);
      assert forall d :: d in secrets <==> d == c || d in secrets[1..];
    }
  }

  lemma {:induction false} LeaksOfOneName(text: string, c: Candidate, start: nat)
    requires c.value != ""
    ensures forall l :: l in LeaksOf(text, c, start) ==> l.name == c.name
    decreases |text| - start
  {
    var i := Find(text, c.value, start);
    if i != -1 { LeaksOfOneName(text, c, i + |c.value|); }
  }

  // ---------------------------------------------------------------------------
  // Which occurrences, and on which lines
  // ---------------------------------------------------------------------------

  /** An index lies on the line after as many newlines as there are before it. */
  lemma {:induction false} LineCountsNewlines(t: string, i: nat)
    requires i <= |t|
    ensures LineOf(t, i) == 1 + multiset(t[..i])['\n']
  {
    if i == 0 {
    } else {
      LineCountsNewlines(t, i - 1);
      assert t[..i] == t[..i - 1] + [t[i - 1]];
    }
  }

  /** An occurrence of one of the values at `i`, on the line the leak names. */
  ghost predicate Located(text: string, c: Candidate, i: nat, l: Leak) {
    OccursAt(text, c.value, i) && l.name == c.name && l.line == 1 + multiset(text[..i])['\n']
  }

  lemma {:induction false} LeaksAreLocated(text: string, c: Candidate, start: nat, l: Leak)
    requires c.value != "" && l in LeaksOf(text, c, start)
    ensures exists i: nat :: Located(text, c, i, l)
    decreases |text| - start
  {
    var i := Find(text, c.value, start);
    FindOccurs(text, c.value, start);
    if l == LeakAt(text, c, i) {
      LineCountsNewlines(text, i);
      assert Located(text, c, i, l);
    } else {
      LeaksAreLocated(text, c, i + |c.value|, l);
    }
  }

  lemma {:induction false} AllLeaksAreLocated(text: string, secrets: seq<Candidate>, l: Leak)
    requires NonEmpty(secrets) && l in AllLeaks(text, secrets)
    ensures exists c, i: nat :: c in secrets && Located(text, c, i, l)
  {
    if l in LeaksOf(text, secrets[0], 0) {
      LeaksAreLocated(text, secrets[0], 0, l);
      var i: nat :| Located(text, secrets[0], i, l);
      assert secrets[0] in secrets && Located(text, secrets[0], i, l);
    } else {
      AllLeaksAreLocated(text, secrets[1..], l);
      var c, i: nat :| c in secrets[1..] && Located(text, c, i, l);
      assert c in secrets && Located(text, c, i, l);
    }
  }

  lemma {:induction false} FirstOccurrenceLeaks(text: string, secrets: seq<Candidate>, c: Candidate, i: nat)
    requires NonEmpty(secrets) && c in secrets && OccursAt(text, c.value, i)
    ensures exists l :: l in AllLeaks(text, secrets) && l.name == c.name && l.line <= 1 + multiset(text[..i])['\n']
  {
    if c == secrets[0] {
      FindIsFirst(text, c.value, 0, i);
      var first := Find(text, c.value, 0);
      var l := LeakAt(text, c, first);
      assert LeaksOf(text, c, 0)[0] == l;
      LineCountsNewlines(text, first);
      assert text[..i] == text[..first] + text[first..i];
      assert l in AllLeaks(text, secrets);
    } else {
      FirstOccurrenceLeaks(text, secrets[1..], c, i);
      var l :| l in AllLeaks(text, secrets[1..]) && l.name == c.name && l.line <= 1 + multiset(text[..i])['\n'];
      assert l in AllLeaks(text, secrets);
    }
  }

  /** The search goes on behind each value found, and ends where there is none. */
  lemma FoundInTurn(text: string, c: Candidate, start: nat, i: nat)
    requires c.value != "" && start <= i && forall j: nat :: start <= j < i ==> !OccursAt(text, c.value, j)
    ensures OccursAt(text, c.value, i) ==>
              LeaksOf(text, c, start) ==
              [Leak(c.name, 1 + multiset(text[..i])['\n'])] + LeaksOf(text, c, i + |c.value|)
    ensures i > |text| ==> LeaksOf(text, c, start) == []
  {
    FindIs(text, c.value, start, i);
    if OccursAt(text, c.value, i) { LineCountsNewlines(text, i); }
  }

  // ---------------------------------------------------------------------------
  // By line and name
  // ---------------------------------------------------------------------------

  predicate Before(a: Leak, b: Leak) {
    a.line < b.line || (a.line == b.line && AtMost(a.name, b.name))
  }

  lemma BeforeIsOrder()
    ensures IsOrder(Before)
  {
    forall a, b ensures Before(a, b) || Before(b, a) {
      AtMostTotal(a.name, b.name);
    }
    forall a, b, c | Before(a, b) && Before(b, c) ensures Before(a, c) {
      if a.line == b.line == c.line { AtMostTransitive(a.name, b.name, c.name); }
    }
  }

  method FindSecretLeaks(text: string, secrets: seq<Candidate>) returns (leaks: seq<Leak>)
    requires NonEmpty(secrets)
    ensures InOrder(leaks, Before) && multiset(leaks) == multiset(AllLeaks(text, secrets))
  {
    var found := FindAllOccurrences(text, secrets);
    BeforeIsOrder();
    SortedBySorts(found, Before);
    leaks := SortedBy(found, Before);
  }

  // ---------------------------------------------------------------------------
  // One finding per name
  // ---------------------------------------------------------------------------

  /** What is kept of a leak list: the first entry for each name. */
  ghost predicate FirstPerName(leaks: seq<Leak>, kept: seq<Leak>) {
    && (forall i, j :: 0 <= i < j < |kept| ==> kept[i].name != kept[j].name)
    && (forall l :: l in leaks ==> Named(kept, l.name))
    && (forall d :: d in kept ==> IsFirst(leaks, d))
  }

  ghost predicate IsFirst(leaks: seq<Leak>, d: Leak) {
    exists i :: 0 <= i < |leaks| && leaks[i] == d && forall j :: 0 <= j < i ==> leaks[j].name != d.name
  }

  predicate Named(kept: seq<Leak>, name: string) {
    exists d :: d in kept && d.name == name
  }

  function Keep(kept: seq<Leak>, l: Leak): seq<Leak> {
    if Named(kept, l.name) then kept else kept + [l]
  }

  lemma NamedKeep(kept: seq<Leak>, l: Leak)
    ensures forall name :: Named(Keep(kept, l), name) <==> Named(kept, name) || name == l.name
  {
    var kept' := Keep(kept, l);
    forall name ensures Named(kept', name) <==> Named(kept, name) || name == l.name {
      if Named(kept, name) {
        var d :| d in kept && d.name == name;
        assert d in kept';
      }
      if name == l.name && !Named(kept, name) { assert l in kept'; }
    }
  }

  lemma FirstPerNameExtends(leaks: seq<Leak>, kept: seq<Leak>, l: Leak)
    requires FirstPerName(leaks, kept)
    ensures FirstPerName(leaks + [l], Keep(kept, l))
  {
    var kept' := Keep(kept, l);
    forall m | m in leaks + [l] ensures Named(kept', m.name) {
      if m in leaks {
        var d :| d in kept && d.name == m.name;
        assert d in kept';
      } else {
        assert kept' == kept + [l] ==> l in kept';
      }
    }
    forall d | d in kept'
      ensures IsFirst(leaks + [l], d)
    {
      if d in kept {
        var i :| 0 <= i < |leaks| && leaks[i] == d && forall j :: 0 <= j < i ==> leaks[j].name != d.name;
        assert (leaks + [l])[i] == d;
      } else {
        assert (leaks + [l])[|leaks|] == d;
        forall j | 0 <= j < |leaks| ensures leaks[j].name != d.name {
          assert leaks[j] in leaks;
        }
      }
    }
  }

  /** In an ordered list the first entry for a name is on the earliest line. */
  lemma FirstIsEarliest(leaks: seq<Leak>, d: Leak, l: Leak)
    requires InOrder(leaks, Before) && IsFirst(leaks, d) && l in leaks && l.name == d.name
    ensures d in leaks && d.line <= l.line
  {
    var i :| 0 <= i < |leaks| && leaks[i] == d && forall j :: 0 <= j < i ==> leaks[j].name != d.name;
    var k :| 0 <= k < |leaks| && leaks[k] == l;
  }

  /** Per name one finding, on the earliest line with that secret, and all in order. */
  ghost predicate EarliestPerName(found: seq<Leak>, reported: seq<Leak>) {
    && InOrder(reported, Before)
    && (forall i, j :: 0 <= i < j < |reported| ==> reported[i].name != reported[j].name)
    && (forall l :: l in found ==> Named(reported, l.name))
    && (forall d :: d in reported ==> d in found && forall l :: l in found && l.name == d.name ==> d.line <= l.line)
  }

  lemma EarliestOfSorted(found: seq<Leak>, leaks: seq<Leak>, kept: seq<Leak>)
    requires InOrder(leaks, Before) && multiset(leaks) == multiset(found)
    requires FirstPerName(leaks, kept) && InOrder(kept, Before)
    ensures EarliestPerName(found, kept)
  {
    forall l ensures l in leaks <==> l in found {
      assert l in multiset(leaks) <==> l in multiset(found);
    }
    forall d | d in kept ensures d in found && forall l :: l in found && l.name == d.name ==> d.line <= l.line {
      assert IsFirst(leaks, d);
      forall l | l in found && l.name == d.name ensures d.line <= l.line { FirstIsEarliest(leaks, d, l); }
    }
  }

  lemma {:induction false} NothingReportedIff(text: string, secrets: seq<Candidate>, reported: seq<Leak>)
    requires NonEmpty(secrets) && EarliestPerName(AllLeaks(text, secrets), reported)
    ensures reported == [] <==> forall c :: c in secrets ==> !Contains(text, c.value)
  {
    forall c | c in secrets ensures Contains(text, c.value) ==> reported != [] {
      LeakNames(text, secrets, c.name);
    }
    if reported != [] {
      assert reported[0] in reported;
      LeakNames(text, secrets, reported[0].name);
    }
  }

  /** A finding is on the line of an occurrence of its value, and of no later one than the first. */
  lemma {:induction false} ReportedLineIsFirst(text: string, secrets: seq<Candidate>, reported: seq<Leak>, d: Leak)
    requires NonEmpty(secrets) && EarliestPerName(AllLeaks(text, secrets), reported) && d in reported
    ensures exists c, i: nat :: c in secrets && Located(text, c, i, d)
    ensures forall c, i: nat :: c in secrets && c.name == d.name && OccursAt(text, c.value, i) ==>
              d.line <= 1 + multiset(text[..i])['\n']
  {
    AllLeaksAreLocated(text, secrets, d);
    forall c, i: nat | c in secrets && c.name == d.name && OccursAt(text, c.value, i)
      ensures d.line <= 1 + multiset(text[..i])['\n']
    {
      FirstOccurrenceLeaks(text, secrets, c, i);
    }
  }

  method CheckGeneratedText(text: string, secrets: seq<Candidate>) returns (reported: seq<Leak>)
    requires NonEmpty(secrets)
    ensures EarliestPerName(AllLeaks(text, secrets), reported)
    ensures reported == [] <==> forall c :: c in secrets ==> !Contains(text, c.value)
  {
    var leaks := FindSecretLeaks(text, secrets);
    reported := KeepFirst(leaks);
    EarliestOfSorted(AllLeaks(text, secrets), leaks, reported);
    NothingReportedIff(text, secrets, reported);
  }

  method KeepFirst(leaks: seq<Leak>) returns (kept: seq<Leak>)
    requires InOrder(leaks, Before)
    ensures FirstPerName(leaks, kept) && InOrder(kept, Before)
  {
    var seen: set<string> := {};
    kept := [];
    for i := 0 to |leaks|
      invariant FirstPerName(leaks[..i], kept) && InOrder(kept, Before)
      invariant forall name :: name in seen <==> Named(kept, name)
    {
      assert leaks[..i + 1] == leaks[..i] + [leaks[i]];
      FirstPerNameExtends(leaks[..i], kept, leaks[i]);
      NamedKeep(kept, leaks[i]);
      forall d | d in kept ensures Before(d, leaks[i]) {
        assert IsFirst(leaks[..i], d) && d in leaks[..i];
      }
      if leaks[i].name !in seen {
        seen := seen + {leaks[i].name};
        kept := kept + [leaks[i]];
      }
    }
    assert leaks[..|leaks|] == leaks;
  }
}
