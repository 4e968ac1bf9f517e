// The redacting stream (cli/secret_leak.py): a buffering state machine that must agree
// with one-shot redaction however its input is cut into writes and flushes.
module StreamRedaction {
  import opened Text
  import opened SecretLeak

  // ---------------------------------------------------------------------------
  // The stream as a state machine
  // ---------------------------------------------------------------------------

  /** What is still buffered, and the texts handed on so far, before redaction. */
  datatype StreamState = StreamState(buffer: string, raw: seq<string>)

  datatype Op = Write(text: string) | Flush

  const START := StreamState("", [])

  /** Length of the text up to and including its last newline. */
  function LastBreak(t: string): (n: nat)
    ensures n <= |t| && (n == 0 || t[n - 1] == '\n') && '\n' !in t[n..]
  {
    if t == "" then 0
    else if t[|t| - 1] == '\n' then |t|
    else
      assert t == t[..|t| - 1] + [t[|t| - 1]];
      LastBreak(t[..|t| - 1])
  }

  /** The longest tail of `b` that is a proper prefix of some candidate. */
  ghost predicate IsHeldBack(b: string, cands: seq<Candidate>, k: nat) {
    && k <= |b|
    && (k > 0 ==> exists c :: c in cands && PartialAt(b, c.value, k))
    && forall c, j :: c in cands && k < j && PartialAt(b, c.value, j) ==> false
  }

  predicate PartialAt(b: string, v: string, k: int) {
    0 <= k < |v| && EndsWith(b, v[..k])
  }

  function LongestPartial(b: string, v: string, size: nat, longest: nat): nat
    requires size < |v| || size <= longest
  {
    if size <= longest then longest
    else if EndsWith(b, v[..size]) then size
    else LongestPartial(b, v, size - 1, longest)
  }

  function HeldBack(b: string, cands: seq<Candidate>, longest: nat := 0): nat
    requires NonEmpty(cands)
  {
    if cands == [] then longest
    else HeldBack(b, cands[1..], LongestPartial(b, cands[0].value, Min(|cands[0].value| - 1, |b|), longest))
  }

  function Min(x: int, y: int): int {
    if x < y then x else y
  }

  lemma {:induction false} LongestPartialIsLongest(b: string, v: string, size: nat, longest: nat)
    requires size < |v| || size <= longest
    ensures var k := LongestPartial(b, v, size, longest);
            && k >= longest && (k > longest ==> k <= size && PartialAt(b, v, k))
            && forall j :: k < j <= size ==> !PartialAt(b, v, j)
  {
    if size > longest && !EndsWith(b, v[..size]) {
      LongestPartialIsLongest(b, v, size - 1, longest);
    }
  }

  lemma {:induction false} HeldBackGrows(b: string, cands: seq<Candidate>, longest: nat)
    requires NonEmpty(cands)
    ensures var k := HeldBack(b, cands, longest);
            && k >= longest
            && (k > longest ==> exists c :: c in cands && PartialAt(b, c.value, k))
            && forall c, j :: c in cands && k < j && PartialAt(b, c.value, j) ==> false
    decreases |cands|
  {
    if cands == [] {
    } else {
      var v := cands[0].value;
      var size := Min(|v| - 1, |b|);
      var next := LongestPartial(b, v, size, longest);
      LongestPartialIsLongest(b, v, size, longest);
      HeldBackGrows(b, cands[1..], next);
      var k := HeldBack(b, cands, longest);
      if k > longest && k == next {
        assert cands[0] in cands && PartialAt(b, cands[0].value, k);
      }
      forall c, j | c in cands && k < j ensures !PartialAt(b, c.value, j) {
        if c == cands[0] { assert j <= size ==> !PartialAt(b, v, j); }
      }
    }
  }

  lemma {:induction false} HeldBackIsLongest(b: string, cands: seq<Candidate>)
    requires NonEmpty(cands)
    ensures IsHeldBack(b, cands, HeldBack(b, cands))
  {
    HeldBackGrows(b, cands, 0);
  }

  /** Where a flush cuts the buffer. */
  function Cut(b: string, cands: seq<Candidate>): (n: nat)
    requires NonEmpty(cands)
    ensures n <= |b|
  {
    HeldBackIsLongest(b, cands);
    |b| - HeldBack(b, cands)
  }

  function Emitted(st: StreamState, n: nat): StreamState
    requires n <= |st.buffer|
  {
    StreamState(st.buffer[n..], if n == 0 then st.raw else st.raw + [st.buffer[..n]])
  }

  function Step(st: StreamState, op: Op, cands: seq<Candidate>): StreamState
    requires NonEmpty(cands)
  {
    match op
    case Write(text) => Emitted(st.(buffer := st.buffer + text), LastBreak(st.buffer + text))
    case Flush => Emitted(st, Cut(st.buffer, cands))
  }

  function Run(ops: seq<Op>, cands: seq<Candidate>): StreamState
    requires NonEmpty(cands)
  {
    if ops == [] then START
    else Step(Run(ops[..|ops| - 1], cands), ops[|ops| - 1], cands)
  }

  function Finished(st: StreamState): StreamState {
    Emitted(st, |st.buffer|)
  }

  function Written(ops: seq<Op>): string {
    if ops == [] then ""
    else Written(ops[..|ops| - 1]) + match ops[|ops| - 1] case Write(text) => text case Flush => ""
  }

  function Flatten(raw: seq<string>): string {
    if raw == [] then "" else Flatten(raw[..|raw| - 1]) + raw[|raw| - 1]
  }

  /** What the wrapped stream has received. */
  function Output(raw: seq<string>, cands: seq<Candidate>): string
    requires NonEmpty(cands)
  {
    if raw == [] then "" else Output(raw[..|raw| - 1], cands) + Redact(raw[|raw| - 1], cands)
  }

  function OutputHits(raw: seq<string>, cands: seq<Candidate>): set<string>
    requires NonEmpty(cands)
  {
    if raw == [] then {} else OutputHits(raw[..|raw| - 1], cands) + Hits(raw[|raw| - 1], cands)
  }

  lemma FinishedIs(st: StreamState)
    ensures Finished(st) == StreamState("", if st.buffer == "" then st.raw else st.raw + [st.buffer])
  {
    assert st.buffer[..|st.buffer|] == st.buffer && st.buffer[|st.buffer|..] == "";
  }

  class RedactingStream {
    const candidates: seq<Candidate>
    var buffer: string
    var sink: string
    var hits: set<string>
    ghost var raw: seq<string>

    ghost predicate Valid()
      reads this
    {
      NonEmpty(candidates) && sink == Output(raw, candidates) && hits == OutputHits(raw, candidates)
    }

    ghost function State(): StreamState
      reads this
    {
      StreamState(buffer, raw)
    }

    constructor (candidates: seq<Candidate>)
      requires NonEmpty(candidates)
      ensures Valid() && State() == START && this.candidates == candidates
    {
      this.candidates := candidates;
      buffer, sink, hits, raw := "", "", {}, [];
    }

    method Emit(text: string)
      requires Valid()
      modifies this`sink, this`hits, this`raw
      ensures Valid() && raw == if text == "" then old(raw) else old(raw) + [text]
    {
      if text != "" {
        var redacted, hit := RedactText(text, candidates);
        hits := hits + hit;
        sink := sink + redacted;
        raw := raw + [text];
      }
    }

    method Write(text: string)
      requires Valid()
      modifies this
      ensures Valid() && State() == Step(old(State()), Op.Write(text), candidates)
    {
      buffer := buffer + text;
      var n := LastBreak(buffer);
      Emit(buffer[..n]);
      buffer := buffer[n..];
    }

    method Flush()
      requires Valid()
      modifies this
      ensures Valid() && State() == Step(old(State()), Op.Flush, candidates)
    {
      var keep := PartialSecretSuffix();
      var cut := |buffer| - keep;
      Emit(buffer[..cut]);
      buffer := buffer[cut..];
    }

    method Finish()
      requires Valid()
      modifies this
      ensures Valid() && State() == Finished(old(State()))
    {
      FinishedIs(State());
      Emit(buffer);
      buffer := "";
    }

    /** The longest partial match of one value, if it beats the longest so far. */
    method LongestOf(v: string, longest: nat) returns (k: nat)
      requires v != ""
      ensures k == LongestPartial(buffer, v, Min(|v| - 1, |buffer|), longest)
    {
      var size := Min(|v| - 1, |buffer|);
      while size > longest
        invariant 0 <= size < |v|
        invariant LongestPartial(buffer, v, size, longest) == LongestPartial(buffer, v, Min(|v| - 1, |buffer|), longest)
      {
        if EndsWith(buffer, v[..size]) {
          return size;
        }
        size := size - 1;
      }
      return longest;
    }

    method PartialSecretSuffix() returns (longest: nat)
      requires Valid()
      ensures longest == HeldBack(buffer, candidates) && longest == |buffer| - Cut(buffer, candidates)
    {
      longest := 0;
      for i := 0 to |candidates|
        invariant HeldBack(buffer, candidates[i..], longest) == HeldBack(buffer, candidates)
      {
        assert candidates[i..][0] == candidates[i];
        longest := LongestOf(candidates[i].value, longest);
        assert candidates[i..][1..] == candidates[i + 1..];
      }
    }
  }

  // ---------------------------------------------------------------------------
  // Every run of the stream against one-shot redaction
  // ---------------------------------------------------------------------------

  /** Nothing written is lost, repeated or reordered: raw chunks plus buffer. */
  lemma {:induction false} RunConservesText(ops: seq<Op>, cands: seq<Candidate>)
    requires NonEmpty(cands)
    ensures Flatten(Run(ops, cands).raw) + Run(ops, cands).buffer == Written(ops)
  {
    if ops == [] {
    } else {
      var before, op := ops[..|ops| - 1], ops[|ops| - 1];
      RunConservesText(before, cands);
      StepConservesText(Run(before, cands), op, cands);
    }
  }

  lemma StepConservesText(st: StreamState, op: Op, cands: seq<Candidate>)
    requires NonEmpty(cands)
    ensures Flatten(Step(st, op, cands).raw) + Step(st, op, cands).buffer
         == Flatten(st.raw) + st.buffer + (match op case Write(text) => text case Flush => "")
  {
    match op
    case Write(text) =>
      EmittedConserves(st.(buffer := st.buffer + text), LastBreak(st.buffer + text));
      assert Flatten(st.raw) + (st.buffer + text) == Flatten(st.raw) + st.buffer + text;
    case Flush => EmittedConserves(st, Cut(st.buffer, cands));
  }

  lemma EmittedConserves(st: StreamState, n: nat)
    requires n <= |st.buffer|
    ensures Flatten(Emitted(st, n).raw) + Emitted(st, n).buffer == Flatten(st.raw) + st.buffer
  {
    assert st.buffer == st.buffer[..n] + st.buffer[n..];
    if n > 0 {
      assert (st.raw + [st.buffer[..n]])[..|st.raw|] == st.raw;
    }
  }

  /** However the text continues after `b`, no candidate straddles the end of `e`. */
  ghost predicate Sealed(e: string, b: string, cands: seq<Candidate>) {
    forall x: string :: SafeCut(e, b + x, cands)
  }

  /** Every boundary between raw chunks is one no candidate can straddle. */
  ghost predicate CutsSealed(st: StreamState, cands: seq<Candidate>) {
    forall i :: 0 <= i <= |st.raw| ==> Sealed(Flatten(st.raw[..i]), Flatten(st.raw[i..]) + st.buffer, cands)
  }

  lemma {:induction false} FlattenSplit(raw: seq<string>, i: nat)
    requires i <= |raw|
    ensures Flatten(raw[..i]) + Flatten(raw[i..]) == Flatten(raw)
  {
    if i == |raw| {
      assert raw[..i] == raw;
    } else {
      var init := raw[..|raw| - 1];
      FlattenSplit(init, i);
      assert init[..i] == raw[..i] && raw[i..][..|raw[i..]| - 1] == init[i..];
    }
  }

  lemma SealedWeakens(e: string, b: string, b': string, y: string, cands: seq<Candidate>)
    requires Sealed(e, b, cands) && b' == b + y
    ensures Sealed(e, b', cands)
  {
    forall x: string ensures SafeCut(e, b' + x, cands) {
      assert b' + x == b + (y + x);
    }
  }

  /** A later cut is sealed when the earlier one is and the piece between is. */
  lemma SealedMoves(e: string, c: string, rest: string, cands: seq<Candidate>)
    requires Sealed(e, c + rest, cands) && Sealed(c, rest, cands)
    ensures Sealed(e + c, rest, cands)
  {
    forall x: string, d | d in cands ensures !Straddles(e + c, rest + x, d.value) {
      var t := e + (c + (rest + x));
      assert (e + c) + (rest + x) == t && e + ((c + rest) + x) == t;
      assert SafeCut(e, (c + rest) + x, cands) && SafeCut(c, rest + x, cands);
      forall i: nat | i < |e + c| < i + |d.value| ensures !OccursAt(t, d.value, i) {
        if i < |e| {
          assert !Straddles(e, (c + rest) + x, d.value);
        } else {
          OccursInTail(e, c + (rest + x), d.value, i - |e|);
          assert !Straddles(c, rest + x, d.value);
        }
      }
    }
  }

  lemma BreakWouldBeInside(c: string, y: string, v: string, i: nat)
    requires i < |c| < i + |v| && c[|c| - 1] == '\n'
    ensures OccursAt(c + y, v, i) ==> '\n' in v
  {
    if OccursAt(c + y, v, i) {
      OccursPointwise(c + y, v, i);
      assert v[|c| - 1 - i] == (c + y)[i + (|c| - 1 - i)];
    }
  }

  /** A line ends where no single-line candidate can be. */
  lemma SealedAtBreak(c: string, rest: string, cands: seq<Candidate>)
    requires SingleLine(cands) && c != "" && c[|c| - 1] == '\n'
    ensures Sealed(c, rest, cands)
  {
    forall x: string, d | d in cands ensures !Straddles(c, rest + x, d.value) {
      forall i: nat | i < |c| < i + |d.value| ensures !OccursAt(c + (rest + x), d.value, i) {
        BreakWouldBeInside(c, rest + x, d.value, i);
      }
    }
  }

  /** A flush never cuts where a candidate is, or may still turn out to be. */
  lemma SealedAtFlush(b: string, cands: seq<Candidate>)
    requires NonEmpty(cands) && NoOverlap(cands)
    ensures Sealed(b[..Cut(b, cands)], b[Cut(b, cands)..], cands)
  {
    var cut := Cut(b, cands);
    forall x: string, d, i: nat | d in cands && i < cut < i + |d.value|
      ensures !OccursAt(b[..cut] + (b[cut..] + x), d.value, i)
    {
      assert b[..cut] + (b[cut..] + x) == b + x;
      FlushMisses(b, x, cands, d, i);
    }
  }

  lemma FlushMisses(b: string, x: string, cands: seq<Candidate>, d: Candidate, i: nat)
    requires NonEmpty(cands) && d in cands && i < Cut(b, cands) < i + |d.value|
    ensures NoOverlap(cands) ==> !OccursAt(b + x, d.value, i)
  {
    HeldBackIsLongest(b, cands);
    var cut, k := Cut(b, cands), HeldBack(b, cands);
    if OccursAt(b + x, d.value, i) {
      if i + |d.value| > |b| {
        OccursPart(b + x, d.value, i, 0, |b| - i);
        assert b[i..] == (b + x)[i..|b|];
        assert PartialAt(b, d.value, |b| - i);
      } else {
        var u :| u in cands && PartialAt(b, u.value, k);
        CutOverlaps(b, x, d.value, u.value, i, cut);
        assert OverlapsAt(d.value, u.value, cut - i);
      }
    }
  }

  /** A value cut inside, where the tail begins another, overlaps that one. */
  lemma CutOverlaps(b: string, x: string, v: string, u: string, i: nat, cut: nat)
    requires i < cut < i + |v| <= |b| && OccursAt(b + x, v, i) && PartialAt(b, u, |b| - cut)
    ensures OverlapsAt(v, u, cut - i)
  {
    var n := i + |v| - cut;
    OccursPart(b + x, v, i, cut - i, |v|);
    assert u[..n] == u[..|b| - cut][..n] == b[cut..][..n] == (b + x)[cut..cut + n];
  }

  lemma EmittedStaysSealed(st: StreamState, n: nat, cands: seq<Candidate>)
    requires n <= |st.buffer| && CutsSealed(st, cands)
    requires n > 0 ==> Sealed(st.buffer[..n], st.buffer[n..], cands)
    ensures CutsSealed(Emitted(st, n), cands)
  {
    if n > 0 {
      var c, rest, raw := st.buffer[..n], st.buffer[n..], st.raw + [st.buffer[..n]];
      assert st.buffer == c + rest;
      forall i | 0 <= i <= |raw| ensures Sealed(Flatten(raw[..i]), Flatten(raw[i..]) + rest, cands) {
        if i < |raw| {
          assert raw[..i] == st.raw[..i] && raw[i..] == st.raw[i..] + [c];
          assert raw[i..][..|raw[i..]| - 1] == st.raw[i..];
          assert Flatten(raw[i..]) + rest == Flatten(st.raw[i..]) + st.buffer;
        } else {
          assert raw[..i][..|raw| - 1] == st.raw[..|st.raw|] && raw[i..] == [] && st.raw[|st.raw|..] == [];
          assert Flatten(st.raw[|st.raw|..]) + st.buffer == c + rest;
          SealedMoves(Flatten(st.raw[..|st.raw|]), c, rest, cands);
          assert Flatten(raw[i..]) + rest == rest;
        }
      }
    } else {
      assert st.buffer[0..] == st.buffer;
    }
  }

  /** No candidate, present or still to be completed, lies across two chunks. */
  lemma {:induction false} RunCutsSealed(ops: seq<Op>, cands: seq<Candidate>)
    requires NonEmpty(cands) && SingleLine(cands) && NoOverlap(cands)
    ensures CutsSealed(Run(ops, cands), cands)
  {
    if ops == [] {
    } else {
      var st, op := Run(ops[..|ops| - 1], cands), ops[|ops| - 1];
      RunCutsSealed(ops[..|ops| - 1], cands);
      match op
      case Write(text) =>
        var st' := st.(buffer := st.buffer + text);
        forall i | 0 <= i <= |st.raw| ensures Sealed(Flatten(st.raw[..i]), Flatten(st.raw[i..]) + st'.buffer, cands) {
          SealedWeakens(Flatten(st.raw[..i]), Flatten(st.raw[i..]) + st.buffer, Flatten(st.raw[i..]) + st'.buffer, text,
                        cands);
        }
        var n := LastBreak(st'.buffer);
        if n > 0 { SealedAtBreak(st'.buffer[..n], st'.buffer[n..], cands); }
        EmittedStaysSealed(st', n, cands);
      case Flush =>
        SealedAtFlush(st.buffer, cands);
        EmittedStaysSealed(st, Cut(st.buffer, cands), cands);
    }
  }

  lemma {:induction false} OutputOfSafeCuts(raw: seq<string>, cands: seq<Candidate>)
    requires NonEmpty(cands) && MarkerApart(cands)
    requires forall i :: 0 <= i <= |raw| ==> SafeCut(Flatten(raw[..i]), Flatten(raw[i..]), cands)
    ensures Output(raw, cands) == Redact(Flatten(raw), cands)
    ensures OutputHits(raw, cands) == Hits(Flatten(raw), cands)
  {
    if raw == [] {
      forall c | c in cands ensures !Contains("", c.value) {}
      RedactUntouched("", cands);
    } else {
      var init, last := raw[..|raw| - 1], raw[|raw| - 1];
      forall i | 0 <= i <= |init| ensures SafeCut(Flatten(init[..i]), Flatten(init[i..]), cands) {
        assert init[..i] == raw[..i] && raw[i..][..|raw[i..]| - 1] == init[i..];
        NarrowCut(Flatten(init[..i]), Flatten(init[i..]), last, cands);
      }
      OutputOfSafeCuts(init, cands);
      assert raw[|init|..] == [last] && Flatten([last]) == last;
      RedactSplit(Flatten(init), last, cands);
    }
  }

  lemma NarrowCut(a: string, b: string, x: string, cands: seq<Candidate>)
    requires SafeCut(a, b + x, cands)
    ensures SafeCut(a, b, cands)
  {
    forall c | c in cands ensures !Straddles(a, b, c.value) {
      assert (a + b) + x == a + (b + x);
      forall i: nat | i < |a| < i + |c.value| ensures !OccursAt(a + b, c.value, i) {
        if i + |c.value| <= |a + b| { OccursInHead(a + b, x, c.value, i); }
      }
    }
  }

  lemma FinishedCutsSafe(st: StreamState, cands: seq<Candidate>, i: nat)
    requires CutsSealed(st, cands) && i <= |Finished(st).raw|
    ensures SafeCut(Flatten(Finished(st).raw[..i]), Flatten(Finished(st).raw[i..]), cands)
  {
    var raw := Finished(st).raw;
    assert st.buffer[..|st.buffer|] == st.buffer;
    if i <= |st.raw| {
      var e, r := Flatten(st.raw[..i]), Flatten(st.raw[i..]) + st.buffer;
      assert SafeCut(e, r + "", cands) && r + "" == r;
      assert raw[..i] == st.raw[..i];
      if st.buffer != "" {
        assert raw[i..][..|raw[i..]| - 1] == st.raw[i..];
      } else {
        assert raw[i..] == st.raw[i..] && Flatten(raw[i..]) == r;
      }
    } else {
      assert raw[i..] == [];
      forall c | c in cands ensures !Straddles(Flatten(raw[..i]), "", c.value) {}
    }
  }

  /** However its input is split, the finished stream has redacted it as one text. */
  lemma {:induction false} StreamEqualsOneShot(ops: seq<Op>, cands: seq<Candidate>)
    requires NonEmpty(cands) && SingleLine(cands) && MarkerApart(cands) && NoOverlap(cands)
    ensures Output(Finished(Run(ops, cands)).raw, cands) == Redact(Written(ops), cands)
    ensures OutputHits(Finished(Run(ops, cands)).raw, cands) == Hits(Written(ops), cands)
  {
    var st := Run(ops, cands);
    var raw := Finished(st).raw;
    RunConservesText(ops, cands);
    EmittedConserves(st, |st.buffer|);
    assert Flatten(raw) + "" == Flatten(raw);
    RunCutsSealed(ops, cands);
    forall i | 0 <= i <= |raw| ensures SafeCut(Flatten(raw[..i]), Flatten(raw[i..]), cands) {
      FinishedCutsSafe(st, cands, i);
    }
    OutputOfSafeCuts(raw, cands);
  }

  /** After any run and `Finish`, the sink holds the redacted text, and `hits` the names of the values in it. */
  lemma {:induction false} FinishedStreamReports(s: RedactingStream, ops: seq<Op>, name: string)
    requires s.Valid() && s.State() == Finished(Run(ops, s.candidates))
    requires SingleLine(s.candidates) && MarkerApart(s.candidates) && NoOverlap(s.candidates)
    requires NoContainment(s.candidates)
    ensures s.sink == Redact(Written(ops), s.candidates)
    ensures name in s.hits <==>
            exists k :: 0 <= k < |s.candidates| && s.candidates[k].name == name && FirstOfItsValue(s.candidates, k) &&
                        Contains(Written(ops), s.candidates[k].value)
  {
    StreamEqualsOneShot(ops, s.candidates);
    HitsAreOccurrences(Written(ops), s.candidates, name);
  }

  // ---------------------------------------------------------------------------
  // The no-overlap hypothesis is exactly what the flush rule needs
  // ---------------------------------------------------------------------------

  ghost predicate StreamAlwaysAgrees(cands: seq<Candidate>)
    requires NonEmpty(cands)
  {
    forall ops: seq<Op> :: Output(Finished(Run(ops, cands)).raw, cands) == Redact(Written(ops), cands)
  }

  /** One write of a whole value, then a flush. */
  lemma {:induction false} WriteThenFlush(v: string, cands: seq<Candidate>)
    requires NonEmpty(cands) && '\n' !in v && 0 < Cut(v, cands) < |v|
    ensures var cut := Cut(v, cands);
            && Finished(Run([Write(v), Flush], cands)).raw == [v[..cut], v[cut..]]
            && Written([Write(v), Flush]) == v
  {
    OneWrite(v, cands);
    var w, ops := [Write(v)], [Write(v), Flush];
    assert ops[..1] == w;
    var st := StreamState(v, []);
    assert Run(ops, cands) == Step(st, Flush, cands) == Emitted(st, Cut(v, cands));
    FinishedIs(Emitted(st, Cut(v, cands)));
    assert v + "" == v;
  }

  lemma {:induction false} OneWrite(v: string, cands: seq<Candidate>)
    requires NonEmpty(cands) && '\n' !in v
    ensures Run([Write(v)], cands) == StreamState(v, []) && Written([Write(v)]) == v
  {
    var w := [Write(v)];
    assert w[..0] == [] && Run([], cands) == START && Run(w, cands) == Step(START, w[0], cands);
    assert "" + v == v && LastBreak(v) == 0 && v[0..] == v;
  }

  /** The two parts a flush cuts such a value into are both passed on as they are. */
  lemma {:induction false} PartsPassThrough(cands: seq<Candidate>, c: Candidate, cut: nat)
    requires NonEmpty(cands) && NoContainment(cands) && c in cands && 0 < cut < |c.value|
    ensures Output([c.value[..cut], c.value[cut..]], cands) == c.value
  {
    var v := c.value;
    ProperPartUntouched(cands, c, 0, cut);
    ProperPartUntouched(cands, c, cut, |v|);
    assert v[..cut] == v[0..cut] && v[cut..] == v[cut..|v|] && v[..cut] + v[cut..] == v;
    OutputOfTwo(v[..cut], v[cut..], cands);
  }

  /** A flush inside a candidate that ends like a candidate begins lets it through. */
  lemma {:induction false} FlushLeaksOverlap(cands: seq<Candidate>, c: Candidate, d: Candidate, ops: seq<Op>)
    requires NonEmpty(cands) && SingleLine(cands) && MarkerApart(cands) && NoContainment(cands) && LongestFirst(cands)
    requires c in cands && d in cands && Overlaps(c.value, d.value)
    requires ops == [Write(c.value), Flush]
    ensures Output(Finished(Run(ops, cands)).raw, cands) == c.value
    ensures Redact(Written(ops), cands) == REDACTED
    ensures c.value != REDACTED
  {
    HeldBackInside(cands, c, d);
    WriteThenFlush(c.value, cands);
    PartsPassThrough(cands, c, Cut(c.value, cands));
    RedactOneValue(c.value, cands);
    ApartMeansDistinct(c.value, REDACTED);
  }

  lemma {:induction false} OutputOfTwo(x: string, y: string, cands: seq<Candidate>)
    requires NonEmpty(cands)
    ensures Output([x, y], cands) == Redact(x, cands) + Redact(y, cands)
  {
    assert [x, y][..1] == [x] && [x][..0] == [];
    assert Output([x], cands) == "" + Redact(x, cands);
  }

  lemma ApartMeansDistinct(v: string, m: string)
    ensures v == m ==> !Apart(v, m)
  {
    assert v == m ==> OccursAt(m, v, 0);
  }

  lemma HeldBackInside(cands: seq<Candidate>, c: Candidate, d: Candidate)
    requires NonEmpty(cands) && NoContainment(cands)
    requires c in cands && d in cands && Overlaps(c.value, d.value)
    ensures 0 < Cut(c.value, cands) < |c.value|
  {
    var v := c.value;
    HeldBackIsLongest(v, cands);
    var k :| OverlapsAt(v, d.value, k);
    assert PartialAt(v, d.value, |v| - k);
    if HeldBack(v, cands) == |v| {
      var u :| u in cands && PartialAt(v, u.value, |v|);
      assert OccursAt(u.value, v, 0);
    }
  }

  lemma {:induction false} ProperPartUntouched(cands: seq<Candidate>, c: Candidate, lo: nat, hi: nat)
    requires NonEmpty(cands) && NoContainment(cands) && c in cands
    requires lo <= hi <= |c.value| && hi - lo < |c.value|
    ensures Redact(c.value[lo..hi], cands) == c.value[lo..hi]
  {
    var part := c.value[lo..hi];
    assert c.value == c.value[..lo] + part + c.value[hi..];
    forall d | d in cands ensures !Contains(part, d.value) {
      forall i: nat | i <= |part| ensures !OccursAt(part, d.value, i) {
        if OccursAt(part, d.value, i) {
          OccurrenceMoves("", c.value[..lo], part, "", c.value[hi..], d.value, i);
        }
      }
    }
    RedactUntouched(part, cands);
  }

  /** Among values of which none lies in another, no overlap is what it takes. */
  lemma StreamAgreesIffNoOverlap(cands: seq<Candidate>)
    requires NonEmpty(cands) && SingleLine(cands) && MarkerApart(cands) && NoContainment(cands) && LongestFirst(cands)
    ensures StreamAlwaysAgrees(cands) <==> NoOverlap(cands)
  {
    if NoOverlap(cands) {
      forall ops: seq<Op> ensures Output(Finished(Run(ops, cands)).raw, cands) == Redact(Written(ops), cands) {
        StreamEqualsOneShot(ops, cands);
      }
    }
    forall c, d | c in cands && d in cands && Overlaps(c.value, d.value) ensures !StreamAlwaysAgrees(cands) {
      FlushLeaksOverlap(cands, c, d, [Write(c.value), Flush]);
    }
  }
}
