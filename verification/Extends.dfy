// Resolution of a profile's `extends` chain (cli/overlay.py): recursion over files
// with a stack for cycle detection, and a left-to-right fold of merges.
module Extends {
  import opened Document
  import opened Sequences
  import Overlay
  import Text

  type FilePath = string

  /** What loading a file gives: a mapping, or one of the two load errors. */
  datatype File = Doc(fields: Fields) | NotYaml | NotMapping

  /** Where a parent reference leads: a path under the profiles root, or out of it. */
  datatype Target = Outside | Inside(path: FilePath)

  /**
   The file system as resolution sees it: the files, where the references written in
   each file lead, and which files lie under a `profiles/` root at all.
   */
  datatype World = World(files: map<FilePath, File>, targets: map<(FilePath, string), Target>, rooted: set<FilePath>)

  datatype Outcome = Resolved(fields: Fields) | Failed(code: string)

  predicate IsBlank(ref: string) {
    forall i :: 0 <= i < |ref| ==> Text.IsSpace(ref[i])
  }

  predicate RefsWellFormed(v: Value) {
    v.List? && v.items != [] && forall i :: 0 <= i < |v.items| ==> v.items[i].Str? && !IsBlank(v.items[i].s)
  }

  function ExtendsOf(doc: Fields): Value {
    if "extends" in doc then doc["extends"] else Null
  }

  function TargetOf(w: World, f: FilePath, ref: string): Target {
    if (f, ref) in w.targets then w.targets[(f, ref)] else Outside
  }

  function Unvisited(w: World, stack: seq<FilePath>): set<FilePath> {
    w.files.Keys - set f | f in stack
  }

  function ComposeExtends(w: World, f: FilePath, stack: seq<FilePath>): Outcome
    decreases Unvisited(w, stack), 2, 0
  {
    if f in stack then Failed("E113")
    else if f !in w.files then Failed("E020")
    else if w.files[f].NotYaml? then Failed("E001")
    else if w.files[f].NotMapping? then Failed("E010")
    else
      assert f in Unvisited(w, stack) && f !in Unvisited(w, stack + [f]);
      ResolveAndMerge(w, f, w.files[f].fields, stack + [f])
  }

  function ResolveAndMerge(w: World, f: FilePath, doc: Fields, stack: seq<FilePath>): Outcome
    decreases Unvisited(w, stack), 4, 0
  {
    var refs := ExtendsOf(doc);
    if refs == Null then Resolved(doc)
    else if !RefsWellFormed(refs) then Failed("E110")
    else if f !in w.rooted then Failed("E111")
    else
      match Parents(w, f, refs.items, stack)
      case Failed(code) => Failed(code)
      case Resolved(merged) => AsOutcome(Overlay.MergeDocs(merged, doc - {"extends"}))
  }

  function AsOutcome(doc: Option<Fields>): Outcome {
    if doc.Some? then Resolved(doc.value) else Failed("E093")
  }

  /** All parents, merged left to right. */
  function Parents(w: World, f: FilePath, refs: seq<Value>, stack: seq<FilePath>): Outcome
    requires refs != [] && forall i :: 0 <= i < |refs| ==> refs[i].Str?
    decreases Unvisited(w, stack), 3, |refs|
  {
    var last := refs[|refs| - 1];
    if |refs| == 1 then Parent(w, f, last.s, stack)
    else
      match Parents(w, f, refs[..|refs| - 1], stack)
      case Failed(code) => Failed(code)
      case Resolved(merged) =>
        match Parent(w, f, last.s, stack)
        case Failed(code) => Failed(code)
        case Resolved(parent) => AsOutcome(Overlay.MergeDocs(merged, parent))
  }

  function Parent(w: World, f: FilePath, ref: string, stack: seq<FilePath>): Outcome
    decreases Unvisited(w, stack), 2, 1
  {
    match TargetOf(w, f, ref)
    case Outside => Failed("E111")
    case Inside(p) => if p !in w.files then Failed("E112") else ComposeExtends(w, p, stack)
  }

  // ---------------------------------------------------------------------------
  // The procedure itself
  // ---------------------------------------------------------------------------

  method ComposeFile(w: World, f: FilePath, stack: seq<FilePath>) returns (outcome: Outcome)
    ensures outcome == ComposeExtends(w, f, stack)
    decreases Unvisited(w, stack), 2, 0
  {
    if f in stack {
      return Failed("E113");
    }
    if f !in w.files {
      return Failed("E020");
    }
    match w.files[f]
    case NotYaml => return Failed("E001");
    case NotMapping => return Failed("E010");
    case Doc(fields) =>
      assert f in Unvisited(w, stack) && f !in Unvisited(w, stack + [f]);
      outcome := MergeParentsAndChild(w, f, fields, stack + [f]);
  }

  method MergeParentsAndChild(w: World, f: FilePath, doc: Fields, stack: seq<FilePath>) returns (outcome: Outcome)
    ensures outcome == ResolveAndMerge(w, f, doc, stack)
    decreases Unvisited(w, stack), 4, 0
  {
    var refs := ExtendsOf(doc);
    if refs == Null {
      return Resolved(doc);
    }
    if !RefsWellFormed(refs) {
      return Failed("E110");
    }
    if f !in w.rooted {
      return Failed("E111");
    }
    var merged: Option<Fields> := None;
    for i := 0 to |refs.items|
      invariant i == 0 ==> merged == None
      invariant i > 0 ==> merged.Some? && Parents(w, f, refs.items[..i], stack) == Resolved(merged.value)
    {
      ParentsPrefix(w, f, refs.items, i, stack);
      var target := TargetOf(w, f, refs.items[i].s);
      if target == Outside {
        return Failed("E111");
      }
      if target.path !in w.files {
        return Failed("E112");
      }
      var parent := ComposeFile(w, target.path, stack);
      if parent.Failed? {
        return parent;
      }
      if merged == None {
        merged := Some(parent.fields);
      } else {
        merged := Overlay.MergeDocs(merged.value, parent.fields);
        if merged == None {
          return Failed("E093");
        }
      }
    }
    assert refs.items[..|refs.items|] == refs.items;
    outcome := AsOutcome(Overlay.MergeDocs(merged.value, doc - {"extends"}));
  }

  /** One more parent: the fold over a longer prefix, and what its failure means. */
  lemma {:induction false} ParentsPrefix(w: World, f: FilePath, refs: seq<Value>, i: nat, stack: seq<FilePath>)
    requires i < |refs| && forall j :: 0 <= j < |refs| ==> refs[j].Str?
    requires i > 0 ==> Parents(w, f, refs[..i], stack).Resolved?
    ensures Parents(w, f, refs[..i + 1], stack) ==
            match Parent(w, f, refs[i].s, stack)
            case Failed(code) => Failed(code)
            case Resolved(parent) =>
              if i == 0 then Resolved(parent)
              else AsOutcome(Overlay.MergeDocs(Parents(w, f, refs[..i], stack).fields, parent))
    ensures Parents(w, f, refs[..i + 1], stack).Failed? ==>
            Parents(w, f, refs, stack) == Parents(w, f, refs[..i + 1], stack)
  {
    var head := refs[..i + 1];
    assert head[..|head| - 1] == refs[..i];
    if Parents(w, f, head, stack).Failed? {
      FailureSticks(w, f, refs, i + 1, stack);
    }
  }

  lemma {:induction false} FailureSticks(w: World, f: FilePath, refs: seq<Value>, i: nat, stack: seq<FilePath>)
    requires 0 < i <= |refs| && forall j :: 0 <= j < |refs| ==> refs[j].Str?
    requires Parents(w, f, refs[..i], stack).Failed?
    ensures Parents(w, f, refs, stack) == Parents(w, f, refs[..i], stack)
  {
    if i == |refs| {
      assert refs[..i] == refs;
    } else {
      var init := refs[..|refs| - 1];
      assert init[..i] == refs[..i];
      FailureSticks(w, f, init, i, stack);
    }
  }

  // ---------------------------------------------------------------------------
  // Which error ends a resolution
  // ---------------------------------------------------------------------------

  /** A list with at least one entry, each a text with more than whitespace in it. */
  predicate NamesParents(v: Value) {
    && v.List? && v.items != []
    && forall ref :: ref in v.items ==> ref.Str? && exists c :: c in ref.s && !Text.IsSpace(c)
  }

  lemma NamesParentsIff(v: Value)
    ensures RefsWellFormed(v) <==> NamesParents(v)
  {
    if v.List? {
      forall i | 0 <= i < |v.items| && v.items[i].Str?
        ensures IsBlank(v.items[i].s) <==> !exists c :: c in v.items[i].s && !Text.IsSpace(c)
      {
      }
      assert forall ref :: ref in v.items <==> exists i :: 0 <= i < |v.items| && v.items[i] == ref;
    }
  }

  /** What is said about the file itself, before its parents are looked at. */
  lemma {:induction false} FileOutcome(w: World, f: FilePath, stack: seq<FilePath>)
    ensures f in stack ==> ComposeExtends(w, f, stack) == Failed("E113")
    ensures f !in stack && f !in w.files ==> ComposeExtends(w, f, stack) == Failed("E020")
    ensures f !in stack && f in w.files ==>
              match w.files[f]
              case NotYaml => ComposeExtends(w, f, stack) == Failed("E001")
              case NotMapping => ComposeExtends(w, f, stack) == Failed("E010")
              case Doc(fields) =>
                if "extends" !in fields || fields["extends"] == Null
                then ComposeExtends(w, f, stack) == Resolved(fields)
                else if !NamesParents(fields["extends"]) then ComposeExtends(w, f, stack) == Failed("E110")
                else f !in w.rooted ==> ComposeExtends(w, f, stack) == Failed("E111")
  {
    if f in w.files && w.files[f].Doc? && "extends" in w.files[f].fields {
      NamesParentsIff(w.files[f].fields["extends"]);
    }
  }

  /** The file has parents to look at, and the first `k` of them could be merged. */
  ghost predicate ParentsDone(w: World, f: FilePath, stack: seq<FilePath>, k: nat) {
    && f !in stack && f in w.files && w.files[f].Doc? && f in w.rooted
    && "extends" in w.files[f].fields && NamesParents(w.files[f].fields["extends"])
    && k < |w.files[f].fields["extends"].items|
    && (k > 0 ==> ParentsMerged(w, f, w.files[f].fields["extends"].items[..k], stack + [f]).Resolved?)
  }

  function ParentsMerged(w: World, f: FilePath, refs: seq<Value>, stack: seq<FilePath>): Outcome {
    if refs != [] && forall i :: 0 <= i < |refs| ==> refs[i].Str? then Parents(w, f, refs, stack) else Failed("")
  }

  /** The first parent that cannot be had ends the resolution with its error, as does one that cannot be merged. */
  lemma {:induction false} FirstFailingParent(w: World, f: FilePath, stack: seq<FilePath>, k: nat)
    requires ParentsDone(w, f, stack, k)
    ensures var ref := w.files[f].fields["extends"].items[k].s;
            && ((f, ref) !in w.targets || w.targets[(f, ref)] == Outside ==>
                  ComposeExtends(w, f, stack) == Failed("E111"))
            && ((f, ref) in w.targets && w.targets[(f, ref)].Inside? ==>
                  var parent := w.targets[(f, ref)].path;
                  && (parent !in w.files ==> ComposeExtends(w, f, stack) == Failed("E112"))
                  && (parent in w.files && ComposeExtends(w, parent, stack + [f]).Failed? ==>
                        ComposeExtends(w, f, stack) == ComposeExtends(w, parent, stack + [f]))
                  && (parent in w.files && ComposeExtends(w, parent, stack + [f]).Resolved? && k > 0 &&
                        Overlay.MergeDocs(
                          ParentsMerged(w, f, w.files[f].fields["extends"].items[..k], stack + [f]).fields,
                          ComposeExtends(w, parent, stack + [f]).fields) == None ==>
                        ComposeExtends(w, f, stack) == Failed("E093")))
  {
    var refs := w.files[f].fields["extends"].items;
    NamesParentsIff(w.files[f].fields["extends"]);
    assert forall i :: 0 <= i < |refs| ==> refs[i].Str?;
    ParentsPrefix(w, f, refs, k, stack + [f]);
    assert ComposeExtends(w, f, stack) == ResolveAndMerge(w, f, w.files[f].fields, stack + [f]);
  }

  // ---------------------------------------------------------------------------
  // Cycles
  // ---------------------------------------------------------------------------

  /** `f` names `g` among its parents. */
  ghost predicate Link(w: World, f: FilePath, g: FilePath) {
    && f in w.files && w.files[f].Doc?
    && RefsWellFormed(ExtendsOf(w.files[f].fields))
    && exists ref :: ref in ExtendsOf(w.files[f].fields).items && TargetOf(w, f, ref.s) == Inside(g)
  }

  ghost predicate Chain(w: World, c: seq<FilePath>) {
    forall i :: 0 <= i < |c| - 1 ==> Link(w, c[i], c[i + 1])
  }

  /** Following `extends` from `f` can come back to a file already passed. */
  ghost predicate CycleFrom(w: World, f: FilePath) {
    exists c: seq<FilePath> :: c != [] && c[0] == f && Chain(w, c) && !Distinct(c)
  }

  lemma {:induction false} FailedParentFails(w: World, f: FilePath, refs: seq<Value>, stack: seq<FilePath>)
    returns (ref: Value)
    requires refs != [] && forall j :: 0 <= j < |refs| ==> refs[j].Str?
    requires Parents(w, f, refs, stack) == Failed("E113")
    ensures ref in refs && Parent(w, f, ref.s, stack) == Failed("E113")
  {
    ref := refs[|refs| - 1];
    if |refs| > 1 && Parents(w, f, refs[..|refs| - 1], stack).Failed? {
      ref := FailedParentFails(w, f, refs[..|refs| - 1], stack);
    }
  }

  /** A cycle report always comes with a chain that closes on itself. */
  lemma {:induction false} CycleReportIsReal(w: World, f: FilePath, stack: seq<FilePath>) returns (c: seq<FilePath>)
    requires ComposeExtends(w, f, stack) == Failed("E113") && Chain(w, stack + [f])
    ensures stack + [f] <= c && Chain(w, c) && !Distinct(c)
    decreases Unvisited(w, stack)
  {
    c := stack + [f];
    if f in stack {
      var i :| 0 <= i < |stack| && stack[i] == f;
      assert c[i] == c[|stack|];
    } else {
      var doc := w.files[f].fields;
      var ref := FailedParentFails(w, f, ExtendsOf(doc).items, stack + [f]);
      var g := TargetOf(w, f, ref.s).path;
      assert Link(w, f, g);
      assert Chain(w, c + [g]);
      assert f in Unvisited(w, stack) && f !in Unvisited(w, stack + [f]);
      c := CycleReportIsReal(w, g, stack + [f]);
    }
  }

  lemma {:induction false} EveryParentResolved(
    w: World, f: FilePath, refs: seq<Value>, stack: seq<FilePath>, ref: Value)
    requires ref in refs && forall j :: 0 <= j < |refs| ==> refs[j].Str?
    requires Parents(w, f, refs, stack).Resolved?
    ensures Parent(w, f, ref.s, stack).Resolved?
  {
    if |refs| > 1 && ref != refs[|refs| - 1] {
      EveryParentResolved(w, f, refs[..|refs| - 1], stack, ref);
    }
  }

  /** When resolution succeeds, no chain from the file repeats or meets the stack. */
  lemma {:induction false} SuccessMeansNoRepeat(w: World, f: FilePath, stack: seq<FilePath>, c: seq<FilePath>)
    requires ComposeExtends(w, f, stack).Resolved?
    requires c != [] && c[0] == f && Chain(w, c)
    ensures Distinct(c) && forall g :: g in c ==> g !in stack
    decreases |c|
  {
    if |c| > 1 {
      assert Link(w, c[0], c[1]);
      var items := ExtendsOf(w.files[f].fields).items;
      var ref :| ref in items && TargetOf(w, f, ref.s) == Inside(c[1]);
      EveryParentResolved(w, f, items, stack + [f], ref);
      forall i | 0 <= i < |c[1..]| - 1 ensures Link(w, c[1..][i], c[1..][i + 1]) {
        assert Link(w, c[i + 1], c[i + 2]);
      }
      SuccessMeansNoRepeat(w, c[1], stack + [f], c[1..]);
      forall g | g in c ensures g !in stack {
        assert g == f || g in c[1..];
      }
      forall i, j | 0 <= i < j < |c| ensures c[i] != c[j] {
        assert c[j] in c[1..];
        if i > 0 { assert c[1..][i - 1] != c[1..][j - 1]; }
      }
    }
  }

  /** Files whose references are well formed and stay among them, with sound module lists. */
  ghost predicate WellFormed(w: World, files: set<FilePath>) {
    forall f :: f in files ==>
      && f in w.files && w.files[f].Doc? && f in w.rooted
      && Overlay.WellShaped(Overlay.ModulesOf(w.files[f].fields))
      && var refs := ExtendsOf(w.files[f].fields);
         refs == Null || (RefsWellFormed(refs) &&
           forall ref :: ref in refs.items ==> TargetOf(w, f, ref.s).Inside? && TargetOf(w, f, ref.s).path in files)
  }

  ghost predicate ResolvedOrCycle(outcome: Outcome) {
    match outcome
    case Resolved(doc) => Overlay.WellShaped(Overlay.ModulesOf(doc))
    case Failed(code) => code == "E113"
  }

  lemma {:induction false} WellFormedOutcome(w: World, files: set<FilePath>, f: FilePath, stack: seq<FilePath>)
    requires WellFormed(w, files) && f in files
    ensures ResolvedOrCycle(ComposeExtends(w, f, stack))
    decreases Unvisited(w, stack), 1, 0
  {
    if f !in stack {
      var doc := w.files[f].fields;
      assert f in Unvisited(w, stack) && f !in Unvisited(w, stack + [f]);
      if ExtendsOf(doc) != Null {
        var items := ExtendsOf(doc).items;
        WellFormedParents(w, files, f, items, stack + [f]);
        assert Overlay.ModulesOf(doc - {"extends"}) == Overlay.ModulesOf(doc);
        var parents := Parents(w, f, items, stack + [f]);
        if parents.Resolved? { Overlay.MergeKeepsShape(parents.fields, doc - {"extends"}); }
      }
    }
  }

  lemma {:induction false} WellFormedParents(
    w: World, files: set<FilePath>, f: FilePath, refs: seq<Value>, stack: seq<FilePath>)
    requires WellFormed(w, files) && refs != []
    requires forall ref :: ref in refs ==>
             ref.Str? && TargetOf(w, f, ref.s).Inside? && TargetOf(w, f, ref.s).path in files
    ensures ResolvedOrCycle(Parents(w, f, refs, stack))
    decreases Unvisited(w, stack), 2, |refs|
  {
    var last := refs[|refs| - 1];
    WellFormedOutcome(w, files, TargetOf(w, f, last.s).path, stack);
    if |refs| > 1 {
      var init := refs[..|refs| - 1];
      WellFormedParents(w, files, f, init, stack);
      var merged, parent := Parents(w, f, init, stack), Parent(w, f, last.s, stack);
      if merged.Resolved? && parent.Resolved? {
        Overlay.MergeKeepsShape(merged.fields, parent.fields);
      }
    }
  }

  /** With well-formed references, resolution fails exactly on a reachable cycle, with E113. */
  lemma {:induction false} ResolvesIffNoCycle(w: World, files: set<FilePath>, f: FilePath)
    requires WellFormed(w, files) && f in files
    ensures ComposeExtends(w, f, []).Resolved? <==> !CycleFrom(w, f)
    ensures CycleFrom(w, f) ==> ComposeExtends(w, f, []) == Failed("E113")
  {
    WellFormedOutcome(w, files, f, []);
    if ComposeExtends(w, f, []).Resolved? {
      forall c: seq<FilePath> | c != [] && c[0] == f && Chain(w, c) ensures Distinct(c) {
        SuccessMeansNoRepeat(w, f, [], c);
      }
    } else {
      var c := CycleReportIsReal(w, f, []);
      assert c[0] == ([] + [f])[0];
    }
  }

  // ---------------------------------------------------------------------------
  // What resolution computes
  // ---------------------------------------------------------------------------

  /** The same composition without a stack, unfolded `depth` levels. */
  function Unfolded(w: World, f: FilePath, depth: nat): Outcome
    decreases depth, 0
  {
    if depth == 0 || f !in w.files || !w.files[f].Doc? then Failed("unfolding")
    else
      var doc := w.files[f].fields;
      var refs := ExtendsOf(doc);
      if refs == Null then Resolved(doc)
      else if !RefsWellFormed(refs) then Failed("unfolding")
      else FoldLeft(UnfoldedAll(w, f, refs.items, depth - 1) + [Resolved(doc - {"extends"})])
  }

  function UnfoldedAll(w: World, f: FilePath, refs: seq<Value>, depth: nat): seq<Outcome>
    requires forall i :: 0 <= i < |refs| ==> refs[i].Str?
    decreases depth, 1, |refs|
  {
    if refs == [] then []
    else
      UnfoldedAll(w, f, refs[..|refs| - 1], depth) +
      [match TargetOf(w, f, refs[|refs| - 1].s)
       case Outside => Failed("unfolding")
       case Inside(p) => Unfolded(w, p, depth)]
  }

  /** Left-to-right merge of documents, all of which must be there. */
  function FoldLeft(docs: seq<Outcome>): Outcome
    requires docs != []
  {
    var last := docs[|docs| - 1];
    if |docs| == 1 || last.Failed? then last
    else
      match FoldLeft(docs[..|docs| - 1])
      case Failed(code) => Failed(code)
      case Resolved(merged) => AsOutcome(Overlay.MergeDocs(merged, last.fields))
  }

  function AllResolved(docs: seq<Fields>): seq<Outcome> {
    seq(|docs|, i requires 0 <= i < |docs| => Resolved(docs[i]))
  }

  /** On documents that are all there it is their fold. */
  lemma {:induction false} FoldLeftIsFold(docs: seq<Fields>)
    requires docs != []
    ensures FoldLeft(AllResolved(docs)) == AsOutcome(Overlay.FoldDocs(docs))
  {
    var init, last := docs[..|docs| - 1], docs[|docs| - 1];
    if |docs| == 1 {
      assert AllResolved(docs) == [Resolved(docs[0])];
    } else {
      FoldLeftIsFold(init);
      FoldLeftChild(AllResolved(init), last);
      assert AllResolved(docs) == AllResolved(init) + [Resolved(last)];
      FoldFurther(docs);
    }
  }

  lemma {:induction false} FoldFurther(docs: seq<Fields>)
    requires |docs| > 1
    ensures AsOutcome(Overlay.FoldDocs(docs)) ==
            match AsOutcome(Overlay.FoldDocs(docs[..|docs| - 1]))
            case Failed(code) => Failed(code)
            case Resolved(merged) => AsOutcome(Overlay.MergeDocs(merged, docs[|docs| - 1]))
  {
  }

  ghost predicate FoldsTo(docs: seq<Outcome>, merged: Outcome) {
    docs != [] && FoldLeft(docs) == merged
  }

  /** Success yields the plain fold of merges, at any depth past the number of files. */
  lemma {:induction false} SuccessIsPlainFold(w: World, f: FilePath, stack: seq<FilePath>, depth: nat)
    requires ComposeExtends(w, f, stack).Resolved? && depth > |Unvisited(w, stack)|
    ensures Unfolded(w, f, depth) == ComposeExtends(w, f, stack)
    decreases Unvisited(w, stack), 1, 0
  {
    if ExtendsOf(w.files[f].fields) != Null {
      ExtendingFileIsPlainFold(w, f, stack, depth);
    }
  }

  lemma {:induction false} ExtendingFileIsPlainFold(w: World, f: FilePath, stack: seq<FilePath>, depth: nat)
    requires f in w.files && w.files[f].Doc? && f !in stack && f in w.rooted && depth > |Unvisited(w, stack)|
    requires RefsWellFormed(ExtendsOf(w.files[f].fields))
    requires Parents(w, f, ExtendsOf(w.files[f].fields).items, stack + [f]).Resolved?
    ensures Unfolded(w, f, depth) == ComposeExtends(w, f, stack)
    decreases Unvisited(w, stack), 0, 0
  {
    var items := ExtendsOf(w.files[f].fields).items;
    OneFewerUnvisited(w, f, stack);
    ParentsArePlainFold(w, f, items, stack + [f], depth - 1);
    ChildJoinsParents(w, f, stack, depth);
  }

  /** The parents' fold, with and without a stack. */
  ghost predicate ParentsFold(w: World, f: FilePath, refs: seq<Value>, stack: seq<FilePath>, depth: nat)
    requires refs != [] && forall i :: 0 <= i < |refs| ==> refs[i].Str?
  {
    FoldsTo(UnfoldedAll(w, f, refs, depth), Parents(w, f, refs, stack))
  }

  lemma {:induction false} ChildJoinsParents(w: World, f: FilePath, stack: seq<FilePath>, depth: nat)
    requires f in w.files && w.files[f].Doc? && f !in stack && f in w.rooted && depth > 0
    requires RefsWellFormed(ExtendsOf(w.files[f].fields))
    requires ParentsFold(w, f, ExtendsOf(w.files[f].fields).items, stack + [f], depth - 1)
    ensures Unfolded(w, f, depth) == ComposeExtends(w, f, stack)
  {
    var doc := w.files[f].fields;
    var items, child := ExtendsOf(doc).items, doc - {"extends"};
    var outs := UnfoldedAll(w, f, items, depth - 1);
    assert Unfolded(w, f, depth) == FoldLeft(outs + [Resolved(child)]);
    FoldLeftChild(outs, child);
    assert ComposeExtends(w, f, stack) == ResolveAndMerge(w, f, doc, stack + [f]);
  }

  lemma OneFewerUnvisited(w: World, f: FilePath, stack: seq<FilePath>)
    requires f in w.files && f !in stack
    ensures Unvisited(w, stack + [f]) < Unvisited(w, stack)
    ensures |Unvisited(w, stack)| == |Unvisited(w, stack + [f])| + 1
  {
    assert Unvisited(w, stack) == Unvisited(w, stack + [f]) + {f};
  }

  lemma {:induction false} FoldLeftChild(parents: seq<Outcome>, child: Fields)
    requires parents != []
    ensures FoldLeft(parents + [Resolved(child)]) ==
            match FoldLeft(parents)
            case Failed(code) => Failed(code)
            case Resolved(merged) => AsOutcome(Overlay.MergeDocs(merged, child))
  {
    assert (parents + [Resolved(child)])[..|parents|] == parents;
  }

  lemma {:induction false} ParentsArePlainFold(
    w: World, f: FilePath, refs: seq<Value>, stack: seq<FilePath>, depth: nat)
    requires refs != [] && forall i :: 0 <= i < |refs| ==> refs[i].Str?
    requires Parents(w, f, refs, stack).Resolved? && depth > |Unvisited(w, stack)|
    ensures ParentsFold(w, f, refs, stack, depth)
    decreases Unvisited(w, stack), 2, |refs|
  {
    var init, last := refs[..|refs| - 1], refs[|refs| - 1];
    var parent := Parent(w, f, last.s, stack);
    LastParentResolved(w, f, refs, stack);
    SuccessIsPlainFold(w, TargetOf(w, f, last.s).path, stack, depth);
    assert UnfoldedAll(w, f, refs, depth) == UnfoldedAll(w, f, init, depth) + [parent];
    if |refs| == 1 {
      assert UnfoldedAll(w, f, init, depth) == [];
      OneDocument(parent);
    } else {
      ParentsArePlainFold(w, f, init, stack, depth);
      OneMoreDocument(UnfoldedAll(w, f, init, depth), Parents(w, f, init, stack), parent);
    }
  }

  lemma {:induction false} LastParentResolved(w: World, f: FilePath, refs: seq<Value>, stack: seq<FilePath>)
    requires refs != [] && (forall i :: 0 <= i < |refs| ==> refs[i].Str?) && Parents(w, f, refs, stack).Resolved?
    ensures var last := refs[|refs| - 1];
            && Parent(w, f, last.s, stack).Resolved? && TargetOf(w, f, last.s).Inside?
            && Parent(w, f, last.s, stack) == ComposeExtends(w, TargetOf(w, f, last.s).path, stack)
    ensures |refs| > 1 ==>
              var init := Parents(w, f, refs[..|refs| - 1], stack);
              && init.Resolved?
              && Parents(w, f, refs, stack) ==
                 AsOutcome(Overlay.MergeDocs(init.fields, Parent(w, f, refs[|refs| - 1].s, stack).fields))
  {
  }

  lemma OneMoreDocument(docs: seq<Outcome>, merged: Outcome, last: Outcome)
    requires FoldsTo(docs, merged) && merged.Resolved? && last.Resolved?
    ensures FoldsTo(docs + [last], AsOutcome(Overlay.MergeDocs(merged.fields, last.fields)))
  {
    assert (docs + [last])[..|docs|] == docs;
  }

  lemma OneDocument(doc: Outcome)
    ensures FoldsTo([] + [doc], doc)
  {
  }

  /** A resolved document asks for no further parents. */
  lemma {:induction false} NoExtendsLeft(w: World, f: FilePath, stack: seq<FilePath>)
    requires ComposeExtends(w, f, stack).Resolved?
    ensures ExtendsOf(ComposeExtends(w, f, stack).fields) == Null
    decreases Unvisited(w, stack), 1, 0
  {
    var doc := w.files[f].fields;
    if ExtendsOf(doc) != Null {
      assert f in Unvisited(w, stack) && f !in Unvisited(w, stack + [f]);
      var items := ExtendsOf(doc).items;
      NoExtendsInParents(w, f, items, stack + [f]);
      MergeAddsNoExtends(Parents(w, f, items, stack + [f]).fields, doc - {"extends"});
    }
  }

  lemma {:induction false} NoExtendsInParents(w: World, f: FilePath, refs: seq<Value>, stack: seq<FilePath>)
    requires refs != [] && forall i :: 0 <= i < |refs| ==> refs[i].Str?
    requires Parents(w, f, refs, stack).Resolved?
    ensures ExtendsOf(Parents(w, f, refs, stack).fields) == Null
    decreases Unvisited(w, stack), 2, |refs|
  {
    var init, last := refs[..|refs| - 1], refs[|refs| - 1];
    NoExtendsLeft(w, TargetOf(w, f, last.s).path, stack);
    if |refs| > 1 {
      NoExtendsInParents(w, f, init, stack);
      MergeAddsNoExtends(Parents(w, f, init, stack).fields, Parent(w, f, last.s, stack).fields);
    }
  }

  lemma MergeAddsNoExtends(base: Fields, overlay: Fields)
    requires ExtendsOf(base) == Null && ExtendsOf(overlay) == Null && Overlay.MergeDocs(base, overlay).Some?
    ensures ExtendsOf(Overlay.MergeDocs(base, overlay).value) == Null
  {
    Overlay.MergeFieldsAt(Overlay.BaseRest(base), Overlay.OverlayRest(overlay));
  }
}
