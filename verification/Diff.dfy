// The structural difference of two resolved profiles (cli/main.py): computed key by key,
// with lists of identified entries compared by id, and checked against patching.
module Diff {
  import opened Document
  import Overlay

  /** One step of a change's path: a mapping key, or the id of a list entry. */
  datatype Step = Key(key: string) | Id(id: Value)

  type Path = seq<Step>

  datatype Change =
    | Added(path: Path, new_: Value)
    | Removed(path: Path, old_: Value)
    | Changed(path: Path, old_: Value, new_: Value)
  {
    function Under(prefix: Path): Change {
      this.(path := prefix + path)
    }

    function Inverse(): Change {
      match this
      case Added(p, n) => Removed(p, n)
      case Removed(p, o) => Added(p, o)
      case Changed(p, o, n) => Changed(p, n, o)
    }
  }

  // ---------------------------------------------------------------------------
  // What the comparison sees of a value
  // ---------------------------------------------------------------------------

  /** The value up to Python's `==`, under which `True` and `False` are 1 and 0. */
  function Plain(v: Value): Value {
    match v
    case Bool(b) => Num(if b then 1 else 0)
    case List(items) => List(seq(|items|, i requires 0 <= i < |items| => Plain(items[i])))
    case Map(fields) => Map(map k | k in fields :: Plain(fields[k]))
    case _ => v
  }

  predicate IsEntry(v: Value) {
    v.Map? && "id" in v.fields
  }

  function EntryId(v: Value): Value
    requires IsEntry(v)
  {
    Plain(v.fields["id"])
  }

  predicate Entries(items: seq<Value>) {
    forall i :: 0 <= i < |items| ==> IsEntry(items[i])
  }

  predicate IdKeyed(v: Value) {
    v.List? && v.items != [] && Entries(v.items)
  }

  /** The entries by id; of several with the same id, the last. */
  function EntriesById(items: seq<Value>): (m: map<Value, Value>)
    requires Entries(items)
    ensures forall k :: k in m ==> m[k] in items
  {
    if items == [] then map[]
    else
      var last := items[|items| - 1];
      EntriesById(items[..|items| - 1])[EntryId(last) := last]
  }

  datatype Shape = Opaque | Mapping | Listing

  function ShapeOf(v: Value): Shape {
    if v.Map? then Mapping else if IdKeyed(v) then Listing else Opaque
  }

  /** The parts a value is compared by. */
  function Parts(v: Value): (parts: map<Step, Value>)
    ensures forall s :: s in parts ==> parts[s] < v
  {
    if v.Map? then map k | k in v.fields :: Key(k) := v.fields[k]
    else if IdKeyed(v) then
      var entries := EntriesById(v.items);
      map k | k in entries :: Id(k) := entries[k]
    else map[]
  }

  /** A value with the order of its id-keyed lists forgotten. */
  datatype Canon = Whole(value: Value) | Tree(shape: Shape, parts: map<Step, Canon>)

  function Normal(v: Value): Canon {
    if ShapeOf(v) == Opaque then Whole(Plain(v))
    else Tree(ShapeOf(v), map s | s in Parts(v) :: Normal(Parts(v)[s]))
  }

  // ---------------------------------------------------------------------------
  // The difference, and patching with it
  // ---------------------------------------------------------------------------

  function Difference(a: Value, b: Value): set<Change>
    decreases a, 2
  {
    if ShapeOf(a) == ShapeOf(b) != Opaque then DifferenceAt(a, b, Parts(a).Keys + Parts(b).Keys)
    else if Plain(a) != Plain(b) then {Changed([], a, b)}
    else {}
  }

  function DifferenceAt(a: Value, b: Value, steps: set<Step>): set<Change>
    requires steps <= Parts(a).Keys + Parts(b).Keys
    decreases a, 1
  {
    set s, c | s in steps && c in DifferenceAtStep(a, b, s) :: c
  }

  function DifferenceAtStep(a: Value, b: Value, s: Step): set<Change>
    requires s in Parts(a) || s in Parts(b)
    decreases a, 0
  {
    var p, q := Parts(a), Parts(b);
    if s !in p then {Added([s], q[s])}
    else if s !in q then {Removed([s], p[s])}
    else set c | c in Difference(p[s], q[s]) :: c.Under([s])
  }

  ghost function Below(changes: set<Change>, s: Step): set<Change> {
    set c | c in changes && c.path != [] && c.path[0] == s :: Inner(c)
  }

  ghost predicate AddsAt(changes: set<Change>, s: Step) {
    exists v :: Added([s], v) in changes
  }

  ghost function NewAt(changes: set<Change>, s: Step): Value
    requires AddsAt(changes, s)
  {
    var v :| Added([s], v) in changes; v
  }

  ghost predicate RemovesAt(changes: set<Change>, s: Step) {
    exists v :: Removed([s], v) in changes
  }

  ghost predicate ReplacedBy(changes: set<Change>, v: Value) {
    exists old_ :: Changed([], old_, v) in changes
  }

  ghost function FirstSteps(changes: set<Change>): set<Step> {
    set c | c in changes && c.path != [] :: c.path[0]
  }

  /** Carry out a set of changes. */
  ghost function Patch(c: Canon, changes: set<Change>): Canon {
    if exists v :: ReplacedBy(changes, v) then
      var v :| ReplacedBy(changes, v);
      Normal(v)
    else if c.Whole? then c
    else
      Tree(c.shape, map s | s in c.parts.Keys + FirstSteps(changes) &&
           (AddsAt(changes, s) || (s in c.parts && !RemovesAt(changes, s))) ::
                      if AddsAt(changes, s) then Normal(NewAt(changes, s)) else Patch(c.parts[s], Below(changes, s)))
  }

  // ---------------------------------------------------------------------------
  // The change list
  // ---------------------------------------------------------------------------

  ghost function Placed(changes: set<Change>, path: Path): set<Change> {
    set c | c in changes :: c.Under(path)
  }

  /** `grown` is `before` with exactly these changes appended, each once. */
  ghost predicate Appended(before: seq<Change>, grown: seq<Change>, changes: set<Change>) {
    && before <= grown
    && (forall c :: c in grown[|before|..] <==> c in changes)
    && (forall i, j :: |before| <= i < j < |grown| ==> grown[i] != grown[j])
  }

  /** The changes at some of the steps have been appended. */
  ghost predicate AppendedUpTo(
    before: seq<Change>, grown: seq<Change>, path: Path, a: Value, b: Value, done: set<Step>)
    requires done <= Parts(a).Keys + Parts(b).Keys
  {
    Appended(before, grown, Placed(DifferenceAt(a, b, done), path))
  }

  lemma NoStepYet(before: seq<Change>, path: Path, a: Value, b: Value)
    ensures AppendedUpTo(before, before, path, a, b, {})
  {
    assert DifferenceAt(a, b, {}) == {};
  }

  lemma {:induction false} AllStepsDone(before: seq<Change>, grown: seq<Change>, path: Path, a: Value, b: Value)
    requires Comparable(a, b) && AppendedUpTo(before, grown, path, a, b, Parts(a).Keys + Parts(b).Keys)
    ensures Appended(before, grown, Placed(Difference(a, b), path))
  {
  }

  class ChangeList {
    var changes: seq<Change>

    constructor ()
      ensures changes == []
    {
      changes := [];
    }

    method DiffValues(path: Path, a: Value, b: Value)
      modifies this
      ensures Appended(old(changes), changes, Placed(Difference(a, b), path))
      decreases a, 2
    {
      if a.Map? && b.Map? {
        DiffParts(path, a, b);
      } else if IdKeyed(a) && IdKeyed(b) {
        DiffParts(path, a, b);
      } else if Plain(a) != Plain(b) {
        changes := changes + [Changed(path, a, b)];
        assert Placed({Changed([], a, b)}, path) == {Changed(path, a, b)} by {
          assert Changed([], a, b).Under(path) == Changed(path, a, b);
        }
      }
    }

    /** The loop over the keys, or the ids, of both sides. */
    method DiffParts(path: Path, a: Value, b: Value)
      requires Comparable(a, b)
      modifies this
      ensures Appended(old(changes), changes, Placed(Difference(a, b), path))
      decreases a, 1
    {
      var all := Parts(a).Keys + Parts(b).Keys;
      var todo := all;
      ghost var before, done: set<Step> := changes, {};
      NoStepYet(before, path, a, b);
      while todo != {}
        invariant todo <= all && done == all - todo
        invariant AppendedUpTo(before, changes, path, a, b, done)
        decreases todo
      {
        var s :| s in todo;
        ghost var mid := changes;
        DiffPart(path, a, b, s);
        StepAppended(before, mid, changes, path, a, b, done, s);
        todo, done := todo - {s}, done + {s};
      }
      assert done == all;
      AllStepsDone(before, changes, path, a, b);
    }

    /** One key, or one id. */
    method DiffPart(path: Path, a: Value, b: Value, s: Step)
      requires s in Parts(a) || s in Parts(b)
      modifies this
      ensures Appended(old(changes), changes, Placed(DifferenceAtStep(a, b, s), path))
      decreases a, 0
    {
      var p, q := Parts(a), Parts(b);
      var child := path + [s];
      if s !in p {
        changes := changes + [Added(child, q[s])];
      } else if s !in q {
        changes := changes + [Removed(child, p[s])];
      } else {
        DiffValues(child, p[s], q[s]);
      }
      PartAppended(old(changes), changes, path, a, b, s);
    }
  }

  lemma {:induction false} StepAppended(
    before: seq<Change>, mid: seq<Change>, grown: seq<Change>, path: Path,
    a: Value, b: Value, done: set<Step>, s: Step)
    requires done <= Parts(a).Keys + Parts(b).Keys && s in Parts(a).Keys + Parts(b).Keys - done
    requires AppendedUpTo(before, mid, path, a, b, done)
    requires Appended(mid, grown, Placed(DifferenceAtStep(a, b, s), path))
    ensures AppendedUpTo(before, grown, path, a, b, done + {s})
  {
    OneMoreStep(path, a, b, done, s);
    AppendedTwice(before, mid, grown, Placed(DifferenceAt(a, b, done), path), Placed(DifferenceAtStep(a, b, s), path));
  }

  lemma {:induction false} StartWithStep(a: Value, b: Value, s: Step)
    requires s in Parts(a) || s in Parts(b)
    ensures forall c :: c in DifferenceAtStep(a, b, s) ==> c.path != [] && c.path[0] == s
  {
    if s in Parts(a) && s in Parts(b) {
      UnderStep(Difference(Parts(a)[s], Parts(b)[s]), s);
    }
  }

  lemma UnderStep(changes: set<Change>, s: Step)
    ensures forall d :: d in (set c | c in changes :: c.Under([s])) ==> d.path != [] && d.path[0] == s
  {
    forall c: Change ensures c.Under([s]).path != [] && c.Under([s]).path[0] == s {
      assert ([s] + c.path)[0] == s;
    }
  }

  lemma {:induction false} PartAppended(
    before: seq<Change>, grown: seq<Change>, path: Path, a: Value, b: Value, s: Step)
    requires s in Parts(a) || s in Parts(b)
    requires s !in Parts(a) ==> grown == before + [Added(path + [s], Parts(b)[s])]
    requires s in Parts(a) && s !in Parts(b) ==> grown == before + [Removed(path + [s], Parts(a)[s])]
    requires s in Parts(a) && s in Parts(b) ==>
             Appended(before, grown, Placed(Difference(Parts(a)[s], Parts(b)[s]), path + [s]))
    ensures Appended(before, grown, Placed(DifferenceAtStep(a, b, s), path))
  {
    var p, q := Parts(a), Parts(b);
    if s !in p {
      assert Placed(DifferenceAtStep(a, b, s), path) == {Added(path + [s], q[s])} by {
        assert Added([s], q[s]).Under(path) == Added(path + [s], q[s]);
      }
    } else if s !in q {
      assert Placed(DifferenceAtStep(a, b, s), path) == {Removed(path + [s], p[s])} by {
        assert Removed([s], p[s]).Under(path) == Removed(path + [s], p[s]);
      }
    } else {
      PlacedTwice(Difference(p[s], q[s]), path, s);
    }
  }

  lemma PlacedTwice(changes: set<Change>, path: Path, s: Step)
    ensures Placed(Placed(changes, [s]), path) == Placed(changes, path + [s])
  {
    forall c | c in changes ensures c.Under([s]).Under(path) == c.Under(path + [s]) {
      assert path + ([s] + c.path) == path + [s] + c.path;
    }
    forall d | d in Placed(changes, path + [s]) ensures d in Placed(Placed(changes, [s]), path) {
      var c :| c in changes && d == c.Under(path + [s]);
      assert c.Under([s]) in Placed(changes, [s]);
    }
  }

  lemma AppendedTwice(before: seq<Change>, mid: seq<Change>, grown: seq<Change>, x: set<Change>, y: set<Change>)
    requires Appended(before, mid, x) && Appended(mid, grown, y) && x !! y
    ensures Appended(before, grown, x + y)
  {
    var u, v := mid[|before|..], grown[|mid|..];
    assert grown[|before|..] == u + v;
    forall i, j | |before| <= i < j < |grown| ensures grown[i] != grown[j] {
      if i < |mid| <= j {
        assert grown[i] == u[i - |before|] && grown[j] == v[j - |mid|];
        assert u[i - |before|] in x && v[j - |mid|] in y;
      }
    }
  }

  lemma {:induction false} OneMoreStep(path: Path, a: Value, b: Value, done: set<Step>, s: Step)
    requires done <= Parts(a).Keys + Parts(b).Keys && s in Parts(a).Keys + Parts(b).Keys - done
    ensures Placed(DifferenceAt(a, b, done), path) !! Placed(DifferenceAtStep(a, b, s), path)
    ensures Placed(DifferenceAt(a, b, done + {s}), path) ==
            Placed(DifferenceAt(a, b, done), path) + Placed(DifferenceAtStep(a, b, s), path)
  {
    StepsApart(a, b, done, s);
    OneStepMore(a, b, done, s);
    PlacedApart(DifferenceAt(a, b, done), DifferenceAtStep(a, b, s), path);
  }

  lemma {:induction false} OneStepMore(a: Value, b: Value, done: set<Step>, s: Step)
    requires done <= Parts(a).Keys + Parts(b).Keys && s in Parts(a).Keys + Parts(b).Keys
    ensures DifferenceAt(a, b, done + {s}) == DifferenceAt(a, b, done) + DifferenceAtStep(a, b, s)
  {
  }

  lemma {:induction false} StepsApart(a: Value, b: Value, done: set<Step>, s: Step)
    requires done <= Parts(a).Keys + Parts(b).Keys && s in Parts(a).Keys + Parts(b).Keys - done
    ensures DifferenceAt(a, b, done) !! DifferenceAtStep(a, b, s)
  {
    StartWithStep(a, b, s);
    forall c | c in DifferenceAt(a, b, done) ensures c.path != [] && c.path[0] in done {
      var t :| t in done && c in DifferenceAtStep(a, b, t);
      StartWithStep(a, b, t);
    }
  }

  lemma UnderIsInjective(c: Change, d: Change, path: Path)
    ensures c.Under(path) == d.Under(path) ==> c == d
  {
    assert (path + c.path)[|path|..] == c.path && (path + d.path)[|path|..] == d.path;
  }

  lemma PlacedApart(x: set<Change>, y: set<Change>, path: Path)
    requires x !! y
    ensures Placed(x, path) !! Placed(y, path)
    ensures Placed(x + y, path) == Placed(x, path) + Placed(y, path)
  {
    forall c, d | c in x && d in y ensures c.Under(path) != d.Under(path) {
      UnderIsInjective(c, d, path);
    }
  }

  // ---------------------------------------------------------------------------
  // Patching back
  // ---------------------------------------------------------------------------

  lemma {:induction false} PlainKeepsKeys(v: Value)
    ensures Plain(v).Map? <==> v.Map?
    ensures v.Map? ==> Plain(v).fields.Keys == v.fields.Keys
  {
  }

  /** Equal values are compared the same way. */
  lemma {:induction false} EqualMeansSameShape(a: Value, b: Value)
    requires Plain(a) == Plain(b)
    ensures ShapeOf(a) == ShapeOf(b)
  {
    if a.List? && b.List? {
      assert |Plain(a).items| == |a.items| == |b.items|;
      forall i | 0 <= i < |a.items|
        ensures IsEntry(a.items[i]) <==> IsEntry(b.items[i])
      {
        assert Plain(a.items[i]) == Plain(a).items[i] == Plain(b).items[i] == Plain(b.items[i]);
        PlainKeepsKeys(a.items[i]);
        PlainKeepsKeys(b.items[i]);
        assert a.items[i].Map? ==> ("id" in a.items[i].fields <==> "id" in a.items[i].fields.Keys);
        assert b.items[i].Map? ==> ("id" in b.items[i].fields <==> "id" in b.items[i].fields.Keys);
      }
    }
  }

  predicate Comparable(a: Value, b: Value) {
    ShapeOf(a) == ShapeOf(b) != Opaque
  }

  lemma {:induction false} DifferenceHasSteps(a: Value, b: Value, steps: set<Step>, c: Change)
    requires steps <= Parts(a).Keys + Parts(b).Keys
    ensures c in DifferenceAt(a, b, steps) <==>
            c.path != [] && c.path[0] in steps && c in DifferenceAtStep(a, b, c.path[0])
  {
    if c in DifferenceAt(a, b, steps) {
      var s :| s in steps && c in DifferenceAtStep(a, b, s);
      StartWithStep(a, b, s);
    }
  }

  /** Whole values are replaced at the top; parts change further down, step by step. */
  lemma {:induction false} DifferenceAtTop(a: Value, b: Value, c: Change)
    requires c.path == []
    ensures c in Difference(a, b) <==> !Comparable(a, b) && Plain(a) != Plain(b) && c == Changed([], a, b)
  {
    DifferenceHasSteps(a, b, Parts(a).Keys + Parts(b).Keys, c);
  }

  lemma {:induction false} DifferenceFurtherDown(a: Value, b: Value, c: Change)
    requires c.path != []
    ensures c in Difference(a, b) <==>
            && Comparable(a, b)
            && (c.path[0] in Parts(a) || c.path[0] in Parts(b))
            && c in DifferenceAtStep(a, b, c.path[0])
  {
    DifferenceHasSteps(a, b, Parts(a).Keys + Parts(b).Keys, c);
  }

  function Inner(c: Change): Change
    requires c.path != []
  {
    c.(path := c.path[1..])
  }

  lemma InnerOfUnder(c: Change, s: Step)
    ensures c.Under([s]).path != [] && c.Under([s]).path[0] == s && Inner(c.Under([s])) == c
    ensures c.path != [] ==> Inner(c).Under([c.path[0]]) == c
  {
    assert ([s] + c.path)[1..] == c.path;
  }

  lemma {:induction false} DifferenceAtCommonStep(a: Value, b: Value, c: Change)
    requires c.path != [] && c.path[0] in Parts(a) && c.path[0] in Parts(b)
    ensures c in DifferenceAtStep(a, b, c.path[0]) <==> Inner(c) in Difference(Parts(a)[c.path[0]], Parts(b)[c.path[0]])
  {
    var s := c.path[0];
    InnerOfUnder(c, s);
    if c in DifferenceAtStep(a, b, s) {
      var d :| d in Difference(Parts(a)[s], Parts(b)[s]) && c == d.Under([s]);
      InnerOfUnder(d, s);
    }
  }

  /** What the set of changes says at one step. */
  lemma {:induction false} AddsAndRemoves(a: Value, b: Value, s: Step)
    requires Comparable(a, b)
    ensures AddsAt(Difference(a, b), s) <==> s in Parts(b) && s !in Parts(a)
    ensures AddsAt(Difference(a, b), s) ==> NewAt(Difference(a, b), s) == Parts(b)[s]
    ensures RemovesAt(Difference(a, b), s) <==> s in Parts(a) && s !in Parts(b)
  {
    forall c: Change | c.path == [s] && !c.Changed?
      ensures c in Difference(a, b) <==> OneSided(Parts(a), Parts(b), s, c) {
      AddedOrRemoved(a, b, s, c);
    }
    AddsAndRemovesOf(Difference(a, b), Parts(a), Parts(b), s);
  }

  /** A change that adds or removes what only one side has. */
  predicate OneSided(p: map<Step, Value>, q: map<Step, Value>, s: Step, c: Change) {
    || (s in q && s !in p && c == Added([s], q[s]))
    || (s in p && s !in q && c == Removed([s], p[s]))
  }

  lemma AddsAndRemovesOf(all: set<Change>, p: map<Step, Value>, q: map<Step, Value>, s: Step)
    requires forall c: Change :: c.path == [s] && !c.Changed? ==> (c in all <==> OneSided(p, q, s, c))
    ensures AddsAt(all, s) <==> s in q && s !in p
    ensures AddsAt(all, s) ==> NewAt(all, s) == q[s]
    ensures RemovesAt(all, s) <==> s in p && s !in q
  {
    assert s in q && s !in p ==> Added([s], q[s]) in all;
    assert s in p && s !in q ==> Removed([s], p[s]) in all;
  }

  lemma {:induction false} AddedOrRemoved(a: Value, b: Value, s: Step, c: Change)
    requires Comparable(a, b) && c.path == [s] && !c.Changed?
    ensures c in Difference(a, b) <==> OneSided(Parts(a), Parts(b), s, c)
  {
    DifferenceFurtherDown(a, b, c);
    if s in Parts(a) && s in Parts(b) {
      NothingMissing(a, b, c);
    }
  }

  lemma {:induction false} NothingMissing(a: Value, b: Value, c: Change)
    requires |c.path| == 1 && !c.Changed? && c.path[0] in Parts(a) && c.path[0] in Parts(b)
    ensures c !in DifferenceAtStep(a, b, c.path[0])
  {
    DifferenceAtCommonStep(a, b, c);
    DifferenceAtTop(Parts(a)[c.path[0]], Parts(b)[c.path[0]], Inner(c));
  }

  lemma {:induction false} DifferenceBelow(a: Value, b: Value, s: Step)
    requires Comparable(a, b) && s in Parts(a) && s in Parts(b)
    ensures Below(Difference(a, b), s) == Difference(Parts(a)[s], Parts(b)[s])
  {
    var all, inner := Difference(a, b), Difference(Parts(a)[s], Parts(b)[s]);
    forall c | c in all && c.path != [] && c.path[0] == s ensures Inner(c) in inner {
      DifferenceFurtherDown(a, b, c);
      DifferenceAtCommonStep(a, b, c);
    }
    forall c | c in inner ensures c in Below(all, s) {
      InnerOfUnder(c, s);
      DifferenceFurtherDown(a, b, c.Under([s]));
      DifferenceAtCommonStep(a, b, c.Under([s]));
    }
  }

  /** Carrying out the difference turns the old value into the new one. */
  lemma {:induction false} PatchRebuilds(a: Value, b: Value)
    ensures Patch(Normal(a), Difference(a, b)) == Normal(b)
    decreases a
  {
    var all := Difference(a, b);
    if Comparable(a, b) {
      var p, q := Parts(a), Parts(b);
      forall v ensures !ReplacedBy(all, v) {
        forall old_ ensures Changed([], old_, v) !in all { DifferenceAtTop(a, b, Changed([], old_, v)); }
      }
      forall s | s in p && s in q ensures Patch(Normal(p[s]), Below(all, s)) == Normal(q[s]) {
        DifferenceBelow(a, b, s);
        PatchRebuilds(p[s], q[s]);
      }
      forall s ensures AddsAt(all, s) <==> s in q && s !in p
               ensures AddsAt(all, s) ==> NewAt(all, s) == q[s]
               ensures RemovesAt(all, s) <==> s in p && s !in q
      {
        AddsAndRemoves(a, b, s);
      }
      PatchOfTree(Normal(a), Normal(b).parts, all);
    } else if Plain(a) != Plain(b) {
      assert ReplacedBy(all, b);
    } else {
      EqualMeansSameShape(a, b);
      assert forall v :: !ReplacedBy(all, v);
    }
  }

  lemma {:induction false} PatchOfTree(c: Canon, goal: map<Step, Canon>, all: set<Change>)
    requires c.Tree? && forall v :: !ReplacedBy(all, v)
    requires forall s :: AddsAt(all, s) <==> s in goal && s !in c.parts
    requires forall s :: AddsAt(all, s) ==> Normal(NewAt(all, s)) == goal[s]
    requires forall s :: RemovesAt(all, s) <==> s in c.parts && s !in goal
    requires forall s :: s in c.parts && s in goal ==> Patch(c.parts[s], Below(all, s)) == goal[s]
    ensures Patch(c, all) == Tree(c.shape, goal)
  {
    forall s | AddsAt(all, s) ensures s in FirstSteps(all) {
      var v :| Added([s], v) in all;
      assert Added([s], v).path[0] == s;
    }
    assert Patch(c, all).parts == goal;
  }

  lemma {:induction false} NoChangesPatchNothing(c: Canon)
    ensures Patch(c, {}) == c
  {
    if c.Tree? {
      forall s | s in c.parts ensures Patch(c.parts[s], Below({}, s)) == c.parts[s] {
        assert Below({}, s) == {};
        NoChangesPatchNothing(c.parts[s]);
      }
      assert Patch(c, {}).parts == c.parts;
    }
  }

  /** Nothing is reported exactly when the values agree up to the order of id-keyed lists. */
  lemma {:induction false} NoChangesIff(a: Value, b: Value)
    ensures Difference(a, b) == {} <==> Normal(a) == Normal(b)
    decreases a
  {
    PatchRebuilds(a, b);
    NoChangesPatchNothing(Normal(a));
    if Normal(a) == Normal(b) && ShapeOf(a) != Opaque {
      var p, q := Parts(a), Parts(b);
      assert p.Keys == Normal(a).parts.Keys == q.Keys;
      forall s | s in p ensures DifferenceAtStep(a, b, s) == {} {
        assert Normal(p[s]) == Normal(a).parts[s] == Normal(q[s]);
        NoChangesIff(p[s], q[s]);
      }
    }
  }

  // ---------------------------------------------------------------------------
  // Equality
  // ---------------------------------------------------------------------------

  /** The number a value is to Python, where booleans are 1 and 0. */
  function NumberOf(v: Value): Option<int> {
    match v
    case Num(n) => Some(n)
    case Bool(true) => Some(1)
    case Bool(false) => Some(0)
    case _ => None
  }

  /** Python's `a == b`. */
  predicate PyEqual(a: Value, b: Value) {
    match (a, b)
    case (Null, Null) => true
    case (Str(s), Str(t)) => s == t
    case (List(x), List(y)) => |x| == |y| && forall i :: 0 <= i < |x| ==> PyEqual(x[i], y[i])
    case (Map(f), Map(g)) => f.Keys == g.Keys && forall k :: k in f ==> PyEqual(f[k], g[k])
    case _ => NumberOf(a).Some? && NumberOf(a) == NumberOf(b)
  }

  lemma SameItems(x: seq<Value>, y: seq<Value>)
    ensures Plain(List(x)) == Plain(List(y)) <==>
            |x| == |y| && forall i :: 0 <= i < |x| ==> Plain(x[i]) == Plain(y[i])
  {
    var p, q := Plain(List(x)).items, Plain(List(y)).items;
    assert |p| == |x| && |q| == |y|;
    assert (forall i :: 0 <= i < |p| ==> p[i] == Plain(x[i])) && (forall i :: 0 <= i < |q| ==> q[i] == Plain(y[i]));
    assert p == q <==> |p| == |q| && forall i :: 0 <= i < |p| ==> p[i] == q[i];
  }

  lemma SameFields(f: Fields, g: Fields)
    ensures Plain(Map(f)) == Plain(Map(g)) <==> f.Keys == g.Keys && forall k :: k in f ==> Plain(f[k]) == Plain(g[k])
  {
    var p, q := Plain(Map(f)).fields, Plain(Map(g)).fields;
    assert p.Keys == f.Keys && q.Keys == g.Keys;
    assert p == q <==> p.Keys == q.Keys && forall k :: k in p ==> p[k] == q[k];
  }

  lemma {:induction false} PlainIffEqual(a: Value, b: Value)
    ensures Plain(a) == Plain(b) <==> PyEqual(a, b)
    decreases a
  {
    match (a, b)
    case (List(x), List(y)) =>
      forall i | 0 <= i < |x| && i < |y| ensures Plain(x[i]) == Plain(y[i]) <==> PyEqual(x[i], y[i]) {
        PlainIffEqual(x[i], y[i]);
      }
      SameItems(x, y);
    case (Map(f), Map(g)) =>
      forall k | k in f && k in g ensures Plain(f[k]) == Plain(g[k]) <==> PyEqual(f[k], g[k]) {
        PlainIffEqual(f[k], g[k]);
      }
      SameFields(f, g);
    case _ =>
  }

  /** No list that would be compared by id is met on the way down. */
  predicate NoIdLists(v: Value) {
    match v
    case Map(fields) => forall k :: k in fields ==> NoIdLists(fields[k])
    case List(items) => items == [] || exists i :: 0 <= i < |items| && !(items[i].Map? && "id" in items[i].fields)
    case _ => true
  }

  lemma FieldsShowNothing(f: Fields, g: Fields)
    ensures Difference(Map(f), Map(g)) == {} <==>
            f.Keys == g.Keys && forall k :: k in f ==> Difference(f[k], g[k]) == {}
  {
    var a, b := Map(f), Map(g);
    forall k | k in f && k in g ensures DifferenceAtStep(a, b, Key(k)) == {} <==> Difference(f[k], g[k]) == {} {
      if c :| c in Difference(f[k], g[k]) { assert c.Under([Key(k)]) in DifferenceAtStep(a, b, Key(k)); }
    }
    forall k | k in f.Keys + g.Keys ensures DifferenceAtStep(a, b, Key(k)) <= Difference(a, b) {
      assert Key(k) in Parts(a).Keys + Parts(b).Keys;
    }
    if f.Keys != g.Keys { OneSidedKeyShows(f, g); }
  }

  lemma OneSidedKeyShows(f: Fields, g: Fields)
    requires f.Keys != g.Keys
    ensures Difference(Map(f), Map(g)) != {}
  {
    var k :| k in f.Keys + g.Keys && !(k in f && k in g);
    var c := if k in f then Removed([Key(k)], f[k]) else Added([Key(k)], g[k]);
    var steps := Parts(Map(f)).Keys + Parts(Map(g)).Keys;
    assert Key(k) in steps && c in DifferenceAtStep(Map(f), Map(g), Key(k));
    assert c in DifferenceAt(Map(f), Map(g), steps);
  }

  /** Where no list is compared by id, nothing is reported exactly for values equal in Python. */
  lemma {:induction false} SilentIffEqual(a: Value, b: Value)
    requires NoIdLists(a)
    ensures Difference(a, b) == {} <==> PyEqual(a, b)
    decreases a
  {
    if a.Map? && b.Map? {
      forall k | k in a.fields && k in b.fields
        ensures Difference(a.fields[k], b.fields[k]) == {} <==> PyEqual(a.fields[k], b.fields[k])
      {
        SilentIffEqual(a.fields[k], b.fields[k]);
      }
      FieldsShowNothing(a.fields, b.fields);
    } else {
      assert !IdKeyed(a);
      PlainIffEqual(a, b);
    }
  }

  /** No boolean anywhere in the value. */
  predicate NoBools(v: Value) {
    match v
    case Bool(_) => false
    case Map(fields) => forall k :: k in fields ==> NoBools(fields[k])
    case List(items) => forall i :: 0 <= i < |items| ==> NoBools(items[i])
    case _ => true
  }

  lemma {:induction false} PyEqualIsEqual(a: Value, b: Value)
    requires NoBools(a) && NoBools(b)
    ensures PyEqual(a, b) <==> a == b
    decreases a
  {
    match (a, b)
    case (List(x), List(y)) =>
      forall i | 0 <= i < |x| && i < |y| ensures PyEqual(x[i], y[i]) <==> x[i] == y[i] {
        PyEqualIsEqual(x[i], y[i]);
      }
      assert x == y <==> |x| == |y| && forall i :: 0 <= i < |x| ==> x[i] == y[i];
    case (Map(f), Map(g)) =>
      forall k | k in f && k in g ensures PyEqual(f[k], g[k]) <==> f[k] == g[k] {
        PyEqualIsEqual(f[k], g[k]);
      }
      assert f == g <==> f.Keys == g.Keys && forall k :: k in f ==> f[k] == g[k];
    case _ =>
  }

  /** And, without booleans, for the same value. */
  lemma {:induction false} SilentIffSame(a: Value, b: Value)
    requires NoIdLists(a) && NoBools(a) && NoBools(b)
    ensures Difference(a, b) == {} <==> a == b
  {
    SilentIffEqual(a, b);
    PyEqualIsEqual(a, b);
  }

  /** Comparing the other way round reports the inverse of every change. */
  lemma {:induction false} SwapInverts(a: Value, b: Value, c: Change)
    ensures c in Difference(b, a) <==> c.Inverse() in Difference(a, b)
    decreases a
  {
    if c.path == [] {
      DifferenceAtTop(a, b, c.Inverse());
      DifferenceAtTop(b, a, c);
    } else {
      DifferenceFurtherDown(a, b, c.Inverse());
      DifferenceFurtherDown(b, a, c);
      var s := c.path[0];
      if s in Parts(a) && s in Parts(b) {
        SwapInverts(Parts(a)[s], Parts(b)[s], Inner(c));
        SwapBelow(a, b, c);
      } else if s in Parts(a) || s in Parts(b) {
        SwapOneSided(a, b, c);
      }
    }
  }

  lemma {:induction false} SwapOneSided(a: Value, b: Value, c: Change)
    requires c.path != [] && (c.path[0] in Parts(a) <==> c.path[0] !in Parts(b))
    ensures c in DifferenceAtStep(b, a, c.path[0]) <==> c.Inverse() in DifferenceAtStep(a, b, c.path[0])
  {
  }

  lemma {:induction false} SwapBelow(a: Value, b: Value, c: Change)
    requires c.path != [] && c.path[0] in Parts(a) && c.path[0] in Parts(b)
    requires var p, q := Parts(a)[c.path[0]], Parts(b)[c.path[0]]; Inner(c) in Difference(q, p) <==>
             Inner(c).Inverse() in Difference(p, q)
    ensures c in DifferenceAtStep(b, a, c.path[0]) <==> c.Inverse() in DifferenceAtStep(a, b, c.path[0])
  {
    DifferenceAtCommonStep(a, b, c.Inverse());
    DifferenceAtCommonStep(b, a, c);
    assert Inner(c.Inverse()) == Inner(c).Inverse();
  }

  // ---------------------------------------------------------------------------
  // Lists compared by id
  // ---------------------------------------------------------------------------

  /** Of the entries with an id, the last one counts. */
  lemma {:induction false} EntriesOfBoth(x: seq<Value>, y: seq<Value>)
    requires Entries(x) && Entries(y)
    ensures Entries(x + y) && EntriesById(x + y) == EntriesById(x) + EntriesById(y)
  {
    if y == [] {
      assert x + y == x;
    } else {
      var init, last := y[..|y| - 1], y[|y| - 1];
      assert init + [last] == y;
      EntriesOfBoth(x, init);
      OneMoreOfBoth(x, init, last);
      assert x + (init + [last]) == (x + init) + [last];
    }
  }

  lemma {:induction false} OneMoreOfBoth(x: seq<Value>, init: seq<Value>, last: Value)
    requires Entries(x) && Entries(init) && IsEntry(last) && Entries(x + init)
    requires EntriesById(x + init) == EntriesById(x) + EntriesById(init)
    ensures Entries(init + [last]) && Entries((x + init) + [last])
    ensures EntriesById((x + init) + [last]) == EntriesById(x) + EntriesById(init + [last])
  {
    OneMoreEntry(init, last);
    OneMoreEntry(x + init, last);
    AddThenSet(EntriesById(x), EntriesById(init), EntryId(last), last);
  }

  lemma AddThenSet(x: map<Value, Value>, y: map<Value, Value>, k: Value, v: Value)
    ensures (x + y)[k := v] == x + y[k := v]
  {
  }

  lemma OneEntry(e: Value)
    requires IsEntry(e)
    ensures EntriesById([e]) == map[EntryId(e) := e]
  {
    assert [e][..0] == [] && EntriesById([e][..0]) == map[];
  }

  lemma {:induction false} OneMoreEntry(init: seq<Value>, last: Value)
    requires Entries(init) && IsEntry(last)
    ensures Entries(init + [last]) && EntriesById(init + [last]) == EntriesById(init)[EntryId(last) := last]
  {
    assert (init + [last])[..|init|] == init;
  }

  lemma SetBeforehand(x: map<Value, Value>, y: map<Value, Value>, k: Value, v: Value)
    requires k in y
    ensures x[k := v] + y == x + y
  {
  }

  lemma {:induction false} NormalOfEntries(x: seq<Value>, y: seq<Value>)
    requires Entries(x) && Entries(y) && x != [] && y != [] && EntriesById(x) == EntriesById(y)
    ensures Normal(List(x)) == Normal(List(y))
  {
    assert Parts(List(x)) == Parts(List(y));
  }

  lemma {:induction false} IdIsListed(items: seq<Value>, i: nat)
    requires Entries(items) && i < |items|
    ensures EntryId(items[i]) in EntriesById(items)
  {
    var init, last := items[..|items| - 1], items[|items| - 1];
    OneMoreEntry(init, last);
    assert init + [last] == items;
    if i < |init| { IdIsListed(init, i); }
  }

  lemma {:induction false} EntryUnderItsId(items: seq<Value>, k: Value)
    requires Entries(items) && k in EntriesById(items)
    ensures IsEntry(EntriesById(items)[k]) && EntryId(EntriesById(items)[k]) == k
  {
    var init, last := items[..|items| - 1], items[|items| - 1];
    if k != EntryId(last) { EntryUnderItsId(init, k); }
  }

  /** Wherever it stands, an entry that another with the same id follows is not compared with anything. */
  lemma EarlierEntryHidden(before: seq<Value>, e: Value, after: seq<Value>)
    requires Entries(before) && IsEntry(e) && Entries(after)
    requires exists j :: 0 <= j < |after| && EntryId(after[j]) == EntryId(e)
    ensures Difference(List(before + [e] + after), List(before + after)) == {}
  {
    var j :| 0 <= j < |after| && EntryId(after[j]) == EntryId(e);
    IdIsListed(after, j);
    EntryOverridden(before, e, after);
    NormalOfEntries(before + [e] + after, before + after);
    NoChangesIff(List(before + [e] + after), List(before + after));
  }

  lemma {:induction false} EntryOverridden(before: seq<Value>, e: Value, after: seq<Value>)
    requires Entries(before) && IsEntry(e) && Entries(after) && EntryId(e) in EntriesById(after)
    ensures Entries(before + [e] + after) && Entries(before + after)
    ensures EntriesById(before + [e] + after) == EntriesById(before + after)
  {
    OneMoreEntry(before, e);
    EntriesOfBoth(before + [e], after);
    EntriesOfBoth(before, after);
    SetBeforehand(EntriesById(before), EntriesById(after), EntryId(e), e);
  }

  /** Entries with the same id are alike; distinct ids are the usual case of this. */
  ghost predicate AgreeingIds(items: seq<Value>)
    requires Entries(items)
  {
    forall i, j :: 0 <= i < |items| && 0 <= j < |items| && EntryId(items[i]) == EntryId(items[j]) ==>
      Normal(items[i]) == Normal(items[j])
  }

  /** What the comparison sees of each entry is the entry itself. */
  lemma {:induction false} EntryCounts(items: seq<Value>, i: nat)
    requires Entries(items) && AgreeingIds(items) && i < |items|
    ensures EntryId(items[i]) in EntriesById(items)
    ensures Normal(EntriesById(items)[EntryId(items[i])]) == Normal(items[i])
  {
    IdIsListed(items, i);
    EntryUnderItsId(items, EntryId(items[i]));
    var e := EntriesById(items)[EntryId(items[i])];
    assert e in items;
    var j :| 0 <= j < |items| && items[j] == e;
  }

  ghost predicate HasLike(e: Value, items: seq<Value>)
    requires IsEntry(e) && Entries(items)
  {
    exists j :: 0 <= j < |items| && EntryId(items[j]) == EntryId(e) && Normal(items[j]) == Normal(e)
  }

  /** Every entry of `x` has its like in `y`, with the same id. */
  ghost predicate FoundIn(x: seq<Value>, y: seq<Value>)
    requires Entries(x) && Entries(y)
  {
    forall i :: 0 <= i < |x| ==> HasLike(x[i], y)
  }

  /** What a list shows under an id. */
  lemma {:induction false} PartOfList(items: seq<Value>, s: Step)
    requires Entries(items) && items != []
    ensures s in Normal(List(items)).parts <==> s.Id? && s.id in EntriesById(items)
    ensures s in Normal(List(items)).parts ==> Normal(List(items)).parts[s] == Normal(EntriesById(items)[s.id])
  {
    assert ShapeOf(List(items)) == Listing;
    if s.Id? && s.id in EntriesById(items) { assert s == Id(s.id) && s in Parts(List(items)); }
  }

  lemma {:induction false} LikeIsPart(e: Value, items: seq<Value>)
    requires IsEntry(e) && Entries(items) && items != [] && AgreeingIds(items)
    ensures HasLike(e, items) <==>
            Id(EntryId(e)) in Normal(List(items)).parts && Normal(List(items)).parts[Id(EntryId(e))] == Normal(e)
  {
    var s := Id(EntryId(e));
    PartOfList(items, s);
    if j :| 0 <= j < |items| && EntryId(items[j]) == EntryId(e) && Normal(items[j]) == Normal(e) {
      EntryCounts(items, j);
    }
    if s in Normal(List(items)).parts {
      EntryUnderItsId(items, s.id);
      assert EntriesById(items)[s.id] in items;
    }
  }

  ghost predicate PartOf(c: Canon, d: Canon)
    requires c.Tree? && d.Tree?
  {
    forall s :: s in c.parts ==> s in d.parts && d.parts[s] == c.parts[s]
  }

  lemma StepHasEntry(items: seq<Value>, s: Step) returns (i: nat)
    requires Entries(items) && items != [] && s in Normal(List(items)).parts
    ensures i < |items| && s == Id(EntryId(items[i])) && Normal(List(items)).parts[s] == Normal(items[i])
  {
    PartOfList(items, s);
    EntryUnderItsId(items, s.id);
    assert EntriesById(items)[s.id] in items;
    i :| 0 <= i < |items| && items[i] == EntriesById(items)[s.id];
  }

  lemma FoundAreParts(x: seq<Value>, y: seq<Value>)
    requires Entries(x) && Entries(y) && x != [] && y != [] && AgreeingIds(x) && AgreeingIds(y)
    ensures FoundIn(x, y) <==> PartOf(Normal(List(x)), Normal(List(y)))
  {
    var p, q := Normal(List(x)), Normal(List(y));
    if FoundIn(x, y) {
      forall s | s in p.parts ensures s in q.parts && q.parts[s] == p.parts[s] {
        var i := StepHasEntry(x, s);
        LikeIsPart(x[i], y);
      }
    }
    if PartOf(p, q) { PartsAreFound(x, y); }
  }

  lemma PartsAreFound(x: seq<Value>, y: seq<Value>)
    requires Entries(x) && Entries(y) && x != [] && y != [] && AgreeingIds(x)
    requires PartOf(Normal(List(x)), Normal(List(y)))
    ensures FoundIn(x, y)
  {
    forall i | 0 <= i < |x| ensures HasLike(x[i], y) {
      EntryCounts(x, i);
      PartOfList(x, Id(EntryId(x[i])));
      var j := StepHasEntry(y, Id(EntryId(x[i])));
    }
  }

  /** Where entries with the same id are alike, two lists differ in nothing exactly when they hold the same entries. */
  lemma OnlyOrderForgotten(x: seq<Value>, y: seq<Value>)
    requires Entries(x) && Entries(y) && x != [] && y != []
    requires AgreeingIds(x) && AgreeingIds(y)
    ensures Difference(List(x), List(y)) == {} <==> FoundIn(x, y) && FoundIn(y, x)
  {
    NoChangesIff(List(x), List(y));
    FoundAreParts(x, y);
    FoundAreParts(y, x);
    SameParts(Normal(List(x)), Normal(List(y)));
  }

  /** Every entry has an id, and no two have equal ones. */
  predicate DistinctIds(items: seq<Value>) {
    && (forall i :: 0 <= i < |items| ==> items[i].Map? && "id" in items[i].fields)
    && (forall i, j :: 0 <= i < j < |items| ==> !PyEqual(items[i].fields["id"], items[j].fields["id"]))
  }

  /** Each entry of one list has one in the other with an equal id to which it shows no change. */
  predicate MatchedBy(x: seq<Value>, y: seq<Value>)
    requires DistinctIds(x) && DistinctIds(y)
  {
    forall e :: e in x ==>
      exists f :: f in y && PyEqual(e.fields["id"], f.fields["id"]) && Difference(e, f) == {}
  }

  /** Lists of entries with distinct ids are compared by these, in whatever order they are. */
  lemma ListsComparedById(x: seq<Value>, y: seq<Value>)
    requires x != [] && y != [] && DistinctIds(x) && DistinctIds(y)
    ensures Difference(List(x), List(y)) == {} <==> MatchedBy(x, y) && MatchedBy(y, x)
  {
    DistinctIdsAgree(x);
    DistinctIdsAgree(y);
    OnlyOrderForgotten(x, y);
    FoundIffMatched(x, y);
    FoundIffMatched(y, x);
  }

  lemma DistinctIdsAgree(x: seq<Value>)
    requires DistinctIds(x)
    ensures Entries(x) && AgreeingIds(x)
  {
    forall i, j | 0 <= i < |x| && 0 <= j < |x| && EntryId(x[i]) == EntryId(x[j]) ensures i == j {
      PlainIffEqual(x[i].fields["id"], x[j].fields["id"]);
      PlainIffEqual(x[j].fields["id"], x[i].fields["id"]);
    }
  }

  lemma FoundIffMatched(x: seq<Value>, y: seq<Value>)
    requires DistinctIds(x) && DistinctIds(y) && Entries(x) && Entries(y)
    ensures FoundIn(x, y) <==> MatchedBy(x, y)
  {
    forall e | e in x
      ensures HasLike(e, y) <==>
              exists f :: f in y && PyEqual(e.fields["id"], f.fields["id"]) && Difference(e, f) == {}
    {
      forall f | f in y
        ensures EntryId(f) == EntryId(e) && Normal(f) == Normal(e) <==>
                PyEqual(e.fields["id"], f.fields["id"]) && Difference(e, f) == {}
      {
        PlainIffEqual(e.fields["id"], f.fields["id"]);
        NoChangesIff(e, f);
      }
    }
    assert forall e :: e in x <==> exists i :: 0 <= i < |x| && x[i] == e;
  }

  lemma SameParts(c: Canon, d: Canon)
    requires c.Tree? && d.Tree? && c.shape == d.shape
    ensures c == d <==> PartOf(c, d) && PartOf(d, c)
  {
    if PartOf(c, d) && PartOf(d, c) {
      assert c.parts == d.parts;
    }
  }

  /** The entries without those that another with the same id follows. */
  function LastOnes(items: seq<Value>): seq<Value>
    requires Entries(items)
  {
    if items == [] then []
    else if EntryId(items[0]) in EntriesById(items[1..]) then LastOnes(items[1..])
    else [items[0]] + LastOnes(items[1..])
  }

  /** An entry that counts. */
  predicate IsLast(e: Value, items: seq<Value>)
    requires Entries(items)
  {
    IsEntry(e) && EntryId(e) in EntriesById(items) && EntriesById(items)[EntryId(e)] == e
  }

  lemma SetInFront(m: map<Value, Value>, k: Value, v: Value)
    ensures map[k := v] + m == if k in m then m else m[k := v]
  {
  }

  lemma {:induction false} EntryInFront(e: Value, items: seq<Value>)
    requires IsEntry(e) && Entries(items)
    ensures Entries([e] + items)
    ensures EntriesById([e] + items) ==
            if EntryId(e) in EntriesById(items) then EntriesById(items) else EntriesById(items)[EntryId(e) := e]
  {
    OneEntry(e);
    EntriesOfBoth([e], items);
    SetInFront(EntriesById(items), EntryId(e), e);
  }

  lemma {:induction false} LastOnesCount(items: seq<Value>)
    requires Entries(items)
    ensures Entries(LastOnes(items)) && EntriesById(LastOnes(items)) == EntriesById(items)
    ensures forall e :: e in LastOnes(items) ==> IsLast(e, items)
  {
    if items == [] {
    } else {
      var e, rest := items[0], items[1..];
      assert items == [e] + rest;
      LastOnesCount(rest);
      EntryInFront(e, rest);
      EntryInFront(e, LastOnes(rest));
      forall d | d in LastOnes(items) ensures IsLast(d, items) {
        assert d in LastOnes(rest) ==> IsLast(d, rest);
      }
    }
  }

  /** A list shows all its entries: what differs from it in nothing holds the like of each. */
  ghost predicate HidesNothing(x: seq<Value>)
    requires Entries(x)
  {
    forall y :: Entries(y) && y != [] && Difference(List(x), List(y)) == {} ==> FoundIn(x, y)
  }

  lemma AgreeingHidesNothing(x: seq<Value>, y: seq<Value>)
    requires Entries(x) && x != [] && AgreeingIds(x)
    requires Entries(y) && y != [] && Difference(List(x), List(y)) == {}
    ensures FoundIn(x, y)
  {
    NoChangesIff(List(x), List(y));
    PartsAreFound(x, y);
  }

  lemma {:induction false} LastOnesDifferInNothing(x: seq<Value>)
    requires Entries(x) && x != []
    ensures Entries(LastOnes(x)) && LastOnes(x) != []
    ensures Difference(List(x), List(LastOnes(x))) == {}
  {
    LastOnesCount(x);
    IdIsListed(x, 0);
    NormalOfEntries(x, LastOnes(x));
    NoChangesIff(List(x), List(LastOnes(x)));
  }

  lemma {:induction false} LikeOfLast(x: seq<Value>, i: nat)
    requires Entries(x) && i < |x| && Entries(LastOnes(x)) && HasLike(x[i], LastOnes(x))
    ensures EntryId(x[i]) in EntriesById(x) && Normal(EntriesById(x)[EntryId(x[i])]) == Normal(x[i])
  {
    var y := LastOnes(x);
    var j :| 0 <= j < |y| && EntryId(y[j]) == EntryId(x[i]) && Normal(y[j]) == Normal(x[i]);
    LastOnesCount(x);
    assert y[j] in y && IsLast(y[j], x);
  }

  /** It does exactly when entries with the same id are alike. */
  lemma HidesNothingIff(x: seq<Value>)
    requires Entries(x) && x != []
    ensures HidesNothing(x) <==> AgreeingIds(x)
  {
    if AgreeingIds(x) {
      forall y | Entries(y) && y != [] && Difference(List(x), List(y)) == {} ensures FoundIn(x, y) {
        AgreeingHidesNothing(x, y);
      }
    }
    if HidesNothing(x) {
      LastOnesDifferInNothing(x);
      assert FoundIn(x, LastOnes(x));
      forall i | 0 <= i < |x|
        ensures EntryId(x[i]) in EntriesById(x) && Normal(EntriesById(x)[EntryId(x[i])]) == Normal(x[i])
      {
        LikeOfLast(x, i);
      }
    }
  }

  // ---------------------------------------------------------------------------
  // A profile against what an overlay makes of it
  // ---------------------------------------------------------------------------

  ghost predicate HasRemoved(changes: set<Change>) {
    exists c :: c in changes && c.Removed?
  }

  /** No id-keyed list within reach of the comparison. */
  predicate NoListing(v: Value) {
    !IdKeyed(v) && (v.Map? ==> forall k :: k in v.fields ==> NoListing(v.fields[k]))
  }

  lemma {:induction false} WholesRemoveNothing(a: Value, b: Value)
    ensures !Comparable(a, b) ==> !HasRemoved(Difference(a, b))
  {
  }

  lemma {:induction false} KeptPartsRemoveNothing(a: Value, b: Value)
    requires Comparable(a, b)
    requires forall s :: s in Parts(a) ==> s in Parts(b) && !HasRemoved(Difference(Parts(a)[s], Parts(b)[s]))
    ensures !HasRemoved(Difference(a, b))
  {
    forall c | c in Difference(a, b) ensures !c.Removed? {
      if c.Removed? { RemovedWhere(a, b, c); }
    }
  }

  lemma {:induction false} RemovedWhere(a: Value, b: Value, c: Change)
    requires c in Difference(a, b) && c.Removed?
    ensures c.path != [] && c.path[0] in Parts(a)
    ensures c.path[0] in Parts(b) ==> HasRemoved(Difference(Parts(a)[c.path[0]], Parts(b)[c.path[0]]))
  {
    if c.path == [] {
      DifferenceAtTop(a, b, c);
    } else {
      DifferenceFurtherDown(a, b, c);
      if c.path[0] in Parts(a) && c.path[0] in Parts(b) {
        DifferenceAtCommonStep(a, b, c);
        assert Inner(c).Removed?;
      }
    }
  }

  lemma {:induction false} RemovedFurtherDown(a: Value, b: Value, s: Step)
    requires Comparable(a, b) && s in Parts(a)
    requires s !in Parts(b) || HasRemoved(Difference(Parts(a)[s], Parts(b)[s]))
    ensures HasRemoved(Difference(a, b))
  {
    if s in Parts(b) {
      var d :| d in Difference(Parts(a)[s], Parts(b)[s]) && d.Removed?;
      InnerOfUnder(d, s);
      DifferenceFurtherDown(a, b, d.Under([s]));
      DifferenceAtCommonStep(a, b, d.Under([s]));
    } else {
      AddedOrRemoved(a, b, s, Removed([s], Parts(a)[s]));
    }
  }

  lemma {:induction false} SameRemovesNothing(a: Value)
    ensures !HasRemoved(Difference(a, a))
  {
    NoChangesIff(a, a);
  }

  lemma {:induction false} MergeRemovesNothing(a: Value, overlay: Value)
    requires NoListing(a)
    ensures !HasRemoved(Difference(a, Overlay.Merge(a, overlay)))
    decreases a
  {
    var b := Overlay.Merge(a, overlay);
    if a.Map? && overlay.Map? {
      forall s | s in Parts(a) ensures s in Parts(b) && !HasRemoved(Difference(Parts(a)[s], Parts(b)[s])) {
        var k := s.key;
        if k in overlay.fields {
          MergeRemovesNothing(a.fields[k], overlay.fields[k]);
        } else {
          SameRemovesNothing(a.fields[k]);
        }
      }
      KeptPartsRemoveNothing(a, b);
    } else {
      WholesRemoveNothing(a, b);
    }
  }

  /** A list with one entry of another id lacks the first. */
  lemma OtherListRemoves(items: seq<Value>) returns (overlay: Value)
    requires Entries(items) && items != []
    ensures HasRemoved(Difference(List(items), Overlay.Merge(List(items), overlay)))
  {
    var k := EntryId(items[0]);
    var other := Map(map["id" := if k == Num(0) then Num(1) else Num(0)]);
    overlay := List([other]);
    OneEntry(other);
    IdIsListed(items, 0);
    IdIsPart(items, k);
    IdIsPart([other], k);
    RemovedFurtherDown(List(items), overlay, Id(k));
  }

  lemma {:induction false} IdIsPart(items: seq<Value>, k: Value)
    requires Entries(items) && items != []
    ensures ShapeOf(List(items)) == Listing && (Id(k) in Parts(List(items)) <==> k in EntriesById(items))
  {
  }

  lemma {:induction false} SomeOverlayRemoves(a: Value) returns (overlay: Value)
    requires !NoListing(a)
    ensures HasRemoved(Difference(a, Overlay.Merge(a, overlay)))
  {
    if IdKeyed(a) {
      overlay := OtherListRemoves(a.items);
    } else {
      var k :| k in a.fields && !NoListing(a.fields[k]);
      var inner := SomeOverlayRemoves(a.fields[k]);
      overlay := Map(map[k := inner]);
      assert Key(k) in Parts(a);
      RemovedFurtherDown(a, Overlay.Merge(a, overlay), Key(k));
    }
  }

  ghost predicate OverlayRemoves(a: Value, overlay: Value) {
    HasRemoved(Difference(a, Overlay.Merge(a, overlay)))
  }

  /** No overlay ever makes the difference report a removal exactly when no list is compared by id. */
  lemma {:induction false} MergeNeverRemovesIff(a: Value)
    ensures (forall overlay :: !OverlayRemoves(a, overlay)) <==> NoListing(a)
  {
    if NoListing(a) {
      forall overlay ensures !OverlayRemoves(a, overlay) {
        MergeRemovesNothing(a, overlay);
      }
    } else {
      var overlay := SomeOverlayRemoves(a);
      assert OverlayRemoves(a, overlay);
    }
  }

  ghost predicate SameById(entries: map<Value, Value>, modules: Fields) {
    && (forall k :: k in entries <==> k.Str? && k.s in modules)
    && (forall k :: k in modules ==> entries[Str(k)] == modules[k])
  }

  lemma OneMoreById(entries: map<Value, Value>, modules: Fields, k: string, v: Value)
    requires SameById(entries, modules)
    ensures SameById(entries[Str(k) := v], modules[k := v])
  {
  }

  /** Unique string ids: the entries compared are the modules themselves. */
  lemma {:induction false} ModulesAreEntries(items: seq<Value>)
    requires Overlay.WellShapedItems(items)
    ensures Entries(items) && SameById(EntriesById(items), Overlay.ById(items))
  {
    if items == [] {
    } else {
      var init, last := items[..|items| - 1], items[|items| - 1];
      assert items == init + [last];
      Overlay.OneMoreItem(init, last);
      ModulesAreEntries(init);
      OneMoreModule(init, last);
    }
  }

  lemma {:induction false} OneMoreModule(init: seq<Value>, last: Value)
    requires Overlay.WellShapedItems(init) && Overlay.WellShapedItems(init + [last]) && Overlay.HasId(last)
    requires Overlay.ById(init + [last]) == Overlay.ById(init)[Overlay.IdOf(last) := last]
    requires Entries(init) && SameById(EntriesById(init), Overlay.ById(init))
    ensures Entries(init + [last]) && SameById(EntriesById(init + [last]), Overlay.ById(init + [last]))
  {
    OneMoreEntry(init, last);
    assert EntryId(last) == Str(Overlay.IdOf(last));
    OneMoreById(EntriesById(init), Overlay.ById(init), Overlay.IdOf(last), last);
  }

  /** Modules are merged by id, so none of the base's is missed afterwards. */
  lemma MergedModulesRemoveNothing(base: seq<Value>, overlay: seq<Value>)
    requires Overlay.WellShapedItems(base) && Overlay.WellShapedItems(overlay)
    requires forall i :: 0 <= i < |base| ==> NoListing(base[i])
    ensures !HasRemoved(Difference(List(base), List(Overlay.MergedModules(base, overlay))))
  {
    var merged := Overlay.MergedModules(base, overlay);
    Overlay.MergedModulesById(base, overlay);
    var b, o, m := Overlay.ById(base), Overlay.ById(overlay), Overlay.ById(merged);
    ModulesAreEntries(base);
    ModulesAreEntries(merged);
    Overlay.MergeFieldsAt(b, o);
    if Comparable(List(base), List(merged)) {
      forall s | s in Parts(List(base))
        ensures s in Parts(List(merged)) && !HasRemoved(Difference(Parts(List(base))[s], Parts(List(merged))[s]))
      {
        var k := s.id.s;
        ModuleIsItem(base, k);
        assert Str(k) in EntriesById(merged) && Id(Str(k)) in Parts(List(merged));
        if k in o { MergeRemovesNothing(b[k], o[k]); } else { SameRemovesNothing(b[k]); }
      }
      KeptPartsRemoveNothing(List(base), List(merged));
    } else {
      WholesRemoveNothing(List(base), List(merged));
    }
  }

  lemma {:induction false} ModuleIsItem(items: seq<Value>, k: string)
    requires Overlay.WellShapedItems(items) && k in Overlay.ById(items)
    ensures Overlay.ById(items)[k] in items
  {
    var i :| 0 <= i < |items| && Overlay.Ids(items)[i] == k;
  }

  /** `spec.modules` is the only list of the profile that is compared by id. */
  ghost predicate OnlyModulesListed(base: Fields)
    requires Overlay.WellShaped(Overlay.ModulesOf(base))
  {
    && NoListing(Map(Overlay.BaseRest(base)))
    && forall i :: 0 <= i < |Overlay.ModulesOf(base).items| ==> NoListing(Overlay.ModulesOf(base).items[i])
  }

  /** The overlay replaces a spec that holds more than modules by something that is no mapping. */
  predicate SpecDropped(base: Fields, overlay: Fields)
    requires "spec" in base && base["spec"].Map?
  {
    "spec" in overlay && !overlay["spec"].Map? && exists k :: k in base["spec"].fields && k != "modules"
  }

  lemma SpecPart(base: Fields, overlay: Fields)
    requires Overlay.SpecIsMapping(base)
    requires Overlay.WellShaped(Overlay.ModulesOf(base)) && Overlay.WellShaped(Overlay.ModulesOf(overlay))
    requires OnlyModulesListed(base)
    ensures var doc := Overlay.MergeDocs(base, overlay).value;
            && Overlay.SpecIsMapping(doc)
            && (HasRemoved(Difference(base["spec"], doc["spec"])) <==> SpecDropped(base, overlay))
  {
    var doc := Overlay.MergeDocs(base, overlay).value;
    Overlay.MergeKeepsShape(base, overlay);
    if SpecDropped(base, overlay) {
      var k :| k in base["spec"].fields && k != "modules";
      DroppedSpecIsBare(base, overlay);
      assert Key(k) in Parts(base["spec"]) && Key(k) !in Parts(doc["spec"]);
      RemovedFurtherDown(base["spec"], doc["spec"], Key(k));
    } else {
      SpecKeysKept(base, overlay, doc["spec"]);
    }
  }

  lemma DroppedSpecIsBare(base: Fields, overlay: Fields)
    requires Overlay.SpecIsMapping(base) && SpecDropped(base, overlay)
    requires Overlay.WellShaped(Overlay.ModulesOf(base)) && Overlay.WellShaped(Overlay.ModulesOf(overlay))
    ensures var doc := Overlay.MergeDocs(base, overlay).value;
            Overlay.SpecIsMapping(doc) && doc["spec"].fields.Keys == {"modules"}
  {
    Overlay.MergeFieldsAt(Overlay.BaseRest(base), Overlay.OverlayRest(overlay));
  }

  lemma {:induction false} SpecKeysKept(base: Fields, overlay: Fields, spec: Value)
    requires Overlay.SpecIsMapping(base)
    requires Overlay.WellShaped(Overlay.ModulesOf(base)) && Overlay.WellShaped(Overlay.ModulesOf(overlay))
    requires OnlyModulesListed(base) && !SpecDropped(base, overlay)
    requires Overlay.SpecIsMapping(Overlay.MergeDocs(base, overlay).value)
    requires spec == Overlay.MergeDocs(base, overlay).value["spec"]
    ensures !HasRemoved(Difference(base["spec"], spec))
  {
    var p, q := Parts(base["spec"]), Parts(spec);
    forall s | s in p ensures s in q && !HasRemoved(Difference(p[s], q[s])) {
      SpecKeyKept(base, overlay, s.key);
    }
    KeptPartsRemoveNothing(base["spec"], spec);
  }

  lemma SpecKeyKept(base: Fields, overlay: Fields, k: string)
    requires Overlay.SpecIsMapping(base)
    requires Overlay.WellShaped(Overlay.ModulesOf(base)) && Overlay.WellShaped(Overlay.ModulesOf(overlay))
    requires OnlyModulesListed(base) && !SpecDropped(base, overlay) && k in base["spec"].fields
    ensures var doc := Overlay.MergeDocs(base, overlay).value;
            && k in doc["spec"].fields && !HasRemoved(Difference(base["spec"].fields[k], doc["spec"].fields[k]))
  {
    if k == "modules" {
      MergedModulesRemoveNothing(Overlay.ModulesOf(base).items, Overlay.ModulesOf(overlay).items);
    } else {
      OtherKeyKept(base, overlay, k);
    }
  }

  lemma OtherKeyKept(base: Fields, overlay: Fields, k: string)
    requires Overlay.SpecIsMapping(base)
    requires Overlay.WellShaped(Overlay.ModulesOf(base)) && Overlay.WellShaped(Overlay.ModulesOf(overlay))
    requires OnlyModulesListed(base) && !SpecDropped(base, overlay) && k in base["spec"].fields && k != "modules"
    ensures var doc := Overlay.MergeDocs(base, overlay).value;
            && k in doc["spec"].fields && !HasRemoved(Difference(base["spec"].fields[k], doc["spec"].fields[k]))
  {
    var x, y := Overlay.BaseRest(base), Overlay.OverlayRest(overlay);
    Overlay.MergeFieldsAt(x, y);
    NoListingBelow(Map(x), "spec");
    NoListingBelow(x["spec"], k);
    if "spec" in overlay && k in overlay["spec"].fields {
      Overlay.MergeFieldsAt(x["spec"].fields, y["spec"].fields);
      MergeRemovesNothing(base["spec"].fields[k], overlay["spec"].fields[k]);
    } else {
      SameRemovesNothing(base["spec"].fields[k]);
    }
  }

  lemma {:induction false} NoListingBelow(v: Value, k: string)
    requires NoListing(v) && v.Map? && k in v.fields
    ensures NoListing(v.fields[k])
  {
  }

  lemma TopKeyKept(base: Fields, overlay: Fields, k: string)
    requires Overlay.WellShaped(Overlay.ModulesOf(base)) && Overlay.WellShaped(Overlay.ModulesOf(overlay))
    requires OnlyModulesListed(base) && k in base && k != "spec"
    ensures var doc := Overlay.MergeDocs(base, overlay).value;
            k in doc && !HasRemoved(Difference(base[k], doc[k]))
  {
    Overlay.MergeFieldsAt(Overlay.BaseRest(base), Overlay.OverlayRest(overlay));
    NoListingBelow(Map(Overlay.BaseRest(base)), k);
    if k in overlay { MergeRemovesNothing(base[k], overlay[k]); } else { SameRemovesNothing(base[k]); }
  }

  /** Comparing a profile with its overlay merge reports a removal exactly when the spec was dropped. */
  lemma MergeDocsRemovesIff(base: Fields, overlay: Fields)
    requires Overlay.SpecIsMapping(base)
    requires Overlay.WellShaped(Overlay.ModulesOf(base)) && Overlay.WellShaped(Overlay.ModulesOf(overlay))
    requires OnlyModulesListed(base)
    ensures HasRemoved(Difference(Map(base), Map(Overlay.MergeDocs(base, overlay).value))) <==>
            SpecDropped(base, overlay)
  {
    var doc := Overlay.MergeDocs(base, overlay).value;
    SpecPart(base, overlay);
    TopLevelRemoves(base, overlay, doc);
  }

  /** It does for any profile with a setting under `spec`, once an overlay leaves its own `spec` empty. */
  lemma {:induction false} NullSpecRemoves(k: string, v: Value)
    requires k != "modules" && NoListing(v)
    ensures var base, overlay := Overlay.SpecWith(k, v), map["spec" := Null];
            && Overlay.MergeDocs(base, overlay).Some?
            && HasRemoved(Difference(Map(base), Map(Overlay.MergeDocs(base, overlay).value)))
  {
    var base, overlay := Overlay.SpecWith(k, v), map["spec" := Null];
    Overlay.RestOfSpecWith(k, v);
    assert NoListing(Map(map[k := v]));
    assert OnlyModulesListed(base);
    assert k in base["spec"].fields;
    MergeDocsRemovesIff(base, overlay);
  }

  lemma TopLevelRemoves(base: Fields, overlay: Fields, doc: Fields)
    requires Overlay.SpecIsMapping(base)
    requires Overlay.WellShaped(Overlay.ModulesOf(base)) && Overlay.WellShaped(Overlay.ModulesOf(overlay))
    requires OnlyModulesListed(base) && Overlay.MergeDocs(base, overlay) == Some(doc) && "spec" in doc
    ensures HasRemoved(Difference(Map(base), Map(doc))) <==> HasRemoved(Difference(base["spec"], doc["spec"]))
  {
    var p, q := Parts(Map(base)), Parts(Map(doc));
    assert Key("spec") in p;
    if HasRemoved(Difference(base["spec"], doc["spec"])) {
      RemovedFurtherDown(Map(base), Map(doc), Key("spec"));
    } else {
      forall s | s in p ensures s in q && !HasRemoved(Difference(p[s], q[s])) {
        if s.key != "spec" { TopKeyKept(base, overlay, s.key); }
      }
      KeptPartsRemoveNothing(Map(base), Map(doc));
    }
  }
}
