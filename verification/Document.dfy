// Parsed YAML documents: what every stage after loading works on.
module Document {

  datatype Option<+T> = None | Some(value: T)

  datatype Value =
    | Null
    | Bool(b: bool)
    | Num(n: int)
    | Str(s: string)
    | List(items: seq<Value>)
    | Map(fields: Fields)

  type Fields = map<string, Value>

  /** The value at a dotted path, when every step leads through a mapping. */
  function At(v: Value, path: seq<string>): Option<Value> {
    if path == [] then Some(v)
    else if v.Map? && path[0] in v.fields then At(v.fields[path[0]], path[1..])
    else None
  }
}

// List vocabulary: distinct elements, and stable sorting by a given order.
module Sequences {

  predicate Distinct<T(==)>(s: seq<T>) {
    forall i, j :: 0 <= i < j < |s| ==> s[i] != s[j]
  }

  /** `before` may hold both ways; what it then leaves open, stability decides. */
  ghost predicate IsOrder<T(!new)>(before: (T, T) -> bool) {
    && (forall a, b :: before(a, b) || before(b, a))
    && (forall a, b, c :: before(a, b) && before(b, c) ==> before(a, c))
  }

  ghost predicate InOrder<T>(s: seq<T>, before: (T, T) -> bool) {
    forall i, j :: 0 <= i < j < |s| ==> before(s[i], s[j])
  }

  function Insert<T>(x: T, s: seq<T>, before: (T, T) -> bool): seq<T> {
    if s == [] || before(x, s[0]) then [x] + s else [s[0]] + Insert(x, s[1..], before)
  }

  function SortedBy<T>(s: seq<T>, before: (T, T) -> bool): seq<T> {
    if s == [] then [] else Insert(s[0], SortedBy(s[1..], before), before)
  }

  lemma FirstAndRest<T>(s: seq<T>)
    requires s != []
    ensures multiset(s) == multiset(s[1..]) + multiset{s[0]}
  {
    assert s == [s[0]] + s[1..];
  }

  lemma {:induction false} InsertKeepsAll<T>(x: T, s: seq<T>, before: (T, T) -> bool)
    ensures multiset(Insert(x, s, before)) == multiset(s) + multiset{x}
  {
    if s == [] || before(x, s[0]) {
    } else {
      InsertKeepsAll(x, s[1..], before);
      FirstAndRest(s);
    }
  }

  lemma InFront<T>(x: T, s: seq<T>, before: (T, T) -> bool)
    requires InOrder(s, before) && forall y :: y in s ==> before(x, y)
    ensures InOrder([x] + s, before)
  {
  }

  lemma {:induction false} InsertKeepsOrder<T(!new)>(x: T, s: seq<T>, before: (T, T) -> bool)
    requires IsOrder(before) && InOrder(s, before)
    ensures InOrder(Insert(x, s, before), before)
  {
    if s == [] {
    } else if before(x, s[0]) {
      forall y | y in s ensures before(x, y) {
        var i :| 0 <= i < |s| && s[i] == y;
      }
      InFront(x, s, before);
    } else {
      InsertKeepsOrder(x, s[1..], before);
      var rest := Insert(x, s[1..], before);
      forall y | y in rest ensures before(s[0], y) {
        InsertKeepsAll(x, s[1..], before);
        assert y in multiset(rest);
      }
      InFront(s[0], rest, before);
    }
  }

  /** Sorting loses nothing, adds nothing, and puts everything in order. */
  lemma {:induction false} SortedBySorts<T(!new)>(s: seq<T>, before: (T, T) -> bool)
    requires IsOrder(before)
    ensures InOrder(SortedBy(s, before), before) && multiset(SortedBy(s, before)) == multiset(s)
  {
    if s == [] {
    } else {
      SortedBySorts(s[1..], before);
      InsertKeepsOrder(s[0], SortedBy(s[1..], before), before);
      InsertKeepsAll(s[0], SortedBy(s[1..], before), before);
      FirstAndRest(s);
    }
  }
}

// Service names (cli/utils.py): a module's prefix is not repeated.
module Naming {

  function ServiceName(moduleId: string, name: string): string {
    if name == moduleId || moduleId + "-" <= name then name else moduleId + "-" + name
  }

  /** The name is the module's or lies behind its prefix, which is put there once and only where it is missing. */
  lemma PrefixOnce(moduleId: string, name: string)
    ensures var full := ServiceName(moduleId, name);
            && (full == moduleId || moduleId + "-" <= full) && ServiceName(moduleId, full) == full
            && (full == name || full == moduleId + "-" + name)
            && (full == name <==> name == moduleId || moduleId + "-" <= name)
  {
    assert moduleId + "-" + name != name by { assert |moduleId + "-" + name| > |name|; }
  }
}
