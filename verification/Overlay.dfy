// Profile composition (cli/overlay.py): the deep merge, the module merge by id,
// and the provenance recorded while merging.
module Overlay {
  import opened Document
  import opened Sequences

  // ---------------------------------------------------------------------------
  // Deep merge
  // ---------------------------------------------------------------------------

  /** Mappings merge key by key; anything else is replaced by the overlay. */
  function Merge(base: Value, overlay: Value): Value
    decreases base, overlay
  {
    if base.Map? && overlay.Map? then
      Map(map k | k in base.fields.Keys + overlay.fields.Keys ::
            if k in base.fields && k in overlay.fields then Merge(base.fields[k], overlay.fields[k])
            else if k in base.fields then base.fields[k]
            else overlay.fields[k])
    else overlay
  }

  function MergeFields(base: Fields, overlay: Fields): Fields {
    Merge(Map(base), Map(overlay)).fields
  }

  lemma MergeFieldsAt(base: Fields, overlay: Fields)
    ensures MergeFields(base, overlay).Keys == base.Keys + overlay.Keys
    ensures forall k :: k in base && k in overlay ==> MergeFields(base, overlay)[k] == Merge(base[k], overlay[k])
    ensures forall k :: k in base && k !in overlay ==> MergeFields(base, overlay)[k] == base[k]
    ensures forall k :: k !in base && k in overlay ==> MergeFields(base, overlay)[k] == overlay[k]
  {
  }

  lemma {:induction false} MergeSelf(v: Value)
    ensures Merge(v, v) == v
  {
    if v.Map? {
      forall k | k in v.fields ensures Merge(v.fields[k], v.fields[k]) == v.fields[k] {
        MergeSelf(v.fields[k]);
      }
      assert Merge(v, v).fields == v.fields;
    }
  }

  /** What the overlay leaves of the base at a path: cut off below a non-mapping. */
  predicate Blocks(v: Value, path: seq<string>) {
    path != [] && (!v.Map? || (path[0] in v.fields && Blocks(v.fields[path[0]], path[1..])))
  }

  /** The merged document at any path, in terms of the two documents there. */
  lemma {:induction false} MergeAt(base: Value, overlay: Value, path: seq<string>)
    ensures At(Merge(base, overlay), path) ==
            match At(overlay, path)
            case Some(o) => Some(if At(base, path).Some? then Merge(At(base, path).value, o) else o)
            case None => if Blocks(overlay, path) then None else At(base, path)
  {
    if path != [] && base.Map? && overlay.Map? {
      var k := path[0];
      if k in base.fields && k in overlay.fields {
        MergeAt(base.fields[k], overlay.fields[k], path[1..]);
      }
    }
  }

  function MergeAll(docs: seq<Value>): Value
    requires docs != []
  {
    if |docs| == 1 then docs[0] else Merge(MergeAll(docs[..|docs| - 1]), docs[|docs| - 1])
  }

  /** The last document that says anything about `path`: a value, or a cut above it. */
  function LastWrite(docs: seq<Value>, path: seq<string>): Option<Value> {
    if docs == [] then None
    else
      var last := docs[|docs| - 1];
      if At(last, path).Some? then At(last, path)
      else if Blocks(last, path) then None
      else LastWrite(docs[..|docs| - 1], path)
  }

  /** Nothing, or anything but a mapping, which would be merged with what was there. */
  predicate IsLeaf(v: Option<Value>) {
    v == None || !v.value.Map?
  }

  /** Where the last document to say anything says no mapping, the composition holds what it says. */
  lemma {:induction false} LastDefinitionWins(docs: seq<Value>, path: seq<string>)
    requires docs != [] && IsLeaf(LastWrite(docs, path))
    ensures At(MergeAll(docs), path) == LastWrite(docs, path)
  {
    var init, last := docs[..|docs| - 1], docs[|docs| - 1];
    if |docs| == 1 {
      assert init == [] && MergeAll(docs) == last;
    } else {
      if At(last, path) == None && !Blocks(last, path) { LastDefinitionWins(init, path); }
      MergeAt(MergeAll(init), last, path);
    }
  }

  /** Every key of `a` is still there in `c`, down to where either stops being a mapping. */
  predicate Covers(c: Value, a: Value)
    decreases a
  {
    a.Map? && c.Map? ==>
      forall k :: k in a.fields ==> k in c.fields && Covers(c.fields[k], a.fields[k])
  }

  lemma {:induction false} MergeAbsorbsIff(a: Value, c: Value)
    ensures Merge(a, c) == c <==> Covers(c, a)
    decreases a, c
  {
    if a.Map? && c.Map? {
      forall k | k in a.fields && k in c.fields
        ensures Merge(a.fields[k], c.fields[k]) == c.fields[k] <==> Covers(c.fields[k], a.fields[k])
      {
        MergeAbsorbsIff(a.fields[k], c.fields[k]);
      }
      var m := Merge(a, c).fields;
      if Covers(c, a) {
        assert m.Keys == c.fields.Keys;
        assert m == c.fields;
      }
      if m == c.fields {
        forall k | k in a.fields ensures k in c.fields && Covers(c.fields[k], a.fields[k]) {
          assert k in m;
        }
      }
    }
  }

  /** Where the order of grouping shows: a mapping hidden by a non-mapping and then reopened. */
  predicate GroupsFreely(a: Value, b: Value, c: Value)
    decreases a
  {
    if a.Map? && b.Map? && c.Map? then
      forall k :: k in a.fields && k in b.fields && k in c.fields ==>
        GroupsFreely(a.fields[k], b.fields[k], c.fields[k])
    else a.Map? && !b.Map? && c.Map? ==> Covers(c, a)
  }

  /** The merge is associative on three documents exactly when they group freely. */
  lemma {:induction false} MergeAssociativeIff(a: Value, b: Value, c: Value)
    ensures Merge(Merge(a, b), c) == Merge(a, Merge(b, c)) <==> GroupsFreely(a, b, c)
    decreases a
  {
    var l, r := Merge(Merge(a, b), c), Merge(a, Merge(b, c));
    if a.Map? && b.Map? && c.Map? {
      assert l.fields.Keys == r.fields.Keys;
      forall k | k in l.fields
        ensures l.fields[k] == r.fields[k] <==>
          (k in a.fields && k in b.fields && k in c.fields ==> GroupsFreely(a.fields[k], b.fields[k], c.fields[k]))
      {
        if k in a.fields && k in b.fields && k in c.fields {
          MergeAssociativeIff(a.fields[k], b.fields[k], c.fields[k]);
        }
      }
      if GroupsFreely(a, b, c) { assert l.fields == r.fields; }
      if l == r {
        forall k | k in a.fields && k in b.fields && k in c.fields
          ensures GroupsFreely(a.fields[k], b.fields[k], c.fields[k])
        {
          assert l.fields[k] == r.fields[k];
        }
      }
    } else if a.Map? && !b.Map? && c.Map? {
      MergeAbsorbsIff(a, c);
    }
  }

  lemma MergeFieldsAssociativeIff(a: Fields, b: Fields, c: Fields)
    ensures MergeFields(MergeFields(a, b), c) == MergeFields(a, MergeFields(b, c))
       <==> GroupsFreely(Map(a), Map(b), Map(c))
  {
    assert Map(MergeFields(a, b)) == Merge(Map(a), Map(b)) && Map(MergeFields(b, c)) == Merge(Map(b), Map(c));
    MergeAssociativeIff(Map(a), Map(b), Map(c));
  }

  // ---------------------------------------------------------------------------
  // spec.modules: a list of mappings merged by id
  // ---------------------------------------------------------------------------

  predicate HasId(m: Value) {
    m.Map? && "id" in m.fields && m.fields["id"].Str? && m.fields["id"].s != ""
  }

  function IdOf(m: Value): string
    requires HasId(m)
  {
    m.fields["id"].s
  }

  /** The shape check shared by overlays and extends parents (E093 when it fails). */
  predicate WellShaped(modules: Value) {
    && modules.List?
    && (forall i :: 0 <= i < |modules.items| ==> HasId(modules.items[i]))
    && (forall i, j :: 0 <= i < j < |modules.items| ==> IdOf(modules.items[i]) != IdOf(modules.items[j]))
  }

  predicate WellShapedItems(items: seq<Value>) {
    WellShaped(List(items))
  }

  function Ids(items: seq<Value>): (ids: seq<string>)
    requires WellShapedItems(items)
    ensures |ids| == |items| && Distinct(ids)
    ensures forall i :: 0 <= i < |items| ==> ids[i] == IdOf(items[i])
  {
    seq(|items|, i requires 0 <= i < |items| => IdOf(items[i]))
  }

  function ById(items: seq<Value>): (m: Fields)
    requires WellShapedItems(items)
    ensures forall k :: k in m <==> k in Ids(items)
    ensures forall i :: 0 <= i < |items| ==> IdOf(items[i]) in m && m[IdOf(items[i])] == items[i]
  {
    if items == [] then map[]
    else
      OneFewerItem(items);
      ById(items[..|items| - 1])[IdOf(items[|items| - 1]) := items[|items| - 1]]
  }

  lemma OneFewerItem(items: seq<Value>)
    requires WellShapedItems(items) && items != []
    ensures WellShapedItems(items[..|items| - 1])
    ensures Ids(items) == Ids(items[..|items| - 1]) + [IdOf(items[|items| - 1])]
  {
  }

  lemma {:induction false} OneMoreItem(init: seq<Value>, last: Value)
    requires WellShapedItems(init + [last])
    ensures WellShapedItems(init) && HasId(last) && ById(init + [last]) == ById(init)[IdOf(last) := last]
  {
    var items := init + [last];
    assert items[..|items| - 1] == init && items[|items| - 1] == last;
    OneFewerItem(items);
  }

  function OrderUnion(base: seq<string>, overlay: seq<string>): (order: seq<string>)
    ensures base <= order
    ensures forall k :: k in order <==> k in base || k in overlay
    ensures Distinct(base) && Distinct(overlay) ==> Distinct(order)
  {
    if overlay == [] then base
    else
      var order := OrderUnion(base, overlay[..|overlay| - 1]);
      var last := overlay[|overlay| - 1];
      if last in base then order else order + [last]
  }

  function Listing(order: seq<string>, byId: Fields): seq<Value>
    requires forall k :: k in order ==> k in byId
  {
    seq(|order|, i requires 0 <= i < |order| => byId[order[i]])
  }

  /** Base modules in their order, each merged with its namesake, then the new ones. */
  function MergedModules(base: seq<Value>, overlay: seq<Value>): seq<Value>
    requires WellShapedItems(base) && WellShapedItems(overlay)
  {
    Listing(OrderUnion(Ids(base), Ids(overlay)), MergeFields(ById(base), ById(overlay)))
  }

  ghost predicate KeyedById(byId: Fields) {
    forall k :: k in byId ==> HasId(byId[k]) && IdOf(byId[k]) == k
  }

  lemma ListingRoundTrip(order: seq<string>, byId: Fields)
    requires Distinct(order) && KeyedById(byId) && forall k :: k in order <==> k in byId
    ensures WellShapedItems(Listing(order, byId))
    ensures Ids(Listing(order, byId)) == order
    ensures ById(Listing(order, byId)) == byId
  {
    var items := Listing(order, byId);
    forall i | 0 <= i < |order| ensures HasId(items[i]) && IdOf(items[i]) == order[i] {
      assert order[i] in byId;
    }
    assert Ids(items) == order;
    ByIdOfListing(order, byId, items);
  }

  lemma {:induction false} ByIdOfListing(order: seq<string>, byId: Fields, items: seq<Value>)
    requires WellShapedItems(items) && Ids(items) == order && (forall k :: k in order <==> k in byId)
    requires forall i :: 0 <= i < |order| ==> items[i] == byId[order[i]]
    ensures ById(items) == byId
  {
    forall k | k in byId ensures k in ById(items) && ById(items)[k] == byId[k] {
      var i :| 0 <= i < |order| && order[i] == k;
      assert ById(items)[IdOf(items[i])] == items[i];
    }
    assert ById(items).Keys == byId.Keys;
  }

  lemma {:induction false} ListingOfItems(items: seq<Value>)
    requires WellShapedItems(items)
    ensures KeyedById(ById(items)) && Listing(Ids(items), ById(items)) == items
  {
    forall k | k in ById(items) ensures HasId(ById(items)[k]) && IdOf(ById(items)[k]) == k {
      var i :| 0 <= i < |items| && Ids(items)[i] == k;
      assert ById(items)[IdOf(items[i])] == items[i];
    }
    assert Listing(Ids(items), ById(items)) == items;
  }

  lemma {:induction false} MergeKeepsId(base: Value, overlay: Value)
    requires HasId(base) && HasId(overlay)
    ensures HasId(Merge(base, overlay)) && IdOf(Merge(base, overlay)) == IdOf(overlay)
  {
    MergeFieldsAt(base.fields, overlay.fields);
    assert Merge(base.fields["id"], overlay.fields["id"]) == overlay.fields["id"];
  }

  /** Merged modules keep unique ids: the base's in order, then the overlay's new ones. */
  lemma {:induction false} MergedModulesById(base: seq<Value>, overlay: seq<Value>)
    requires WellShapedItems(base) && WellShapedItems(overlay)
    ensures WellShapedItems(MergedModules(base, overlay))
    ensures Ids(MergedModules(base, overlay)) == OrderUnion(Ids(base), Ids(overlay))
    ensures ById(MergedModules(base, overlay)) == MergeFields(ById(base), ById(overlay))
  {
    var b, o := ById(base), ById(overlay);
    ListingOfItems(base);
    ListingOfItems(overlay);
    var m := MergeFields(b, o);
    MergeFieldsAt(b, o);
    forall k | k in m ensures HasId(m[k]) && IdOf(m[k]) == k {
      if k in b && k in o { MergeKeepsId(b[k], o[k]); }
    }
    ListingRoundTrip(OrderUnion(Ids(base), Ids(overlay)), m);
  }

  lemma {:induction false} OrderUnionAssociative(a: seq<string>, b: seq<string>, c: seq<string>)
    ensures OrderUnion(OrderUnion(a, b), c) == OrderUnion(a, OrderUnion(b, c))
  {
    if c == [] {
    } else {
      var init, last := c[..|c| - 1], c[|c| - 1];
      OrderUnionAssociative(a, b, init);
      var bc := OrderUnion(b, init);
      if last !in b {
        assert (bc + [last])[..|bc|] == bc;
      }
    }
  }

  lemma {:induction false} OrderUnionSelf(a: seq<string>, b: seq<string>)
    requires forall k :: k in b ==> k in a
    ensures OrderUnion(a, b) == a
  {
    if b == [] {
    } else {
      OrderUnionSelf(a, b[..|b| - 1]);
    }
  }

  // ---------------------------------------------------------------------------
  // Whole profile documents
  // ---------------------------------------------------------------------------

  function SpecOf(doc: Fields): Value {
    if "spec" in doc then doc["spec"] else Map(map[])
  }

  function ModulesOf(doc: Fields): Value {
    var spec := SpecOf(doc);
    if spec.Map? && "modules" in spec.fields then spec.fields["modules"] else List([])
  }

  /** The base without its modules; a spec that is no mapping counts as empty. */
  function BaseRest(doc: Fields): Fields {
    var spec := SpecOf(doc);
    doc["spec" := Map(if spec.Map? then spec.fields - {"modules"} else map[])]
  }

  /** The overlay without its modules; a spec that is no mapping stays, and overrides. */
  function OverlayRest(doc: Fields): Fields {
    if "spec" in doc && doc["spec"].Map? then doc["spec" := Map(doc["spec"].fields - {"modules"})] else doc
  }

  /** Put a module list back under the spec of a document that has none. */
  function WithModules(rest: Fields, modules: seq<Value>): Fields {
    var spec := SpecOf(rest);
    rest["spec" := Map((if spec.Map? then spec.fields else map[])["modules" := List(modules)])]
  }

  /** `None` stands for the shape error E093. */
  function MergeDocs(base: Fields, overlay: Fields): Option<Fields> {
    if WellShaped(ModulesOf(base)) && WellShaped(ModulesOf(overlay)) then
      Some(WithModules(MergeFields(BaseRest(base), OverlayRest(overlay)),
                       MergedModules(ModulesOf(base).items, ModulesOf(overlay).items)))
    else None
  }

  ghost predicate SpecIsMapping(doc: Fields) {
    "spec" in doc && doc["spec"].Map?
  }

  /** Merging succeeds on well-shaped documents, and yields a well-shaped one. */
  lemma MergeKeepsShape(base: Fields, overlay: Fields)
    requires WellShaped(ModulesOf(base)) && WellShaped(ModulesOf(overlay))
    ensures MergeDocs(base, overlay).Some?
    ensures WellShaped(ModulesOf(MergeDocs(base, overlay).value)) && SpecIsMapping(MergeDocs(base, overlay).value)
  {
    MergedModulesById(ModulesOf(base).items, ModulesOf(overlay).items);
  }

  lemma WithModulesRoundTrip(rest: Fields, modules: seq<Value>)
    requires "spec" in rest && rest["spec"].Map? && "modules" !in rest["spec"].fields
    ensures var doc := WithModules(rest, modules);
            && SpecIsMapping(doc) && ModulesOf(doc) == List(modules)
            && BaseRest(doc) == rest && OverlayRest(doc) == rest
  {
    var doc := WithModules(rest, modules);
    assert doc["spec"].fields - {"modules"} == rest["spec"].fields;
    assert BaseRest(doc) == rest;
    assert OverlayRest(doc) == rest;
  }

  /** The two halves of a merged document. */
  lemma MergeDocsParts(base: Fields, overlay: Fields)
    requires SpecIsMapping(overlay)
    requires WellShaped(ModulesOf(base)) && WellShaped(ModulesOf(overlay))
    ensures MergeDocs(base, overlay).Some?
    ensures var doc := MergeDocs(base, overlay).value;
            && SpecIsMapping(doc) && "modules" in doc["spec"].fields && WellShaped(ModulesOf(doc))
            && BaseRest(doc) == OverlayRest(doc) == MergeFields(BaseRest(base), OverlayRest(overlay))
            && ModulesOf(doc).items == MergedModules(ModulesOf(base).items, ModulesOf(overlay).items)
  {
    var x, y := BaseRest(base), OverlayRest(overlay);
    MergeFieldsAt(x, y);
    MergeFieldsAt(x["spec"].fields, y["spec"].fields);
    MergedModulesById(ModulesOf(base).items, ModulesOf(overlay).items);
    WithModulesRoundTrip(MergeFields(x, y), MergedModules(ModulesOf(base).items, ModulesOf(overlay).items));
  }

  lemma DocIsItsParts(p: Fields, q: Fields)
    requires SpecIsMapping(p) && SpecIsMapping(q) && "modules" in p["spec"].fields && "modules" in q["spec"].fields
    ensures p == q <==> BaseRest(p) == BaseRest(q) && ModulesOf(p) == ModulesOf(q)
  {
    if BaseRest(p) == BaseRest(q) && ModulesOf(p) == ModulesOf(q) {
      forall r: Fields | r == p || r == q
        ensures r == BaseRest(r)["spec" := Map(BaseRest(r)["spec"].fields["modules" := ModulesOf(r)])]
      {
        assert (r["spec"].fields - {"modules"})["modules" := ModulesOf(r)] == r["spec"].fields;
      }
    }
  }

  /** Merging a document with itself changes it only by giving it a module list. */
  lemma MergeDocsIdempotentIff(doc: Fields)
    requires WellShaped(ModulesOf(doc))
    ensures MergeDocs(doc, doc) == Some(doc) <==> SpecIsMapping(doc) && "modules" in doc["spec"].fields
  {
    if SpecIsMapping(doc) && "modules" in doc["spec"].fields {
      MergeSelf(Map(BaseRest(doc)));
      assert OverlayRest(doc) == BaseRest(doc);
      ModulesMergeSelf(ModulesOf(doc).items);
      PutModulesBack(doc);
    }
  }

  lemma ModulesMergeSelf(items: seq<Value>)
    requires WellShapedItems(items)
    ensures MergedModules(items, items) == items
  {
    MergeSelf(Map(ById(items)));
    OrderUnionSelf(Ids(items), Ids(items));
    ListingOfItems(items);
  }

  lemma PutModulesBack(doc: Fields)
    requires WellShaped(ModulesOf(doc)) && SpecIsMapping(doc) && "modules" in doc["spec"].fields
    ensures WithModules(BaseRest(doc), ModulesOf(doc).items) == doc
  {
    assert (doc["spec"].fields - {"modules"})["modules" := doc["spec"].fields["modules"]] == doc["spec"].fields;
  }

  /** Three profile documents can be grouped either way exactly when their parts can. */
  lemma MergeDocsAssociativeIff(a: Fields, b: Fields, c: Fields)
    requires SpecIsMapping(a) && SpecIsMapping(b) && SpecIsMapping(c)
    requires WellShaped(ModulesOf(a)) && WellShaped(ModulesOf(b)) && WellShaped(ModulesOf(c))
    ensures MergeDocs(a, b).Some? && MergeDocs(b, c).Some?
    ensures MergeDocs(MergeDocs(a, b).value, c) == MergeDocs(a, MergeDocs(b, c).value) <==>
            && GroupsFreely(Map(BaseRest(a)), Map(BaseRest(b)), Map(BaseRest(c)))
            && GroupsFreely(Map(ById(ModulesOf(a).items)), Map(ById(ModulesOf(b).items)), Map(ById(ModulesOf(c).items)))
  {
    MergeDocsParts(a, b);
    MergeDocsParts(b, c);
    var ab, bc := MergeDocs(a, b).value, MergeDocs(b, c).value;
    MergeDocsParts(ab, c);
    MergeDocsParts(a, bc);
    DocIsItsParts(MergeDocs(ab, c).value, MergeDocs(a, bc).value);
    assert OverlayRest(b) == BaseRest(b) && OverlayRest(c) == BaseRest(c);
    MergeFieldsAssociativeIff(BaseRest(a), BaseRest(b), BaseRest(c));
    MergedModulesAssociativeIff(ModulesOf(a).items, ModulesOf(b).items, ModulesOf(c).items);
  }

  /** A profile whose spec holds one field. */
  function SpecWith(k: string, v: Value): Fields {
    map["spec" := Map(map[k := v])]
  }

  lemma RestOfSpecWith(k: string, v: Value)
    requires k != "modules"
    ensures SpecIsMapping(SpecWith(k, v)) && ModulesOf(SpecWith(k, v)) == List([])
    ensures BaseRest(SpecWith(k, v)) == SpecWith(k, v)
  {
    assert map[k := v] - {"modules"} == map[k := v];
  }

  /** One they cannot: a mapping hidden by anything else and then opened again without its keys. */
  lemma ReopenedMapping(k: string, fields: Fields, plug: Value)
    requires k != "modules" && fields != map[] && !plug.Map?
    ensures var a, b, c := SpecWith(k, Map(fields)), SpecWith(k, plug), SpecWith(k, Map(map[]));
            && MergeDocs(a, b).Some? && MergeDocs(b, c).Some?
            && MergeDocs(MergeDocs(a, b).value, c) != MergeDocs(a, MergeDocs(b, c).value)
  {
    var a, b, c := SpecWith(k, Map(fields)), SpecWith(k, plug), SpecWith(k, Map(map[]));
    RestOfSpecWith(k, Map(fields));
    RestOfSpecWith(k, plug);
    RestOfSpecWith(k, Map(map[]));
    MergeDocsAssociativeIff(a, b, c);
    SomeKeyOf(fields);
    assert !Covers(Map(map[]), Map(fields));
    assert !GroupsFreely(Map(fields), plug, Map(map[]));
    NotFreelyBelow(a["spec"], b["spec"], c["spec"], k);
    NotFreelyBelow(Map(a), Map(b), Map(c), "spec");
  }

  lemma {:induction false} NotFreelyBelow(a: Value, b: Value, c: Value, k: string)
    requires a.Map? && b.Map? && c.Map? && k in a.fields && k in b.fields && k in c.fields
    requires !GroupsFreely(a.fields[k], b.fields[k], c.fields[k])
    ensures !GroupsFreely(a, b, c)
  {
  }

  lemma SomeKeyOf(fields: Fields)
    requires fields != map[]
    ensures exists k :: k in fields
  {
    assert fields.Keys == {} ==> fields == map[];
  }

  lemma {:induction false} ItemsAreTheirListing(x: seq<Value>, y: seq<Value>)
    requires WellShapedItems(x) && WellShapedItems(y)
    ensures x == y <==> Ids(x) == Ids(y) && ById(x) == ById(y)
  {
    ListingOfItems(x);
    ListingOfItems(y);
  }

  lemma {:induction false} MergedModulesAssociativeIff(l: seq<Value>, m: seq<Value>, n: seq<Value>)
    requires WellShapedItems(l) && WellShapedItems(m) && WellShapedItems(n)
    ensures WellShapedItems(MergedModules(l, m)) && WellShapedItems(MergedModules(m, n))
    ensures MergedModules(MergedModules(l, m), n) == MergedModules(l, MergedModules(m, n))
       <==> GroupsFreely(Map(ById(l)), Map(ById(m)), Map(ById(n)))
  {
    MergedModulesById(l, m);
    MergedModulesById(m, n);
    var lm, mn := MergedModules(l, m), MergedModules(m, n);
    MergedModulesById(lm, n);
    MergedModulesById(l, mn);
    OrderUnionAssociative(Ids(l), Ids(m), Ids(n));
    MergeFieldsAssociativeIff(ById(l), ById(m), ById(n));
    ItemsAreTheirListing(MergedModules(lm, n), MergedModules(l, mn));
  }

  // ---------------------------------------------------------------------------
  // Folds of whole documents
  // ---------------------------------------------------------------------------

  function FoldDocs(docs: seq<Fields>): Option<Fields>
    requires docs != []
  {
    if |docs| == 1 then Some(docs[0])
    else
      var before := FoldDocs(docs[..|docs| - 1]);
      if before.None? then None else MergeDocs(before.value, docs[|docs| - 1])
  }

  ghost predicate AllWellShaped(docs: seq<Fields>) {
    forall i :: 0 <= i < |docs| ==> WellShaped(ModulesOf(docs[i]))
  }

  lemma {:induction false} FoldKeepsShape(docs: seq<Fields>)
    requires docs != [] && AllWellShaped(docs)
    ensures FoldDocs(docs).Some? && WellShaped(ModulesOf(FoldDocs(docs).value))
  {
    if |docs| == 1 {
    } else {
      FoldKeepsShape(docs[..|docs| - 1]);
      MergeKeepsShape(FoldDocs(docs[..|docs| - 1]).value, docs[|docs| - 1]);
    }
  }

  /** A path to something other than the module list and what lies around or in it. */
  predicate OutsideModules(path: seq<string>) {
    path != [] && (path[0] == "spec" ==> |path| > 1 && path[1] != "modules")
  }

  lemma {:induction false} RestAt(doc: Fields, path: seq<string>)
    requires OutsideModules(path)
    ensures At(Map(BaseRest(doc)), path) == At(Map(OverlayRest(doc)), path) == At(Map(doc), path)
    ensures Blocks(Map(OverlayRest(doc)), path) == Blocks(Map(doc), path)
  {
    if path[0] == "spec" {
      assert At(Map(doc), path) == if "spec" in doc then At(doc["spec"], path[1..]) else None;
      assert path[1..][0] == path[1];
    }
  }

  lemma {:induction false} WithModulesAt(rest: Fields, modules: seq<Value>, path: seq<string>)
    requires OutsideModules(path)
    ensures At(Map(WithModules(rest, modules)), path) == At(Map(rest), path)
  {
    if path[0] == "spec" {
      assert path[1..][0] == path[1];
    }
  }

  /** Outside the module list, whole documents merge like any two values. */
  lemma {:induction false} MergeDocsAt(base: Fields, overlay: Fields, path: seq<string>)
    requires WellShaped(ModulesOf(base)) && WellShaped(ModulesOf(overlay)) && OutsideModules(path)
    ensures At(Map(MergeDocs(base, overlay).value), path) ==
            match At(Map(overlay), path)
            case Some(o) => Some(if At(Map(base), path).Some? then Merge(At(Map(base), path).value, o) else o)
            case None => if Blocks(Map(overlay), path) then None else At(Map(base), path)
  {
    var x, y := BaseRest(base), OverlayRest(overlay);
    RestAt(base, path);
    RestAt(overlay, path);
    MergeAt(Map(x), Map(y), path);
    WithModulesAt(MergeFields(x, y), MergedModules(ModulesOf(base).items, ModulesOf(overlay).items), path);
  }

  function AsValues(docs: seq<Fields>): seq<Value> {
    seq(|docs|, i requires 0 <= i < |docs| => Map(docs[i]))
  }

  /** A setting of a composed profile holds what the last document defining it says, unless that is a mapping. */
  lemma {:induction false} LastDocumentWins(docs: seq<Fields>, path: seq<string>)
    requires docs != [] && AllWellShaped(docs) && OutsideModules(path) && IsLeaf(LastWrite(AsValues(docs), path))
    ensures FoldDocs(docs).Some?
    ensures At(Map(FoldDocs(docs).value), path) == LastWrite(AsValues(docs), path)
  {
    var init, last := docs[..|docs| - 1], docs[|docs| - 1];
    assert AsValues(docs)[..|docs| - 1] == AsValues(init) && AsValues(docs)[|docs| - 1] == Map(last);
    if |docs| == 1 {
      assert LastWrite(AsValues(init), path) == None;
    } else {
      FoldKeepsShape(docs);
      FoldKeepsShape(init);
      if At(Map(last), path) == None && !Blocks(Map(last), path) { LastDocumentWins(init, path); }
      MergeDocsAt(FoldDocs(init).value, last, path);
    }
  }

  /** The modules of a document by id. */
  function ModulesById(doc: Fields): Fields
    requires WellShaped(ModulesOf(doc))
  {
    ById(ModulesOf(doc).items)
  }

  /** What the documents say about one module, in order. */
  function Versions(docs: seq<Fields>, id: string): seq<Value>
    requires AllWellShaped(docs)
  {
    if docs == [] then []
    else
      assert WellShaped(ModulesOf(docs[|docs| - 1]));
      var byId := ModulesById(docs[|docs| - 1]);
      Versions(docs[..|docs| - 1], id) + if id in byId then [byId[id]] else []
  }

  lemma MergeDocsModules(base: Fields, overlay: Fields)
    requires WellShaped(ModulesOf(base)) && WellShaped(ModulesOf(overlay))
    ensures MergeDocs(base, overlay).Some? && WellShaped(ModulesOf(MergeDocs(base, overlay).value))
    ensures ModulesById(MergeDocs(base, overlay).value) == MergeFields(ModulesById(base), ModulesById(overlay))
  {
    MergedModulesById(ModulesOf(base).items, ModulesOf(overlay).items);
  }

  /** What a document says about a module is the fold of some versions. */
  ghost predicate FoldedFrom(byId: Fields, id: string, versions: seq<Value>) {
    && (id in byId <==> versions != [])
    && (id in byId ==> byId[id] == MergeAll(versions))
  }

  lemma FoldedFurther(a: Fields, b: Fields, id: string, versions: seq<Value>)
    requires FoldedFrom(a, id, versions)
    ensures FoldedFrom(MergeFields(a, b), id, versions + if id in b then [b[id]] else [])
  {
    MergeFieldsAt(a, b);
    if id in b {
      OneMoreVersion(versions, b[id]);
    } else {
      assert versions + [] == versions;
    }
  }

  /** A module of a composed profile is the fold of its versions. */
  lemma {:induction false} ModuleIsFold(docs: seq<Fields>, id: string)
    requires docs != [] && AllWellShaped(docs)
    ensures FoldDocs(docs).Some? && WellShaped(ModulesOf(FoldDocs(docs).value))
    ensures FoldedFrom(ModulesById(FoldDocs(docs).value), id, Versions(docs, id))
  {
    FoldKeepsShape(docs);
    var init, last := docs[..|docs| - 1], docs[|docs| - 1];
    if |docs| == 1 {
      assert Versions(init, id) == [];
      FirstVersion(ModulesById(last), id);
    } else {
      ModuleIsFold(init, id);
      MergeDocsModules(FoldDocs(init).value, last);
      FoldedFurther(ModulesById(FoldDocs(init).value), ModulesById(last), id, Versions(init, id));
    }
  }

  lemma FirstVersion(byId: Fields, id: string)
    ensures FoldedFrom(byId, id, [] + if id in byId then [byId[id]] else [])
  {
    if id in byId { OneMoreVersion([], byId[id]); }
  }

  lemma {:induction false} OneMoreVersion(versions: seq<Value>, v: Value)
    ensures MergeAll(versions + [v]) == if versions == [] then v else Merge(MergeAll(versions), v)
  {
    assert (versions + [v])[..|versions|] == versions;
  }

  /** So inside a module, too, the last version defining a leaf decides. */
  lemma {:induction false} LastVersionWins(docs: seq<Fields>, id: string, path: seq<string>)
    requires docs != [] && AllWellShaped(docs) && Versions(docs, id) != []
    requires IsLeaf(LastWrite(Versions(docs, id), path))
    ensures FoldDocs(docs).Some? && WellShaped(ModulesOf(FoldDocs(docs).value))
    ensures var byId := ModulesById(FoldDocs(docs).value);
            id in byId && At(byId[id], path) == LastWrite(Versions(docs, id), path)
  {
    ModuleIsFold(docs, id);
    LastDefinitionWins(Versions(docs, id), path);
  }

  // ---------------------------------------------------------------------------
  // Provenance: which source is credited with which path
  // ---------------------------------------------------------------------------

  /** One step of a recorded path: a mapping key, or a module by its id. */
  datatype PathStep = Key(key: string) | Id(id: string)

  type Path = seq<PathStep>

  type Provenance = map<Path, string>

  const MODULES: Path := [Key("spec"), Key("modules")]

  function Extended(before: string, step: PathStep): string {
    match step
    case Key(k) => if before == "" then k else before + "." + k
    case Id(id) => before + "[" + id + "]"
  }

  /** The text the program records a path under. */
  function PathText(p: Path): string {
    if p == [] then "" else Extended(PathText(p[..|p| - 1]), p[|p| - 1])
  }

  predicate CleanStep(step: PathStep) {
    match step
    case Key(k) => k != "" && '.' !in k && '[' !in k && ']' !in k
    case Id(id) => '[' !in id
  }

  predicate CleanPath(p: Path) {
    forall i :: 0 <= i < |p| ==> CleanStep(p[i])
  }

  lemma LaterCut(x: string, k: string, y: string, l: string, c: char)
    requires x + ([c] + k) == y + ([c] + l)
    ensures |x| < |y| ==> c in k
  {
    if |x| < |y| {
      var t := y + ([c] + l);
      assert t[|y|] == c && (x + ([c] + k))[|y|] == k[|y| - |x| - 1];
    }
  }

  lemma SameHeads(x: string, k: string, y: string, l: string)
    requires x + k == y + l && |x| == |y|
    ensures x == y && k == l
  {
    assert (x + k)[..|x|] == x && (y + l)[..|y|] == y && (x + k)[|x|..] == k && (y + l)[|y|..] == l;
  }

  /** A text is cut at the last of its separators in one way only. */
  lemma LastCut(x: string, k: string, y: string, l: string, c: char)
    requires x + [c] + k == y + [c] + l && c !in k && c !in l
    ensures x == y && k == l
  {
    assert x + [c] + k == x + ([c] + k) && y + [c] + l == y + ([c] + l);
    LaterCut(x, k, y, l, c);
    LaterCut(y, l, x, k, c);
    SameHeads(x, [c] + k, y, [c] + l);
    SameHeads([c], k, [c], l);
  }

  lemma {:induction false} OnlyEmptyIsBlank(p: Path)
    requires CleanPath(p)
    ensures PathText(p) == "" <==> p == []
  {
  }

  lemma SameLastKey(x: string, k: string, y: string, l: string)
    requires (if x == "" then k else x + "." + k) == (if y == "" then l else y + "." + l)
    requires '.' !in k && '.' !in l
    ensures x == y && k == l
  {
    if x != "" && y != "" {
      LastCut(x, k, y, l, '.');
    } else if x != "" {
      HasSeparator(x, k, '.');
    } else if y != "" {
      HasSeparator(y, l, '.');
    }
  }

  lemma HasSeparator(x: string, k: string, c: char)
    ensures c in x + [c] + k
  {
    assert (x + [c] + k)[|x|] == c;
  }

  lemma SameLastId(x: string, id: string, y: string, other: string)
    requires x + "[" + id + "]" == y + "[" + other + "]" && '[' !in id && '[' !in other
    ensures x == y && id == other
  {
    assert x + "[" + id + "]" == x + ['['] + (id + "]") && y + "[" + other + "]" == y + ['['] + (other + "]");
    LastCut(x, id + "]", y, other + "]", '[');
    SameHeads(id, "]", other, "]");
  }

  lemma KeyTextIsNotModuleText(x: string, k: string, y: string, id: string)
    requires k != "" && ']' !in k
    ensures (if x == "" then k else x + "." + k) != y + "[" + id + "]"
  {
    var s, t := if x == "" then k else x + "." + k, y + "[" + id + "]";
    assert s[|s| - 1] == k[|k| - 1] && t[|t| - 1] == ']';
  }

  /** Where keys hold no dot and no bracket, the recorded text determines the path. */
  lemma {:induction false} TextDeterminesPath(p: Path, q: Path)
    requires CleanPath(p) && CleanPath(q) && PathText(p) == PathText(q)
    ensures p == q
  {
    OnlyEmptyIsBlank(p);
    OnlyEmptyIsBlank(q);
    if p == [] {
    } else {
      var p', q', a, b := p[..|p| - 1], q[..|q| - 1], p[|p| - 1], q[|q| - 1];
      assert SameText(PathText(p'), a, PathText(q'), b);
      SameLastStep(PathText(p'), a, PathText(q'), b);
      TextDeterminesPath(p', q');
      assert p == p' + [a] && q == q' + [b];
    }
  }

  ghost predicate SameText(x: string, a: PathStep, y: string, b: PathStep) {
    Extended(x, a) == Extended(y, b)
  }

  lemma SameLastStep(x: string, a: PathStep, y: string, b: PathStep)
    requires CleanStep(a) && CleanStep(b) && SameText(x, a, y, b)
    ensures x == y && a == b
  {
    if a.Key? && b.Key? {
      SameLastKey(x, a.key, y, b.key);
    } else if a.Id? && b.Id? {
      SameLastId(x, a.id, y, b.id);
    } else if a.Key? {
      KeyTextIsNotModuleText(x, a.key, y, b.id);
    } else {
      KeyTextIsNotModuleText(y, b.key, x, a.id);
    }
  }

  /** A key with a dot in it does share its text with the two steps it looks like. */
  lemma DottedKeyShares(k: string, l: string)
    requires k != ""
    ensures PathText([Key(k + "." + l)]) == PathText([Key(k), Key(l)])
  {
    assert [Key(k), Key(l)][..1] == [Key(k)];
    assert PathText([Key(k)]) == k;
  }

  function Reach(v: Value, rel: Path): Option<Value> {
    if rel == [] then Some(v)
    else if v.Map? && rel[0].Key? && rel[0].key in v.fields then Reach(v.fields[rel[0].key], rel[1..])
    else None
  }

  predicate BothMappings(base: Value, overlay: Value, rel: Path) {
    && Reach(base, rel).Some? && Reach(base, rel).value.Map?
    && Reach(overlay, rel).Some? && Reach(overlay, rel).value.Map?
  }

  /** What a merge does to the record of one path. */
  datatype Mark = Untouched | BaseUnlessSet | OverlayAlways

  /** The overlay is credited with what it defines, except a mapping merged into one. */
  function MarkOf(base: Value, overlay: Value, rel: Path): Mark {
    if rel != [] && !BothMappings(base, overlay, rel[..|rel| - 1]) then Untouched
    else if Reach(overlay, rel).Some? && !BothMappings(base, overlay, rel) then OverlayAlways
    else if rel != [] && (Reach(base, rel).Some? || Reach(overlay, rel).Some?) then BaseUnlessSet
    else Untouched
  }

  function Marked(mark: Mark, before: Option<string>, baseSource: string, overlaySource: string): Option<string> {
    match mark
    case Untouched => before
    case BaseUnlessSet => if before.Some? then before else Some(baseSource)
    case OverlayAlways => Some(overlaySource)
  }

  function Credit(p: Provenance, q: Path): Option<string> {
    if q in p then Some(p[q]) else None
  }

  lemma {:induction false} ReachExtends(v: Value, k: PathStep, rel: Path)
    ensures Reach(v, [k] + rel) == if v.Map? && k.Key? && k.key in v.fields then Reach(v.fields[k.key], rel) else None
  {
    assert ([k] + rel)[1..] == rel;
  }

  lemma BothMappingsExtends(base: Value, overlay: Value, k: PathStep, rel: Path)
    requires base.Map? && overlay.Map?
    ensures BothMappings(base, overlay, [k] + rel) <==>
            && k.Key? && k.key in base.fields && k.key in overlay.fields
            && BothMappings(base.fields[k.key], overlay.fields[k.key], rel)
  {
    ReachExtends(base, k, rel);
    ReachExtends(overlay, k, rel);
  }

  /** A merge of two mappings marks below a key what merging under that key marks. */
  lemma MarkBelowKey(base: Value, overlay: Value, k: PathStep, rel: Path)
    requires base.Map? && overlay.Map?
    ensures MarkOf(base, overlay, [k] + rel) ==
            if !k.Key? || (k.key !in base.fields && k.key !in overlay.fields) then Untouched
            else if k.key !in overlay.fields then (if rel == [] then BaseUnlessSet else Untouched)
            else if k.key !in base.fields then (if rel == [] then OverlayAlways else Untouched)
            else if rel == [] && base.fields[k.key].Map? && overlay.fields[k.key].Map? then BaseUnlessSet
            else MarkOf(base.fields[k.key], overlay.fields[k.key], rel)
  {
    var q := [k] + rel;
    ReachExtends(base, k, rel);
    ReachExtends(overlay, k, rel);
    if rel == [] {
      assert q[..|q| - 1] == [];
    } else {
      assert q[..|q| - 1] == [k] + rel[..|rel| - 1];
      BothMappingsExtends(base, overlay, k, rel[..|rel| - 1]);
    }
  }

  /** The fields of a merge when only some of the overlay's keys have been folded in. */
  ghost predicate KeysMerged(fields: Fields, base: Value, overlay: Value, done: set<string>)
    requires base.Map? && overlay.Map?
  {
    && fields.Keys == base.fields.Keys + done
    && forall k :: k in fields ==>
         fields[k] == if k in done && k in overlay.fields then Merge(base, overlay).fields[k]
                      else if k in base.fields then base.fields[k] else Null
  }

  lemma {:induction false} OneMoreKeyMerged(fields: Fields, base: Value, overlay: Value, done: set<string>, k: string)
    requires base.Map? && overlay.Map? && k in overlay.fields && KeysMerged(fields, base, overlay, done)
    ensures KeysMerged(fields[k := Merge(base, overlay).fields[k]], base, overlay, done + {k})
  {
  }

  lemma {:induction false} AllKeysMerged(fields: Fields, base: Value, overlay: Value)
    requires base.Map? && overlay.Map? && KeysMerged(fields, base, overlay, overlay.fields.Keys)
    ensures fields == Merge(base, overlay).fields
  {
  }

  /** Its record then: the keys folded in are final, the others have the base's default. */
  ghost predicate KeysRecorded(
    before: Provenance, defaulted: Provenance, now: Provenance, path: Path,
    base: Value, overlay: Value, done: set<string>, bs: string, os: string)
  {
    forall q: Path :: Credit(now, q) ==
      if path < q && q[|path|].Key? && q[|path|].key in done
      then Marked(MarkOf(base, overlay, q[|path|..]), Credit(before, q), bs, os)
      else Credit(defaulted, q)
  }

  lemma OneMoreKeyRecorded(
    before: Provenance, defaulted: Provenance, pre: Provenance, post: Provenance, path: Path,
    base: Value, overlay: Value, done: set<string>, k: string, bs: string, os: string)
    requires KeysRecorded(before, defaulted, pre, path, base, overlay, done, bs, os)
    requires forall q: Path :: Credit(post, q) ==
               if path < q && q[|path|] == Key(k)
               then Marked(MarkOf(base, overlay, q[|path|..]), Credit(before, q), bs, os)
               else Credit(pre, q)
    ensures KeysRecorded(before, defaulted, post, path, base, overlay, done + {k}, bs, os)
  {
    forall q: Path
      ensures Credit(post, q) ==
                if path < q && q[|path|].Key? && q[|path|].key in done + {k}
                then Marked(MarkOf(base, overlay, q[|path|..]), Credit(before, q), bs, os)
                else Credit(defaulted, q)
    {
      assert path < q && q[|path|] == Key(k) <==> path < q && q[|path|].Key? && q[|path|].key == k;
    }
  }

  /** Everything a merge under `path` recorded, and nothing else. */
  ghost predicate Recorded(
    before: Provenance, after: Provenance, path: Path,
    base: Value, overlay: Value, baseSource: string, overlaySource: string)
  {
    forall q: Path :: Credit(after, q) ==
      if path <= q then Marked(MarkOf(base, overlay, q[|path|..]), Credit(before, q), baseSource, overlaySource)
      else Credit(before, q)
  }

  class Merger {
    const baseSource: string
    const overlaySource: string
    var provenance: Provenance

    constructor (baseSource: string, overlaySource: string)
      ensures this.baseSource == baseSource && this.overlaySource == overlaySource && provenance == map[]
    {
      this.baseSource, this.overlaySource, provenance := baseSource, overlaySource, map[];
    }

    method MergeValue(base: Value, overlay: Value, path: Path) returns (result: Value)
      modifies this
      ensures result == Merge(base, overlay)
      ensures Recorded(old(provenance), provenance, path, base, overlay, baseSource, overlaySource)
      decreases base, overlay, 2
    {
      if base.Map? && overlay.Map? {
        result := MergeMappings(base, overlay, path);
      } else {
        provenance := provenance[path := overlaySource];
        result := overlay;
        LeafRecorded(old(provenance), path, base, overlay, baseSource, overlaySource);
      }
    }

    /** The loops over the keys of both mappings. */
    method MergeMappings(base: Value, overlay: Value, path: Path) returns (result: Value)
      requires base.Map? && overlay.Map?
      modifies this
      ensures result == Merge(base, overlay)
      ensures Recorded(old(provenance), provenance, path, base, overlay, baseSource, overlaySource)
      decreases base, overlay, 1
    {
      ghost var before := provenance;
      SetDefaults(base.fields, path);
      ghost var defaulted := provenance;
      var fields := base.fields;
      var todo := overlay.fields.Keys;
      while todo != {}
        invariant todo <= overlay.fields.Keys
        invariant KeysMerged(fields, base, overlay, overlay.fields.Keys - todo)
        invariant KeysRecorded(before, defaulted, provenance, path, base, overlay, overlay.fields.Keys - todo,
                               baseSource, overlaySource)
        decreases todo
      {
        var k :| k in todo;
        ghost var done, pre := overlay.fields.Keys - todo, provenance;
        var merged := MergeKey(base, overlay, path, k, before, defaulted);
        OneMoreKeyRecorded(before, defaulted, pre, provenance, path, base, overlay, done, k, baseSource, overlaySource);
        OneMoreKeyMerged(fields, base, overlay, done, k);
        fields := fields[k := merged];
        todo := todo - {k};
        assert overlay.fields.Keys - todo == done + {k};
      }
      result := Map(fields);
      AllKeysMerged(fields, base, overlay);
      AllKeysRecorded(before, defaulted, provenance, path, base, overlay, baseSource, overlaySource);
    }

    /** One key of the overlay: merged with the base's, or taken as it is. */
    method MergeKey(
      base: Value, overlay: Value, path: Path, k: string, ghost before: Provenance, ghost defaulted: Provenance)
      returns (merged: Value)
      requires base.Map? && overlay.Map? && k in overlay.fields
      requires forall q: Path | path + [Key(k)] <= q :: Credit(provenance, q) == Credit(defaulted, q)
      requires forall q: Path :: Credit(defaulted, q) ==
                 if q !in before && path < q && |q| == |path| + 1 && q[|path|].Key? && q[|path|].key in base.fields
                 then Some(baseSource) else Credit(before, q)
      modifies this
      ensures merged == Merge(base, overlay).fields[k]
      ensures forall q: Path :: Credit(provenance, q) ==
                if path < q && q[|path|] == Key(k)
                then Marked(MarkOf(base, overlay, q[|path|..]), Credit(before, q), baseSource, overlaySource)
                else Credit(old(provenance), q)
      decreases base, overlay, 0
    {
      var child := path + [Key(k)];
      if k in base.fields {
        merged := MergeValue(base.fields[k], overlay.fields[k], child);
      } else {
        merged := overlay.fields[k];
        provenance := provenance[child := overlaySource];
      }
      KeyRecorded(before, defaulted, old(provenance), provenance, path, base, overlay, k, baseSource, overlaySource);
    }

    method MergeProfileDocs(base: Fields, overlay: Fields) returns (merged: Option<Fields>)
      modifies this
      ensures merged == MergeDocs(base, overlay)
      ensures merged == None ==> provenance == old(provenance)
      ensures merged.Some? ==> forall q: Path ::
                Credit(provenance, q) ==
                  DocCredit(base, overlay, q, Credit(old(provenance), q), baseSource, overlaySource)
    {
      var baseModules, overlayModules := ModulesOf(base), ModulesOf(overlay);
      if !WellShaped(baseModules) || !WellShaped(overlayModules) {
        return None;
      }
      var rest := MergeValue(Map(BaseRest(base)), Map(OverlayRest(overlay)), []);
      assert forall q: Path :: [] <= q && q[0..] == q;
      var modules := MergeModules(baseModules.items, overlayModules.items);
      return Some(WithModules(rest.fields, modules));
    }

    /** The base modules by id, in order, each credited to the base. */
    method IndexModules(base: seq<Value>) returns (byId: Fields, order: seq<string>)
      requires WellShapedItems(base)
      modifies this
      ensures byId == ById(base) && order == Ids(base)
      ensures ModulesRecorded(old(provenance), provenance, byId, map[], baseSource, overlaySource)
    {
      byId, order := map[], [];
      AllOfThem(base);
      for i := 0 to |base|
        invariant byId == FirstById(base, i) && order == FirstIds(base, i)
        invariant ModulesRecorded(old(provenance), provenance, byId, map[], baseSource, overlaySource)
      {
        var mid := IdOf(base[i]);
        OneMore(base, i);
        BaseModuleRecorded(old(provenance), provenance, byId, mid, base[i], baseSource, overlaySource);
        byId := byId[mid := base[i]];
        order := order + [mid];
        provenance := provenance[MODULES + [Id(mid)] := baseSource];
      }
    }

    method MergeModules(base: seq<Value>, overlay: seq<Value>) returns (result: seq<Value>)
      requires WellShapedItems(base) && WellShapedItems(overlay)
      modifies this
      ensures result == MergedModules(base, overlay)
      ensures ModulesRecorded(old(provenance), provenance, ById(base), ById(overlay), baseSource, overlaySource)
    {
      var byId, order := IndexModules(base);
      byId, order := FoldModules(overlay, byId, order, old(provenance));
      MergeFieldsAt(ById(base), ById(overlay));
      result := Listing(order, byId);
    }

    /** Fold the overlay's modules into the base's, one by one. */
    method FoldModules(overlay: seq<Value>, base: Fields, ids: seq<string>, ghost before: Provenance)
      returns (byId: Fields, order: seq<string>)
      requires WellShapedItems(overlay) && forall k :: k in base <==> k in ids
      requires ModulesRecorded(before, provenance, base, map[], baseSource, overlaySource)
      modifies this
      ensures byId == MergeFields(base, ById(overlay)) && order == OrderUnion(ids, Ids(overlay))
      ensures ModulesRecorded(before, provenance, base, ById(overlay), baseSource, overlaySource)
    {
      byId, order := base, ids;
      ghost var o: Fields, seen: seq<string> := map[], [];
      AllOfThem(overlay);
      MergeWithNothing(base);
      for j := 0 to |overlay|
        invariant o == FirstById(overlay, j) && seen == FirstIds(overlay, j)
        invariant order == OrderUnion(ids, seen) && byId == MergeFields(base, o)
        invariant ModulesRecorded(before, provenance, base, o, baseSource, overlaySource)
      {
        OneMore(overlay, j);
        byId, order := AddModule(overlay[j], byId, order, before, ids, seen, base, o);
        o, seen := o[IdOf(overlay[j]) := overlay[j]], seen + [IdOf(overlay[j])];
      }
    }

    /** Fold one overlay module into the modules merged so far. */
    method AddModule(
      module_: Value, byId: Fields, order: seq<string>,
      ghost before: Provenance, ghost ids: seq<string>, ghost seen: seq<string>, ghost b: Fields, ghost o: Fields)
      returns (byId': Fields, order': seq<string>)
      requires HasId(module_) && IdOf(module_) !in o && (forall k :: k in b <==> k in ids)
      requires byId == MergeFields(b, o) && order == OrderUnion(ids, seen)
      requires ModulesRecorded(before, provenance, b, o, baseSource, overlaySource)
      modifies this
      ensures byId' == MergeFields(b, o[IdOf(module_) := module_])
      ensures order' == OrderUnion(ids, seen + [IdOf(module_)])
      ensures ModulesRecorded(before, provenance, b, o[IdOf(module_) := module_], baseSource, overlaySource)
    {
      var mid := IdOf(module_);
      ghost var pre := provenance;
      MergeFieldsGrows(b, o, mid, module_);
      assert (seen + [mid])[..|seen|] == seen;
      if mid in byId {
        var merged := MergeValue(byId[mid], module_, MODULES + [Id(mid)]);
        byId', order' := byId[mid := merged], order;
      } else {
        byId', order' := byId[mid := module_], order + [mid];
      }
      ModuleRecorded(before, pre, provenance, b, o, mid, module_, baseSource, overlaySource);
      provenance := provenance[MODULES + [Id(mid)] := overlaySource];
    }

    /** Credit the base with its own keys, where nothing is credited yet. */
    method SetDefaults(base: Fields, path: Path)
      modifies this
      ensures forall q: Path :: Credit(provenance, q) ==
                if q !in old(provenance) && path < q && |q| == |path| + 1 && q[|path|].Key? && q[|path|].key in base
                then Some(baseSource) else Credit(old(provenance), q)
    {
      var todo := base.Keys;
      while todo != {}
        invariant todo <= base.Keys
        invariant forall q: Path :: Credit(provenance, q) ==
                    if q !in old(provenance) && path < q && |q| == |path| + 1 && q[|path|].Key? &&
                      q[|path|].key in base.Keys - todo
                    then Some(baseSource) else Credit(old(provenance), q)
        decreases todo
      {
        var k :| k in todo;
        var child := path + [Key(k)];
        if child !in provenance {
          provenance := provenance[child := baseSource];
        }
        assert forall q: Path :: path < q && |q| == |path| + 1 && q[|path|] == Key(k) ==> q == child;
        todo := todo - {k};
      }
    }
  }

  lemma LeafRecorded(before: Provenance, path: Path, base: Value, overlay: Value, bs: string, os: string)
    requires !(base.Map? && overlay.Map?)
    ensures Recorded(before, before[path := os], path, base, overlay, bs, os)
  {
    forall q: Path | path <= q
      ensures Credit(before[path := os], q) == Marked(MarkOf(base, overlay, q[|path|..]), Credit(before, q), bs, os)
    {
      var rel := q[|path|..];
      assert q == path + rel;
      assert rel == [] <==> q == path;
      NotBothBelow(base, overlay, if rel == [] then rel else rel[..|rel| - 1]);
    }
  }

  lemma NotBothBelow(base: Value, overlay: Value, rel: Path)
    requires !(base.Map? && overlay.Map?)
    ensures !BothMappings(base, overlay, rel)
  {
  }

  /** One overlay key handled: the record of every path below it is now final. */
  lemma KeyRecorded(
    before: Provenance, defaulted: Provenance, pre: Provenance, post: Provenance,
    path: Path, base: Value, overlay: Value, k: string, bs: string, os: string)
    requires base.Map? && overlay.Map? && k in overlay.fields
    requires forall q: Path | path + [Key(k)] <= q :: Credit(pre, q) == Credit(defaulted, q)
    requires forall q: Path :: Credit(defaulted, q) ==
               if q !in before && path < q && |q| == |path| + 1 && q[|path|].Key? && q[|path|].key in base.fields
               then Some(bs) else Credit(before, q)
    requires if k in base.fields
             then Recorded(pre, post, path + [Key(k)], base.fields[k], overlay.fields[k], bs, os)
             else post == pre[path + [Key(k)] := os]
    ensures forall q: Path :: Credit(post, q) ==
              if path < q && q[|path|] == Key(k)
              then Marked(MarkOf(base, overlay, q[|path|..]), Credit(before, q), bs, os)
              else Credit(pre, q)
  {
    var child := path + [Key(k)];
    forall q: Path
      ensures Credit(post, q) ==
              if path < q && q[|path|] == Key(k)
              then Marked(MarkOf(base, overlay, q[|path|..]), Credit(before, q), bs, os)
              else Credit(pre, q)
    {
      assert child <= q <==> path < q && q[|path|] == Key(k);
      if child <= q {
        var rel := q[|child|..];
        assert q[|path|..] == [Key(k)] + rel;
        MarkBelowKey(base, overlay, Key(k), rel);
        assert rel == [] <==> q == child;
      }
    }
  }

  lemma AllKeysRecorded(
    before: Provenance, defaulted: Provenance, after: Provenance,
    path: Path, base: Value, overlay: Value, bs: string, os: string)
    requires base.Map? && overlay.Map?
    requires forall q: Path :: Credit(defaulted, q) ==
               if q !in before && path < q && |q| == |path| + 1 && q[|path|].Key? && q[|path|].key in base.fields
               then Some(bs) else Credit(before, q)
    requires KeysRecorded(before, defaulted, after, path, base, overlay, overlay.fields.Keys, bs, os)
    ensures Recorded(before, after, path, base, overlay, bs, os)
  {
    forall q: Path | path <= q
      ensures Credit(after, q) == Marked(MarkOf(base, overlay, q[|path|..]), Credit(before, q), bs, os)
    {
      OneKeyRecorded(path, base, overlay, q, Credit(before, q), Credit(defaulted, q), Credit(after, q), bs, os);
    }
  }

  /** The same for the credit of one path at or below `path`. */
  lemma OneKeyRecorded(
    path: Path, base: Value, overlay: Value, q: Path,
    before: Option<string>, defaulted: Option<string>, after: Option<string>, bs: string, os: string)
    requires base.Map? && overlay.Map? && path <= q
    requires defaulted ==
             if before.None? && path < q && |q| == |path| + 1 && q[|path|].Key? && q[|path|].key in base.fields
             then Some(bs) else before
    requires after == if path < q && q[|path|].Key? && q[|path|].key in overlay.fields
                      then Marked(MarkOf(base, overlay, q[|path|..]), before, bs, os) else defaulted
    ensures after == Marked(MarkOf(base, overlay, q[|path|..]), before, bs, os)
  {
    if q != path {
      assert q[|path|..] == [q[|path|]] + q[|path| + 1..];
      MarkOffKeys(base, overlay, q[|path|], q[|path| + 1..]);
    } else {
      assert q[|path|..] == [];
    }
  }

  /** Off the overlay's keys a merge marks the base's own keys, and nothing else. */
  lemma MarkOffKeys(base: Value, overlay: Value, k: PathStep, rel: Path)
    requires base.Map? && overlay.Map?
    ensures !(k.Key? && k.key in overlay.fields) ==>
              MarkOf(base, overlay, [k] + rel) ==
                if k.Key? && k.key in base.fields && rel == [] then BaseUnlessSet else Untouched
  {
    MarkBelowKey(base, overlay, k, rel);
  }

  /** What merging two module lists does to the credit of any path. */
  function ModuleCredit(
    base: Fields, overlay: Fields, q: Path, before: Option<string>, bs: string, os: string): Option<string>
  {
    if !(MODULES < q && q[2].Id?) then before
    else
      var id, rel := q[2].id, q[3..];
      if rel == [] then (if id in overlay then Some(os) else if id in base then Some(bs) else before)
      else if id in overlay && id in base then Marked(MarkOf(base[id], overlay[id], rel), before, bs, os)
      else before
  }

  ghost predicate ModulesRecorded(
    before: Provenance, after: Provenance, base: Fields, overlay: Fields, bs: string, os: string)
  {
    forall q: Path :: Credit(after, q) == ModuleCredit(base, overlay, q, Credit(before, q), bs, os)
  }

  function FirstById(items: seq<Value>, j: nat): Fields
    requires WellShapedItems(items) && j <= |items|
  {
    ById(items[..j])
  }

  function FirstIds(items: seq<Value>, j: nat): seq<string>
    requires WellShapedItems(items) && j <= |items|
  {
    Ids(items[..j])
  }

  lemma OneMore(items: seq<Value>, j: nat)
    requires WellShapedItems(items) && j < |items|
    ensures IdOf(items[j]) !in FirstById(items, j)
    ensures FirstById(items, j + 1) == FirstById(items, j)[IdOf(items[j]) := items[j]]
    ensures FirstIds(items, j + 1) == FirstIds(items, j) + [IdOf(items[j])]
  {
    assert items[..j + 1][..j] == items[..j];
    assert items[..j + 1][j] == items[j];
  }

  lemma MergeWithNothing(base: Fields)
    ensures MergeFields(base, map[]) == base
  {
    MergeFieldsAt(base, map[]);
    assert MergeFields(base, map[]) == base;
  }

  lemma {:induction false} AllOfThem(items: seq<Value>)
    requires WellShapedItems(items)
    ensures FirstById(items, 0) == map[] && FirstIds(items, 0) == []
    ensures FirstById(items, |items|) == ById(items) && FirstIds(items, |items|) == Ids(items)
  {
    assert items[..|items|] == items;
  }

  lemma {:induction false} MergeFieldsGrows(base: Fields, overlay: Fields, k: string, v: Value)
    requires k !in overlay
    ensures MergeFields(base, overlay[k := v]) ==
            MergeFields(base, overlay)[k := if k in base then Merge(base[k], v) else v]
    ensures k in MergeFields(base, overlay) <==> k in base
    ensures k in base ==> MergeFields(base, overlay)[k] == base[k]
  {
    MergeFieldsAt(base, overlay);
    MergeFieldsAt(base, overlay[k := v]);
  }

  lemma BaseModuleRecorded(
    before: Provenance, pre: Provenance, base: Fields, id: string, v: Value, bs: string, os: string)
    requires id !in base && ModulesRecorded(before, pre, base, map[], bs, os)
    ensures ModulesRecorded(before, pre[MODULES + [Id(id)] := bs], base[id := v], map[], bs, os)
  {
    forall q: Path
      ensures Credit(pre[MODULES + [Id(id)] := bs], q) ==
              ModuleCredit(base[id := v], map[], q, Credit(before, q), bs, os)
    {
      ModulePathOf(q, id);
    }
  }

  lemma ModulePathOf(q: Path, id: string)
    ensures MODULES + [Id(id)] <= q <==> MODULES < q && q[2] == Id(id)
    ensures q == MODULES + [Id(id)] <==> MODULES < q && q[2] == Id(id) && q[3..] == []
  {
  }

  lemma ModuleRecorded(
    before: Provenance, pre: Provenance, mid: Provenance,
    base: Fields, overlay: Fields, id: string, v: Value, bs: string, os: string)
    requires id !in overlay && ModulesRecorded(before, pre, base, overlay, bs, os)
    requires if id in base then Recorded(pre, mid, MODULES + [Id(id)], base[id], v, bs, os) else mid == pre
    ensures ModulesRecorded(before, mid[MODULES + [Id(id)] := os], base, overlay[id := v], bs, os)
  {
    var path := MODULES + [Id(id)];
    forall q: Path
      ensures Credit(mid[path := os], q) == ModuleCredit(base, overlay[id := v], q, Credit(before, q), bs, os)
    {
      ModulePathOf(q, id);
      if path <= q {
        assert q[|path|..] == q[3..];
      }
    }
  }

  /** The record of one path after merging two profile documents. */
  function DocCredit(
    base: Fields, overlay: Fields, q: Path, before: Option<string>, bs: string, os: string): Option<string>
    requires WellShaped(ModulesOf(base)) && WellShaped(ModulesOf(overlay))
  {
    ModuleCredit(ById(ModulesOf(base).items), ById(ModulesOf(overlay).items), q,
                 Marked(MarkOf(Map(BaseRest(base)), Map(OverlayRest(overlay)), q), before, bs, os), bs, os)
  }

  lemma RestMarksNoModules(base: Fields, overlay: Fields, q: Path)
    requires MODULES <= q
    ensures MarkOf(Map(BaseRest(base)), Map(OverlayRest(overlay)), q) == Untouched
  {
    var b, o := Map(BaseRest(base)), Map(OverlayRest(overlay));
    NothingBelowModules(b, q);
    NothingBelowModules(o, q);
    if q == MODULES {
    } else {
      NothingBelowModules(b, q[..|q| - 1]);
    }
  }

  lemma {:induction false} NothingBelowModules(v: Value, q: Path)
    requires v.Map? && MODULES <= q
    requires "spec" in v.fields && v.fields["spec"].Map? ==> "modules" !in v.fields["spec"].fields
    ensures Reach(v, q) == None
  {
    assert q == [Key("spec")] + ([Key("modules")] + q[2..]);
    ReachExtends(v, Key("spec"), [Key("modules")] + q[2..]);
    if "spec" in v.fields { ReachExtends(v.fields["spec"], Key("modules"), q[2..]); }
  }

  /** Marks on an empty record: what is recorded at all, and what for the overlay. */
  ghost predicate ExactlyCredited(b: Value, o: Value, q: Path, credit: Option<string>, os: string) {
    && (credit.Some? <==> q != [] && BothMappings(b, o, q[..|q| - 1]) && (Reach(b, q).Some? || Reach(o, q).Some?))
    && (credit == Some(os) <==> credit.Some? && Reach(o, q).Some? && !BothMappings(b, o, q))
  }

  lemma MarkFromEmpty(b: Value, o: Value, q: Path, bs: string, os: string)
    requires bs != os && (q == [] ==> b.Map? && o.Map?)
    ensures ExactlyCredited(b, o, q, Marked(MarkOf(b, o, q), None, bs, os), os)
  {
    assert q != [] && MarkOf(b, o, q) == OverlayAlways ==> Reach(o, q).Some?;
  }

  /**
   Merging two documents into an empty record. Outside the module list a path is
   recorded exactly when its parent is a mapping on both sides, and credited to the
   overlay exactly when the overlay defines it and it is not itself such a mapping;
   the same holds inside two modules with one id. A module as a whole is credited to
   the last side that lists it.
   */
  lemma TwoDocumentProvenance(base: Fields, overlay: Fields, q: Path, bs: string, os: string)
    requires WellShaped(ModulesOf(base)) && WellShaped(ModulesOf(overlay)) && bs != os
    ensures var credit := DocCredit(base, overlay, q, None, bs, os);
            var x, y := ById(ModulesOf(base).items), ById(ModulesOf(overlay).items);
            if !(MODULES < q && q[2].Id?)
            then ExactlyCredited(Map(BaseRest(base)), Map(OverlayRest(overlay)), q, credit, os)
            else if q[3..] == []
            then (credit.Some? <==> q[2].id in x || q[2].id in y) && (credit == Some(os) <==> q[2].id in y)
            else if q[2].id in x && q[2].id in y then ExactlyCredited(x[q[2].id], y[q[2].id], q[3..], credit, os)
            else credit == None
  {
    if MODULES < q && q[2].Id? {
      RestMarksNoModules(base, overlay, q);
      var x, y := ById(ModulesOf(base).items), ById(ModulesOf(overlay).items);
      if q[3..] != [] && q[2].id in x && q[2].id in y {
        MarkFromEmpty(x[q[2].id], y[q[2].id], q[3..], bs, os);
      }
    } else {
      MarkFromEmpty(Map(BaseRest(base)), Map(OverlayRest(overlay)), q, bs, os);
    }
  }
}
