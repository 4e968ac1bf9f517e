// Container environments (cli/k8s_renderer.py): Compose `${CDS_X}` references become
// Kubernetes `$(CDS_X)` expansions of variables defined earlier in the same list.
module Environment {
  import opened Document
  import opened Text

  // ---------------------------------------------------------------------------
  // References in a text
  // ---------------------------------------------------------------------------

  /** How many leading characters may belong to a variable name. */
  function NameRun(t: string): (n: nat)
    ensures n <= |t| && forall i :: 0 <= i < n ==> IsNameChar(t[i])
  {
    if t == "" || !IsNameChar(t[0]) then 0 else 1 + NameRun(t[1..])
  }

  const OPEN := "${CDS_"

  /** The variable a text refers to at its very start: `${CDS_` name `}`. */
  function RefAt(t: string): (name: Option<string>)
    ensures name.Some? ==> 7 < 3 + |name.value| <= |t| && t[0] == '$' && forall c :: c in name.value ==> IsNameChar(c)
  {
    if OPEN <= t then
      var n := NameRun(t[6..]);
      if n > 0 && 6 + n < |t| && t[6 + n] == '}' then Some("CDS_" + t[6..6 + n]) else None
    else None
  }

  /** Length of the reference to `name` in a text. */
  function RefLength(name: string): nat {
    3 + |name|
  }

  function Refs(t: string): set<string> {
    if t == "" then {}
    else if RefAt(t).Some? then {RefAt(t).value} + Refs(t[RefLength(RefAt(t).value)..])
    else Refs(t[1..])
  }

  /** A name of a runtime variable: `CDS_` and at least one more character. */
  predicate IsVariable(name: string) {
    "CDS_" < name && forall c :: c in name ==> 'A' <= c <= 'Z' || '0' <= c <= '9' || c == '_'
  }

  lemma {:induction false} NameRunIs(name: string, rest: string)
    requires (forall c :: c in name ==> IsNameChar(c)) && rest != "" && !IsNameChar(rest[0])
    ensures NameRun(name + rest) == |name|
  {
    if name == "" {
    } else {
      assert name[0] in name && (name + rest)[1..] == name[1..] + rest;
      NameRunIs(name[1..], rest);
    }
  }

  /** A reference is the name of a variable in braces behind a dollar sign. */
  lemma RefAtIff(t: string, name: string)
    ensures RefAt(t) == Some(name) <==> IsVariable(name) && "${" + name + "}" <= t
  {
    if RefAt(t) == Some(name) { RefIsVariable(t, name); }
    if IsVariable(name) && "${" + name + "}" <= t { StartsWithRef(t, name); }
  }

  lemma RefIsVariable(t: string, name: string)
    requires RefAt(t) == Some(name)
    ensures IsVariable(name) && "${" + name + "}" <= t
  {
    var n := NameRun(t[6..]);
    assert name == "CDS_" + t[6..6 + n] && |t[6..6 + n]| == n > 0;
    assert t[..6] == "${CDS_" && t[6 + n] == '}';
    assert t[..7 + n] == "${CDS_" + t[6..6 + n] + "}";
    assert "${CDS_" + t[6..6 + n] + "}" == "${" + name + "}";
  }

  lemma StartsWithRef(t: string, name: string)
    requires IsVariable(name) && "${" + name + "}" <= t
    ensures RefAt(t) == Some(name)
  {
    var rest := t[3 + |name|..];
    assert t == "${" + name + "}" + rest;
    assert name == "CDS_" + name[4..] && t[6..] == name[4..] + ("}" + rest);
    assert forall c :: c in name[4..] ==> c in name;
    NameRunIs(name[4..], "}" + rest);
    assert OPEN <= t && t[6..6 + |name[4..]|] == name[4..];
  }

  /** How far a scan for references moves on. */
  function ScanStep(t: string): nat {
    if RefAt(t).Some? then RefLength(RefAt(t).value) else 1
  }

  /** The variables a text refers to are those it holds in this form, wherever that is. */
  lemma {:induction false} RefsIff(t: string, name: string)
    ensures name in Refs(t) <==> IsVariable(name) && Contains(t, "${" + name + "}")
    decreases |t|
  {
    var v := "${" + name + "}";
    if t == "" {
      assert !Contains("", v);
    } else {
      var k := ScanStep(t);
      RefsIff(t[k..], name);
      RefAtIff(t, name);
      assert t == t[..k] + t[k..];
      if i: nat :| i <= |t[k..]| && OccursAt(t[k..], v, i) { OccursInTail(t[..k], t[k..], v, i); }
      if RefAt(t) == Some(name) { assert OccursAt(t, v, 0); }
      if IsVariable(name) && Contains(t, v) { NextOccurrence(t, name); }
    }
  }

  lemma NextOccurrence(t: string, name: string)
    requires t != "" && IsVariable(name) && Contains(t, "${" + name + "}")
    ensures RefAt(t) == Some(name) || Contains(t[ScanStep(t)..], "${" + name + "}")
  {
    var v, k := "${" + name + "}", ScanStep(t);
    var i: nat :| i <= |t| && OccursAt(t, v, i);
    if i >= k {
      assert t == t[..k] + t[k..];
      OccursInTail(t[..k], t[k..], v, i - k);
    } else if i > 0 {
      assert t[i] == t[i..i + |v|][0] == '$';
      RefAtIff(t, RefAt(t).value);
      NoDollarInside(t, RefAt(t).value, i);
    } else {
      assert t[..|v|] == v;
      RefAtIff(t, name);
    }
  }

  lemma NoDollarInside(t: string, name: string, i: nat)
    requires IsVariable(name) && "${" + name + "}" <= t && 0 < i < 3 + |name|
    ensures t[i] != '$'
  {
    var v := "${" + name + "}";
    assert t[i] == v[i];
    if 2 <= i < 2 + |name| { assert v[i] == name[i - 2] && name[i - 2] in name; }
  }

  predicate StartsEscape(t: string) {
    |t| > 1 && t[0] == '$' && t[1] == '$'
  }

  /** Every dollar sign belongs to a reference or to a `$$` escape. */
  predicate OnlyRefs(t: string) {
    t == "" ||
    if RefAt(t).Some? then OnlyRefs(t[RefLength(RefAt(t).value)..])
    else if StartsEscape(t) then OnlyRefs(t[2..])
    else t[0] != '$' && OnlyRefs(t[1..])
  }

  /** No escape stands right before what would be the rest of a reference, as in `$${CDS_X}`. */
  predicate NoEscapedRef(t: string) {
    t == "" ||
    if RefAt(t).Some? then NoEscapedRef(t[RefLength(RefAt(t).value)..])
    else if StartsEscape(t) then RefAt(t[1..]).None? && NoEscapedRef(t[2..])
    else NoEscapedRef(t[1..])
  }

  function Translate(t: string): string {
    if t == "" then ""
    else if RefAt(t).Some? then "$(" + RefAt(t).value + ")" + Translate(t[RefLength(RefAt(t).value)..])
    else [t[0]] + Translate(t[1..])
  }

  /** Compose interpolation, of references and of the `$$` escape. */
  function Interpolate(t: string, secrets: map<string, string>): string {
    if t == "" then ""
    else if RefAt(t).Some? then
      (if RefAt(t).value in secrets then secrets[RefAt(t).value] else "") +
        Interpolate(t[RefLength(RefAt(t).value)..], secrets)
    else if StartsEscape(t) then "$" + Interpolate(t[2..], secrets)
    else [t[0]] + Interpolate(t[1..], secrets)
  }

  /** Kubernetes expansion of `$(NAME)` against the variables defined so far. */
  function Expand(t: string, env: map<string, string>): string
    decreases |t|
  {
    if t == "" then ""
    else if t[0] != '$' || |t| == 1 then [t[0]] + Expand(t[1..], env)
    else if t[1] == '(' then
      var n := IndexOf(t[2..], ')');
      if 2 + n == |t| then "$(" + Expand(t[2..], env)
      else
        var name := t[2..2 + n];
        (if name in env then env[name] else "$(" + name + ")") + Expand(t[3 + n..], env)
    else if t[1] == '$' then "$" + Expand(t[2..], env)
    else t[..2] + Expand(t[2..], env)
  }

  lemma {:induction false} CloserAfterName(name: string, rest: string)
    requires ')' !in name
    ensures IndexOf(name + ")" + rest, ')') == |name|
  {
    var t := name + ")" + rest;
    if name == "" {
    } else {
      CloserAfterName(name[1..], rest);
      assert t[1..] == name[1..] + ")" + rest;
      assert name[0] in name;
    }
  }

  lemma {:induction false} ExpandReference(name: string, rest: string, env: map<string, string>)
    requires name in env && forall c :: c in name ==> IsNameChar(c)
    ensures Expand("$(" + name + ")" + rest, env) == env[name] + Expand(rest, env)
  {
    var t := "$(" + name + ")" + rest;
    assert t[2..] == name + ")" + rest;
    CloserAfterName(name, rest);
    assert t[2..2 + |name|] == name && t[3 + |name|..] == rest;
  }

  /** A reference, and nothing but it, is rewritten. */
  lemma RefRewritten(name: string, rest: string, secrets: map<string, string>)
    requires IsVariable(name)
    ensures var t := "${" + name + "}" + rest;
            && Translate(t) == "$(" + name + ")" + Translate(rest)
            && Interpolate(t, secrets) == (if name in secrets then secrets[name] else "") + Interpolate(rest, secrets)
  {
    var t := "${" + name + "}" + rest;
    assert t[..3 + |name|] == "${" + name + "}" && t[3 + |name|..] == rest;
    RefAtIff(t, name);
  }

  lemma {:induction false} OtherTextStays(
    a: string, rest: string, secrets: map<string, string>, env: map<string, string>)
    requires '$' !in a
    ensures Translate(a + rest) == a + Translate(rest)
    ensures Interpolate(a + rest, secrets) == a + Interpolate(rest, secrets)
    ensures Expand(a + rest, env) == a + Expand(rest, env)
    decreases |a|
  {
    if a == "" {
      assert a + rest == rest;
    } else {
      var t := a + rest;
      assert a[0] in a && (forall c :: c in a[1..] ==> c in a) && t[1..] == a[1..] + rest;
      OtherTextStays(a[1..], rest, secrets, env);
      OneCharacter(t, secrets, env);
      InFront(a, Translate(rest));
      InFront(a, Interpolate(rest, secrets));
      InFront(a, Expand(rest, env));
    }
  }

  lemma OneCharacter(t: string, secrets: map<string, string>, env: map<string, string>)
    requires t != "" && t[0] != '$'
    ensures Translate(t) == [t[0]] + Translate(t[1..])
    ensures Interpolate(t, secrets) == [t[0]] + Interpolate(t[1..], secrets)
    ensures Expand(t, env) == [t[0]] + Expand(t[1..], env)
  {
  }

  lemma InFront(a: string, x: string)
    requires a != ""
    ensures [a[0]] + (a[1..] + x) == a + x
  {
  }

  /** Kubernetes leaves a reference to what is not defined as it is, and makes one dollar of two. */
  lemma UndefinedStays(name: string, rest: string, env: map<string, string>)
    requires name !in env && ')' !in name
    ensures Expand("$(" + name + ")" + rest, env) == "$(" + name + ")" + Expand(rest, env)
    ensures Expand("$$" + rest, env) == "$" + Expand(rest, env)
  {
    var t := "$(" + name + ")" + rest;
    assert t[2..] == name + ")" + rest && ("$$" + rest)[2..] == rest;
    CloserAfterName(name, rest);
    assert t[2..2 + |name|] == name && t[3 + |name|..] == rest;
  }

  lemma SameTail(a: string, x: string, y: string)
    ensures a + x == a + y <==> x == y
  {
    if a + x == a + y { assert (a + x)[|a|..] == x && (a + y)[|a|..] == y; }
  }

  predicate SecretsDefined(t: string, secrets: map<string, string>, env: map<string, string>) {
    forall name :: name in Refs(t) ==> name in secrets && name in env && env[name] == secrets[name]
  }

  lemma {:induction false} EscapedInterpolates(t: string, secrets: map<string, string>)
    requires StartsEscape(t) && |t| > 2 && t[2] == '{'
    ensures "${" <= Interpolate(t, secrets)
  {
    assert RefAt(t[2..]).None? && !StartsEscape(t[2..]);
    assert Interpolate(t[2..], secrets)[0] == '{';
  }

  lemma {:induction false} EscapedExpands(t: string, env: map<string, string>)
    requires StartsEscape(t) && |t| > 2 && t[2] == '('
    ensures "$(" <= Expand(t, env)
  {
    assert Expand(t[2..], env)[0] == '(';
  }

  /** Of `$${CDS_X}` Compose makes `${` and more, Kubernetes `$(` and more. */
  lemma {:induction false} EscapedRefDiffers(t: string, secrets: map<string, string>, env: map<string, string>)
    requires StartsEscape(t) && RefAt(t[1..]).Some?
    ensures "${" <= Interpolate(t, secrets) && "$(" <= Expand(Translate(t), env)
    ensures Expand(Translate(t), env) != Interpolate(t, secrets)
  {
    assert t[1..][1] == OPEN[1] == '{';
    EscapedInterpolates(t, secrets);
    assert RefAt(t).None? && Translate(t) == ['$'] + Translate(t[1..]);
    assert Translate(t[1..])[..2] == "$(";
    EscapedExpands(Translate(t), env);
    assert Interpolate(t, secrets)[1] == "${"[1] && Expand(Translate(t), env)[1] == "$("[1];
  }

  /**
   Translated text expands to what Compose would have interpolated, exactly when no escape
   stands before the braces of a reference.
   */
  lemma {:induction false} TranslationKeepsMeaningIff(
    t: string, secrets: map<string, string>, env: map<string, string>)
    requires OnlyRefs(t) && SecretsDefined(t, secrets, env)
    ensures Expand(Translate(t), env) == Interpolate(t, secrets) <==> NoEscapedRef(t)
    decreases |t|
  {
    if t == "" {
    } else if RefAt(t).Some? {
      var name := RefAt(t).value;
      var rest := t[RefLength(name)..];
      TranslationKeepsMeaningIff(rest, secrets, env);
      ExpandReference(name, Translate(rest), env);
      SameTail(secrets[name], Expand(Translate(rest), env), Interpolate(rest, secrets));
    } else if StartsEscape(t) {
      if RefAt(t[1..]).Some? {
        EscapedRefDiffers(t, secrets, env);
      } else {
        EscapeTranslated(t);
        TranslationKeepsMeaningIff(t[2..], secrets, env);
        SameTail("$", Expand(Translate(t[2..]), env), Interpolate(t[2..], secrets));
      }
    } else {
      TranslationKeepsMeaningIff(t[1..], secrets, env);
      assert Translate(t)[1..] == Translate(t[1..]);
      SameTail([t[0]], Expand(Translate(t[1..]), env), Interpolate(t[1..], secrets));
    }
  }

  lemma {:induction false} EscapeTranslated(t: string)
    requires StartsEscape(t) && RefAt(t[1..]).None?
    ensures Refs(t) == Refs(t[2..]) && Translate(t) == "$$" + Translate(t[2..])
    ensures Translate(t)[2..] == Translate(t[2..])
  {
    assert t[1..][1..] == t[2..];
    assert Translate(t) == ['$'] + (['$'] + Translate(t[2..]));
  }

  // ---------------------------------------------------------------------------
  // The env list
  // ---------------------------------------------------------------------------

  datatype EnvValue = NullValue | BoolValue(b: bool) | Scalar(text: string)

  datatype Pair = Pair(key: string, value: EnvValue)

  /** Compose writes environments as a mapping or as a list of `KEY=value` texts. */
  datatype Declared = Mapping(pairs: seq<Pair>) | Items(items: seq<Option<string>>) | NotDeclared

  datatype Entry = FromSecret(name: string) | Literal(name: string, value: string)

  function TextOf(v: EnvValue): string {
    match v
    case NullValue => ""
    case BoolValue(b) => if b then "true" else "false"
    case Scalar(text) => text
  }

  function ItemPairs(items: seq<Option<string>>): seq<Pair> {
    if items == [] then []
    else
      var last := items[|items| - 1];
      ItemPairs(items[..|items| - 1]) +
      if last.Some? && IndexOf(last.value, '=') < |last.value| then
        [Pair(last.value[..IndexOf(last.value, '=')], Scalar(last.value[IndexOf(last.value, '=') + 1..]))]
      else []
  }

  function Pairs(environment: Declared): seq<Pair> {
    match environment
    case Mapping(pairs) => pairs
    case Items(items) => ItemPairs(items)
    case NotDeclared => []
  }

  function Referenced(pairs: seq<Pair>): set<string> {
    if pairs == [] then {} else Referenced(pairs[..|pairs| - 1]) + Refs(TextOf(pairs[|pairs| - 1].value))
  }

  /** The literal entries, without those that would redeclare a referenced secret. */
  function Body(pairs: seq<Pair>, referenced: set<string>): seq<Entry> {
    if pairs == [] then []
    else
      var last := pairs[|pairs| - 1];
      Body(pairs[..|pairs| - 1], referenced) +
      if last.key in referenced then [] else [Literal(last.key, Translate(TextOf(last.value)))]
  }

  /** One entry for each referenced secret, sorted by name. */
  ghost predicate IsHeader(header: seq<Entry>, referenced: set<string>) {
    && (forall e :: e in header <==> e.FromSecret? && e.name in referenced)
    && (forall i, j :: 0 <= i < j < |header| ==> AtMost(header[i].name, header[j].name) && header[i] != header[j])
  }

  /** A translated environment: a header for every referenced secret, then the body. */
  ghost predicate IsTranslation(pairs: seq<Pair>, header: seq<Entry>, body: seq<Entry>) {
    IsHeader(header, Referenced(pairs)) && body == Body(pairs, Referenced(pairs))
  }

  method TranslateEnv(environment: Declared, extra: seq<Pair>)
    returns (header: seq<Entry>, body: seq<Entry>, referenced: set<string>)
    ensures referenced == Referenced(Pairs(environment) + extra)
    ensures IsTranslation(Pairs(environment) + extra, header, body)
  {
    var pairs := Pairs(environment) + extra;
    referenced := CollectReferenced(pairs);
    body := TranslateBody(pairs, referenced);
    header := WriteHeader(referenced);
  }

  predicate IsLeast(name: string, names: set<string>) {
    name in names && forall other :: other in names ==> AtMost(name, other)
  }

  lemma {:induction false} LeastName(names: set<string>)
    requires names != {}
    ensures exists name :: IsLeast(name, names)
  {
    var some :| some in names;
    var rest := names - {some};
    if rest == {} {
      assert names == {some};
      AtMostTotal(some, some);
      assert IsLeast(some, names);
    } else {
      LeastName(rest);
      var least :| IsLeast(least, rest);
      AtMostTotal(some, least);
      AtMostTotal(some, some);
      if AtMost(some, least) {
        forall other | other in names ensures AtMost(some, other) {
          if other != some { AtMostTransitive(some, least, other); }
        }
        assert IsLeast(some, names);
      } else {
        assert IsLeast(least, names);
      }
    }
  }

  method WriteHeader(referenced: set<string>) returns (header: seq<Entry>)
    ensures IsHeader(header, referenced)
  {
    header := [];
    var todo := referenced;
    while todo != {}
      invariant todo <= referenced && IsHeader(header, referenced - todo)
      invariant forall e, other :: e in header && other in todo ==> AtMost(e.name, other)
    {
      LeastName(todo);
      var name :| IsLeast(name, todo);
      header := header + [FromSecret(name)];
      todo := todo - {name};
    }
  }

  method CollectReferenced(pairs: seq<Pair>) returns (referenced: set<string>)
    ensures referenced == Referenced(pairs)
  {
    referenced := {};
    for i := 0 to |pairs|
      invariant referenced == Referenced(pairs[..i])
    {
      assert pairs[..i + 1][..i] == pairs[..i];
      referenced := referenced + Refs(TextOf(pairs[i].value));
    }
    assert pairs[..|pairs|] == pairs;
  }

  method TranslateBody(pairs: seq<Pair>, referenced: set<string>) returns (body: seq<Entry>)
    ensures body == Body(pairs, referenced)
  {
    body := [];
    for i := 0 to |pairs|
      invariant body == Body(pairs[..i], referenced)
    {
      assert pairs[..i + 1][..i] == pairs[..i];
      if pairs[i].key !in referenced {
        body := body + [Literal(pairs[i].key, Translate(TextOf(pairs[i].value)))];
      }
    }
    assert pairs[..|pairs|] == pairs;
  }

  /** Kubernetes evaluates the list in order, each entry against the ones before it. */
  function Evaluate(entries: seq<Entry>, secrets: map<string, string>): map<string, string>
    requires forall e :: e in entries && e.FromSecret? ==> e.name in secrets
  {
    if entries == [] then map[]
    else
      var env := Evaluate(entries[..|entries| - 1], secrets);
      var last := entries[|entries| - 1];
      env[last.name := if last.FromSecret? then secrets[last.name] else Expand(last.value, env)]
  }

  /** The text the last pair with this key gives it. */
  function LastText(pairs: seq<Pair>, key: string): Option<string> {
    if pairs == [] then None
    else if pairs[|pairs| - 1].key == key then Some(TextOf(pairs[|pairs| - 1].value))
    else LastText(pairs[..|pairs| - 1], key)
  }

  /** The last pair with a key gives it its text: nothing for null, and booleans in lower case. */
  lemma {:induction false} LastPairDecides(pairs: seq<Pair>, i: nat)
    requires i < |pairs| && forall j :: i < j < |pairs| ==> pairs[j].key != pairs[i].key
    ensures LastText(pairs, pairs[i].key) ==
            match pairs[i].value
            case NullValue => Some("")
            case BoolValue(b) => Some(if b then "true" else "false")
            case Scalar(text) => Some(text)
  {
    if i < |pairs| - 1 {
      LastPairDecides(pairs[..|pairs| - 1], i);
    }
  }

  lemma {:induction false} NoPairNoText(pairs: seq<Pair>, key: string)
    ensures LastText(pairs, key).None? <==> forall p :: p in pairs ==> p.key != key
  {
    if pairs == [] {
    } else {
      NoPairNoText(pairs[..|pairs| - 1], key);
      assert pairs == pairs[..|pairs| - 1] + [pairs[|pairs| - 1]];
    }
  }

  lemma {:induction false} ItemCut(key: string, text: string)
    requires '=' !in key
    ensures IndexOf(key + "=" + text, '=') == |key|
    ensures (key + "=" + text)[..|key|] == key && (key + "=" + text)[|key| + 1..] == text
  {
    var t := key + "=" + text;
    assert t[|key|] == '=' && forall i :: 0 <= i < |key| ==> t[i] == key[i] && key[i] in key;
  }

  /** A list of `KEY=value` texts means the same as the mapping; whatever else it holds is left out. */
  lemma {:induction false} ListFormSame(pairs: seq<Pair>, items: seq<Option<string>>)
    requires |items| == |pairs| && forall p :: p in pairs ==> '=' !in p.key && p.value.Scalar?
    requires forall i :: 0 <= i < |items| ==> items[i] == Some(pairs[i].key + "=" + pairs[i].value.text)
    ensures Pairs(Items(items)) == Pairs(Mapping(pairs)) == pairs
    decreases |pairs|
  {
    if pairs == [] {
    } else {
      var n := |pairs| - 1;
      ListFormSame(pairs[..n], items[..n]);
      OneMoreItem(items, pairs[n]);
      assert pairs == pairs[..n] + [pairs[n]];
    }
  }

  lemma {:induction false} OneMoreItem(items: seq<Option<string>>, p: Pair)
    requires items != [] && '=' !in p.key && p.value.Scalar?
    requires items[|items| - 1] == Some(p.key + "=" + p.value.text)
    ensures ItemPairs(items) == ItemPairs(items[..|items| - 1]) + [p]
  {
    ItemCut(p.key, p.value.text);
  }

  lemma OtherItemsDropped(items: seq<Option<string>>, item: Option<string>)
    requires item.None? || '=' !in item.value
    ensures Pairs(Items(items + [item])) == Pairs(Items(items))
  {
    assert (items + [item])[..|items|] == items;
  }

  lemma {:induction false} HeaderDefinesSecrets(header: seq<Entry>, secrets: map<string, string>)
    requires forall e :: e in header ==> e.FromSecret? && e.name in secrets
    ensures forall name :: name in Evaluate(header, secrets) <==> FromSecret(name) in header
    ensures forall name :: name in Evaluate(header, secrets) ==> Evaluate(header, secrets)[name] == secrets[name]
  {
    if header == [] {
    } else {
      var init, last := header[..|header| - 1], header[|header| - 1];
      HeaderDefinesSecrets(init, secrets);
      assert header == init + [last];
    }
  }

  lemma {:induction false} BodyHasLiteralsOnly(pairs: seq<Pair>, referenced: set<string>)
    ensures forall e :: e in Body(pairs, referenced) ==> e.Literal? && e.name !in referenced
  {
    if pairs == [] {
    } else {
      BodyHasLiteralsOnly(pairs[..|pairs| - 1], referenced);
    }
  }

  lemma {:induction false} ReferencedCovers(pairs: seq<Pair>, i: nat)
    requires i < |pairs|
    ensures Refs(TextOf(pairs[i].value)) <= Referenced(pairs)
  {
    if i < |pairs| - 1 { ReferencedCovers(pairs[..|pairs| - 1], i); }
  }

  /** What a variable holds once the list has been evaluated. */
  ghost predicate MeansTheSame(
    env: map<string, string>, pairs: seq<Pair>, referenced: set<string>, secrets: map<string, string>, key: string)
    requires referenced <= secrets.Keys
  {
    if key in referenced then key in env && env[key] == secrets[key]
    else if LastText(pairs, key).None? then key !in env
    else key in env && env[key] == Interpolate(LastText(pairs, key).value, secrets)
  }

  ghost predicate SecretsKnown(entries: seq<Entry>, secrets: map<string, string>) {
    forall e :: e in entries && e.FromSecret? ==> e.name in secrets
  }

  lemma {:induction false} EvaluateOneMore(
    before: seq<Entry>, name: string, value: string, secrets: map<string, string>)
    requires SecretsKnown(before, secrets)
    ensures SecretsKnown(before + [Literal(name, value)], secrets)
    ensures Evaluate(before + [Literal(name, value)], secrets) ==
            Evaluate(before, secrets)[name := Expand(value, Evaluate(before, secrets))]
  {
    assert (before + [Literal(name, value)])[..|before|] == before;
  }

  /** The last pair with this key, if it becomes a literal, holds no escaped reference. */
  predicate Translatable(pairs: seq<Pair>, referenced: set<string>, key: string) {
    key in referenced || LastText(pairs, key).None? || NoEscapedRef(LastText(pairs, key).value)
  }

  lemma {:induction false} LiteralMeansTheSame(
    env: map<string, string>, init: seq<Pair>, last: Pair, pairs: seq<Pair>,
    referenced: set<string>, secrets: map<string, string>)
    requires pairs != [] && init == pairs[..|pairs| - 1] && last == pairs[|pairs| - 1]
    requires last.key !in referenced && referenced <= secrets.Keys
    requires OnlyRefs(TextOf(last.value)) && Refs(TextOf(last.value)) <= referenced
    requires forall key ::
               MeansTheSame(env, init, referenced, secrets, key) <==> Translatable(init, referenced, key)
    ensures var env' := env[last.key := Expand(Translate(TextOf(last.value)), env)];
            forall key :: MeansTheSame(env', pairs, referenced, secrets, key) <==> Translatable(pairs, referenced, key)
  {
    var text := TextOf(last.value);
    forall name | name in Refs(text) ensures name in env && env[name] == secrets[name] {
      assert Translatable(init, referenced, name) && MeansTheSame(env, init, referenced, secrets, name);
    }
    TranslationKeepsMeaningIff(text, secrets, env);
    var env' := env[last.key := Expand(Translate(text), env)];
    forall key ensures MeansTheSame(env', pairs, referenced, secrets, key) <==> Translatable(pairs, referenced, key) {
      assert MeansTheSame(env, init, referenced, secrets, key) <==> Translatable(init, referenced, key);
    }
  }

  /** Evaluating header and a prefix of the body: secrets stay, literals mean the same. */
  lemma {:induction false} EvaluatedPrefix(
    pairs: seq<Pair>, referenced: set<string>, header: seq<Entry>, secrets: map<string, string>)
    requires forall e :: e in header <==> e.FromSecret? && e.name in referenced
    requires referenced <= secrets.Keys
    requires forall p :: p in pairs ==> OnlyRefs(TextOf(p.value)) && Refs(TextOf(p.value)) <= referenced
    ensures SecretsKnown(header + Body(pairs, referenced), secrets)
    ensures var env := Evaluate(header + Body(pairs, referenced), secrets);
            forall key :: MeansTheSame(env, pairs, referenced, secrets, key) <==> Translatable(pairs, referenced, key)
  {
    if pairs == [] {
      assert header + Body(pairs, referenced) == header;
      HeaderDefinesSecrets(header, secrets);
      forall key ensures MeansTheSame(Evaluate(header, secrets), pairs, referenced, secrets, key)
                      && Translatable(pairs, referenced, key) {
        assert key in referenced ==> FromSecret(key) in header;
      }
    } else {
      var init, last := pairs[..|pairs| - 1], pairs[|pairs| - 1];
      EvaluatedPrefix(init, referenced, header, secrets);
      var before := header + Body(init, referenced);
      var env := Evaluate(before, secrets);
      if last.key !in referenced {
        var text := TextOf(last.value);
        assert header + Body(pairs, referenced) == before + [Literal(last.key, Translate(text))];
        EvaluateOneMore(before, last.key, Translate(text), secrets);
        LiteralMeansTheSame(env, init, last, pairs, referenced, secrets);
      } else {
        assert header + Body(pairs, referenced) == before;
        forall key ensures MeansTheSame(env, pairs, referenced, secrets, key) <==>
                           Translatable(pairs, referenced, key) {
          assert MeansTheSame(env, init, referenced, secrets, key) <==> Translatable(init, referenced, key);
        }
      }
    }
  }

  /**
   For any secret values, a variable of the container holds what Compose would have
   interpolated for it, exactly when its text holds no escaped reference; and a key that is
   itself a referenced secret holds that secret.
   */
  lemma {:induction false} EnvironmentKeepsMeaningIff(
    environment: Declared, extra: seq<Pair>, header: seq<Entry>, body: seq<Entry>, secrets: map<string, string>,
    key: string)
    requires IsTranslation(Pairs(environment) + extra, header, body)
    requires Referenced(Pairs(environment) + extra) <= secrets.Keys
    requires forall p :: p in Pairs(environment) + extra ==> OnlyRefs(TextOf(p.value))
    ensures SecretsKnown(header + body, secrets)
    ensures var pairs, env := Pairs(environment) + extra, Evaluate(header + body, secrets);
            MeansTheSame(env, pairs, Referenced(pairs), secrets, key) <==> Translatable(pairs, Referenced(pairs), key)
  {
    var pairs := Pairs(environment) + extra;
    forall p | p in pairs ensures Refs(TextOf(p.value)) <= Referenced(pairs) {
      var i :| 0 <= i < |pairs| && pairs[i] == p;
      ReferencedCovers(pairs, i);
    }
    EvaluatedPrefix(pairs, Referenced(pairs), header, secrets);
  }

  /** The header is in the order of the names, each once. */
  lemma HeaderSorted(pairs: seq<Pair>, header: seq<Entry>, body: seq<Entry>, i: nat, j: nat)
    requires IsTranslation(pairs, header, body) && i < j < |header|
    ensures AtMost(header[i].name, header[j].name) && header[i].name != header[j].name
  {
    assert header[i] in header && header[j] in header;
  }

  /** Every reference in a translated value has its secret entry before it in the list. */
  lemma ReferencesDefinedEarlier(pairs: seq<Pair>, header: seq<Entry>, body: seq<Entry>, i: nat, name: string)
    requires IsTranslation(pairs, header, body) && i < |pairs| && name in Refs(TextOf(pairs[i].value))
    ensures exists j :: 0 <= j < |header| && header[j] == FromSecret(name)
    ensures forall k :: 0 <= k < |body| ==> body[k].Literal? && body[k].name != name
  {
    ReferencedCovers(pairs, i);
    assert FromSecret(name) in header;
    BodyHasLiteralsOnly(pairs, Referenced(pairs));
    forall k | 0 <= k < |body| ensures body[k].Literal? && body[k].name != name {
      assert body[k] in body;
    }
  }
}
