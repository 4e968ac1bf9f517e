// The two `${...}` interpolators: the planner's (cli/planner.py) for configuration and
// contracts, and the renderer's (cli/renderer.py) for service templates.
module Interpolation {
  import opened Document
  import opened Text

  // ---------------------------------------------------------------------------
  // Expressions in a text: the pattern both use, a dollar, an opening brace,
  // one or more characters other than a closing brace, and a closing brace
  // ---------------------------------------------------------------------------

  const OPEN := "${"

  function ExprText(e: string): string {
    OPEN + e + "}"
  }

  /** The expression a text starts with. */
  function ExprAt(t: string): (e: Option<string>)
    ensures e.Some? ==> e.value != "" && '}' !in e.value && ExprText(e.value) <= t
  {
    if OPEN <= t then
      var n := IndexOf(t[2..], '}');
      if 0 < n < |t| - 2 then
        assert t[..n + 3] == ExprText(t[2..2 + n]);
        Some(t[2..2 + n])
      else None
    else None
  }

  function AfterExpr(t: string): string
    requires ExprAt(t).Some?
  {
    t[|ExprAt(t).value| + 3..]
  }

  /** The expressions of a text, from left to right. */
  function Exprs(t: string): seq<string>
    decreases |t|
  {
    if t == "" then []
    else if ExprAt(t).Some? then [ExprAt(t).value] + Exprs(AfterExpr(t))
    else Exprs(t[1..])
  }

  // ---------------------------------------------------------------------------
  // Shared vocabulary
  // ---------------------------------------------------------------------------

  /** What expressions refer to, and how values other than strings are written out. */
  datatype Context = Context(fields: Fields, show: Value -> string)

  function Shown(v: Value, ctx: Context): string {
    if v.Str? then v.s else (ctx.show)(v)
  }

  predicate IsBlank(v: Value) {
    v == Null || (v.Str? && Strip(v.s) == "")
  }

  datatype Args = Args(path: string, prefix: string, suffix: string)

  datatype Cut = Cut(before: string, after: string)

  function CutAtComma(t: string): (cut: Option<Cut>)
    ensures cut.Some? ==> t == cut.value.before + "," + cut.value.after && ',' !in cut.value.before
  {
    var i := IndexOf(t, ',');
    if i < |t| then Some(Cut(t[..i], t[i + 1..])) else None
  }

  /** The three arguments of `ifNonempty:`; the last may hold commas. */
  function ArgsOf(t: string): (args: Option<Args>)
    ensures args.Some? ==> t == args.value.path + "," + args.value.prefix + "," + args.value.suffix
    ensures args.Some? ==> ',' !in args.value.path && ',' !in args.value.prefix
  {
    var first := CutAtComma(t);
    if first.None? then None
    else
      var second := CutAtComma(first.value.after);
      if second.None? then None
      else
        CommasRegroup(first.value.before, second.value.before, second.value.after);
        Some(Args(first.value.before, second.value.before, second.value.after))
  }

  lemma CommasRegroup(a: string, b: string, c: string)
    ensures a + "," + (b + "," + c) == a + "," + b + "," + c
  {
  }

  const IF_NONEMPTY := "ifNonempty:"

  const SECRETS := "secrets."

  const CERTIFICATES := "certificates."

  /** The variable a secret alias stands for: the alias itself when it is not mapped. */
  function SecretName(alias: string, ctx: Context): string {
    if "secrets" in ctx.fields && ctx.fields["secrets"].Map? && alias in ctx.fields["secrets"].fields
    then Shown(ctx.fields["secrets"].fields[alias], ctx)
    else alias
  }

  /** A secret is only ever written as a reference to its variable. */
  function SecretReference(ref: string, ctx: Context): Value
    requires SECRETS <= ref
  {
    Str(ExprText(SecretName(ref[8..], ctx)))
  }

  /** `Null` when the path leads nowhere. */
  function Walk(v: Value, parts: seq<string>): Value {
    if parts == [] then v
    else if v.Map? && parts[0] in v.fields then Walk(v.fields[parts[0]], parts[1..])
    else Null
  }

  method WalkParts(v: Value, parts: seq<string>) returns (value: Value)
    ensures value == Walk(v, parts)
  {
    value := v;
    for i := 0 to |parts|
      invariant Walk(value, parts[i..]) == Walk(v, parts)
    {
      if !value.Map? || parts[i] !in value.fields {
        return Null;
      }
      value := value.fields[parts[i]];
    }
  }

  // ---------------------------------------------------------------------------
  // The planner
  // ---------------------------------------------------------------------------

  /** `Null` for what cannot be resolved. */
  function PlanResolve(expr: string, ctx: Context): Value
    decreases |expr|
  {
    if IF_NONEMPTY <= expr then
      var args := ArgsOf(expr[11..]);
      if args.None? then Null
      else
        var value := PlanResolve(args.value.path, ctx);
        if IsBlank(value) then Str("") else Str(args.value.prefix + Shown(value, ctx) + args.value.suffix)
    else if SECRETS <= expr then SecretReference(expr, ctx)
    else
      var value := Walk(Map(ctx.fields), SplitOn(expr, '.'));
      if value.Str? && SECRETS <= value.s then SecretReference(value.s, ctx) else value
  }

  function PlanReplace(t: string, ctx: Context): string
    decreases |t|
  {
    if t == "" then ""
    else if ExprAt(t).Some? then
      var e := ExprAt(t).value;
      var value := PlanResolve(e, ctx);
      (if value == Null then ExprText(e) else Shown(value, ctx)) + PlanReplace(AfterExpr(t), ctx)
    else [t[0]] + PlanReplace(t[1..], ctx)
  }

  const ESCAPED := "\0ESC\0"

  function Unescape(t: string): string {
    ReplaceAll(t, ESCAPED, "$")
  }

  /** The planner takes a text for a single expression from its two ends. */
  predicate LooksPure(t: string) {
    OPEN <= t && EndsWith(t, "}") && !Contains(t[2..], OPEN)
  }

  function PlanString(t: string, ctx: Context): Value {
    if !Contains(t, OPEN) then Str(t)
    else
      var text := ReplaceAll(t, "$$", ESCAPED);
      var value := if LooksPure(text) && |text| > 2 then PlanResolve(text[2..|text| - 1], ctx) else Null;
      if value == Null then Str(Unescape(PlanReplace(text, ctx)))
      else if value.Str? then Str(Unescape(value.s))
      else value
  }

  // ---------------------------------------------------------------------------
  // The renderer
  // ---------------------------------------------------------------------------

  function CertificatePlaceholder(ref: string, ctx: Context): Value {
    var parts := SplitOn(ref, '.');
    if |parts| != 3 || (parts[2] != "cert" && parts[2] != "key") then Null
    else
      var name := Walk(Map(ctx.fields), ["certificates", parts[1], parts[2]]);
      if name.Str? && name.s != "" then Str(ExprText(name.s)) else Null
  }

  function RenderResolve(expr: string, ctx: Context): Value
    decreases |expr|
  {
    var equals := Find(expr, "==", 0);
    if equals != -1 then
      Bool(RenderResolve(Strip(expr[..equals]), ctx) == Str(Strip(expr[equals + 2..])))
    else if IF_NONEMPTY <= expr then
      var args := ArgsOf(expr[11..]);
      if args.None? then Null
      else
        var value := RenderResolve(args.value.path, ctx);
        if IsBlank(value) then Str("") else Str(args.value.prefix + Shown(value, ctx) + args.value.suffix)
    else if SECRETS <= expr then SecretReference(expr, ctx)
    else if CERTIFICATES <= expr then CertificatePlaceholder(expr, ctx)
    else
      var value := Walk(Map(ctx.fields), SplitOn(expr, '.'));
      if value.Str? && SECRETS <= value.s then SecretReference(value.s, ctx)
      else if value.Str? && CERTIFICATES <= value.s && CertificatePlaceholder(value.s, ctx) != Null
           then CertificatePlaceholder(value.s, ctx)
      else value
  }

  function RenderReplace(t: string, ctx: Context): string
    decreases |t|
  {
    if t == "" then ""
    else if ExprAt(t).Some? then
      var e := ExprAt(t).value;
      var value := RenderResolve(e, ctx);
      (if value == Null then ExprText(e) else Shown(value, ctx)) + RenderReplace(AfterExpr(t), ctx)
    else [t[0]] + RenderReplace(t[1..], ctx)
  }

  /** The renderer takes a text for a single expression when it is one. */
  function RenderString(t: string, ctx: Context): Value {
    var exprs := Exprs(t);
    if exprs == [] then Str(t)
    else if |exprs| == 1 && t == ExprText(exprs[0]) then
      var value := RenderResolve(exprs[0], ctx);
      if value == Null then Str(t) else value
    else Str(RenderReplace(t, ctx))
  }

  // ---------------------------------------------------------------------------
  // Texts without expressions, and texts that are one
  // ---------------------------------------------------------------------------

  lemma NoNulNoEscape(t: string)
    requires '\0' !in t
    ensures Unescape(t) == t
  {
    forall i: nat | i <= |t| ensures !OccursAt(t, ESCAPED, i) {
      if i + |ESCAPED| <= |t| {
        assert t[i..i + |ESCAPED|][0] == t[i];
        assert t[i] in t;
      }
    }
    ReplaceAbsent(t, ESCAPED, "$");
  }

  lemma {:induction false} NoOpeningNoExprs(t: string, ctx: Context)
    requires !Contains(t, OPEN)
    ensures Exprs(t) == [] && PlanReplace(t, ctx) == t && RenderReplace(t, ctx) == t
    decreases |t|
  {
    if t == "" {
    } else {
      assert !OccursAt(t, OPEN, 0);
      ContainsTail(t, OPEN);
      NoOpeningNoExprs(t[1..], ctx);
    }
  }

  lemma {:induction false} NoClosingNoExprs(t: string, ctx: Context)
    requires '}' !in t
    ensures Exprs(t) == [] && PlanReplace(t, ctx) == t && RenderReplace(t, ctx) == t
    decreases |t|
  {
    if t == "" {
    } else {
      assert forall c :: c in t[1..] ==> c in t;
      NoClosingNoExprs(t[1..], ctx);
    }
  }

  lemma {:induction false} IndexOfFirst(a: string, c: char, b: string)
    requires c !in a
    ensures IndexOf(a + [c] + b, c) == |a|
  {
    var t := a + [c] + b;
    assert t[|a|] == c && forall i :: 0 <= i < |a| ==> t[i] == a[i] && a[i] in a;
  }

  /** A text that begins with an expression. */
  lemma {:induction false} StartsWithExpr(e: string, rest: string, ctx: Context)
    requires e != "" && '}' !in e
    ensures var t := ExprText(e) + rest;
            && ExprAt(t) == Some(e) && AfterExpr(t) == rest
            && Exprs(t) == [e] + Exprs(rest)
  {
    var t := ExprText(e) + rest;
    assert t[2..] == e + ['}'] + rest;
    IndexOfFirst(e, '}', rest);
    assert OPEN <= t && t[2..2 + |e|] == e;
    assert t[|e| + 3..] == rest;
  }

  // ---------------------------------------------------------------------------
  // The common vocabulary
  // ---------------------------------------------------------------------------

  /** No equality gates and no certificates, which only the renderer knows. */
  predicate Common(e: string, ctx: Context)
    decreases |e|
  {
    && Find(e, "==", 0) == -1
    && (if IF_NONEMPTY <= e then ArgsOf(e[11..]).Some? ==> Common(ArgsOf(e[11..]).value.path, ctx)
        else if SECRETS <= e then true
        else
          && !(CERTIFICATES <= e)
          && var value := Walk(Map(ctx.fields), SplitOn(e, '.')); !(value.Str? && CERTIFICATES <= value.s))
  }

  lemma {:induction false} ResolversAgree(e: string, ctx: Context)
    requires Common(e, ctx)
    ensures PlanResolve(e, ctx) == RenderResolve(e, ctx)
    decreases |e|
  {
    if IF_NONEMPTY <= e && ArgsOf(e[11..]).Some? {
      ResolversAgree(ArgsOf(e[11..]).value.path, ctx);
    }
  }

  /** An expression both read alike, and whose value holds none of the planner's markers. */
  predicate Plain(e: string, ctx: Context) {
    && Common(e, ctx)
    && '\0' !in Shown(PlanResolve(e, ctx), ctx)
  }

  predicate PlainText(t: string, ctx: Context) {
    && !Contains(t, "$$")
    && '\0' !in t
    && forall e :: e in Exprs(t) ==> Plain(e, ctx)
  }

  lemma {:induction false} ReplacementsAgree(t: string, ctx: Context)
    requires '\0' !in t && forall e :: e in Exprs(t) ==> Plain(e, ctx)
    ensures PlanReplace(t, ctx) == RenderReplace(t, ctx)
    ensures '\0' !in PlanReplace(t, ctx)
    decreases |t|
  {
    if t == "" {
    } else {
      var e := ExprAt(t);
      var rest := if e.Some? then AfterExpr(t) else t[1..];
      assert forall c :: c in rest ==> c in t;
      ReplacementsAgree(rest, ctx);
      if e.Some? {
        assert e.value in Exprs(t);
        ResolversAgree(e.value, ctx);
        assert forall c :: c in ExprText(e.value) ==> c in t by {
          assert forall i :: 0 <= i < |ExprText(e.value)| ==> ExprText(e.value)[i] == t[i];
        }
      } else {
        assert t[0] in t;
      }
    }
  }

  /** What stands between the braces of a text that looks like one expression. */
  function Inner(t: string): string
    requires LooksPure(t)
  {
    if |t| > 2 then t[2..|t| - 1] else ""
  }

  lemma LooksPureParts(t: string)
    requires LooksPure(t)
    ensures |t| > 2 && t == ExprText(Inner(t)) && !Contains(Inner(t), OPEN)
  {
    assert t[1] == '{' && t[|t| - 1] == t[|t| - 1..][0] == '}';
    assert |t| > 2;
    assert t == OPEN + t[2..] && t[2..] == Inner(t) + "}";
    forall i: nat | i <= |Inner(t)| ensures !OccursAt(Inner(t), OPEN, i) {
      if i + 2 <= |Inner(t)| { OccursInHead(Inner(t), "}", OPEN, i); }
      assert !OccursAt(t[2..], OPEN, i);
    }
  }

  lemma {:induction false} WholeExpr(e: string, ctx: Context)
    requires e != "" && '}' !in e
    ensures Exprs(ExprText(e)) == [e]
    ensures PlanReplace(ExprText(e), ctx) ==
            if PlanResolve(e, ctx) == Null then ExprText(e) else Shown(PlanResolve(e, ctx), ctx)
  {
    assert ExprText(e) + "" == ExprText(e);
    StartsWithExpr(e, "", ctx);
  }

  /** The planner's substitution, free of escapes. */
  lemma {:induction false} PlanWithoutEscapes(t: string, ctx: Context)
    requires PlainText(t, ctx)
    requires LooksPure(t) ==> '\0' !in Shown(PlanResolve(Inner(t), ctx), ctx)
    ensures PlanString(t, ctx) ==
            if LooksPure(t) && PlanResolve(Inner(t), ctx) != Null then PlanResolve(Inner(t), ctx)
            else Str(PlanReplace(t, ctx))
  {
    if Contains(t, OPEN) {
      ReplaceAbsent(t, "$$", ESCAPED);
      ReplacementsAgree(t, ctx);
      NoNulNoEscape(PlanReplace(t, ctx));
      if LooksPure(t) {
        LooksPureParts(t);
        var value := PlanResolve(Inner(t), ctx);
        if value.Str? { NoNulNoEscape(value.s); }
      }
    } else {
      NoOpeningNoExprs(t, ctx);
      if LooksPure(t) { assert OccursAt(t, OPEN, 0); }
    }
  }

  /**
   One expression and nothing else, which for a second opening in it the planner does not
   take for one, and a value that is not a text: the planner makes a text of it.
   */
  predicate Retyped(t: string, ctx: Context) {
    && !LooksPure(t)
    && |Exprs(t)| == 1 && t == ExprText(Exprs(t)[0])
    && var value := PlanResolve(Exprs(t)[0], ctx); value != Null && !value.Str?
  }

  /** Where the ends are those of one expression, both interpolators give the same value. */
  lemma EnginesAgree(t: string, ctx: Context)
    requires PlainText(t, ctx) && !Retyped(t, ctx)
    requires LooksPure(t) ==> Inner(t) != "" && '}' !in Inner(t)
    ensures PlanString(t, ctx) == RenderString(t, ctx)
  {
    ReplacementsAgree(t, ctx);
    if LooksPure(t) {
      LooksPureParts(t);
      WholeExpr(Inner(t), ctx);
      assert Inner(t) in Exprs(t);
      ResolversAgree(Inner(t), ctx);
      PlanWithoutEscapes(t, ctx);
    } else {
      PlanWithoutEscapes(t, ctx);
      RenderOfMixed(t, ctx);
    }
  }

  /** What the renderer makes of a text the planner does not take for one expression. */
  lemma {:induction false} RenderOfMixed(t: string, ctx: Context)
    requires PlainText(t, ctx) && !LooksPure(t)
    ensures RenderString(t, ctx) == Str(RenderReplace(t, ctx)) <==> !Retyped(t, ctx)
  {
    var exprs := Exprs(t);
    if exprs == [] {
      NoExprsNoChange(t, ctx);
    } else if |exprs| == 1 && t == ExprText(exprs[0]) {
      assert exprs[0] in exprs;
      ResolversAgree(exprs[0], ctx);
      OneExprReplaced(t, exprs[0], ctx);
    }
  }

  lemma {:induction false} OneExprReplaced(t: string, e: string, ctx: Context)
    requires Exprs(t) == [e] && t == ExprText(e)
    ensures RenderReplace(t, ctx) == if RenderResolve(e, ctx) == Null then t else Shown(RenderResolve(e, ctx), ctx)
  {
    if ExprAt(t) == Some(e) {
      assert AfterExpr(t) == "";
    } else {
      OneExprAtStart(t, e);
    }
  }

  /** A text that holds an expression as long as itself begins with it. */
  lemma {:induction false} OneExprAtStart(t: string, e: string)
    requires Exprs(t) == [e] && t == ExprText(e)
    ensures ExprAt(t) == Some(e)
  {
    if ExprAt(t).None? {
      ExprsAreShorter(t[1..], e);
    } else {
      assert Exprs(t)[0] == ExprAt(t).value;
    }
  }

  lemma {:induction false} ExprsAreShorter(t: string, e: string)
    requires e in Exprs(t)
    ensures |t| >= |e| + 3
    decreases |t|
  {
    if ExprAt(t).None? {
      ExprsAreShorter(t[1..], e);
    } else if e != ExprAt(t).value {
      ExprsAreShorter(AfterExpr(t), e);
    }
  }

  lemma {:induction false} NoExprsNoChange(t: string, ctx: Context)
    requires Exprs(t) == []
    ensures RenderReplace(t, ctx) == t
    decreases |t|
  {
    if t == "" {
    } else {
      NoExprsNoChange(t[1..], ctx);
    }
  }

  // ---------------------------------------------------------------------------
  // What expressions mean
  // ---------------------------------------------------------------------------

  /** A dotted path means the value there; nothing where there is none. */
  lemma {:induction false} WalkIsAt(v: Value, parts: seq<string>)
    ensures Walk(v, parts) == match At(v, parts) case Some(x) => x case None => Null
  {
    if parts != [] && v.Map? && parts[0] in v.fields {
      WalkIsAt(v.fields[parts[0]], parts[1..]);
    }
  }

  /** The placeholder a secret ends as: for the variable its alias is mapped to, else for the alias. */
  ghost predicate IsPlaceholder(result: Value, alias: string, ctx: Context) {
    match At(Map(ctx.fields), ["secrets", alias])
    case Some(Str(name)) => result == Str("${" + name + "}")
    case Some(other) => result == Str("${" + (ctx.show)(other) + "}")
    case None => result == Str("${" + alias + "}")
  }

  lemma PlaceholderOf(alias: string, ctx: Context)
    ensures IsPlaceholder(Str(ExprText(SecretName(alias, ctx))), alias, ctx)
  {
    assert ["secrets", alias][1..] == [alias] && [alias][1..] == [];
    if "secrets" in ctx.fields {
      var secrets := ctx.fields["secrets"];
      assert At(Map(ctx.fields), ["secrets", alias]) == At(secrets, [alias]);
      if secrets.Map? && alias in secrets.fields { assert At(secrets, [alias]) == At(secrets.fields[alias], []); }
    }
  }

  /** The certificate part a reference names: the text its alias holds for it, which is not empty. */
  ghost predicate IsCertificate(ctx: Context, alias: string, part: string, name: string) {
    part in {"cert", "key"} && name != "" && At(Map(ctx.fields), ["certificates", alias, part]) == Some(Str(name))
  }

  /** A certificate ends as a placeholder for its variable, and as nothing if it is not known. */
  lemma CertificateMeans(alias: string, part: string, ctx: Context)
    requires '.' !in alias && '.' !in part
    ensures var result := CertificatePlaceholder("certificates." + alias + "." + part, ctx);
            && (forall name :: IsCertificate(ctx, alias, part, name) ==> result == Str("${" + name + "}"))
            && ((forall name :: !IsCertificate(ctx, alias, part, name)) ==> result == Null)
  {
    CertificateParts(alias, part);
    var path := ["certificates", alias, part];
    WalkIsAt(Map(ctx.fields), path);
    var name := Walk(Map(ctx.fields), path);
    if part in {"cert", "key"} && name.Str? && name.s != "" { assert IsCertificate(ctx, alias, part, name.s); }
  }

  lemma {:induction false} CertificateParts(alias: string, part: string)
    requires '.' !in alias && '.' !in part
    ensures SplitOn("certificates." + alias + "." + part, '.') == ["certificates", alias, part]
  {
    ThreeParts("certificates", alias, part, '.');
    assert "certificates." + alias + "." + part == "certificates" + ['.'] + (alias + ['.'] + part);
  }

  lemma {:induction false} ThreeParts(x: string, y: string, z: string, c: char)
    requires c !in x && c !in y && c !in z
    ensures SplitOn(x + [c] + (y + [c] + z), c) == [x, y, z]
  {
    SplitAtFirst(x, c, y + [c] + z);
    SplitAtFirst(y, c, z);
    SplitAtFirst(z, c, "");
  }

  lemma {:induction false} OtherCertificates(ref: string, ctx: Context)
    requires |SplitOn(ref, '.')| != 3
    ensures CertificatePlaceholder(ref, ctx) == Null
  {
  }

  /** A value that is itself a reference stands for what it refers to. */
  ghost predicate StandsFor(result: Value, v: Value, ctx: Context) {
    if v.Str? && "secrets." <= v.s then IsPlaceholder(result, v.s[8..], ctx) else result == v
  }

  /** An expression that is not `ifNonempty:` is a secret, or the value at a dotted path. */
  lemma {:induction false} PathMeans(e: string, ctx: Context)
    requires !("ifNonempty:" <= e)
    ensures if "secrets." <= e then IsPlaceholder(PlanResolve(e, ctx), e[8..], ctx)
            else match At(Map(ctx.fields), SplitOn(e, '.'))
                 case None => PlanResolve(e, ctx) == Null
                 case Some(v) => StandsFor(PlanResolve(e, ctx), v, ctx)
  {
    WalkIsAt(Map(ctx.fields), SplitOn(e, '.'));
    if "secrets." <= e { PlaceholderOf(e[8..], ctx); }
    var v := Walk(Map(ctx.fields), SplitOn(e, '.'));
    if v.Str? && "secrets." <= v.s { PlaceholderOf(v.s[8..], ctx); }
  }

  /** To the renderer certificates mean their placeholders, too, whether named or held by a setting. */
  lemma {:induction false} RenderedPathMeans(e: string, ctx: Context)
    requires !("ifNonempty:" <= e) && Find(e, "==", 0) == -1
    ensures if "secrets." <= e then IsPlaceholder(RenderResolve(e, ctx), e[8..], ctx)
            else if "certificates." <= e then RenderResolve(e, ctx) == CertificatePlaceholder(e, ctx)
            else match At(Map(ctx.fields), SplitOn(e, '.'))
                 case None => RenderResolve(e, ctx) == Null
                 case Some(v) =>
                   if v.Str? && "certificates." <= v.s && CertificatePlaceholder(v.s, ctx) != Null
                   then RenderResolve(e, ctx) == CertificatePlaceholder(v.s, ctx)
                   else StandsFor(RenderResolve(e, ctx), v, ctx)
  {
    WalkIsAt(Map(ctx.fields), SplitOn(e, '.'));
    assert SECRETS[0] != CERTIFICATES[0];
    if "secrets." <= e { PlaceholderOf(e[8..], ctx); }
    var v := Walk(Map(ctx.fields), SplitOn(e, '.'));
    if v.Str? && "secrets." <= v.s { PlaceholderOf(v.s[8..], ctx); }
  }

  /** An equality gate says whether the path on its left holds the text on its right, both stripped. */
  lemma {:induction false} GateMeans(a: string, b: string, ctx: Context)
    requires '=' !in a
    ensures RenderResolve(a + "==" + b, ctx) == Bool(RenderResolve(Strip(a), ctx) == Str(Strip(b)))
  {
    var e := a + "==" + b;
    assert e[|a|..|a| + 2] == "==" && OccursAt(e, "==", |a|);
    FindIsFirst(e, "==", 0, |a|);
    FindOccurs(e, "==", 0);
    var n := Find(e, "==", 0);
    assert e[n] == e[n..n + 2][0] == '=';
    assert forall i :: 0 <= i < |a| ==> e[i] == a[i] && a[i] in a;
    assert e[..|a|] == a && e[|a| + 2..] == b;
  }

  /** What takes the place of an expression: the text of its value, or itself when it has none. */
  function InPlace(e: string, value: Value, ctx: Context): string {
    match value
    case Null => "${" + e + "}"
    case Str(s) => s
    case _ => (ctx.show)(value)
  }

  /** In a text each expression is replaced. */
  lemma {:induction false} FirstReplaced(e: string, rest: string, ctx: Context)
    requires e != "" && '}' !in e
    ensures PlanReplace("${" + e + "}" + rest, ctx) == InPlace(e, PlanResolve(e, ctx), ctx) + PlanReplace(rest, ctx)
    ensures RenderReplace("${" + e + "}" + rest, ctx) ==
            InPlace(e, RenderResolve(e, ctx), ctx) + RenderReplace(rest, ctx)
  {
    StartsWithExpr(e, rest, ctx);
    ExpressionFirst("${" + e + "}" + rest, e, ctx);
  }

  lemma {:induction false} ExpressionFirst(t: string, e: string, ctx: Context)
    requires t != "" && ExprAt(t) == Some(e)
    ensures PlanReplace(t, ctx) == InPlace(e, PlanResolve(e, ctx), ctx) + PlanReplace(AfterExpr(t), ctx)
    ensures RenderReplace(t, ctx) == InPlace(e, RenderResolve(e, ctx), ctx) + RenderReplace(AfterExpr(t), ctx)
  {
    ShownInPlace(e, PlanResolve(e, ctx), ctx);
    ShownInPlace(e, RenderResolve(e, ctx), ctx);
  }

  lemma ShownInPlace(e: string, value: Value, ctx: Context)
    ensures InPlace(e, value, ctx) == if value == Null then ExprText(e) else Shown(value, ctx)
  {
  }

  /** What stands between expressions is kept. */
  lemma {:induction false} BetweenKept(t: string, a: string, rest: string, ctx: Context)
    requires t == a + rest && '$' !in a
    ensures PlanReplace(t, ctx) == a + PlanReplace(rest, ctx)
    ensures RenderReplace(t, ctx) == a + RenderReplace(rest, ctx)
    decreases |a|
  {
    if a == "" {
      assert t == rest;
    } else {
      assert t[0] == a[0] && a[0] in a && forall c :: c in a[1..] ==> c in a;
      var more := t[1..];
      BetweenKept(more, a[1..], rest, ctx);
      LiteralFirst(t, ctx);
      HeadBack(a, PlanReplace(rest, ctx));
      HeadBack(a, RenderReplace(rest, ctx));
    }
  }

  lemma HeadBack(a: string, x: string)
    requires a != ""
    ensures [a[0]] + (a[1..] + x) == a + x
  {
  }

  lemma {:induction false} LiteralFirst(t: string, ctx: Context)
    requires t != "" && t[0] != '$'
    ensures PlanReplace(t, ctx) == [t[0]] + PlanReplace(t[1..], ctx)
    ensures RenderReplace(t, ctx) == [t[0]] + RenderReplace(t[1..], ctx)
  {
    assert OPEN[0] == '$' && !(OPEN <= t);
  }

  /** A text that is one expression takes over its value, type included, and stays where it has none. */
  lemma {:induction false} WholeMeans(e: string, ctx: Context)
    requires e != "" && '}' !in e && '$' !in e && '\0' !in e
    ensures var t := "${" + e + "}";
            && RenderString(t, ctx) ==
               (match RenderResolve(e, ctx) case Null => Str(t) case v => v)
            && match PlanResolve(e, ctx)
               case Null => PlanString(t, ctx) == Str(t)
               case Str(s) => '\0' !in s ==> PlanString(t, ctx) == Str(s)
               case v => PlanString(t, ctx) == v
  {
    var t := ExprText(e);
    WholeExpr(e, ctx);
    OneDollar(e);
    OpensAndHasNoNul(e);
    ReplaceAbsent(t, "$$", ESCAPED);
    PlannedWhole(t, e, ctx);
  }

  lemma OpensAndHasNoNul(e: string)
    requires '\0' !in e
    ensures Contains(ExprText(e), OPEN) && '\0' !in ExprText(e)
  {
    assert OccursAt(ExprText(e), OPEN, 0);
  }

  lemma {:induction false} PlannedWhole(t: string, e: string, ctx: Context)
    requires LooksPure(t) && Inner(t) == e && t == ExprText(e) && Contains(t, OPEN) && '\0' !in t
    requires ReplaceAll(t, "$$", ESCAPED) == t
    requires PlanReplace(t, ctx) == if PlanResolve(e, ctx) == Null then t else Shown(PlanResolve(e, ctx), ctx)
    ensures match PlanResolve(e, ctx)
            case Null => PlanString(t, ctx) == Str(t)
            case Str(s) => '\0' !in s ==> PlanString(t, ctx) == Str(s)
            case v => PlanString(t, ctx) == v
  {
    LooksPureParts(t);
    NoNulNoEscape(t);
    var v := PlanResolve(e, ctx);
    if v.Str? && '\0' !in v.s { NoNulNoEscape(v.s); }
  }

  /** To the planner `$${e}` is the text `${e}`, without any replacement. */
  lemma EscapeMeans(e: string, ctx: Context)
    requires '$' !in e && '\0' !in e
    ensures PlanString("$${" + e + "}", ctx) == Str("${" + e + "}")
  {
    var rest := "{" + e + "}";
    assert '$' !in rest && '\0' !in rest;
    assert "$${" + e + "}" == "$$" + rest && "${" + e + "}" == "$" + rest;
    EscapeOf("$$" + rest, rest, ctx);
  }

  lemma EscapeOf(t: string, rest: string, ctx: Context)
    requires t == "$$" + rest && rest != "" && rest[0] == '{' && '$' !in rest && '\0' !in rest
    ensures PlanString(t, ctx) == Str("$" + rest)
  {
    assert t[1..3] == OPEN && OccursAt(t, OPEN, 1);
    EscapeReplaced(rest);
    var text := ESCAPED + rest;
    EscapedHasNoDollar(rest);
    NoDollar(text, OPEN);
    NoOpeningNoExprs(text, ctx);
    assert !(OPEN <= text) by { assert text[0] == '\0'; }
    NothingInEscaped(t, text, ctx);
  }

  lemma EscapedHasNoDollar(rest: string)
    requires '$' !in rest
    ensures '$' !in ESCAPED + rest
  {
  }

  lemma {:induction false} NothingInEscaped(t: string, text: string, ctx: Context)
    requires Contains(t, OPEN) && text == ReplaceAll(t, "$$", ESCAPED)
    requires !(OPEN <= text) && PlanReplace(text, ctx) == text
    ensures PlanString(t, ctx) == Str(Unescape(text))
  {
  }

  lemma {:induction false} EscapeReplaced(rest: string)
    requires '$' !in rest && '\0' !in rest
    ensures ReplaceAll("$$" + rest, "$$", ESCAPED) == ESCAPED + rest && Unescape(ESCAPED + rest) == "$" + rest
  {
    NoDollar(rest, "$$");
    ReplaceAbsent(rest, "$$", ESCAPED);
    ReplaceStart("$$", rest, ESCAPED);
    NoNulNoEscape(rest);
    ReplaceStart(ESCAPED, rest, "$");
  }

  lemma {:induction false} ReplaceStart(v: string, rest: string, fill: string)
    requires v != ""
    ensures ReplaceAll(v + rest, v, fill) == fill + ReplaceAll(rest, v, fill)
  {
    assert (v + rest)[|v|..] == rest && v <= v + rest;
  }

  // ---------------------------------------------------------------------------
  // Where the two part: a closing brace between the ends
  // ---------------------------------------------------------------------------

  /** No key holds a closing brace. */
  predicate KeysClean(v: Value) {
    v.Map? ==> forall k :: k in v.fields ==> '}' !in k && KeysClean(v.fields[k])
  }

  lemma {:induction false} WalkClean(v: Value, parts: seq<string>, i: nat)
    requires KeysClean(v) && i < |parts| && '}' in parts[i]
    ensures Walk(v, parts) == Null
  {
    if i > 0 && v.Map? && parts[0] in v.fields {
      WalkClean(v.fields[parts[0]], parts[1..], i - 1);
    }
  }

  lemma {:induction false} ClosingInPart(t: string) returns (i: nat)
    requires '}' in t
    ensures i < |SplitOn(t, '.')| && '}' in SplitOn(t, '.')[i]
  {
    var parts, rest := SplitOn(t, '.'), SplitOn(t[1..], '.');
    if t[0] == '}' {
      i := 0;
      assert parts[0] == [t[0]] + rest[0];
    } else {
      i := ClosingInPart(t[1..]);
      if t[0] == '.' {
        i := i + 1;
      } else if i == 0 {
        assert parts[0] == [t[0]] + rest[0];
      }
    }
  }

  /** A dotted path that holds a closing brace leads nowhere. */
  lemma {:induction false} UncleanPathUnresolved(e: string, ctx: Context)
    requires KeysClean(Map(ctx.fields)) && '}' in e
    ensures Walk(Map(ctx.fields), SplitOn(e, '.')) == Null
  {
    var i := ClosingInPart(e);
    WalkClean(Map(ctx.fields), SplitOn(e, '.'), i);
  }

  lemma UncleanAliasUnmapped(alias: string, ctx: Context)
    requires KeysClean(Map(ctx.fields)) && '}' in alias
    ensures SecretName(alias, ctx) == alias
  {
    if "secrets" in ctx.fields {
      assert KeysClean(ctx.fields["secrets"]);
    }
  }

  function BeforeClosing(e: string): string {
    e[..IndexOf(e, '}')]
  }

  function FromClosing(e: string): string {
    e[IndexOf(e, '}')..]
  }

  predicate AllClosing(t: string) {
    forall i :: 0 <= i < |t| ==> t[i] == '}'
  }

  /** A value at the empty key, but not the text `${}` nor a secret whose variable has no name. */
  predicate EmptyKeySpills(ctx: Context) {
    && "" in ctx.fields
    && var v := ctx.fields[""];
       v != Null && v != Str("${}") && !(v.Str? && SECRETS <= v.s && SecretName(v.s[8..], ctx) == "")
  }

  /** The planner looks up the empty key for `${}`. */
  lemma {:induction false} EmptyKeyResolves(ctx: Context)
    ensures EmptyKeySpills(ctx) <==> PlanResolve("", ctx) != Null && PlanResolve("", ctx) != Str(ExprText(""))
    ensures "" !in ctx.fields ==> PlanResolve("", ctx) == Null
  {
    var parts := SplitOn("", '.');
    assert parts == [""];
    if "" in ctx.fields {
      var v := ctx.fields[""];
      assert Walk(Map(ctx.fields), parts) == Walk(v, parts[1..]) == v;
      if v.Str? && SECRETS <= v.s {
        var name := SecretName(v.s[8..], ctx);
        assert v.s[0] == 's' && ExprText(name)[2..|ExprText(name)| - 1] == name;
      }
    }
  }

  /**
   No single expression, and yet the planner makes something of the whole: an entry with
   an empty key, a mapped secret alias cut short by a closing brace, or the arguments of
   `ifNonempty:` cut elsewhere.
   */
  predicate Spills(e: string, ctx: Context) {
    if e == "" then EmptyKeySpills(ctx)
    else if '}' !in e then false
    else if IF_NONEMPTY <= e then
      var args := ArgsOf(e[11..]);
      && args.Some?
      && (|| '}' in args.value.path
          || '}' in args.value.prefix
          || IsBlank(PlanResolve(args.value.path, ctx))
          || !AllClosing(FromClosing(args.value.suffix)))
    else SECRETS <= e && SecretName(BeforeClosing(e)[8..], ctx) != BeforeClosing(e)[8..]
  }

  lemma CutAtClosing(e: string)
    requires '}' in e
    ensures FromClosing(e) != "" && FromClosing(e)[0] == '}'
    ensures e == BeforeClosing(e) + "}" + FromClosing(e)[1..] && '}' !in BeforeClosing(e)
  {
    IndexOfIn(e);
    assert FromClosing(e) == "}" + FromClosing(e)[1..];
  }

  /** What follows the first closing brace of a text that looks like one expression. */
  function Overhang(t: string): string
    requires LooksPure(t) && '}' in Inner(t)
  {
    CutAtClosing(Inner(t));
    FromClosing(Inner(t))[1..] + "}"
  }

  lemma OverhangHasNoExprs(t: string)
    requires LooksPure(t) && '}' in Inner(t)
    ensures t == ExprText(BeforeClosing(Inner(t))) + Overhang(t) && !Contains(Overhang(t), OPEN)
  {
    LooksPureParts(t);
    CutAtClosing(Inner(t));
    var h := BeforeClosing(Inner(t));
    RegroupOverhang(h, FromClosing(Inner(t))[1..]);
    AbsentInTail(h + "}", Overhang(t), OPEN);
  }

  lemma RegroupOverhang(h: string, y: string)
    ensures ExprText(h + "}" + y) == ExprText(h) + (y + "}")
    ensures ExprText(h + "}" + y)[2..] == h + "}" + (y + "}")
  {
  }

  /** A text with a closing brace between its ends, as the pattern reads it. */
  lemma {:induction false} BraceInside(t: string, ctx: Context)
    requires LooksPure(t) && '}' in Inner(t)
    ensures var h := BeforeClosing(Inner(t));
            && Exprs(t) == (if h == "" then [] else [h])
            && RenderReplace(t, ctx) ==
               if h == "" || RenderResolve(h, ctx) == Null then t else Shown(RenderResolve(h, ctx), ctx) + Overhang(t)
  {
    OverhangHasNoExprs(t);
    CutAtClosing(Inner(t));
    var h := BeforeClosing(Inner(t));
    if h == "" {
      EmptyExpr(t, ctx);
    } else {
      StartsWithExpr(h, Overhang(t), ctx);
      NoOpeningNoExprs(Overhang(t), ctx);
    }
  }

  lemma AbsentInTail(a: string, b: string, v: string)
    requires !Contains(a + b, v)
    ensures !Contains(b, v)
  {
    forall i: nat | i <= |b| ensures !OccursAt(b, v, i) {
      OccursInTail(a, b, v, i);
    }
  }

  lemma {:induction false} EmptyExpr(t: string, ctx: Context)
    requires OPEN <= t && |t| > 2 && t[2] == '}' && !Contains(t[2..], OPEN)
    ensures Exprs(t) == [] && RenderReplace(t, ctx) == t
  {
    NoOpeningNoExprs(t[2..], ctx);
    assert ExprAt(t).None? && ExprAt(t[1..]).None?;
    assert t[1..][1..] == t[2..];
    assert RenderReplace(t[1..], ctx) == t[1..];
  }

  lemma {:induction false} IndexOfIn(t: string)
    requires '}' in t
    ensures IndexOf(t, '}') < |t|
  {
    if t[0] != '}' { IndexOfIn(t[1..]); }
  }

  lemma SameWithTail(x: string, y: string, tail: string)
    ensures x + tail == y + tail <==> x == y
  {
    if x + tail == y + tail {
      assert |x| == |y| && (x + tail)[..|x|] == x && (y + tail)[..|y|] == y;
    }
  }

  lemma {:induction false} IndexInLater(a: string, b: string)
    requires '}' !in a
    ensures IndexOf(a + b, '}') == |a| + IndexOf(b, '}')
    ensures BeforeClosing(a + b) == a + BeforeClosing(b) && FromClosing(a + b) == FromClosing(b)
  {
    var t, n := a + b, |a| + IndexOf(b, '}');
    assert forall i :: 0 <= i < |a| ==> t[i] == a[i] && a[i] in a;
    assert forall i :: |a| <= i < n ==> t[i] == b[i - |a|];
    assert n < |t| ==> t[n] == '}';
    assert t[..n] == a + b[..n - |a|] && t[n..] == b[n - |a|..];
  }

  lemma CutAlias(e: string)
    requires SECRETS <= e && '}' in e
    ensures SECRETS <= BeforeClosing(e) && '}' in e[8..]
    ensures e[8..] == BeforeClosing(e)[8..] + "}" + FromClosing(e)[1..]
  {
    var rest := e[8..];
    assert e == SECRETS + rest;
    IndexInLater(SECRETS, rest);
    CutAtClosing(e);
    assert BeforeClosing(e)[8..] == BeforeClosing(rest) && FromClosing(e) == FromClosing(rest);
    ClosingAfter(SECRETS, rest);
    CutAtClosing(rest);
  }

  lemma ClosingAfter(a: string, b: string)
    requires '}' in a + b && '}' !in a
    ensures '}' in b
  {
    assert forall c :: c in a + b <==> c in a || c in b;
  }

  lemma {:induction false} SecretAnswers(e: string, ctx: Context)
    requires SECRETS <= e
    ensures !(IF_NONEMPTY <= e)
    ensures PlanResolve(e, ctx) == Str(ExprText(SecretName(e[8..], ctx)))
    ensures Find(e, "==", 0) == -1 ==> RenderResolve(e, ctx) == Str(ExprText(SecretName(e[8..], ctx)))
  {
    assert e[0] == 's';
  }

  lemma SamePlaceholder(x: string, y: string, tail: string)
    ensures ExprText(x) + tail == ExprText(y) + tail <==> x == y
  {
    SameWithTail(ExprText(x), ExprText(y), tail);
    SameWithTail(OPEN + x, OPEN + y, "}");
    assert (OPEN + x)[2..] == x && (OPEN + y)[2..] == y;
  }

  lemma {:induction false} SpillingSecret(t: string, ctx: Context)
    requires KeysClean(Map(ctx.fields)) && LooksPure(t) && '}' in Inner(t)
    requires SECRETS <= Inner(t) && Find(BeforeClosing(Inner(t)), "==", 0) == -1
    ensures PlanResolve(Inner(t), ctx) == Str(RenderReplace(t, ctx)) <==> !Spills(Inner(t), ctx)
  {
    var e := Inner(t);
    var x := BeforeClosing(e)[8..];
    CutAlias(e);
    SecretReplaced(t, ctx);
    SecretAnswers(e, ctx);
    UncleanAliasUnmapped(e[8..], ctx);
    RegroupOverhang(x, FromClosing(e)[1..]);
    SamePlaceholder(x, SecretName(x, ctx), Overhang(t));
  }

  lemma {:induction false} SecretReplaced(t: string, ctx: Context)
    requires LooksPure(t) && '}' in Inner(t) && SECRETS <= BeforeClosing(Inner(t))
    requires Find(BeforeClosing(Inner(t)), "==", 0) == -1
    ensures RenderReplace(t, ctx) == ExprText(SecretName(BeforeClosing(Inner(t))[8..], ctx)) + Overhang(t)
  {
    BraceInside(t, ctx);
    SecretAnswers(BeforeClosing(Inner(t)), ctx);
  }

  lemma CommaIsFound(a: string, b: string)
    requires ',' !in a
    ensures CutAtComma(a + "," + b) == Some(Cut(a, b))
  {
    var t := a + [','] + b;
    IndexOfFirst(a, ',', b);
    assert t == a + "," + b && t[..|a|] == a && t[|a| + 1..] == b;
  }

  lemma ArgsAreFound(path: string, prefix: string, suffix: string)
    requires ',' !in path && ',' !in prefix
    ensures ArgsOf(path + "," + prefix + "," + suffix) == Some(Args(path, prefix, suffix))
  {
    assert path + "," + prefix + "," + suffix == path + "," + (prefix + "," + suffix);
    ArgsOfTwoCuts(path + "," + prefix + "," + suffix, path, prefix, suffix);
  }

  lemma ArgsOfTwoCuts(t: string, path: string, prefix: string, suffix: string)
    requires ',' !in path && ',' !in prefix && t == path + "," + (prefix + "," + suffix)
    ensures ArgsOf(t) == Some(Args(path, prefix, suffix))
  {
    CommaIsFound(path, prefix + "," + suffix);
    CommaIsFound(prefix, suffix);
  }

  lemma CutOfLonger(x: string, y: string)
    requires CutAtComma(x).Some?
    ensures CutAtComma(x + y) == Some(Cut(CutAtComma(x).value.before, CutAtComma(x).value.after + y))
  {
    var cut := CutAtComma(x).value;
    CommaIsFound(cut.before, cut.after + y);
    assert x + y == cut.before + "," + (cut.after + y);
  }

  lemma ArgsOfLonger(x: string, y: string)
    requires ArgsOf(x).Some?
    ensures var args := ArgsOf(x).value; ArgsOf(x + y) == Some(args.(suffix := args.suffix + y))
  {
    CutOfLonger(x, y);
    CutOfLonger(CutAtComma(x).value.after, y);
  }

  lemma ArgsAreParts(x: string, c: char)
    requires ArgsOf(x).Some?
    ensures c in ArgsOf(x).value.path || c in ArgsOf(x).value.prefix ==> c in x
    ensures ',' in x
  {
    var args := ArgsOf(x).value;
    PartsOfJoined(args.path, args.prefix, args.suffix, c);
  }

  lemma PartsOfJoined(p: string, q: string, s: string, c: char)
    ensures var t := p + "," + q + "," + s; ',' in t && (c in p || c in q ==> c in t)
  {
    var t := p + "," + q + "," + s;
    assert t[|p|] == ',';
    if i :| 0 <= i < |p| && p[i] == c { assert t[i] == c; }
    if i :| 0 <= i < |q| && q[i] == c { assert t[|p| + 1 + i] == c; }
  }

  /** Arguments complete before a closing brace are the arguments, but for the rest of the last. */
  lemma ArgsBeforeClosing(r: string)
    requires '}' in r && ArgsOf(BeforeClosing(r)).Some?
    ensures ArgsOf(r).Some? && '}' !in ArgsOf(r).value.path && '}' !in ArgsOf(r).value.prefix
  {
    CutAtClosing(r);
    assert r == BeforeClosing(r) + FromClosing(r);
    ArgsOfLonger(BeforeClosing(r), FromClosing(r));
    ArgsAreParts(BeforeClosing(r), '}');
  }

  /** A closing brace in the last argument only leaves the other two where they were. */
  lemma ArgsCutInSuffix(r: string)
    requires ArgsOf(r).Some? && '}' in r
    requires '}' !in ArgsOf(r).value.path && '}' !in ArgsOf(r).value.prefix
    ensures var args := ArgsOf(r).value;
            && '}' in args.suffix
            && ArgsOf(BeforeClosing(r)) == Some(args.(suffix := BeforeClosing(args.suffix)))
            && FromClosing(r) == FromClosing(args.suffix)
  {
    var args := ArgsOf(r).value;
    var before := args.path + "," + args.prefix + ",";
    assert r == before + args.suffix;
    IndexInLater(before, args.suffix);
    IndexOfIn(r);
    assert args.suffix[IndexOf(args.suffix, '}')] == '}';
    ArgsAreFound(args.path, args.prefix, BeforeClosing(args.suffix));
    assert BeforeClosing(r) == args.path + "," + args.prefix + "," + BeforeClosing(args.suffix);
  }

  /** What `ifNonempty:` makes of the value at its path. */
  predicate IsIfNonempty(result: Value, value: Value, x: string, y: string, ctx: Context) {
    match value
    case Null => result == Str("")
    case Str(s) => result == Str(if forall c :: c in s ==> IsSpace(c) then "" else x + s + y)
    case _ => result == Str(x + (ctx.show)(value) + y)
  }

  /** Nothing for a missing or blank value, and otherwise the value between its two texts. */
  lemma {:induction false} IfNonemptyMeans(p: string, x: string, y: string, ctx: Context)
    requires ',' !in p && ',' !in x
    ensures var e := "ifNonempty:" + p + "," + x + "," + y;
            && IsIfNonempty(PlanResolve(e, ctx), PlanResolve(p, ctx), x, y, ctx)
            && (Find(e, "==", 0) == -1 ==> IsIfNonempty(RenderResolve(e, ctx), RenderResolve(p, ctx), x, y, ctx))
  {
    var e, args := "ifNonempty:" + p + "," + x + "," + y, Args(p, x, y);
    assert e == "ifNonempty:" + (p + "," + x + "," + y);
    NamedArgs(e, p, x, y);
    IfNonemptyAnswers(e, ctx);
    AnswerMeans(args, PlanResolve(p, ctx), ctx);
    RenderedAnswer(e, args, ctx);
    AnswerMeans(args, RenderResolve(p, ctx), ctx);
  }

  lemma NamedArgs(e: string, p: string, x: string, y: string)
    requires e == "ifNonempty:" + (p + "," + x + "," + y) && ',' !in p && ',' !in x
    ensures IF_NONEMPTY <= e && ArgsOf(e[11..]) == Some(Args(p, x, y))
  {
    ArgsAreFound(p, x, y);
    BehindName(e, p + "," + x + "," + y);
  }

  lemma BehindName(e: string, args: string)
    requires e == "ifNonempty:" + args
    ensures IF_NONEMPTY <= e && e[11..] == args
  {
  }

  lemma {:induction false} RenderedAnswer(e: string, args: Args, ctx: Context)
    requires IF_NONEMPTY <= e && ArgsOf(e[11..]) == Some(args)
    ensures Find(e, "==", 0) == -1 ==> RenderResolve(e, ctx) == Answer(args, RenderResolve(args.path, ctx), ctx)
  {
  }

  lemma AnswerMeans(args: Args, value: Value, ctx: Context)
    ensures IsIfNonempty(Answer(args, value, ctx), value, args.prefix, args.suffix, ctx)
  {
    if value.Str? { StripEmptyIff(value.s); }
  }

  /** A blank text at a key of the context counts as missing. */
  lemma {:induction false} BlankKeySkipped(k: string, x: string, y: string, ctx: Context)
    requires '.' !in k && ':' !in k && '=' !in k && ',' !in k && ',' !in x && '=' !in x && '=' !in y
    requires k in ctx.fields && ctx.fields[k].Str? && forall c :: c in ctx.fields[k].s ==> IsSpace(c)
    ensures var e := "ifNonempty:" + k + "," + x + "," + y;
            PlanResolve(e, ctx) == Str("") && RenderResolve(e, ctx) == Str("")
  {
    var e, s := "ifNonempty:" + k + "," + x + "," + y, ctx.fields[k].s;
    assert '=' !in e;
    FoundEquals(e);
    assert !(SECRETS <= s) && !(CERTIFICATES <= s) by {
      assert !IsSpace(SECRETS[0]) && !IsSpace(CERTIFICATES[0]);
      assert s != "" ==> s[0] in s;
    }
    KeyResolves(k, ctx);
    IfNonemptyMeans(k, x, y, ctx);
  }

  lemma {:induction false} EscapesBehind(a: string, rest: string)
    requires '$' !in a
    ensures ReplaceAll(a + rest, "$$", ESCAPED) == a + ReplaceAll(rest, "$$", ESCAPED)
    decreases |a|
  {
    if a == "" {
      assert a + rest == rest;
    } else {
      var t := a + rest;
      assert a[0] in a && (forall c :: c in a[1..] ==> c in a) && t[1..] == a[1..] + rest && t[0] == a[0];
      EscapesBehind(a[1..], rest);
      assert !StartsWith(t, "$$") by { assert "$$"[0] == '$'; }
      HeadBack(a, ReplaceAll(rest, "$$", ESCAPED));
    }
  }

  /** A single escape between texts without dollars. */
  lemma OneEscape(a: string, b: string)
    requires '$' !in a && '$' !in b && a != "" && a[0] == '{'
    ensures ReplaceAll("$" + (a + ("$$" + b)), "$$", ESCAPED) == "$" + (a + (ESCAPED + b))
  {
    var rest := a + ("$$" + b);
    var t := "$" + rest;
    assert t[1] == '{' && "$$"[1] == '$' && !StartsWith(t, "$$") && t[1..] == rest;
    EscapesBehind(a, "$$" + b);
    ReplaceStart("$$", b, ESCAPED);
    NoDollar(b, "$$");
    ReplaceAbsent(b, "$$", ESCAPED);
  }

  function EscapedArgument(k: string): string {
    "ifNonempty:" + k + "," + ESCAPED + ","
  }

  lemma EscapedInArgument(k: string)
    requires '$' !in k
    ensures ReplaceAll("${ifNonempty:" + k + ",$$,}", "$$", ESCAPED) == ExprText(EscapedArgument(k))
    ensures '$' !in EscapedArgument(k) && Contains("${ifNonempty:" + k + ",$$,}", OPEN)
  {
    var a, b := "{ifNonempty:" + k + ",", ",}";
    Regroupings(k);
    OneEscape(a, b);
    assert OccursAt("${ifNonempty:" + k + ",$$,}", OPEN, 0);
  }

  lemma Regroupings(k: string)
    ensures "$" + ("{ifNonempty:" + k + "," + ("$$" + ",}")) == "${ifNonempty:" + k + ",$$,}"
    ensures "$" + ("{ifNonempty:" + k + "," + (ESCAPED + ",}")) == ExprText(EscapedArgument(k))
  {
    assert "$" + "{ifNonempty:" == "${ifNonempty:" && "," + "$$" + ",}" == ",$$,}";
    assert "${" + "ifNonempty:" == "${ifNonempty:" && "," + "}" == ",}";
  }

  lemma EscapedAnswer(k: string, v: string, ctx: Context)
    requires ',' !in k && PlanResolve(k, ctx) == Str(v) && exists c :: c in v && !IsSpace(c)
    ensures PlanResolve(EscapedArgument(k), ctx) == Str(ESCAPED + v)
  {
    assert EscapedArgument(k) == "ifNonempty:" + k + "," + ESCAPED + "," + "";
    IfNonemptyMeans(k, ESCAPED, "", ctx);
    assert ESCAPED + v + "" == ESCAPED + v;
  }

  /** An escape inside an expression ends as a dollar of its value. */
  lemma EscapeInsideMeans(k: string, ctx: Context)
    requires '.' !in k && ':' !in k && '=' !in k && ',' !in k && '$' !in k && '}' !in k
    requires k in ctx.fields && ctx.fields[k].Str? && '\0' !in ctx.fields[k].s
    requires exists c :: c in ctx.fields[k].s && !IsSpace(c)
    requires !("secrets." <= ctx.fields[k].s) && !("certificates." <= ctx.fields[k].s)
    ensures PlanString("${ifNonempty:" + k + ",$$,}", ctx) == Str("$" + ctx.fields[k].s)
  {
    var v := ctx.fields[k].s;
    EscapedInArgument(k);
    OneDollar(EscapedArgument(k));
    KeyResolves(k, ctx);
    EscapedAnswer(k, v, ctx);
    ReplaceStart(ESCAPED, v, "$");
    NoNulNoEscape(v);
    PlannedPure("${ifNonempty:" + k + ",$$,}", ExprText(EscapedArgument(k)), EscapedArgument(k), ctx);
  }

  lemma PlannedPure(t: string, text: string, e: string, ctx: Context)
    requires Contains(t, OPEN) && text == ReplaceAll(t, "$$", ESCAPED) && LooksPure(text)
    requires |text| > 2 && Inner(text) == e
    requires PlanResolve(e, ctx).Str?
    ensures PlanString(t, ctx) == Str(Unescape(PlanResolve(e, ctx).s))
  {
  }

  lemma {:induction false} TurnsAround(y: string)
    ensures "}" + y == y + "}" <==> AllClosing("}" + y)
    decreases |y|
  {
    var a, b := "}" + y, y + "}";
    if a == b {
      forall i | 0 <= i < |a| ensures a[i] == '}' { BackToFirst(y, i); }
    }
    if AllClosing(a) {
      forall i | 0 <= i < |a| ensures a[i] == b[i] { assert i < |y| ==> b[i] == a[i + 1]; }
    }
  }

  lemma {:induction false} BackToFirst(y: string, i: nat)
    requires "}" + y == y + "}" && i <= |y|
    ensures ("}" + y)[i] == '}'
  {
    if i > 0 {
      BackToFirst(y, i - 1);
      assert ("}" + y)[i] == y[i - 1] == (y + "}")[i - 1] == ("}" + y)[i - 1];
    }
  }

  lemma {:induction false} IfNonemptyAnswers(e: string, ctx: Context)
    requires IF_NONEMPTY <= e
    ensures PlanResolve(e, ctx) ==
            match ArgsOf(e[11..])
            case None => Null
            case Some(args) => Answer(args, PlanResolve(args.path, ctx), ctx)
  {
  }

  function Answer(args: Args, value: Value, ctx: Context): Value {
    if IsBlank(value) then Str("") else Str(args.prefix + Shown(value, ctx) + args.suffix)
  }

  /** The text of a pure `ifNonempty:` expression, argument by argument. */
  lemma IfNonemptyText(t: string)
    requires LooksPure(t) && IF_NONEMPTY <= Inner(t) && ArgsOf(Inner(t)[11..]).Some?
    ensures var args := ArgsOf(Inner(t)[11..]).value;
            t == OPEN + IF_NONEMPTY + args.path + "," + args.prefix + "," + args.suffix + "}"
  {
    LooksPureParts(t);
    var args := ArgsOf(Inner(t)[11..]).value;
    assert Inner(t) == IF_NONEMPTY + Inner(t)[11..];
    RegroupArgs(OPEN, IF_NONEMPTY, args, "}");
  }

  lemma RegroupArgs(a: string, b: string, args: Args, c: string)
    ensures a + (b + (args.path + "," + args.prefix + "," + args.suffix)) + c ==
            a + b + args.path + "," + args.prefix + "," + args.suffix + c
  {
  }

  /** What `ifNonempty:` makes of its arguments is never the expression's own text. */
  lemma {:induction false} NotItself(t: string, ctx: Context)
    requires KeysClean(Map(ctx.fields)) && LooksPure(t) && IF_NONEMPTY <= Inner(t) && ArgsOf(Inner(t)[11..]).Some?
    requires var args := ArgsOf(Inner(t)[11..]).value; '}' in args.path || '}' in args.prefix
    ensures PlanResolve(Inner(t), ctx) != Null && PlanResolve(Inner(t), ctx) != Str(t)
  {
    var args := ArgsOf(Inner(t)[11..]).value;
    var value := PlanResolve(args.path, ctx);
    IfNonemptyText(t);
    IfNonemptyAnswers(Inner(t), ctx);
    if '}' in args.prefix {
      OtherThanText(t, args, Shown(value, ctx));
    } else {
      PathWithClosing(args.path, ctx);
      ShorterThanText(t, args, value, ctx);
    }
  }

  lemma OtherThanText(t: string, args: Args, shown: string)
    requires t == OPEN + IF_NONEMPTY + args.path + "," + args.prefix + "," + args.suffix + "}"
    requires !Contains(t[2..], OPEN) && '}' in args.prefix
    ensures args.prefix + shown + args.suffix != t
  {
    var head := OPEN + IF_NONEMPTY + args.path + ",";
    assert t == head + args.prefix + ("," + args.suffix + "}");
    PrefixTwice(t, head, args.prefix, shown + args.suffix, "," + args.suffix + "}");
    assert args.prefix + shown + args.suffix == args.prefix + (shown + args.suffix);
  }

  lemma ShorterThanText(t: string, args: Args, value: Value, ctx: Context)
    requires t == OPEN + IF_NONEMPTY + args.path + "," + args.prefix + "," + args.suffix + "}"
    requires value == Null || (SECRETS <= args.path && value == Str(ExprText(args.path[8..])))
    ensures Answer(args, value, ctx) != Str(t)
  {
    if value != Null {
      assert |args.prefix + Shown(value, ctx) + args.suffix| < |t|;
    }
  }

  lemma OpeningTwice(t: string, head: string, prefix: string, x: string, y: string)
    requires t == head + prefix + y && t == prefix + x && OPEN <= head && '}' in prefix
    ensures Contains(t[2..], OPEN)
  {
    var i :| 0 <= i < |prefix| && prefix[i] == '}';
    assert t[i] == '}' && t[0] == '$' && t[1] == '{';
    assert prefix[..2] == t[..2] == OPEN;
    assert t[2..][|head| - 2..|head|] == t[|head|..|head| + 2] == prefix[..2];
    assert OccursAt(t[2..], OPEN, |head| - 2);
  }

  lemma PrefixTwice(t: string, head: string, prefix: string, x: string, y: string)
    requires t == head + prefix + y && OPEN <= head && '}' !in OPEN && '}' in prefix && !Contains(t[2..], OPEN)
    ensures prefix + x != t
  {
    if prefix + x == t { OpeningTwice(t, head, prefix, x, y); }
  }

  lemma {:induction false} PathWithClosing(path: string, ctx: Context)
    requires KeysClean(Map(ctx.fields)) && ',' !in path && '}' in path
    ensures PlanResolve(path, ctx) == Null || (SECRETS <= path && PlanResolve(path, ctx) == Str(ExprText(path[8..])))
  {
    if IF_NONEMPTY <= path {
      assert ',' !in path[11..];
      if ArgsOf(path[11..]).Some? { ArgsAreParts(path[11..], ','); }
    } else if SECRETS <= path {
      CutAlias(path);
      UncleanAliasUnmapped(path[8..], ctx);
    } else {
      UncleanPathUnresolved(path, ctx);
    }
  }

  /** The planner's answer for `ifNonempty:` is the renderer's text, unless it spills. */
  lemma {:induction false} SpillingArgs(t: string, ctx: Context)
    requires KeysClean(Map(ctx.fields)) && LooksPure(t) && '}' in Inner(t)
    requires IF_NONEMPTY <= Inner(t) && ArgsOf(Inner(t)[11..]).Some?
    requires Common(BeforeClosing(Inner(t)), ctx)
    ensures PlanResolve(Inner(t), ctx) != Null
    ensures PlanResolve(Inner(t), ctx) == Str(RenderReplace(t, ctx)) <==> !Spills(Inner(t), ctx)
  {
    var e, r := Inner(t), Inner(t)[11..];
    var args := ArgsOf(r).value;
    IfNonemptyAnswers(e, ctx);
    ArgsBehindName(e);
    CutAtClosing(e);
    BraceInside(t, ctx);
    ResolversAgree(BeforeClosing(e), ctx);
    IfNonemptyAnswers(BeforeClosing(e), ctx);
    if '}' in args.path || '}' in args.prefix {
      NotItself(t, ctx);
      if ArgsOf(BeforeClosing(r)).Some? { ArgsBeforeClosing(r); }
    } else {
      ArgsCutInSuffix(r);
      SuffixSpills(args, PlanResolve(args.path, ctx), ctx);
    }
  }

  lemma ArgsBehindName(e: string)
    requires IF_NONEMPTY <= e && '}' in e
    ensures '}' in e[11..] && IF_NONEMPTY <= BeforeClosing(e) && BeforeClosing(e)[11..] == BeforeClosing(e[11..])
    ensures FromClosing(e) == FromClosing(e[11..])
  {
    assert e == IF_NONEMPTY + e[11..];
    IndexInLater(IF_NONEMPTY, e[11..]);
  }

  /** Cut in its last argument: the same text only if the cut-off part is all closing braces. */
  lemma SuffixSpills(args: Args, value: Value, ctx: Context)
    requires '}' in args.suffix
    ensures var cut := args.(suffix := BeforeClosing(args.suffix));
            Answer(args, value, ctx) == Str(Answer(cut, value, ctx).s + (FromClosing(args.suffix)[1..] + "}"))
            <==> !IsBlank(value) && AllClosing(FromClosing(args.suffix))
  {
    CutAtClosing(args.suffix);
    var y := FromClosing(args.suffix)[1..];
    assert FromClosing(args.suffix) == "}" + y;
    TurnsAround(y);
    var before := args.prefix + Shown(value, ctx) + BeforeClosing(args.suffix);
    assert args.prefix + Shown(value, ctx) + args.suffix == before + ("}" + y);
    if before + ("}" + y) == before + (y + "}") {
      assert (before + ("}" + y))[|before|..] == "}" + y && (before + (y + "}"))[|before|..] == y + "}";
    }
  }

  /** What the renderer makes of a text whose ends are not those of one expression. */
  lemma {:induction false} RenderOfCut(t: string, ctx: Context)
    requires LooksPure(t) && '}' in Inner(t)
    ensures RenderString(t, ctx) == Str(RenderReplace(t, ctx))
  {
    BraceInside(t, ctx);
    OverhangHasNoExprs(t);
    var h := BeforeClosing(Inner(t));
    assert |t| > |ExprText(h)|;
  }

  /**
   On texts of the common vocabulary, over contexts whose keys hold no closing brace, the
   two interpolators give the same value exactly when nothing spills over the ends of an
   expression and no value loses its type to a second opening.
   */
  lemma {:induction false} EnginesAgreeIff(t: string, ctx: Context)
    requires PlainText(t, ctx) && KeysClean(Map(ctx.fields))
    requires LooksPure(t) ==> '\0' !in Shown(PlanResolve(Inner(t), ctx), ctx)
    ensures PlanString(t, ctx) == RenderString(t, ctx) <==>
            !(LooksPure(t) && Spills(Inner(t), ctx)) && !Retyped(t, ctx)
  {
    if !LooksPure(t) {
      PlanWithoutEscapes(t, ctx);
      ReplacementsAgree(t, ctx);
      RenderOfMixed(t, ctx);
    } else if Inner(t) == "" {
      NothingInside(t, ctx);
    } else if '}' in Inner(t) {
      CutAgreesIff(t, ctx);
    } else {
      EnginesAgree(t, ctx);
    }
  }

  /** Free of the characters that mean something to either interpolator. */
  predicate Quiet(t: string) {
    '$' !in t && '}' !in t && '=' !in t && '\0' !in t
  }

  lemma NoDollar(t: string, v: string)
    requires '$' !in t && v != "" && v[0] == '$'
    ensures !Contains(t, v)
  {
    forall i: nat | i <= |t| ensures !OccursAt(t, v, i) {
      assert i + |v| <= |t| ==> t[i..i + |v|][0] == t[i];
    }
  }

  /** With a dollar at its start only, a text in braces looks like one expression. */
  lemma OneDollar(e: string)
    requires '$' !in e
    ensures LooksPure(ExprText(e)) && Inner(ExprText(e)) == e && !Contains(ExprText(e), "$$")
  {
    var t := ExprText(e);
    assert t[2..] == e + "}" && '$' !in e + "}";
    NoDollar(t[2..], OPEN);
    assert t[2..|t| - 1] == e;
    forall i: nat | i <= |t| ensures !OccursAt(t, "$$", i) {
      assert i + 2 <= |t| ==> t[i..i + 2][1] == t[i + 1] && t[i + 1] in t[1..];
      assert t[1..] == "{" + (e + "}");
    }
  }

  lemma AliasWithBrace(a: string, b: string)
    requires Quiet(a) && Quiet(b)
    ensures var e := SECRETS + a + "}" + b;
            && SECRETS <= e && '}' in e && '$' !in e && '\0' !in e && e[8..] == a + "}" + b
            && BeforeClosing(e) == SECRETS + a && FromClosing(e)[1..] == b
  {
    var e := SECRETS + a + "}" + b;
    assert e == (SECRETS + a) + ['}'] + b;
    IndexOfFirst(SECRETS + a, '}', b);
    assert e[|SECRETS + a|] == '}';
    assert e[|SECRETS + a|..] == "}" + b;
  }

  lemma AliasIsPlain(a: string, ctx: Context)
    requires Quiet(a) && '\0' !in SecretName(a, ctx)
    ensures Plain(SECRETS + a, ctx)
  {
    var h := SECRETS + a;
    assert h[8..] == a;
    FoundEquals(h);
    SecretAnswers(h, ctx);
    NoDollar(h, OPEN);
  }

  /** What the planner makes of a whole text that refers to an unmapped secret alias. */
  lemma {:induction false} PlannedAlias(t: string, ctx: Context)
    requires PlainText(t, ctx) && LooksPure(t) && SECRETS <= Inner(t) && '\0' !in Inner(t)
    requires SecretName(Inner(t)[8..], ctx) == Inner(t)[8..]
    ensures '\0' !in Shown(PlanResolve(Inner(t), ctx), ctx)
    ensures PlanString(t, ctx) == Str(ExprText(Inner(t)[8..]))
  {
    SecretAnswers(Inner(t), ctx);
    assert forall c :: c in Inner(t)[8..] ==> c in Inner(t);
    PlanWithoutEscapes(t, ctx);
  }

  lemma RenderedAlias(t: string, ctx: Context)
    requires LooksPure(t) && '}' in Inner(t) && SECRETS <= BeforeClosing(Inner(t))
    requires Find(BeforeClosing(Inner(t)), "==", 0) == -1
    ensures RenderString(t, ctx) == Str(ExprText(SecretName(BeforeClosing(Inner(t))[8..], ctx)) + Overhang(t))
  {
    RenderOfCut(t, ctx);
    SecretReplaced(t, ctx);
  }

  lemma CutAliasIsPlain(t: string, ctx: Context)
    requires LooksPure(t) && '}' in Inner(t) && !Contains(t, "$$") && '\0' !in t
    requires Plain(BeforeClosing(Inner(t)), ctx)
    ensures PlainText(t, ctx)
  {
    BraceInside(t, ctx);
  }

  /** Of `${secrets.a}b}` the planner reads the alias `a}b`, the renderer `a`. */
  lemma {:induction false} CutAliasDiffers(a: string, b: string, ctx: Context)
    requires Quiet(a) && Quiet(b) && KeysClean(Map(ctx.fields))
    requires SecretName(a, ctx) != a && '\0' !in SecretName(a, ctx)
    ensures var t := ExprText(SECRETS + a + "}" + b);
            && PlainText(t, ctx) && LooksPure(t) && '\0' !in Shown(PlanResolve(Inner(t), ctx), ctx)
            && PlanString(t, ctx) == Str(ExprText(a + "}" + b))
            && RenderString(t, ctx) == Str(ExprText(SecretName(a, ctx)) + (b + "}"))
            && PlanString(t, ctx) != RenderString(t, ctx)
  {
    var e := SECRETS + a + "}" + b;
    AliasWithBrace(a, b);
    AliasIsPlain(a, ctx);
    OneDollar(e);
    CutAliasIsPlain(ExprText(e), ctx);
    UncleanAliasUnmapped(e[8..], ctx);
    PlannedAlias(ExprText(e), ctx);
    RenderedAlias(ExprText(e), ctx);
    assert (SECRETS + a)[8..] == a;
    RegroupOverhang(a, b);
    SamePlaceholder(a, SecretName(a, ctx), b + "}");
  }

  lemma TwoOpenings(x: string, y: string)
    requires Quiet(x) && Quiet(y)
    ensures var e := x + OPEN + y; '}' !in e && '=' !in e && '\0' !in e && e != ""
    ensures !LooksPure(ExprText(x + OPEN + y)) && Contains(ExprText(x + OPEN + y), OPEN)
  {
    var e := x + OPEN + y;
    var t := ExprText(e);
    assert t[2..] == x + (OPEN + (y + "}")) && t == OPEN + t[2..];
    OccursInTail(x, OPEN + (y + "}"), OPEN, 0);
    assert OccursAt(OPEN + (y + "}"), OPEN, 0);
    assert OccursAt(t[2..], OPEN, |x|) && OccursAt(t, OPEN, 0);
  }

  /** Dollars apart from each other are no escape. */
  lemma NoDoubleDollar(x: string, y: string)
    requires Quiet(x) && Quiet(y)
    ensures !Contains(ExprText(x + OPEN + y), "$$")
  {
    var t := ExprText(x + OPEN + y);
    assert t == OPEN + x + OPEN + y + "}";
    forall i: nat | i <= |t| ensures !OccursAt(t, "$$", i) {
      if i + 2 <= |t| {
        assert t[i..i + 2][0] == t[i] && t[i..i + 2][1] == t[i + 1];
        assert t[i] == '$' ==> i == 0 || i == |x| + 2;
      }
    }
  }

  /** Of `${x${y}`, a key with a value that is no text, the planner makes a text and the renderer does not. */
  lemma SecondOpeningRetypes(x: string, y: string, ctx: Context)
    requires Quiet(x) && Quiet(y) && '.' !in x + y && ':' !in x + y && x + OPEN + y in ctx.fields
    requires var v := ctx.fields[x + OPEN + y]; v != Null && !v.Str? && '\0' !in (ctx.show)(v)
    ensures var t, v := ExprText(x + OPEN + y), ctx.fields[x + OPEN + y];
            && PlainText(t, ctx) && !LooksPure(t)
            && PlanString(t, ctx) == Str((ctx.show)(v)) && RenderString(t, ctx) == v
            && PlanString(t, ctx) != RenderString(t, ctx)
  {
    var e := x + OPEN + y;
    var t := ExprText(e);
    TwoOpenings(x, y);
    NoDoubleDollar(x, y);
    KeyResolves(e, ctx);
    WholeExpr(e, ctx);
    ResolversAgree(e, ctx);
    PlanWithoutEscapes(t, ctx);
  }

  /** An expression without dots, colons and equality signs is a key of the context. */
  lemma {:induction false} KeyResolves(e: string, ctx: Context)
    requires '.' !in e && ':' !in e && '=' !in e && e in ctx.fields
    requires ctx.fields[e].Str? ==> !(SECRETS <= ctx.fields[e].s) && !(CERTIFICATES <= ctx.fields[e].s)
    ensures Common(e, ctx) && PlanResolve(e, ctx) == RenderResolve(e, ctx) == ctx.fields[e]
  {
    FoundEquals(e);
    assert IF_NONEMPTY[10] == ':' && SECRETS[7] == '.' && CERTIFICATES[12] == '.';
    NoDotOnePart(e);
    assert Walk(Map(ctx.fields), [e]) == ctx.fields[e];
  }

  lemma {:induction false} NothingInside(t: string, ctx: Context)
    requires PlainText(t, ctx) && KeysClean(Map(ctx.fields)) && LooksPure(t) && Inner(t) == ""
    requires '\0' !in Shown(PlanResolve(Inner(t), ctx), ctx)
    ensures PlanString(t, ctx) == RenderString(t, ctx) <==> !Spills(Inner(t), ctx)
  {
    LooksPureParts(t);
    PlanWithoutEscapes(t, ctx);
    ReplacementsAgree(t, ctx);
    EmptyExpr(t, ctx);
    EmptyKeyResolves(ctx);
    assert t == ExprText("");
  }

  lemma {:induction false} CutAgreesIff(t: string, ctx: Context)
    requires PlainText(t, ctx) && KeysClean(Map(ctx.fields)) && LooksPure(t) && '}' in Inner(t)
    requires '\0' !in Shown(PlanResolve(Inner(t), ctx), ctx)
    ensures PlanString(t, ctx) == RenderString(t, ctx) <==> !Spills(Inner(t), ctx)
  {
    PlanWithoutEscapes(t, ctx);
    ReplacementsAgree(t, ctx);
    RenderOfCut(t, ctx);
    CutIsCommon(t, ctx);
    CutResolves(t, ctx);
  }

  lemma {:induction false} CutIsCommon(t: string, ctx: Context)
    requires PlainText(t, ctx) && LooksPure(t) && '}' in Inner(t)
    ensures BeforeClosing(Inner(t)) != "" ==> Common(BeforeClosing(Inner(t)), ctx)
  {
    BraceInside(t, ctx);
    if BeforeClosing(Inner(t)) != "" { assert BeforeClosing(Inner(t)) in Exprs(t); }
  }

  lemma {:induction false} CutResolves(t: string, ctx: Context)
    requires KeysClean(Map(ctx.fields)) && LooksPure(t) && '}' in Inner(t)
    requires BeforeClosing(Inner(t)) != "" ==> Common(BeforeClosing(Inner(t)), ctx)
    ensures var value := PlanResolve(Inner(t), ctx);
            value == Null || value == Str(RenderReplace(t, ctx)) <==> !Spills(Inner(t), ctx)
  {
    var e := Inner(t);
    if IF_NONEMPTY <= e {
      ArgsBehindName(e);
      IfNonemptyAnswers(e, ctx);
      if ArgsOf(e[11..]).Some? { SpillingArgs(t, ctx); }
    } else if SECRETS <= e {
      CutAlias(e);
      SecretAnswers(e, ctx);
      SpillingSecret(t, ctx);
    } else {
      UncleanPathUnresolved(e, ctx);
    }
  }

  // ---------------------------------------------------------------------------
  // Secrets end as references to variables
  // ---------------------------------------------------------------------------

  /** The name of a runtime variable: `CDS_` and more of capitals, digits and underscores. */
  predicate IsVariable(e: string) {
    "CDS_" <= e && forall i :: 0 <= i < |e| ==> IsNameChar(e[i])
  }

  lemma {:induction false} NoDotOnePart(e: string)
    requires '.' !in e
    ensures SplitOn(e, '.') == [e]
    decreases |e|
  {
    if e == "" {
    } else {
      assert e[0] in e && forall c :: c in e[1..] ==> c in e;
      NoDotOnePart(e[1..]);
      assert [e[0]] + e[1..] == e;
    }
  }

  lemma {:induction false} FoundEquals(e: string)
    ensures Find(e, "==", 0) != -1 ==> '=' in e
  {
    var n := Find(e, "==", 0);
    if n != -1 {
      FindOccurs(e, "==", 0);
      assert e[n] == e[n..n + 2][0];
    }
  }

  lemma {:induction false} VariablesUnresolved(e: string, ctx: Context)
    requires IsVariable(e) && e !in ctx.fields
    ensures RenderResolve(e, ctx) == Null && PlanResolve(e, ctx) == Null
    ensures e != "" && '}' !in e
  {
    assert e[0] == "CDS_"[0];
    FoundEquals(e);
    assert IF_NONEMPTY[0] == 'i' && SECRETS[0] == 's' && CERTIFICATES[0] == 'c';
    assert '.' !in e;
    NoDotOnePart(e);
    assert Walk(Map(ctx.fields), [e]) == Null;
  }

  /** All that a text refers to are runtime variables, which the context does not define. */
  predicate OnlyVariables(t: string, ctx: Context) {
    forall e :: e in Exprs(t) ==> IsVariable(e) && e !in ctx.fields
  }

  lemma {:induction false} VariablesStay(t: string, ctx: Context)
    requires OnlyVariables(t, ctx)
    ensures RenderReplace(t, ctx) == t
    decreases |t|
  {
    if t == "" {
    } else if ExprAt(t).Some? {
      var e := ExprAt(t).value;
      assert e in Exprs(t);
      VariablesUnresolved(e, ctx);
      VariablesStay(AfterExpr(t), ctx);
      UnresolvedStays(t, ctx);
    } else {
      VariablesStay(t[1..], ctx);
    }
  }

  lemma {:induction false} UnresolvedStays(t: string, ctx: Context)
    requires ExprAt(t).Some? && RenderResolve(ExprAt(t).value, ctx) == Null
    requires RenderReplace(AfterExpr(t), ctx) == AfterExpr(t)
    ensures RenderReplace(t, ctx) == t
  {
    ExprThenRest(t);
    ExpressionFirst(t, ExprAt(t).value, ctx);
  }

  lemma ExprThenRest(t: string)
    requires ExprAt(t).Some?
    ensures t == "${" + ExprAt(t).value + "}" + AfterExpr(t)
  {
  }

  /** Rendering leaves a text alone that refers to nothing but runtime variables. */
  lemma RenderFixedPoint(t: string, ctx: Context)
    requires OnlyVariables(t, ctx)
    ensures RenderString(t, ctx) == Str(t)
  {
    VariablesStay(t, ctx);
    var exprs := Exprs(t);
    if |exprs| == 1 && t == ExprText(exprs[0]) {
      assert exprs[0] in exprs;
      VariablesUnresolved(exprs[0], ctx);
    }
  }

  /** A reference to a declared secret, whose variable is a runtime variable. */
  predicate IsDeclaredSecret(e: string, ctx: Context) {
    SECRETS <= e && Find(e, "==", 0) == -1 && IsVariable(SecretName(e[8..], ctx)) &&
      SecretName(e[8..], ctx) !in ctx.fields
  }

  predicate OnlySecrets(t: string, ctx: Context) {
    forall e :: e in Exprs(t) ==> IsDeclaredSecret(e, ctx)
  }

  function VariablesOf(exprs: seq<string>, ctx: Context): seq<string>
    requires forall i :: 0 <= i < |exprs| ==> SECRETS <= exprs[i]
  {
    if exprs == [] then [] else [SecretName(exprs[0][8..], ctx)] + VariablesOf(exprs[1..], ctx)
  }

  lemma {:induction false} SecretsHaveAliases(t: string, ctx: Context)
    requires OnlySecrets(t, ctx)
    ensures forall i :: 0 <= i < |Exprs(t)| ==> SECRETS <= Exprs(t)[i]
  {
    forall i | 0 <= i < |Exprs(t)| ensures SECRETS <= Exprs(t)[i] { assert Exprs(t)[i] in Exprs(t); }
  }

  /** Replacing secrets by their variables gives a text that refers to those, in order. */
  lemma {:induction false} SecretsReplaced(t: string, ctx: Context)
    requires OnlySecrets(t, ctx)
    ensures forall i :: 0 <= i < |Exprs(t)| ==> SECRETS <= Exprs(t)[i]
    ensures Exprs(RenderReplace(t, ctx)) == VariablesOf(Exprs(t), ctx)
    decreases |t|
  {
    SecretsHaveAliases(t, ctx);
    if t == "" {
    } else {
      if ExprAt(t).Some? {
        FirstSecretReplaced(t, ctx);
        SecretsReplaced(AfterExpr(t), ctx);
        assert Exprs(t)[1..] == Exprs(AfterExpr(t));
      } else {
        SecretsReplaced(t[1..], ctx);
        LiteralStaysLiteral(t, ctx);
        assert ([t[0]] + RenderReplace(t[1..], ctx))[1..] == RenderReplace(t[1..], ctx);
      }
    }
  }

  lemma {:induction false} FirstSecretReplaced(t: string, ctx: Context)
    requires ExprAt(t).Some? && OnlySecrets(t, ctx)
    ensures var e := ExprAt(t).value;
            && SECRETS <= e && OnlySecrets(AfterExpr(t), ctx)
            && Exprs(RenderReplace(t, ctx)) == [SecretName(e[8..], ctx)] + Exprs(RenderReplace(AfterExpr(t), ctx))
  {
    var e := ExprAt(t).value;
    assert e in Exprs(t);
    SecretAnswers(e, ctx);
    VariablesUnresolved(SecretName(e[8..], ctx), ctx);
    StartsWithExpr(SecretName(e[8..], ctx), RenderReplace(AfterExpr(t), ctx), ctx);
  }

  /** No expression arises where there was none. */
  lemma {:induction false} LiteralStaysLiteral(t: string, ctx: Context)
    requires t != "" && ExprAt(t).None? && OnlySecrets(t[1..], ctx)
    ensures ExprAt([t[0]] + RenderReplace(t[1..], ctx)).None?
  {
    if OPEN <= t {
      OpeningStays(t, ctx);
    } else if t[0] == '$' && |t| > 1 {
      FirstCharacter(t[1..], ctx);
      NotOpened('$', RenderReplace(t[1..], ctx));
    } else {
      NotOpened(t[0], RenderReplace(t[1..], ctx));
    }
  }

  lemma NotOpened(c: char, rest: string)
    requires c != '$' || rest == "" || rest[0] != '{'
    ensures ExprAt([c] + rest).None?
  {
    assert OPEN[0] == '$' && OPEN[1] == '{';
  }

  /** An opening with nothing in it, or that is never closed. */
  lemma {:induction false} OpeningStays(t: string, ctx: Context)
    requires OPEN <= t && ExprAt(t).None?
    ensures ExprAt([t[0]] + RenderReplace(t[1..], ctx)).None?
  {
    assert t[0] == OPEN[0] && t[1] == OPEN[1] && t[1..][1..] == t[2..];
    LiteralFirst(t[1..], ctx);
    if '}' !in t[2..] {
      NoClosingNoExprs(t[2..], ctx);
      assert [t[0]] + RenderReplace(t[1..], ctx) == t;
    } else {
      IndexOfIn(t[2..]);
      LiteralFirst(t[2..], ctx);
      ClosedAtOnce(RenderReplace(t[2..][1..], ctx));
      assert [t[0]] + RenderReplace(t[1..], ctx) == OPEN + (['}'] + RenderReplace(t[2..][1..], ctx));
    }
  }

  lemma ClosedAtOnce(rest: string)
    ensures ExprAt(OPEN + (['}'] + rest)).None?
  {
    assert (OPEN + (['}'] + rest))[2..] == ['}'] + rest;
  }

  lemma {:induction false} FirstCharacter(t: string, ctx: Context)
    requires t != "" && t[0] != '{' && OnlySecrets(t, ctx)
    ensures RenderReplace(t, ctx) != "" && RenderReplace(t, ctx)[0] != '{'
  {
    if ExprAt(t).Some? {
      assert ExprAt(t).value in Exprs(t);
      SecretAnswers(ExprAt(t).value, ctx);
    }
  }

  lemma {:induction false} VariablesAre(exprs: seq<string>, ctx: Context, v: string)
    requires forall i :: 0 <= i < |exprs| ==> SECRETS <= exprs[i]
    requires v in VariablesOf(exprs, ctx)
    ensures exists e :: e in exprs && v == SecretName(e[8..], ctx)
  {
    if v != SecretName(exprs[0][8..], ctx) {
      VariablesAre(exprs[1..], ctx, v);
      var e :| e in exprs[1..] && v == SecretName(e[8..], ctx);
      assert e in exprs;
    } else {
      assert exprs[0] in exprs;
    }
  }

  /** The plan refers to the variables of the secrets, in order, and rendering changes nothing about that. */
  ghost predicate EndAsReferences(t: string, ctx: Context)
    requires OnlySecrets(t, ctx)
  {
    SecretsHaveAliases(t, ctx);
    var planned := PlanString(t, ctx);
    planned.Str? && Exprs(planned.s) == VariablesOf(Exprs(t), ctx) && RenderString(planned.s, ctx) == planned
  }

  lemma {:induction false} ReplacedEndAsReferences(t: string, ctx: Context)
    requires OnlySecrets(t, ctx) && PlanString(t, ctx) == Str(RenderReplace(t, ctx))
    ensures EndAsReferences(t, ctx)
  {
    SecretsReplaced(t, ctx);
    var planned := RenderReplace(t, ctx);
    forall e | e in Exprs(planned) ensures IsVariable(e) && e !in ctx.fields {
      VariablesAre(Exprs(t), ctx, e);
    }
    RenderFixedPoint(planned, ctx);
  }

  lemma {:induction false} PlannedSecrets(t: string, ctx: Context)
    requires PlainText(t, ctx) && OnlySecrets(t, ctx)
    requires LooksPure(t) ==> Inner(t) != "" && '}' !in Inner(t)
    ensures PlanString(t, ctx) == Str(RenderReplace(t, ctx))
  {
    ReplacementsAgree(t, ctx);
    if LooksPure(t) {
      LooksPureParts(t);
      WholeExpr(Inner(t), ctx);
      assert Inner(t) in Exprs(t) && Plain(Inner(t), ctx);
      SecretAnswers(Inner(t), ctx);
    }
    PlanWithoutEscapes(t, ctx);
  }

  /** Where the ends are those of one expression they always do. */
  lemma SecretsEndAsReferences(t: string, ctx: Context)
    requires PlainText(t, ctx) && OnlySecrets(t, ctx)
    requires LooksPure(t) ==> Inner(t) != "" && '}' !in Inner(t)
    ensures EndAsReferences(t, ctx)
  {
    PlannedSecrets(t, ctx);
    ReplacedEndAsReferences(t, ctx);
  }

  lemma {:induction false} NothingPlanned(t: string, ctx: Context)
    requires PlainText(t, ctx) && LooksPure(t) && Inner(t) == "" && "" !in ctx.fields
    requires '\0' !in Shown(PlanResolve(Inner(t), ctx), ctx)
    ensures PlanString(t, ctx) == Str(RenderReplace(t, ctx)) && !Spills(Inner(t), ctx)
  {
    LooksPureParts(t);
    EmptyKeyResolves(ctx);
    EmptyExpr(t, ctx);
    ReplacementsAgree(t, ctx);
    PlanWithoutEscapes(t, ctx);
  }

  /** With only secrets in the text, what spills is an alias. */
  lemma {:induction false} SpilledIsAlias(t: string, ctx: Context)
    requires OnlySecrets(t, ctx) && LooksPure(t) && '}' in Inner(t) && Spills(Inner(t), ctx)
    ensures SECRETS <= Inner(t) && SECRETS <= BeforeClosing(Inner(t)) && Exprs(t) == [BeforeClosing(Inner(t))]
  {
    var e, h := Inner(t), BeforeClosing(Inner(t));
    BraceInside(t, ctx);
    if IF_NONEMPTY <= e {
      ArgsBehindName(e);
      assert h in Exprs(t);
      SecretAnswers(h, ctx);
      assert false;
    }
    CutAlias(e);
  }

  lemma {:induction false} SpilledAliasLost(t: string, ctx: Context)
    requires PlainText(t, ctx) && OnlySecrets(t, ctx) && KeysClean(Map(ctx.fields)) && LooksPure(t)
    requires '}' in Inner(t) && Spills(Inner(t), ctx) && '\0' !in Shown(PlanResolve(Inner(t), ctx), ctx)
    ensures !EndAsReferences(t, ctx)
  {
    SpilledIsAlias(t, ctx);
    var e, x := Inner(t), BeforeClosing(Inner(t))[8..];
    var y := FromClosing(e)[1..];
    CutAlias(e);
    CutAtClosing(e);
    SecretAnswers(e, ctx);
    UncleanAliasUnmapped(e[8..], ctx);
    PlanWithoutEscapes(t, ctx);
    RegroupOverhang(x, y);
    OverhangHasNoExprs(t);
    FirstOfCut(x, y, ctx);
  }

  lemma FirstOfCut(x: string, y: string, ctx: Context)
    requires '}' !in x && !Contains(y + "}", OPEN)
    ensures Exprs(ExprText(x + "}" + y)) == if x == "" then [] else [x]
  {
    RegroupOverhang(x, y);
    if x == "" {
      var t := ExprText("") + (y + "}");
      assert t[2..] == "}" + (y + "}");
      ClosingBeforeAbsent(y + "}");
      EmptyExpr(t, ctx);
    } else {
      StartsWithExpr(x, y + "}", ctx);
      NoOpeningNoExprs(y + "}", ctx);
    }
  }

  lemma ClosingBeforeAbsent(t: string)
    requires !Contains(t, OPEN)
    ensures !Contains("}" + t, OPEN)
  {
    forall i: nat | i <= |"}" + t| ensures !OccursAt("}" + t, OPEN, i) {
      if i == 0 {
        assert |t| > 0 ==> ("}" + t)[0..2][0] == '}';
      } else {
        OccursInTail("}", t, OPEN, i - 1);
      }
    }
  }

  /**
   Once planned, the secrets a text refers to are references to their runtime variables,
   in the same order, which rendering leaves as they are: exactly when nothing spills.
   */
  lemma {:induction false} SecretsEndAsReferencesIff(t: string, ctx: Context)
    requires PlainText(t, ctx) && OnlySecrets(t, ctx) && KeysClean(Map(ctx.fields)) && "" !in ctx.fields
    requires LooksPure(t) ==> '\0' !in Shown(PlanResolve(Inner(t), ctx), ctx)
    ensures EndAsReferences(t, ctx) <==> !(LooksPure(t) && Spills(Inner(t), ctx))
  {
    if LooksPure(t) && '}' in Inner(t) {
      if Spills(Inner(t), ctx) {
        SpilledAliasLost(t, ctx);
      } else {
        CutAgreesIff(t, ctx);
        RenderOfCut(t, ctx);
        ReplacedEndAsReferences(t, ctx);
      }
    } else {
      if LooksPure(t) && Inner(t) == "" { NothingPlanned(t, ctx); } else { PlannedSecrets(t, ctx); }
      ReplacedEndAsReferences(t, ctx);
    }
  }
}
