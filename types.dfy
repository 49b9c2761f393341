/** The type-expression AST of type_spy/types.py: the node kinds, the
    parameter container, Python's `==` on them (each class's `__eq__`) and
    their `__repr__` renderings. */
module Types {
  import opened Wrappers

  /** The three subclasses of `BaseTypeVar`. */
  datatype Kind = TypeVarKind | TypeVarTupleKind | ParamSpecKind

  /** A type-variable node: its class and its name. */
  datatype TypeVariable = TypeVariable(kind: Kind, name: string)

  /** The closed set of type-expression nodes. */
  datatype Type =
    | Generic(ty: Type, generics: seq<Type>)
    | Ident(name: string)
    | List(values: seq<Type>)
    | Var(tv: TypeVariable)
    | Union(tys: seq<Type>)
    | Sig(sig: Signature)

  /** The five parameter slots; only `vargs` and `kwargs` may be absent. */
  datatype SignatureParameters = SignatureParameters(
    posOnly: seq<Type>,
    params: seq<Type>,
    vargs: Option<Type>,
    kwargOnly: seq<Type>,
    kwargs: Option<Type>)

  datatype Signature = Signature(parameters: SignatureParameters, rt: Type)

  /** The declared type variables of one signature, in written order. */
  datatype MetaTypeVars = MetaTypeVars(generics: seq<TypeVariable>)

  // ---------------------------------------------------------------------
  // Python equality: each class's `__eq__`.
  // ---------------------------------------------------------------------

  /** `a == b` on two type nodes. Same class is required; a nested
      signature compares its parameters only. */
  predicate TypeEq(a: Type, b: Type)
    decreases a
  {
    match a
    case Generic(c, gs) => b.Generic? && TypeEq(c, b.ty) && SeqEq(gs, b.generics)
    case Ident(n) => b.Ident? && n == b.name
    case List(vs) => b.List? && SeqEq(vs, b.values)
    case Var(v) => b.Var? && v == b.tv
    case Union(ts) => b.Union? && SeqEq(ts, b.tys)
    case Sig(s) => b.Sig? && SignatureEq(s, b.sig)
  }

  /** Python list equality: same length and pairwise `==`. */
  predicate SeqEq(xs: seq<Type>, ys: seq<Type>)
    decreases xs
  {
    |xs| == |ys| && forall i :: 0 <= i < |xs| ==> TypeEq(xs[i], ys[i])
  }

  /** `==` on a slot that holds a type or `None`. */
  predicate OptEq(a: Option<Type>, b: Option<Type>)
    decreases a
  {
    match a
    case None => b.None?
    case Some(t) => b.Some? && TypeEq(t, b.value)
  }

  /** `SignatureParameters.__eq__`: all five slots. */
  predicate ParamsEq(p: SignatureParameters, q: SignatureParameters)
    decreases p
  {
    && SeqEq(p.posOnly, q.posOnly)
    && SeqEq(p.params, q.params)
    && OptEq(p.vargs, q.vargs)
    && OptEq(p.kwargs, q.kwargs)
    && SeqEq(p.kwargOnly, q.kwargOnly)
  }

  /** `Signature.__eq__`: the parameters only, never the return type. */
  predicate SignatureEq(s: Signature, t: Signature)
    decreases s
  {
    ParamsEq(s.parameters, t.parameters)
  }

  // ---------------------------------------------------------------------
  // An independent reference for Python equality: structural equality
  // after blanking the return type of every nested signature.
  // ---------------------------------------------------------------------

  const ErasedReturn: Type := Ident("")

  function EraseReturns(t: Type): Type
    decreases t
  {
    match t
    case Generic(c, gs) => Generic(EraseReturns(c), EraseAll(gs))
    case Ident(_) => t
    case List(vs) => List(EraseAll(vs))
    case Var(_) => t
    case Union(ts) => Union(EraseAll(ts))
    case Sig(s) => Sig(Signature(EraseParams(s.parameters), ErasedReturn))
  }

  function EraseAll(ts: seq<Type>): (r: seq<Type>)
    decreases ts
  {
    seq(|ts|, i requires 0 <= i < |ts| => EraseReturns(ts[i]))
  }

  function EraseOpt(o: Option<Type>): Option<Type>
    decreases o
  {
    match o
    case None => None
    case Some(t) => Some(EraseReturns(t))
  }

  function EraseParams(p: SignatureParameters): SignatureParameters
    decreases p
  {
    SignatureParameters(EraseAll(p.posOnly), EraseAll(p.params), EraseOpt(p.vargs),
                        EraseAll(p.kwargOnly), EraseOpt(p.kwargs))
  }

  /** Python `==` on types is exactly structural equality up to the return
      types of nested signatures. */
  lemma {:induction false} TypeEqIffErased(a: Type, b: Type)
    ensures TypeEq(a, b) <==> EraseReturns(a) == EraseReturns(b)
    decreases a
  {
    match a
    case Generic(c, gs) =>
      if b.Generic? {
        TypeEqIffErased(c, b.ty);
        SeqEqIffErased(gs, b.generics);
      }
    case Ident(_) =>
    case List(vs) =>
      if b.List? { SeqEqIffErased(vs, b.values); }
    case Var(_) =>
    case Union(ts) =>
      if b.Union? { SeqEqIffErased(ts, b.tys); }
    case Sig(s) =>
      if b.Sig? { ParamsEqIffErased(s.parameters, b.sig.parameters); }
  }

  lemma {:induction false} SeqEqIffErased(xs: seq<Type>, ys: seq<Type>)
    ensures SeqEq(xs, ys) <==> EraseAll(xs) == EraseAll(ys)
    decreases xs
  {
    if |xs| == |ys| {
      forall i | 0 <= i < |xs|
        ensures TypeEq(xs[i], ys[i]) <==> EraseAll(xs)[i] == EraseAll(ys)[i]
      {
        TypeEqIffErased(xs[i], ys[i]);
      }
      if SeqEq(xs, ys) {
        assert EraseAll(xs) == EraseAll(ys);
      }
    } else {
      assert |EraseAll(xs)| != |EraseAll(ys)|;
    }
  }

  lemma {:induction false} OptEqIffErased(a: Option<Type>, b: Option<Type>)
    ensures OptEq(a, b) <==> EraseOpt(a) == EraseOpt(b)
    decreases a
  {
    if a.Some? && b.Some? {
      TypeEqIffErased(a.value, b.value);
    }
  }

  /** Two parameter containers are equal exactly when all five slots agree
      (up to nested return types). */
  lemma {:induction false} ParamsEqIffErased(p: SignatureParameters, q: SignatureParameters)
    ensures ParamsEq(p, q) <==> EraseParams(p) == EraseParams(q)
    decreases p
  {
    SeqEqIffErased(p.posOnly, q.posOnly);
    SeqEqIffErased(p.params, q.params);
    OptEqIffErased(p.vargs, q.vargs);
    SeqEqIffErased(p.kwargOnly, q.kwargOnly);
    OptEqIffErased(p.kwargs, q.kwargs);
  }

  /** Python `==` on types is an equivalence relation. */
  lemma TypeEqIsEquivalence(a: Type, b: Type, c: Type)
    ensures TypeEq(a, a)
    ensures TypeEq(a, b) ==> TypeEq(b, a)
    ensures TypeEq(a, b) && TypeEq(b, c) ==> TypeEq(a, c)
  {
    TypeEqIffErased(a, a);
    TypeEqIffErased(a, b);
    TypeEqIffErased(b, a);
    TypeEqIffErased(b, c);
    TypeEqIffErased(a, c);
  }

  /** A nested signature's return type never affects equality. */
  lemma SignatureEqIgnoresReturn(p: SignatureParameters, r1: Type, r2: Type)
    ensures TypeEq(Sig(Signature(p, r1)), Sig(Signature(p, r2)))
  {
    ParamsEqIffErased(p, p);
  }

  /** Type variables of different classes never compare equal, even when
      their names agree. */
  lemma TypeVariableEqIsKindSensitive(v: TypeVariable, w: TypeVariable)
    ensures TypeEq(Var(v), Var(w)) <==> v.kind == w.kind && v.name == w.name
  {
  }

  /** A positional-only parameter list is never equal to the same types
      given as positional-or-keyword parameters. */
  lemma ParamsEqIsSlotSensitive(ts: seq<Type>)
    requires ts != []
    ensures !ParamsEq(SignatureParameters(ts, [], None, [], None), SignatureParameters([], ts, None, [], None))
  {
  }

  // ---------------------------------------------------------------------
  // Type variables occurring anywhere in a type.
  // ---------------------------------------------------------------------

  function AllVars(t: Type): set<TypeVariable>
    decreases t
  {
    match t
    case Generic(c, gs) => AllVars(c) + AllVarsSeq(gs)
    case Ident(_) => {}
    case List(vs) => AllVarsSeq(vs)
    case Var(v) => {v}
    case Union(ts) => AllVarsSeq(ts)
    case Sig(s) => AllVarsSignature(s)
  }

  function AllVarsSeq(ts: seq<Type>): set<TypeVariable>
    decreases ts
  {
    if ts == [] then {} else AllVars(ts[0]) + AllVarsSeq(ts[1..])
  }

  function AllVarsOpt(o: Option<Type>): set<TypeVariable>
    decreases o
  {
    match o
    case None => {}
    case Some(t) => AllVars(t)
  }

  function AllVarsParams(p: SignatureParameters): set<TypeVariable>
    decreases p
  {
    AllVarsSeq(p.posOnly) + AllVarsSeq(p.params) + AllVarsOpt(p.vargs)
    + AllVarsSeq(p.kwargOnly) + AllVarsOpt(p.kwargs)
  }

  function AllVarsSignature(s: Signature): set<TypeVariable>
    decreases s
  {
    AllVarsParams(s.parameters) + AllVars(s.rt)
  }

  // ---------------------------------------------------------------------
  // Rendering: each class's `__repr__`.
  // ---------------------------------------------------------------------

  /** Python's `str.join`: the parts with `sep` between neighbours. */
  function Join(parts: seq<string>, sep: string): string
  {
    if parts == [] then ""
    else if |parts| == 1 then parts[0]
    else parts[0] + sep + Join(parts[1..], sep)
  }

  function VarRepr(v: TypeVariable): string
  {
    match v.kind
    case TypeVarKind => v.name
    case TypeVarTupleKind => "*" + v.name
    case ParamSpecKind => "**" + v.name
  }

  function TypeRepr(t: Type): string
    decreases t
  {
    match t
    case Generic(c, gs) => TypeRepr(c) + "[" + Join(Reprs(gs), ", ") + "]"
    case Ident(n) => n
    case List(vs) => "[" + Join(Reprs(vs), ", ") + "]"
    case Var(v) => VarRepr(v)
    case Union(ts) => Join(Reprs(ts), " | ")
    case Sig(s) => "(" + Join(ParamsParts(s.parameters), ", ") + ") -> " + TypeRepr(s.rt)
  }

  /** The rendering of each type, in order. */
  function Reprs(ts: seq<Type>): (r: seq<string>)
    ensures |r| == |ts|
    decreases ts
  {
    seq(|ts|, i requires 0 <= i < |ts| => TypeRepr(ts[i]))
  }

  /** The items `SignatureParameters.__repr__` collects in `parts`. */
  function PositionalOnlyParts(p: SignatureParameters): seq<string>
    decreases p, 0
  {
    if p.posOnly != [] then Reprs(p.posOnly) + ["/"] else []
  }

  /** One item per positional-only, positional and keyword-only type, one
      per present variadic slot, a "/" exactly when there are
      positional-only types, and a bare "*" exactly when there is no
      `vargs` but there are keyword-only types. */
  function ParamsParts(p: SignatureParameters): (parts: seq<string>)
    ensures |parts|
      == |p.posOnly| + (if p.posOnly != [] then 1 else 0)
       + |p.params| + (if p.vargs.Some? then 1 else 0)
       + (if p.vargs.None? && p.kwargOnly != [] then 1 else 0)
       + |p.kwargOnly| + (if p.kwargs.Some? then 1 else 0)
    decreases p, 1
  {
    PositionalOnlyParts(p)
    + Reprs(p.params)
    + (if p.vargs.Some? then ["*" + TypeRepr(p.vargs.value)] else [])
    + (if p.vargs.None? && p.kwargOnly != [] then ["*"] else [])
    + Reprs(p.kwargOnly)
    + (if p.kwargs.Some? then ["**" + TypeRepr(p.kwargs.value)] else [])
  }

  /** `SignatureParameters.__repr__`: collect the items step by step, then
      join them with ", ". */
  method RenderParameters(p: SignatureParameters) returns (s: string)
    ensures s == Join(ParamsParts(p), ", ")
  {
    var parts: seq<string> := [];
    if p.posOnly != [] {
      for i := 0 to |p.posOnly|
        invariant parts == Reprs(p.posOnly)[..i]
      {
        parts := parts + [TypeRepr(p.posOnly[i])];
      }
      parts := parts + ["/"];
    }
    assert parts == PositionalOnlyParts(p);
    parts := parts + Reprs(p.params);
    if p.vargs.Some? {
      parts := parts + ["*" + TypeRepr(p.vargs.value)];
    }
    if p.vargs.None? && p.kwargOnly != [] {
      parts := parts + ["*"];
    }
    parts := parts + Reprs(p.kwargOnly);
    if p.kwargs.Some? {
      parts := parts + ["**" + TypeRepr(p.kwargs.value)];
    }
    assert parts == ParamsParts(p);
    s := Join(parts, ", ");
  }

  /** Joining two non-empty runs of items puts exactly one separator
      between them. */
  lemma {:induction false} JoinConcat(a: seq<string>, b: seq<string>, sep: string)
    requires a != [] && b != []
    ensures Join(a + b, sep) == Join(a, sep) + sep + Join(b, sep)
    decreases |a|
  {
    if |a| == 1 {
      assert (a + b)[1..] == b;
    } else {
      assert (a + b)[1..] == a[1..] + b;
      JoinConcat(a[1..], b, sep);
    }
  }

  /** The "/" marker directly follows the positional-only items; without
      such items, the positional items come first. */
  lemma ParamsPartsSlash(p: SignatureParameters)
    ensures p.posOnly != [] ==>
      ParamsParts(p)[..|p.posOnly| + 1] == Reprs(p.posOnly) + ["/"]
    ensures p.posOnly == [] ==> ParamsParts(p)[..|p.params|] == Reprs(p.params)
  {
    var rest := Reprs(p.params)
      + (if p.vargs.Some? then ["*" + TypeRepr(p.vargs.value)] else [])
      + (if p.vargs.None? && p.kwargOnly != [] then ["*"] else [])
      + Reprs(p.kwargOnly)
      + (if p.kwargs.Some? then ["**" + TypeRepr(p.kwargs.value)] else []);
    assert ParamsParts(p) == PositionalOnlyParts(p) + rest;
  }

  /** After the positional items comes `*vargs` when present, otherwise a
      bare `*` when keyword-only items follow; `**kwargs` is always last. */
  lemma ParamsPartsStar(p: SignatureParameters)
    ensures var k := |PositionalOnlyParts(p)| + |p.params|;
      && (p.vargs.Some? ==> ParamsParts(p)[k] == "*" + TypeRepr(p.vargs.value))
      && (p.vargs.None? && p.kwargOnly != [] ==> ParamsParts(p)[k] == "*")
      && (p.vargs.None? && p.kwargOnly == [] ==>
            ParamsParts(p)[k..] == (if p.kwargs.Some? then ["**" + TypeRepr(p.kwargs.value)] else []))
    ensures p.kwargs.Some? ==>
      ParamsParts(p)[|ParamsParts(p)| - 1] == "**" + TypeRepr(p.kwargs.value)
  {
  }
}
