/** The node-building rules of `SignatureTransformer` in
    type_spy/__init__.py. The parse itself belongs to the `lark` library;
    here a parse is an abstract tree shaped by the grammar, and each rule
    turns the already-transformed children of one tree node into an AST
    node, bottom-up, as a lark transformer does. */
module Transformer {
  import opened Wrappers
  import opened Types
  import opened Canonical

  // ---------------------------------------------------------------------
  // Parse trees, one constructor per grammar alternative.
  // ---------------------------------------------------------------------

  /** A `type` node: an identifier, a generic, a union, or a parenthesised
      signature. */
  datatype TypeTree =
    | IdentTree(token: string)
    | GenericTree(ctor: string, args: seq<TypeTree>)
    | UnionTree(members: seq<TypeTree>)
    | SignatureTypeTree(signature: SignatureTree)

  /** The parameter sections. The positional-only section, when written,
      holds at least one type, so an empty list stands for its absence; a
      keyword-only section written with no types fills its slot exactly as
      an absent one does. */
  datatype SectionsTree = SectionsTree(
    posOnly: seq<TypeTree>,
    params: seq<TypeTree>,
    vargs: Option<TypeTree>,
    keywordOnly: seq<TypeTree>,
    kwargs: Option<TypeTree>)

  /** A `signature`: its parameters and, when an arrow is written, the
      return type. */
  datatype SignatureTree = SignatureTree(parameters: SectionsTree, returnTy: Option<TypeTree>)

  /** An entry of the meta-variable list: `T`, `*T` or `**T`. */
  datatype TypeVariableTree = PlainTree(token: string) | StarTree(token: string) | DoubleStarTree(token: string)

  /** `start`: an optional meta-variable list, then the signature. */
  datatype StartTree = StartTree(meta: Option<seq<TypeVariableTree>>, signature: SignatureTree)

  // ---------------------------------------------------------------------
  // What the rules hand to their parents.
  // ---------------------------------------------------------------------

  /** A tagged parameter section. */
  datatype Section =
    | PosOnlySection(types: seq<Type>)
    | ParamsSection(types: seq<Type>)
    | VargsSection(ty: Type)
    | KeywordOnlySection(types: seq<Type>)
    | KwargsSection(ty: Type)

  /** A child of `signature`: the parameters, or the tagged return type. */
  datatype SignaturePart = ParametersPart(parameters: SignatureParameters) | ReturnPart(rt: Type)

  /** A child of `start`. */
  datatype StartPart = MetaPart(typevars: MetaTypeVars) | SignaturePart(signature: Signature)

  // ---------------------------------------------------------------------
  // The rules.
  // ---------------------------------------------------------------------

  function IdentRule(token: string): Type
  {
    Ident(token)
  }

  /** The first child is the constructor, the rest are the arguments. */
  function GenericRule(children: seq<Type>): Type
    requires |children| >= 1
  {
    Generic(children[0], children[1..])
  }

  /** `type` and `type_variable` pass their only child through. */
  function TypeRule(children: seq<Type>): Type
    requires |children| >= 1
  {
    children[0]
  }

  function TypeVariableRule(children: seq<TypeVariable>): TypeVariable
    requires |children| >= 1
  {
    children[0]
  }

  function TypeVarRule(token: string): TypeVariable
  {
    TypeVariable(TypeVarKind, token)
  }

  function TypeVarTupleRule(children: seq<TypeVariable>): TypeVariable
    requires |children| >= 1
  {
    TypeVariable(TypeVarTupleKind, children[0].name)
  }

  function ParamSpecRule(children: seq<TypeVariable>): TypeVariable
    requires |children| >= 1
  {
    TypeVariable(ParamSpecKind, children[0].name)
  }

  function UnionRule(children: seq<Type>): Type
  {
    Union(children)
  }

  function PosOnlyParamsRule(children: seq<Type>): Section
  {
    PosOnlySection(children)
  }

  function ParamsRule(children: seq<Type>): Section
  {
    ParamsSection(children)
  }

  function VargsRule(children: seq<Type>): Section
    requires |children| >= 1
  {
    VargsSection(children[0])
  }

  function KeywordOnlyParamsRule(children: seq<Type>): Section
  {
    KeywordOnlySection(children)
  }

  function KwargsRule(children: seq<Type>): Section
    requires |children| >= 1
  {
    KwargsSection(children[0])
  }

  /** Each tagged section fills its slot (a later one of the same tag
      replaces an earlier one, as in a dict); an absent section leaves an
      empty list or no type. */
  function SignatureParametersRule(children: seq<Section>): SignatureParameters
    decreases |children|
  {
    if children == [] then SignatureParameters([], [], None, [], None)
    else FillSlot(SignatureParametersRule(children[..|children| - 1]), children[|children| - 1])
  }

  function FillSlot(p: SignatureParameters, section: Section): SignatureParameters
  {
    match section
    case PosOnlySection(ts) => p.(posOnly := ts)
    case ParamsSection(ts) => p.(params := ts)
    case VargsSection(t) => p.(vargs := Some(t))
    case KeywordOnlySection(ts) => p.(kwargOnly := ts)
    case KwargsSection(t) => p.(kwargs := Some(t))
  }

  /** `return_ty` tags its type for `signature`. */
  function ReturnTyRule(children: seq<Type>): SignaturePart
    requires |children| >= 1
  {
    ReturnPart(children[0])
  }

  /** Two children: parameters and return type; one child: the parameters,
      with return type `Ident("None")`. */
  function SignatureRule(children: seq<SignaturePart>): Signature
    requires 1 <= |children| <= 2 && children[0].ParametersPart?
    requires |children| == 2 ==> children[1].ReturnPart?
  {
    if |children| == 2 then Signature(children[0].parameters, children[1].rt)
    else Signature(children[0].parameters, Ident("None"))
  }

  function MetaTypeVariablesRule(children: seq<TypeVariable>): MetaTypeVars
  {
    MetaTypeVars(children)
  }

  /** The Function of the whole input: the listed variables when a
      meta-variable list leads, none otherwise. */
  function StartRule(children: seq<StartPart>): Result<Function, Error>
    requires 1 <= |children| <= 2
    requires children[0].MetaPart? ==> |children| == 2 && children[1].SignaturePart?
    requires children[0].SignaturePart? ==> |children| == 1
  {
    var typevars := if children[0].MetaPart? then children[0].typevars else MetaTypeVars([]);
    var sig := if children[0].MetaPart? then children[1].signature else children[0].signature;
    NewFunction("<input>", "", Some(""), typevars, sig)
  }

  // ---------------------------------------------------------------------
  // The bottom-up transformation of a whole parse tree.
  // ---------------------------------------------------------------------

  function TransformType(t: TypeTree): Type
    decreases t
  {
    match t
    case IdentTree(tok) => TypeRule([IdentRule(tok)])
    case GenericTree(ctor, args) => TypeRule([GenericRule([IdentRule(ctor)] + TransformAll(args))])
    case UnionTree(ms) => TypeRule([UnionRule(TransformAll(ms))])
    case SignatureTypeTree(s) => TypeRule([Sig(TransformSignature(s))])
  }

  function TransformAll(ts: seq<TypeTree>): (r: seq<Type>)
    ensures |r| == |ts|
    decreases ts
  {
    if ts == [] then [] else [TransformType(ts[0])] + TransformAll(ts[1..])
  }

  /** The tagged sections `signature_parameters` receives, in written
      order: the positional-only and keyword-only sections only when they
      hold types, the starred ones only when written. */
  function TaggedSections(posOnly: seq<Type>, params: seq<Type>, vargs: Option<Type>,
                          keywordOnly: seq<Type>, kwargs: Option<Type>): seq<Section>
  {
    (if posOnly != [] then [PosOnlyParamsRule(posOnly)] else [])
    + [ParamsRule(params)]
    + (if vargs.Some? then [VargsRule([vargs.value])] else [])
    + (if keywordOnly != [] then [KeywordOnlyParamsRule(keywordOnly)] else [])
    + (if kwargs.Some? then [KwargsRule([kwargs.value])] else [])
  }

  function TransformSections(s: SectionsTree): SignatureParameters
    decreases s
  {
    SignatureParametersRule(TaggedSections(
      TransformAll(s.posOnly),
      TransformAll(s.params),
      if s.vargs.Some? then Some(TransformType(s.vargs.value)) else None,
      TransformAll(s.keywordOnly),
      if s.kwargs.Some? then Some(TransformType(s.kwargs.value)) else None))
  }

  function TransformSignature(s: SignatureTree): Signature
    decreases s
  {
    var parameters := ParametersPart(TransformSections(s.parameters));
    if s.returnTy.Some? then SignatureRule([parameters, ReturnTyRule([TransformType(s.returnTy.value)])])
    else SignatureRule([parameters])
  }

  function TransformTypeVariable(v: TypeVariableTree): TypeVariable
  {
    match v
    case PlainTree(tok) => TypeVariableRule([TypeVarRule(tok)])
    case StarTree(tok) => TypeVariableRule([TypeVarTupleRule([TypeVarRule(tok)])])
    case DoubleStarTree(tok) => TypeVariableRule([ParamSpecRule([TypeVarRule(tok)])])
  }

  function TransformStart(s: StartTree): Result<Function, Error>
  {
    var sig := SignaturePart(TransformSignature(s.signature));
    if s.meta.Some? then
      StartRule([MetaPart(MetaTypeVariablesRule(seq(|s.meta.value|, i requires 0 <= i < |s.meta.value| =>
                                                       TransformTypeVariable(s.meta.value[i])))), sig])
    else StartRule([sig])
  }

  // ---------------------------------------------------------------------
  // What the rules promise about a whole parse.
  // ---------------------------------------------------------------------

  /** Transformed lists keep their length and order. */
  lemma {:induction false} TransformAllInOrder(ts: seq<TypeTree>)
    ensures forall i :: 0 <= i < |ts| ==> TransformAll(ts)[i] == TransformType(ts[i])
    decreases ts
  {
    if ts != [] {
      TransformAllInOrder(ts[1..]);
      forall i | 1 <= i < |ts| ensures TransformAll(ts)[i] == TransformType(ts[i]) {
        assert ts[i] == ts[1..][i - 1];
      }
    }
  }

  /** A `generic` is its leading identifier applied to the remaining
      types, in written order. */
  lemma GenericSplitsConstructor(ctor: string, args: seq<TypeTree>)
    ensures TransformType(GenericTree(ctor, args)) == Generic(Ident(ctor), TransformAll(args))
    ensures forall i :: 0 <= i < |args| ==> TransformAll(args)[i] == TransformType(args[i])
  {
    assert ([IdentRule(ctor)] + TransformAll(args))[1..] == TransformAll(args);
    TransformAllInOrder(args);
  }

  /** A `union` keeps its members in written order. */
  lemma UnionKeepsOrder(members: seq<TypeTree>)
    ensures TransformType(UnionTree(members)) == Union(TransformAll(members))
    ensures forall i :: 0 <= i < |members| ==> TransformAll(members)[i] == TransformType(members[i])
  {
    TransformAllInOrder(members);
  }

  /** `*T` and `**T` keep the written name and only change the class. */
  lemma TypeVariableKeepsName(v: TypeVariableTree)
    ensures TransformTypeVariable(v).name == v.token
    ensures TransformTypeVariable(v).kind == match v
      case PlainTree(_) => TypeVarKind
      case StarTree(_) => TypeVarTupleKind
      case DoubleStarTree(_) => ParamSpecKind
  {
  }

  lemma RuleAppendSection(xs: seq<Section>, ys: seq<Section>)
    requires |ys| <= 1
    ensures SignatureParametersRule(xs + ys)
      == if ys == [] then SignatureParametersRule(xs) else FillSlot(SignatureParametersRule(xs), ys[0])
  {
    if ys != [] {
      assert (xs + ys)[..|xs|] == xs;
    } else {
      assert xs + ys == xs;
    }
  }

  /** The tagged sections, in written order, fill exactly their own slots. */
  lemma TaggedSectionsFill(posOnly: seq<Type>, params: seq<Type>, vargs: Option<Type>,
                           keywordOnly: seq<Type>, kwargs: Option<Type>)
    ensures SignatureParametersRule(TaggedSections(posOnly, params, vargs, keywordOnly, kwargs))
      == SignatureParameters(posOnly, params, vargs, keywordOnly, kwargs)
  {
    var l1 := if posOnly != [] then [PosOnlyParamsRule(posOnly)] else [];
    var l2 := l1 + [ParamsRule(params)];
    var l3 := l2 + (if vargs.Some? then [VargsRule([vargs.value])] else []);
    var l4 := l3 + (if keywordOnly != [] then [KeywordOnlyParamsRule(keywordOnly)] else []);
    RuleAppendSection([], l1);
    assert [] + l1 == l1;
    assert SignatureParametersRule(l1) == SignatureParameters(posOnly, [], None, [], None);
    RuleAppendSection(l1, [ParamsRule(params)]);
    RuleAppendSection(l2, if vargs.Some? then [VargsRule([vargs.value])] else []);
    RuleAppendSection(l3, if keywordOnly != [] then [KeywordOnlyParamsRule(keywordOnly)] else []);
    assert SignatureParametersRule(l4) == SignatureParameters(posOnly, params, vargs, keywordOnly, None);
    RuleAppendSection(l4, if kwargs.Some? then [KwargsRule([kwargs.value])] else []);
  }

  /** Each written section fills its own slot; an absent one leaves an
      empty list or no type. */
  lemma SectionsFillSlots(s: SectionsTree)
    ensures TransformSections(s) == SignatureParameters(
      TransformAll(s.posOnly),
      TransformAll(s.params),
      if s.vargs.Some? then Some(TransformType(s.vargs.value)) else None,
      TransformAll(s.keywordOnly),
      if s.kwargs.Some? then Some(TransformType(s.kwargs.value)) else None)
  {
    TaggedSectionsFill(TransformAll(s.posOnly), TransformAll(s.params),
      if s.vargs.Some? then Some(TransformType(s.vargs.value)) else None,
      TransformAll(s.keywordOnly),
      if s.kwargs.Some? then Some(TransformType(s.kwargs.value)) else None);
  }

  /** Without an arrow the return type is `Ident("None")`; with one it is
      the transformed return type. */
  lemma SignatureReturn(s: SignatureTree)
    ensures TransformSignature(s).parameters == TransformSections(s.parameters)
    ensures TransformSignature(s).rt
      == if s.returnTy.Some? then TransformType(s.returnTy.value) else Ident("None")
  {
  }

  /** A bare name in a parameter list only ever becomes an `Ident`: no
      parsed type holds a type-variable node. */
  lemma {:induction false} ParsedTypeHasNoVariables(t: TypeTree)
    ensures AllVars(TransformType(t)) == {}
    decreases t
  {
    match t
    case IdentTree(_) =>
    case GenericTree(ctor, args) =>
      ParsedTypesHaveNoVariables(args);
      assert TransformType(t) == Generic(Ident(ctor), TransformAll(args)) by {
        assert ([IdentRule(ctor)] + TransformAll(args))[1..] == TransformAll(args);
      }
    case UnionTree(ms) => ParsedTypesHaveNoVariables(ms);
    case SignatureTypeTree(s) => ParsedSignatureHasNoVariables(s);
  }

  lemma {:induction false} ParsedTypesHaveNoVariables(ts: seq<TypeTree>)
    ensures AllVarsSeq(TransformAll(ts)) == {}
    decreases ts
  {
    if ts != [] {
      ParsedTypeHasNoVariables(ts[0]);
      ParsedTypesHaveNoVariables(ts[1..]);
      assert TransformAll(ts)[1..] == TransformAll(ts[1..]);
    }
  }

  lemma {:induction false} ParsedSignatureHasNoVariables(s: SignatureTree)
    ensures AllVarsSignature(TransformSignature(s)) == {}
    decreases s
  {
    var sec := s.parameters;
    SectionsFillSlots(sec);
    ParsedTypesHaveNoVariables(sec.posOnly);
    ParsedTypesHaveNoVariables(sec.params);
    ParsedTypesHaveNoVariables(sec.keywordOnly);
    if sec.vargs.Some? { ParsedTypeHasNoVariables(sec.vargs.value); }
    if sec.kwargs.Some? { ParsedTypeHasNoVariables(sec.kwargs.value); }
    if s.returnTy.Some? { ParsedTypeHasNoVariables(s.returnTy.value); }
    SignatureReturn(s);
    var sig := TransformSignature(s);
    assert AllVarsOpt(sig.parameters.vargs) == {};
    assert AllVarsOpt(sig.parameters.kwargs) == {};
    assert AllVarsParams(sig.parameters) == {};
    assert AllVars(sig.rt) == {};
  }

  /** Canonicalisation never fails on parsed input, and the Function has
      name "<input>", empty path and docstring, the listed variables in
      written order (none without a list) and the transformed signature. */
  lemma ParsedInputConstructs(s: StartTree)
    ensures TransformStart(s).Success?
    ensures var f := TransformStart(s).value;
      && f.name == "<input>" && f.path == "" && f.docstring == Some("")
      && f.signature == TransformSignature(s.signature)
      && TransformStart(s) == NewFunction("<input>", "", Some(""), f.typevars, f.signature)
      && (s.meta.None? ==> f.typevars.generics == [])
      && (s.meta.Some? ==>
            && |f.typevars.generics| == |s.meta.value|
            && forall i :: 0 <= i < |s.meta.value| ==>
                 f.typevars.generics[i] == TransformTypeVariable(s.meta.value[i]))
  {
    var sig := TransformSignature(s.signature);
    ParsedSignatureHasNoVariables(s.signature);
    var typevars := if s.meta.Some? then
        MetaTypeVars(seq(|s.meta.value|, i requires 0 <= i < |s.meta.value| => TransformTypeVariable(s.meta.value[i])))
      else MetaTypeVars([]);
    ConstructsWhenAllVarsDeclared("<input>", "", Some(""), typevars, sig);
  }

  // ---------------------------------------------------------------------
  // Worked inputs.
  // ---------------------------------------------------------------------

  /** The parse of `(params) -> rt` with only ordinary parameters. */
  function Arrow(params: seq<TypeTree>, rt: TypeTree): SignatureTree
  {
    SignatureTree(SectionsTree([], params, None, [], None), Some(rt))
  }

  lemma ArrowSignature(params: seq<TypeTree>, rt: TypeTree)
    ensures TransformSignature(Arrow(params, rt))
      == Signature(SignatureParameters([], TransformAll(params), None, [], None), TransformType(rt))
  {
    SectionsFillSlots(Arrow(params, rt).parameters);
    SignatureReturn(Arrow(params, rt));
  }

  lemma NormalizeOrdinary(m: TypeVarMap, t: Type, r: Type)
    requires RemapType(m, t) == Success(r)
    ensures NormalizeTypevars(m, SignatureParameters([], [t], None, [], None))
      == Success(SignatureParameters([], [r], None, [], None))
  {
    assert [t][1..] == [];
    assert RemapAll(m, []) == Success([]);
    assert [r] + [] == [r];
    assert RemapAll(m, [t]) == Success([r]);
    assert RemapOpt(m, None) == Success(None);
  }

  /** `(int, str) -> bool`: two ordinary parameters and the return type,
      with nothing to rename. */
  lemma PlainSignatureExample()
    ensures var r := TransformStart(StartTree(None, Arrow([IdentTree("int"), IdentTree("str")], IdentTree("bool"))));
      var ps := SignatureParameters([], [Ident("int"), Ident("str")], None, [], None);
      r == Success(Function("<input>", "", Some(""), MetaTypeVars([]), Signature(ps, Ident("bool")), ps, Ident("bool")))
  {
    var params := [IdentTree("int"), IdentTree("str")];
    var s := StartTree(None, Arrow(params, IdentTree("bool")));
    var ts := [Ident("int"), Ident("str")];
    var ps := SignatureParameters([], ts, None, [], None);
    PlainSignatureParses();
    ParsedInputConstructs(s);
    assert TransformStart(s).value.typevars.generics == [];
    assert TransformStart(s) == NewFunction("<input>", "", Some(""), MetaTypeVars([]), Signature(ps, Ident("bool")));
    assert CanonicalMap([]) == [];
    assert ts[1..][1..] == [];
    assert RemapAll([], ts) == Success(ts);
    assert NormalizeTypevars([], ps) == Success(ps);
    assert RemapType([], Ident("bool")) == Success(Ident("bool"));
  }

  lemma PlainSignatureParses()
    ensures TransformSignature(Arrow([IdentTree("int"), IdentTree("str")], IdentTree("bool")))
      == Signature(SignatureParameters([], [Ident("int"), Ident("str")], None, [], None), Ident("bool"))
  {
    var params := [IdentTree("int"), IdentTree("str")];
    ArrowSignature(params, IdentTree("bool"));
    assert params[1..][1..] == [];
    assert TransformAll(params) == [Ident("int"), Ident("str")];
  }

  /** `(List[int, str])`: a generic parameter, and no arrow, so the return
      type is `Ident("None")`. */
  lemma GenericParameterExample()
    ensures var g := GenericTree("List", [IdentTree("int"), IdentTree("str")]);
      var r := TransformStart(StartTree(None, SignatureTree(SectionsTree([], [g], None, [], None), None)));
      && r.Success?
      && r.value.signature.parameters.params == [Generic(Ident("List"), [Ident("int"), Ident("str")])]
      && r.value.signature.rt == Ident("None")
  {
    var args := [IdentTree("int"), IdentTree("str")];
    var g := GenericTree("List", args);
    var s := StartTree(None, SignatureTree(SectionsTree([], [g], None, [], None), None));
    GenericSplitsConstructor("List", args);
    assert args[1..][1..] == [];
    assert TransformAll(args) == [Ident("int"), Ident("str")];
    assert [g][1..] == [];
    assert TransformAll([g]) == [Generic(Ident("List"), [Ident("int"), Ident("str")])];
    SectionsFillSlots(s.signature.parameters);
    SignatureReturn(s.signature);
    ParsedInputConstructs(s);
  }

  /** `[T](T) -> T` equals `[U](U) -> U`: the listed names do not matter. */
  lemma RenamedVariablesExample()
    ensures var f := TransformStart(StartTree(Some([PlainTree("T")]), Arrow([IdentTree("T")], IdentTree("T"))));
      var g := TransformStart(StartTree(Some([PlainTree("U")]), Arrow([IdentTree("U")], IdentTree("U"))));
      f.Success? && g.Success? && FunctionEq(f.value, g.value)
  {
    SingleVariableCanonicalForm("T");
    SingleVariableCanonicalForm("U");
  }

  /** `[x](x) -> x` has canonical form `(0) -> 0`. */
  lemma SingleVariableCanonicalForm(x: string)
    ensures var f := TransformStart(StartTree(Some([PlainTree(x)]), Arrow([IdentTree(x)], IdentTree(x))));
      var zero := Var(TypeVariable(TypeVarKind, "0"));
      && f.Success?
      && f.value.canonParameters == SignatureParameters([], [zero], None, [], None)
      && f.value.canonReturn == zero
  {
    var s := StartTree(Some([PlainTree(x)]), Arrow([IdentTree(x)], IdentTree(x)));
    var v := TypeVariable(TypeVarKind, x);
    var zero := Var(TypeVariable(TypeVarKind, "0"));
    ArrowSignature([IdentTree(x)], IdentTree(x));
    assert [IdentTree(x)][1..] == [];
    assert TransformSignature(s.signature)
      == Signature(SignatureParameters([], [Ident(x)], None, [], None), Ident(x));
    ParsedInputConstructs(s);
    assert TransformStart(s).value.typevars.generics == [v];
    assert [v][..0] == [];
    assert CanonicalMap([v]) == [(v, TypeVariable(TypeVarKind, "0"))];
    assert RemapType(CanonicalMap([v]), Ident(x)) == Success(zero);
    NormalizeOrdinary(CanonicalMap([v]), Ident(x), zero);
  }

  /** `[T](T[int])` differs from `[U](U[int])`: a generic's constructor is
      never renamed, so the first keeps `Ident("T")` and the second
      `Ident("U")` in its canonical parameters. */
  lemma ConstructorNotRenamed()
    ensures var f := TransformStart(StartTree(Some([PlainTree("T")]), ConstructorSignature("T")));
      var g := TransformStart(StartTree(Some([PlainTree("U")]), ConstructorSignature("U")));
      f.Success? && g.Success? && !FunctionEq(f.value, g.value)
  {
    ConstructorCanonicalForm("T");
    ConstructorCanonicalForm("U");
    var f := TransformStart(StartTree(Some([PlainTree("T")]), ConstructorSignature("T"))).value;
    var g := TransformStart(StartTree(Some([PlainTree("U")]), ConstructorSignature("U"))).value;
    assert !TypeEq(f.canonParameters.params[0], g.canonParameters.params[0]);
  }

  /** The parse of `(x[int])`: one ordinary parameter, a generic whose
      constructor is `x`, and no arrow. */
  function ConstructorSignature(x: string): SignatureTree
  {
    SignatureTree(SectionsTree([], [GenericTree(x, [IdentTree("int")])], None, [], None), None)
  }

  /** `[x](x[int])` canonicalises with its constructor `x` left as written
      (for any `x` other than `int`, which would rename the argument). */
  lemma ConstructorCanonicalForm(x: string)
    requires x != "int"
    ensures var f := TransformStart(StartTree(Some([PlainTree(x)]), ConstructorSignature(x)));
      && f.Success?
      && f.value.canonParameters == SignatureParameters([], [Generic(Ident(x), [Ident("int")])], None, [], None)
  {
    var s := StartTree(Some([PlainTree(x)]), ConstructorSignature(x));
    var v := TypeVariable(TypeVarKind, x);
    var args := [IdentTree("int")];
    var t := Generic(Ident(x), [Ident("int")]);
    GenericSplitsConstructor(x, args);
    assert args[1..] == [];
    assert TransformAll(args) == [Ident("int")];
    assert [GenericTree(x, args)][1..] == [];
    assert TransformAll([GenericTree(x, args)]) == [t];
    SectionsFillSlots(s.signature.parameters);
    SignatureReturn(s.signature);
    assert TransformSignature(s.signature) == Signature(SignatureParameters([], [t], None, [], None), Ident("None"));
    ParsedInputConstructs(s);
    assert TransformStart(s).value.typevars.generics == [v];
    assert [v][..0] == [];
    assert CanonicalMap([v]) == [(v, TypeVariable(TypeVarKind, "0"))];
    assert [Ident("int")][1..] == [];
    assert CanonicalMap([v])[1..] == [];
    assert IdentLookup(CanonicalMap([v]), "int") == None;
    assert RemapType(CanonicalMap([v]), Ident("int")) == Success(Ident("int"));
    assert RemapAll(CanonicalMap([v]), [Ident("int")]) == Success([Ident("int")]);
    assert RemapType(CanonicalMap([v]), t) == Success(t);
    NormalizeOrdinary(CanonicalMap([v]), t, t);
  }

  /** `(int, /) -> None` differs from `(int) -> None`: the section a type
      sits in matters. */
  lemma SectionMattersExample()
    ensures var f := TransformStart(StartTree(None, SignatureTree(SectionsTree([IdentTree("int")], [], None, [], None), Some(IdentTree("None")))));
      var g := TransformStart(StartTree(None, Arrow([IdentTree("int")], IdentTree("None"))));
      f.Success? && g.Success? && !FunctionEq(f.value, g.value)
  {
    var s1 := StartTree(None, SignatureTree(SectionsTree([IdentTree("int")], [], None, [], None), Some(IdentTree("None"))));
    var s2 := StartTree(None, Arrow([IdentTree("int")], IdentTree("None")));
    ParsedInputConstructs(s1);
    ParsedInputConstructs(s2);
    SectionsFillSlots(s1.signature.parameters);
    SectionsFillSlots(s2.signature.parameters);
    assert [IdentTree("int")][1..] == [];
    var f := TransformStart(s1).value;
    var g := TransformStart(s2).value;
    assert |f.signature.parameters.posOnly| == 1;
    assert |g.signature.parameters.posOnly| == 0;
    NormalizeKeepsShape([], f.signature.parameters);
    NormalizeKeepsShape([], g.signature.parameters);
  }

  // ---------------------------------------------------------------------
  // `return_ty` as written.
  // ---------------------------------------------------------------------

  /** What a `signature` node receives in its return slot as written:
      `return_ty` receives its children as a list and tags the list itself,
      so the slot holds a list; without an arrow it holds `Ident("None")`. */
  datatype ReturnSlot = TypeReturn(t: Type) | ListReturn(items: seq<Type>)

  function ReturnSlotAsWritten(s: SignatureTree): ReturnSlot
  {
    if s.returnTy.Some? then ListReturn([TransformType(s.returnTy.value)]) else TypeReturn(Ident("None"))
  }

  /** `remap_types` on the return slot: a list matches none of its cases, so
      the canonical return is Python's `None`. */
  function CanonicalReturnAsWritten(m: TypeVarMap, slot: ReturnSlot): Result<Option<Type>, Error>
  {
    match slot
    case ListReturn(_) => Success(None)
    case TypeReturn(t) =>
      match RemapType(m, t)
      case Failure(e) => Failure(e)
      case Success(r) => Success(Some(r))
  }

  /** `Function.__eq__` on two parses, with the return slots as written. */
  predicate ParsedEqualAsWritten(s1: StartTree, s2: StartTree)
  {
    match (TransformStart(s1), TransformStart(s2))
    case (Success(f1), Success(f2)) =>
      && ParamsEq(f1.canonParameters, f2.canonParameters)
      && (match (CanonicalReturnAsWritten(CanonicalMap(f1.typevars.generics), ReturnSlotAsWritten(s1.signature)),
                 CanonicalReturnAsWritten(CanonicalMap(f2.typevars.generics), ReturnSlotAsWritten(s2.signature)))
          case (Success(r1), Success(r2)) => OptEq(r1, r2)
          case _ => false)
    case _ => false
  }

  /** As written, two parsed signatures that both have an arrow are equal
      exactly when their canonical parameters are: the return types are
      never compared. */
  lemma ReturnIgnoredAsWritten(s1: StartTree, s2: StartTree)
    requires s1.signature.returnTy.Some? && s2.signature.returnTy.Some?
    ensures TransformStart(s1).Success? && TransformStart(s2).Success?
    ensures ParsedEqualAsWritten(s1, s2) <==>
      ParamsEq(TransformStart(s1).value.canonParameters, TransformStart(s2).value.canonParameters)
  {
    ParsedInputConstructs(s1);
    ParsedInputConstructs(s2);
  }

  /** `[T, S](T) -> S` has canonical form `(0) -> 1`. */
  lemma TwoVariableCanonicalForm()
    ensures var f := TransformStart(StartTree(Some([PlainTree("T"), PlainTree("S")]), Arrow([IdentTree("T")], IdentTree("S"))));
      && f.Success?
      && f.value.canonParameters == SignatureParameters([], [Var(TypeVariable(TypeVarKind, "0"))], None, [], None)
      && f.value.canonReturn == Var(TypeVariable(TypeVarKind, "1"))
  {
    var s := StartTree(Some([PlainTree("T"), PlainTree("S")]), Arrow([IdentTree("T")], IdentTree("S")));
    var t := TypeVariable(TypeVarKind, "T");
    var u := TypeVariable(TypeVarKind, "S");
    var zero := TypeVariable(TypeVarKind, "0");
    var one := TypeVariable(TypeVarKind, "1");
    ArrowSignature([IdentTree("T")], IdentTree("S"));
    assert [IdentTree("T")][1..] == [];
    assert TransformSignature(s.signature)
      == Signature(SignatureParameters([], [Ident("T")], None, [], None), Ident("S"));
    ParsedInputConstructs(s);
    assert TransformStart(s).value.typevars.generics == [t, u];
    assert [t, u][..1] == [t];
    assert [t][..0] == [];
    assert CanonicalMap([t]) == [(t, zero)];
    assert Canon(u, 1) == one;
    assert [(t, zero)][1..] == [];
    assert Put([(t, zero)], u, one) == [(t, zero), (u, one)];
    assert CanonicalMap([t, u]) == [(t, zero), (u, one)];
    var m := CanonicalMap([t, u]);
    assert m[1..] == [(u, one)];
    assert RemapType(m, Ident("T")) == Success(Var(zero));
    assert IdentLookup(m[1..], "S") == Some(one);
    assert IdentLookup(m, "S") == Some(one);
    assert RemapType(m, Ident("S")) == Success(Var(one));
    NormalizeOrdinary(m, Ident("T"), Var(zero));
  }

  /** The input that shows it: as written, `[T, S](T) -> S` equals
      `[T](T) -> T`. */
  lemma DifferentReturnsEqualAsWritten()
    ensures ParsedEqualAsWritten(
      StartTree(Some([PlainTree("T"), PlainTree("S")]), Arrow([IdentTree("T")], IdentTree("S"))),
      StartTree(Some([PlainTree("T")]), Arrow([IdentTree("T")], IdentTree("T"))))
  {
    var s1 := StartTree(Some([PlainTree("T"), PlainTree("S")]), Arrow([IdentTree("T")], IdentTree("S")));
    var s2 := StartTree(Some([PlainTree("T")]), Arrow([IdentTree("T")], IdentTree("T")));
    TwoVariableCanonicalForm();
    SingleVariableCanonicalForm("T");
    ReturnIgnoredAsWritten(s1, s2);
    var zero := Var(TypeVariable(TypeVarKind, "0"));
    assert SeqEq([zero], [zero]);
  }

  /** With `return_ty` passing its one type on, the same two inputs differ:
      `S` is canonically the second variable, `T` the first. */
  lemma DifferentReturnsDiffer()
    ensures var f := TransformStart(StartTree(Some([PlainTree("T"), PlainTree("S")]), Arrow([IdentTree("T")], IdentTree("S"))));
      var g := TransformStart(StartTree(Some([PlainTree("T")]), Arrow([IdentTree("T")], IdentTree("T"))));
      f.Success? && g.Success? && !FunctionEq(f.value, g.value)
  {
    TwoVariableCanonicalForm();
    SingleVariableCanonicalForm("T");
  }
}
