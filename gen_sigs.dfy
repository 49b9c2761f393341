/** The reflective converter of type_spy/gen_sigs.py: runtime annotation
    values become AST types, and the type variables met on the way are
    collected, first seen first, in one list shared by a whole function.
    Python's reflection (`get_origin`, `get_args`, `isinstance`,
    `__name__`) is replaced by a datatype that already holds its answers. */
module GenSigs {
  import opened Wrappers
  import opened Types
  import opened Canonical

  // ---------------------------------------------------------------------
  // Runtime type values, as reflection sees them.
  // ---------------------------------------------------------------------

  /** What `get_origin` answers: nothing, one of the two union origins,
      or another runtime value. */
  datatype Origin = NoOrigin | UnionOrigin | OriginValue(value: RuntimeValue)

  /** What the value is when it has no arguments: a `TypeVar` with its
      name, a plain list, `None`, a string, an object with a `__name__`,
      or an object without one. */
  datatype Shape =
    | TypeVarShape(name: string)
    | ListShape(items: seq<RuntimeValue>)
    | NoneShape
    | StrShape(text: string)
    | NamedShape(name: string)
    | Nameless

  /** A runtime annotation value: its origin, its arguments (what
      `get_args` answers) and its shape. */
  datatype RuntimeValue = RuntimeValue(origin: Origin, args: seq<RuntimeValue>, shape: Shape)

  // ---------------------------------------------------------------------
  // `convert_type` as a function of the value and the list so far.
  // ---------------------------------------------------------------------

  /** A converted type and the list of variables after converting it. */
  datatype Converted = Converted(ty: Type, typevars: seq<TypeVariable>)

  datatype ConvertedList = ConvertedList(tys: seq<Type>, typevars: seq<TypeVariable>)

  /** The classification chain, in order: union origin, then any other
      value with arguments, then a `TypeVar`, then a list, then the name
      fallbacks. The origin of a generic is converted before its
      arguments. */
  function Convert(v: RuntimeValue, found: seq<TypeVariable>): Converted
    decreases v, 1
  {
    if v.origin.UnionOrigin? then
      var r := ConvertAll(v.args, found);
      Converted(Union(r.tys), r.typevars)
    else if v.args != [] then
      var c := match v.origin
        case OriginValue(o) => Convert(o, found)
        case _ => Converted(Ident("None"), found);
      var r := ConvertAll(v.args, c.typevars);
      Converted(Generic(c.ty, r.tys), r.typevars)
    else
      match v.shape
      case TypeVarShape(n) =>
        var tv := TypeVariable(TypeVarKind, n);
        Converted(Var(tv), if tv in found then found else found + [tv])
      case ListShape(items) =>
        var r := ConvertAll(items, found);
        Converted(List(r.tys), r.typevars)
      case NoneShape => Converted(Ident("None"), found)
      case StrShape(s) => Converted(Ident(s), found)
      case NamedShape(n) => Converted(Ident(n), found)
      case Nameless => Converted(Ident("Unknown"), found)
  }

  /** A list comprehension of `convert_type`: left to right, the list
      threaded through. */
  function ConvertAll(vs: seq<RuntimeValue>, found: seq<TypeVariable>): (r: ConvertedList)
    ensures |r.tys| == |vs|
    decreases vs, 0
  {
    if vs == [] then ConvertedList([], found)
    else
      var r := ConvertAll(vs[..|vs| - 1], found);
      var c := Convert(vs[|vs| - 1], r.typevars);
      ConvertedList(r.tys + [c.ty], c.typevars)
  }

  // ---------------------------------------------------------------------
  // What conversion promises.
  // ---------------------------------------------------------------------

  /** Elements of a list, as a set. */
  function Elems(d: seq<TypeVariable>): set<TypeVariable>
  {
    set v | v in d
  }

  /** Only `TypeVar`s are ever discovered. */
  predicate AllPlain(d: seq<TypeVariable>)
  {
    forall i :: 0 <= i < |d| ==> d[i].kind == TypeVarKind
  }

  /** The list only grows at its end, it stays duplicate-free and holds
      only plain type variables, and what it gains is exactly the
      variables of the converted type. */
  lemma {:induction false} ConvertDiscovers(v: RuntimeValue, found: seq<TypeVariable>)
    ensures var c := Convert(v, found);
      && |found| <= |c.typevars| && c.typevars[..|found|] == found
      && (NoDup(found) ==> NoDup(c.typevars))
      && (AllPlain(found) ==> AllPlain(c.typevars))
      && Elems(c.typevars) == Elems(found) + AllVars(c.ty)
    decreases v, 1
  {
    var c := Convert(v, found);
    if v.origin.UnionOrigin? {
      ConvertAllDiscovers(v.args, found);
    } else if v.args != [] {
      var o := match v.origin
        case OriginValue(o) => Convert(o, found)
        case _ => Converted(Ident("None"), found);
      if v.origin.OriginValue? {
        ConvertDiscovers(v.origin.value, found);
      }
      ConvertAllDiscovers(v.args, o.typevars);
      assert Elems(c.typevars) == Elems(o.typevars) + AllVarsSeq(c.ty.generics);
    } else {
      match v.shape
      case TypeVarShape(n) =>
        var tv := TypeVariable(TypeVarKind, n);
        if tv !in found {
          assert Elems(found + [tv]) == Elems(found) + {tv};
          assert (found + [tv])[..|found|] == found;
        }
      case ListShape(items) =>
        ConvertAllDiscovers(items, found);
      case NoneShape =>
      case StrShape(_) =>
      case NamedShape(_) =>
      case Nameless =>
    }
  }

  lemma {:induction false} ConvertAllDiscovers(vs: seq<RuntimeValue>, found: seq<TypeVariable>)
    ensures var r := ConvertAll(vs, found);
      && |found| <= |r.typevars| && r.typevars[..|found|] == found
      && (NoDup(found) ==> NoDup(r.typevars))
      && (AllPlain(found) ==> AllPlain(r.typevars))
      && Elems(r.typevars) == Elems(found) + AllVarsSeq(r.tys)
    decreases vs, 0
  {
    if vs != [] {
      var n := |vs| - 1;
      var r := ConvertAll(vs[..n], found);
      ConvertAllDiscovers(vs[..n], found);
      ConvertDiscovers(vs[n], r.typevars);
      var c := Convert(vs[n], r.typevars);
      AllVarsSeqSnoc(r.tys, c.ty);
      assert c.typevars[..|r.typevars|][..|found|] == c.typevars[..|found|];
    }
  }

  lemma {:induction false} AllVarsSeqSnoc(ts: seq<Type>, t: Type)
    ensures AllVarsSeq(ts + [t]) == AllVarsSeq(ts) + AllVars(t)
    decreases ts
  {
    if ts == [] {
      assert [] + [t] == [t];
      assert [t][1..] == [];
    } else {
      AllVarsSeqSnoc(ts[1..], t);
      assert (ts + [t])[1..] == ts[1..] + [t];
    }
  }

  /** The converted type does not depend on the list so far; only the
      list does. */
  lemma {:induction false} ConvertTypeIgnoresList(v: RuntimeValue, found: seq<TypeVariable>, other: seq<TypeVariable>)
    ensures Convert(v, found).ty == Convert(v, other).ty
    decreases v, 1
  {
    if v.origin.UnionOrigin? {
      ConvertAllTypesIgnoreList(v.args, found, other);
    } else if v.args != [] {
      var o1 := match v.origin
        case OriginValue(o) => Convert(o, found)
        case _ => Converted(Ident("None"), found);
      var o2 := match v.origin
        case OriginValue(o) => Convert(o, other)
        case _ => Converted(Ident("None"), other);
      if v.origin.OriginValue? {
        ConvertTypeIgnoresList(v.origin.value, found, other);
      }
      ConvertAllTypesIgnoreList(v.args, o1.typevars, o2.typevars);
    } else if v.shape.ListShape? {
      ConvertAllTypesIgnoreList(v.shape.items, found, other);
    }
  }

  lemma {:induction false} ConvertAllTypesIgnoreList(vs: seq<RuntimeValue>, found: seq<TypeVariable>, other: seq<TypeVariable>)
    ensures ConvertAll(vs, found).tys == ConvertAll(vs, other).tys
    decreases vs, 0
  {
    if vs != [] {
      var n := |vs| - 1;
      ConvertAllTypesIgnoreList(vs[..n], found, other);
      ConvertTypeIgnoresList(vs[n], ConvertAll(vs[..n], found).typevars, ConvertAll(vs[..n], other).typevars);
    }
  }

  /** The type a value converts to, whatever the list so far. */
  function ConvertedType(v: RuntimeValue): Type
  {
    Convert(v, []).ty
  }

  /** The types a list of values converts to, each on its own. */
  function ConvertedTypes(vs: seq<RuntimeValue>): (r: seq<Type>)
    ensures |r| == |vs|
  {
    seq(|vs|, i requires 0 <= i < |vs| => ConvertedType(vs[i]))
  }

  /** A comprehension of `convert_type` gives, at each position, the type
      of the value at that position. */
  lemma {:induction false} ConvertAllPointwise(vs: seq<RuntimeValue>, found: seq<TypeVariable>)
    ensures ConvertAll(vs, found).tys == ConvertedTypes(vs)
    decreases |vs|
  {
    if vs != [] {
      var n := |vs| - 1;
      var r := ConvertAll(vs[..n], found);
      ConvertAllPointwise(vs[..n], found);
      ConvertTypeIgnoresList(vs[n], r.typevars, []);
      assert ConvertAll(vs, found).tys == r.tys + [ConvertedType(vs[n])];
    }
  }

  /** The chain, in order, with each result stated outright: a union
      origin gives the union of the converted arguments; any other value
      with arguments gives the generic of the converted origin over the
      converted arguments (`None` as origin converts to `Ident("None")`);
      only then is a `TypeVar` or a list recognised; and the remaining
      values fall back to `None`, the string itself, `__name__`, and
      finally "Unknown". */
  lemma ClassificationOrder(v: RuntimeValue, found: seq<TypeVariable>)
    ensures var t := Convert(v, found).ty;
      && (v.origin.UnionOrigin? ==> t == Union(ConvertedTypes(v.args)))
      && (!v.origin.UnionOrigin? && v.args != [] ==>
            t == Generic(if v.origin.OriginValue? then ConvertedType(v.origin.value) else Ident("None"),
                         ConvertedTypes(v.args)))
      && (!v.origin.UnionOrigin? && v.args == [] ==>
            t == match v.shape
              case TypeVarShape(n) => Var(TypeVariable(TypeVarKind, n))
              case ListShape(items) => List(ConvertedTypes(items))
              case NoneShape => Ident("None")
              case StrShape(text) => Ident(text)
              case NamedShape(n) => Ident(n)
              case Nameless => Ident("Unknown"))
  {
    if v.origin.UnionOrigin? {
      ConvertAllPointwise(v.args, found);
    } else if v.args != [] {
      var c := match v.origin
        case OriginValue(o) => Convert(o, found)
        case _ => Converted(Ident("None"), found);
      if v.origin.OriginValue? {
        ConvertTypeIgnoresList(v.origin.value, found, []);
      }
      ConvertAllPointwise(v.args, c.typevars);
    } else if v.shape.ListShape? {
      ConvertAllPointwise(v.shape.items, found);
    }
  }

  // ---------------------------------------------------------------------
  // The order of discovery.
  // ---------------------------------------------------------------------

  /** The variables of a type, left to right, a generic's constructor
      before its arguments, repeats included. */
  function VarOccurrences(t: Type): seq<TypeVariable>
    decreases t
  {
    match t
    case Generic(c, gs) => VarOccurrences(c) + VarOccurrencesSeq(gs)
    case Ident(_) => []
    case List(vs) => VarOccurrencesSeq(vs)
    case Var(v) => [v]
    case Union(ts) => VarOccurrencesSeq(ts)
    case Sig(s) =>
      VarOccurrencesSeq(s.parameters.posOnly) + VarOccurrencesSeq(s.parameters.params)
      + (if s.parameters.vargs.Some? then VarOccurrences(s.parameters.vargs.value) else [])
      + VarOccurrencesSeq(s.parameters.kwargOnly)
      + (if s.parameters.kwargs.Some? then VarOccurrences(s.parameters.kwargs.value) else [])
      + VarOccurrences(s.rt)
  }

  function VarOccurrencesSeq(ts: seq<Type>): seq<TypeVariable>
    decreases ts
  {
    if ts == [] then [] else VarOccurrences(ts[0]) + VarOccurrencesSeq(ts[1..])
  }

  /** `found` followed by each occurrence not seen before, first
      occurrence first. */
  function AppendNew(found: seq<TypeVariable>, occs: seq<TypeVariable>): seq<TypeVariable>
    decreases |occs|
  {
    if occs == [] then found
    else
      var before := AppendNew(found, occs[..|occs| - 1]);
      if occs[|occs| - 1] in before then before else before + [occs[|occs| - 1]]
  }

  lemma {:induction false} AppendNewConcat(found: seq<TypeVariable>, xs: seq<TypeVariable>, ys: seq<TypeVariable>)
    ensures AppendNew(found, xs + ys) == AppendNew(AppendNew(found, xs), ys)
    decreases |ys|
  {
    if ys == [] {
      assert xs + ys == xs;
    } else {
      var n := |ys| - 1;
      AppendNewConcat(found, xs, ys[..n]);
      assert (xs + ys)[..|xs + ys| - 1] == xs + ys[..n];
    }
  }

  lemma {:induction false} VarOccurrencesSeqSnoc(ts: seq<Type>, t: Type)
    ensures VarOccurrencesSeq(ts + [t]) == VarOccurrencesSeq(ts) + VarOccurrences(t)
    decreases ts
  {
    if ts == [] {
      assert [] + [t] == [t];
      assert [t][1..] == [];
    } else {
      VarOccurrencesSeqSnoc(ts[1..], t);
      assert (ts + [t])[1..] == ts[1..] + [t];
    }
  }

  /** Conversion extends the list with the converted type's variables in
      first-seen order: left to right, a generic's origin before its
      arguments. */
  lemma {:induction false} ConvertDiscoveryOrder(v: RuntimeValue, found: seq<TypeVariable>)
    ensures Convert(v, found).typevars == AppendNew(found, VarOccurrences(Convert(v, found).ty))
    decreases v, 1
  {
    if v.origin.UnionOrigin? {
      ConvertAllDiscoveryOrder(v.args, found);
    } else if v.args != [] {
      var c := match v.origin
        case OriginValue(o) => Convert(o, found)
        case _ => Converted(Ident("None"), found);
      if v.origin.OriginValue? {
        ConvertDiscoveryOrder(v.origin.value, found);
      }
      var r := ConvertAll(v.args, c.typevars);
      ConvertAllDiscoveryOrder(v.args, c.typevars);
      AppendNewConcat(found, VarOccurrences(c.ty), VarOccurrencesSeq(r.tys));
    } else {
      match v.shape
      case TypeVarShape(n) =>
        var tv := TypeVariable(TypeVarKind, n);
        assert [tv][..0] == [];
      case ListShape(items) =>
        ConvertAllDiscoveryOrder(items, found);
      case NoneShape =>
      case StrShape(_) =>
      case NamedShape(_) =>
      case Nameless =>
    }
  }

  lemma {:induction false} ConvertAllDiscoveryOrder(vs: seq<RuntimeValue>, found: seq<TypeVariable>)
    ensures ConvertAll(vs, found).typevars == AppendNew(found, VarOccurrencesSeq(ConvertAll(vs, found).tys))
    decreases vs, 0
  {
    if vs != [] {
      var n := |vs| - 1;
      var r := ConvertAll(vs[..n], found);
      ConvertAllDiscoveryOrder(vs[..n], found);
      var c := Convert(vs[n], r.typevars);
      ConvertDiscoveryOrder(vs[n], r.typevars);
      VarOccurrencesSeqSnoc(r.tys, c.ty);
      AppendNewConcat(found, VarOccurrencesSeq(r.tys), VarOccurrences(c.ty));
    }
  }

  /** A `TypeVar` is appended exactly when it is not listed yet. */
  lemma TypeVarAppendedOnce(n: string, found: seq<TypeVariable>)
    ensures var c := Convert(RuntimeValue(NoOrigin, [], TypeVarShape(n)), found);
      && c.ty == Var(TypeVariable(TypeVarKind, n))
      && (TypeVariable(TypeVarKind, n) in found <==> c.typevars == found)
      && (TypeVariable(TypeVarKind, n) !in found <==> c.typevars == found + [TypeVariable(TypeVarKind, n)])
  {
    var tv := TypeVariable(TypeVarKind, n);
    assert (found + [tv])[|found|] == tv;
  }

  // ---------------------------------------------------------------------
  // `convert_type` on a shared list, as the source runs it.
  // ---------------------------------------------------------------------

  /** The caller-owned list of discovered variables. */
  class Discovery {
    var typevars: seq<TypeVariable>

    constructor ()
      ensures typevars == []
    {
      typevars := [];
    }

    /** Converts `v`, appending what it discovers to `typevars`. */
    method ConvertType(v: RuntimeValue) returns (t: Type)
      modifies this
      ensures Converted(t, typevars) == Convert(v, old(typevars))
      decreases v, 1
    {
      if v.origin.UnionOrigin? {
        var ts := ConvertEach(v.args);
        t := Union(ts);
      } else if v.args != [] {
        var c: Type;
        if v.origin.OriginValue? {
          c := ConvertType(v.origin.value);
        } else {
          c := Ident("None");
        }
        var ts := ConvertEach(v.args);
        t := Generic(c, ts);
      } else {
        match v.shape
        case TypeVarShape(n) =>
          var tv := TypeVariable(TypeVarKind, n);
          if tv !in typevars {
            typevars := typevars + [tv];
          }
          t := Var(tv);
        case ListShape(items) =>
          var ts := ConvertEach(items);
          t := List(ts);
        case NoneShape => t := Ident("None");
        case StrShape(s) => t := Ident(s);
        case NamedShape(n) => t := Ident(n);
        case Nameless => t := Ident("Unknown");
      }
    }

    /** Converts each value in order, on the same list. */
    method ConvertEach(vs: seq<RuntimeValue>) returns (ts: seq<Type>)
      modifies this
      ensures ConvertedList(ts, typevars) == ConvertAll(vs, old(typevars))
      decreases vs, 0
    {
      ts := [];
      var i := 0;
      while i < |vs|
        invariant 0 <= i <= |vs|
        invariant ConvertedList(ts, typevars) == ConvertAll(vs[..i], old(typevars))
      {
        assert vs[..i + 1][..i] == vs[..i];
        var t := ConvertType(vs[i]);
        ts := ts + [t];
        i := i + 1;
      }
      assert vs[..|vs|] == vs;
    }
  }

  // ---------------------------------------------------------------------
  // `extract_signature`.
  // ---------------------------------------------------------------------

  /** Where the annotation loop stands: the parameters so far, the return
      type so far and the shared list. */
  datatype Scan = Scan(parameters: seq<Type>, rt: Type, typevars: seq<TypeVariable>)

  /** The loop over the annotations in order: the `"return"` annotation
      replaces the return type, every other one is appended as a
      parameter. */
  function ScanAnnotations(annotations: seq<(string, RuntimeValue)>): Scan
    decreases |annotations|
  {
    if annotations == [] then Scan([], Ident("None"), [])
    else
      var n := |annotations| - 1;
      var s := ScanAnnotations(annotations[..n]);
      var c := Convert(annotations[n].1, s.typevars);
      if annotations[n].0 == "return" then Scan(s.parameters, c.ty, c.typevars)
      else Scan(s.parameters + [c.ty], s.rt, c.typevars)
  }

  /** The converted non-return annotations, in annotation order. */
  function ParameterTypes(annotations: seq<(string, RuntimeValue)>): seq<Type>
  {
    if annotations == [] then []
    else if annotations[0].0 == "return" then ParameterTypes(annotations[1..])
    else [ConvertedType(annotations[0].1)] + ParameterTypes(annotations[1..])
  }

  /** The value of the last `"return"` annotation, if any. */
  function ReturnAnnotation(annotations: seq<(string, RuntimeValue)>): Option<RuntimeValue>
  {
    if annotations == [] then None
    else match ReturnAnnotation(annotations[1..])
      case Some(v) => Some(v)
      case None => if annotations[0].0 == "return" then Some(annotations[0].1) else None
  }

  /** The variable occurrences of all annotations, in annotation order. */
  function AnnotationOccurrences(annotations: seq<(string, RuntimeValue)>): seq<TypeVariable>
  {
    if annotations == [] then []
    else VarOccurrences(ConvertedType(annotations[0].1)) + AnnotationOccurrences(annotations[1..])
  }

  /** Every variable of every annotation. */
  function AnnotationVars(annotations: seq<(string, RuntimeValue)>): set<TypeVariable>
  {
    if annotations == [] then {}
    else AllVars(ConvertedType(annotations[0].1)) + AnnotationVars(annotations[1..])
  }

  lemma {:induction false} ParameterTypesSnoc(annotations: seq<(string, RuntimeValue)>, a: (string, RuntimeValue))
    ensures ParameterTypes(annotations + [a])
      == ParameterTypes(annotations) + (if a.0 == "return" then [] else [ConvertedType(a.1)])
    ensures ReturnAnnotation(annotations + [a])
      == if a.0 == "return" then Some(a.1) else ReturnAnnotation(annotations)
    ensures AnnotationVars(annotations + [a]) == AnnotationVars(annotations) + AllVars(ConvertedType(a.1))
    ensures AnnotationOccurrences(annotations + [a])
      == AnnotationOccurrences(annotations) + VarOccurrences(ConvertedType(a.1))
    decreases annotations
  {
    if annotations == [] {
      assert [] + [a] == [a];
      assert [a][1..] == [];
    } else {
      ParameterTypesSnoc(annotations[1..], a);
      assert (annotations + [a])[1..] == annotations[1..] + [a];
    }
  }

  /** The loop's result against the reference definitions: the parameters
      are the converted non-return annotations in order, the return type is
      the converted last `"return"` annotation or `Ident("None")`, and the
      shared list is duplicate-free, holds only plain type variables and
      holds exactly the variables of all annotations. */
  lemma {:induction false} ScanMeetsReference(annotations: seq<(string, RuntimeValue)>)
    ensures var s := ScanAnnotations(annotations);
      && s.parameters == ParameterTypes(annotations)
      && s.rt == (match ReturnAnnotation(annotations)
                  case None => Ident("None")
                  case Some(v) => ConvertedType(v))
      && NoDup(s.typevars) && AllPlain(s.typevars)
      && Elems(s.typevars) == AnnotationVars(annotations)
    decreases |annotations|
  {
    if annotations != [] {
      var n := |annotations| - 1;
      var s := ScanAnnotations(annotations[..n]);
      ScanMeetsReference(annotations[..n]);
      ParameterTypesSnoc(annotations[..n], annotations[n]);
      assert annotations[..n] + [annotations[n]] == annotations;
      ConvertDiscovers(annotations[n].1, s.typevars);
      ConvertTypeIgnoresList(annotations[n].1, s.typevars, []);
    }
  }

  /** The shared list holds the annotations' variables in first-seen
      order: annotation by annotation, left to right within each. This
      order fixes each variable's canonical index. */
  lemma {:induction false} ScanDiscoveryOrder(annotations: seq<(string, RuntimeValue)>)
    ensures ScanAnnotations(annotations).typevars == AppendNew([], AnnotationOccurrences(annotations))
    decreases |annotations|
  {
    if annotations != [] {
      var n := |annotations| - 1;
      var s := ScanAnnotations(annotations[..n]);
      ScanDiscoveryOrder(annotations[..n]);
      ParameterTypesSnoc(annotations[..n], annotations[n]);
      assert annotations[..n] + [annotations[n]] == annotations;
      ConvertDiscoveryOrder(annotations[n].1, s.typevars);
      ConvertTypeIgnoresList(annotations[n].1, s.typevars, []);
      AppendNewConcat([], AnnotationOccurrences(annotations[..n]), VarOccurrences(ConvertedType(annotations[n].1)));
    }
  }

  /** Everything the return type and parameters mention was discovered. */
  lemma {:induction false} ScanCoversSignature(annotations: seq<(string, RuntimeValue)>)
    ensures var s := ScanAnnotations(annotations);
      AllVarsSeq(s.parameters) + AllVars(s.rt) <= Elems(s.typevars)
    decreases |annotations|
  {
    if annotations != [] {
      var n := |annotations| - 1;
      var s := ScanAnnotations(annotations[..n]);
      ScanCoversSignature(annotations[..n]);
      ConvertDiscovers(annotations[n].1, s.typevars);
      var c := Convert(annotations[n].1, s.typevars);
      AllVarsSeqSnoc(s.parameters, c.ty);
    }
  }

  /** The Function `extract_signature` builds: the annotations' parameters
      in the ordinary slot, the return type, and the discovered variables
      as its type variables. */
  function Extracted(name: string, path: string, docstring: Option<string>,
                     annotations: seq<(string, RuntimeValue)>): Result<Function, Error>
  {
    var s := ScanAnnotations(annotations);
    NewFunction(name, path, docstring, MetaTypeVars(s.typevars),
                Signature(SignatureParameters([], s.parameters, None, [], None), s.rt))
  }

  /** A converted function always canonicalises, and its i-th discovered
      variable is renamed to `str(i)`. */
  lemma ExtractedConstructs(name: string, path: string, docstring: Option<string>,
                            annotations: seq<(string, RuntimeValue)>)
    ensures Extracted(name, path, docstring, annotations).Success?
    ensures var s := ScanAnnotations(annotations);
      forall i :: 0 <= i < |s.typevars| ==>
        Get(CanonicalMap(s.typevars), s.typevars[i]) == Some(TypeVariable(TypeVarKind, NatToString(i)))
  {
    var s := ScanAnnotations(annotations);
    var sig := Signature(SignatureParameters([], s.parameters, None, [], None), s.rt);
    ScanMeetsReference(annotations);
    ScanCoversSignature(annotations);
    assert AllVarsSeq([]) == {} && AllVarsOpt(None) == {};
    assert AllVarsParams(sig.parameters) == AllVarsSeq(s.parameters);
    assert AllVarsSignature(sig) == AllVarsSeq(s.parameters) + AllVars(s.rt);
    ConstructsWhenAllVarsDeclared(name, path, docstring, MetaTypeVars(s.typevars), sig);
    CanonicalMapIsIndexed(s.typevars);
    forall i | 0 <= i < |s.typevars|
      ensures Get(CanonicalMap(s.typevars), s.typevars[i]) == Some(TypeVariable(TypeVarKind, NatToString(i)))
    {
      GetZip(s.typevars, Indexed(s.typevars), s.typevars[i]);
      IndexOfNoDup(s.typevars, i);
    }
  }

  /** `extract_signature`: one shared list, the return type defaulting to
      `Ident("None")`, each annotation converted in order. */
  method ExtractSignature(name: string, path: string, docstring: Option<string>,
                          annotations: seq<(string, RuntimeValue)>) returns (r: Result<Function, Error>)
    ensures r == Extracted(name, path, docstring, annotations)
  {
    var discovery := new Discovery();
    var parameters: seq<Type> := [];
    var rt := Ident("None");
    for i := 0 to |annotations|
      invariant Scan(parameters, rt, discovery.typevars) == ScanAnnotations(annotations[..i])
    {
      assert annotations[..i + 1][..i] == annotations[..i];
      var ty := discovery.ConvertType(annotations[i].1);
      if annotations[i].0 == "return" {
        rt := ty;
      } else {
        parameters := parameters + [ty];
      }
    }
    assert annotations[..|annotations|] == annotations;
    r := NewFunction(name, path, docstring, MetaTypeVars(discovery.typevars),
                     Signature(SignatureParameters([], parameters, None, [], None), rt));
  }

  // ---------------------------------------------------------------------
  // `find_matching`.
  // ---------------------------------------------------------------------

  /** The elements equal to `value` under the elements' own `==`, in their
      original order. */
  function FindMatching<T>(xs: seq<T>, value: T, eq: (T, T) -> bool): (r: seq<T>)
    ensures forall i :: 0 <= i < |r| ==> eq(r[i], value)
    ensures |r| <= |xs|
  {
    if xs == [] then []
    else if eq(xs[0], value) then [xs[0]] + FindMatching(xs[1..], value, eq)
    else FindMatching(xs[1..], value, eq)
  }

  /** Each element is kept as often as it occurs when it matches, and
      dropped otherwise. */
  lemma {:induction false} FindMatchingCounts<T>(xs: seq<T>, value: T, eq: (T, T) -> bool, x: T)
    ensures multiset(FindMatching(xs, value, eq))[x] == if eq(x, value) then multiset(xs)[x] else 0
    decreases xs
  {
    if xs != [] {
      FindMatchingCounts(xs[1..], value, eq, x);
      assert xs == [xs[0]] + xs[1..];
    }
  }

  /** Filtering distributes over concatenation, so the order of the input
      is kept. */
  lemma {:induction false} FindMatchingConcat<T>(xs: seq<T>, ys: seq<T>, value: T, eq: (T, T) -> bool)
    ensures FindMatching(xs + ys, value, eq) == FindMatching(xs, value, eq) + FindMatching(ys, value, eq)
    decreases xs
  {
    if xs == [] {
      assert [] + ys == ys;
    } else {
      FindMatchingConcat(xs[1..], ys, value, eq);
      assert (xs + ys)[1..] == xs[1..] + ys;
    }
  }
}
