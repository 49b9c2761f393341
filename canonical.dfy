/** The canonicaliser of type_spy/types.py: the `typevar_map` a `Function`
    builds from its declared variables, `remap_types` and
    `normalize_typevars`, and `Function` itself, whose equality compares
    only the canonical form computed at construction. */
module Canonical {
  import opened Wrappers
  import opened Types

  /** A failed `typevar_map[...]` lookup (Python's `KeyError`). */
  datatype Error = KeyError(key: TypeVariable)

  // ---------------------------------------------------------------------
  // `str(i)` for the index of a declared variable.
  // ---------------------------------------------------------------------

  function Digit(d: nat): char
    requires d < 10
  {
    "0123456789"[d]
  }

  /** The decimal rendering of a natural number, as `str(n)`: decimal
      digits only, with a leading zero only for zero itself. */
  function NatToString(n: nat): (s: string)
    ensures |s| >= 1
    ensures n >= 10 ==> |s| >= 2
    ensures forall k :: 0 <= k < |s| ==> '0' <= s[k] <= '9'
    ensures s[0] == '0' <==> n == 0
    decreases n
  {
    if n < 10 then [Digit(n)] else NatToString(n / 10) + [Digit(n % 10)]
  }

  /** Distinct indices have distinct decimal names. */
  lemma {:induction false} NatToStringInjective(a: nat, b: nat)
    requires NatToString(a) == NatToString(b)
    ensures a == b
    decreases a
  {
    var s := NatToString(a);
    if a < 10 && b < 10 {
      assert Digit(a) == s[0] == Digit(b);
    } else if a >= 10 && b >= 10 {
      assert s[|s| - 1] == Digit(a % 10) == Digit(b % 10);
      assert s[..|s| - 1] == NatToString(a / 10) == NatToString(b / 10);
      NatToStringInjective(a / 10, b / 10);
    }
  }

  // ---------------------------------------------------------------------
  // `typevar_map`: a Python dict, i.e. its items in insertion order.
  // ---------------------------------------------------------------------

  type TypeVarMap = seq<(TypeVariable, TypeVariable)>

  function Keys(m: TypeVarMap): set<TypeVariable>
  {
    set i | 0 <= i < |m| :: m[i].0
  }

  /** `m[k]`, or `None` where Python raises `KeyError`. */
  function Get(m: TypeVarMap, k: TypeVariable): Option<TypeVariable>
  {
    if m == [] then None
    else if m[0].0 == k then Some(m[0].1)
    else Get(m[1..], k)
  }

  /** `m[k] = v`: an existing key keeps its position and gets the new
      value; a new key goes to the end. */
  function Put(m: TypeVarMap, k: TypeVariable, v: TypeVariable): TypeVarMap
  {
    if m == [] then [(k, v)]
    else if m[0].0 == k then [(k, v)] + m[1..]
    else [m[0]] + Put(m[1..], k, v)
  }

  /** The `Ident` fallback of `remap_types`: the value of the first item,
      in insertion order, whose key has the given name. */
  function IdentLookup(m: TypeVarMap, name: string): Option<TypeVariable>
  {
    if m == [] then None
    else if m[0].0.name == name then Some(m[0].1)
    else IdentLookup(m[1..], name)
  }

  lemma {:induction false} GetIffKey(m: TypeVarMap, k: TypeVariable)
    ensures Get(m, k).Some? <==> k in Keys(m)
  {
    if m != [] {
      GetIffKey(m[1..], k);
      assert Keys(m) == {m[0].0} + Keys(m[1..]) by {
        forall x | x in Keys(m) ensures x in {m[0].0} + Keys(m[1..]) {
          var i :| 0 <= i < |m| && m[i].0 == x;
          if i > 0 { assert m[1..][i - 1].0 == x; }
        }
        forall x | x in Keys(m[1..]) ensures x in Keys(m) {
          var i :| 0 <= i < |m[1..]| && m[1..][i].0 == x;
          assert m[i + 1].0 == x;
        }
      }
    }
  }

  lemma {:induction false} GetPut(m: TypeVarMap, k: TypeVariable, v: TypeVariable, x: TypeVariable)
    ensures Get(Put(m, k, v), x) == if x == k then Some(v) else Get(m, x)
  {
    if m != [] && m[0].0 != k {
      GetPut(m[1..], k, v, x);
      assert Put(m, k, v)[1..] == Put(m[1..], k, v);
    } else if m != [] {
      assert Put(m, k, v)[1..] == m[1..];
    }
  }

  /** The keys of `m` after `m[k] = v`. */
  lemma PutKeys(m: TypeVarMap, k: TypeVariable, v: TypeVariable)
    ensures Keys(Put(m, k, v)) == Keys(m) + {k}
  {
    forall x ensures x in Keys(Put(m, k, v)) <==> x in Keys(m) + {k} {
      GetPut(m, k, v, x);
      GetIffKey(Put(m, k, v), x);
      GetIffKey(m, x);
    }
  }

  // ---------------------------------------------------------------------
  // Maps built position for position from two lists.
  // ---------------------------------------------------------------------

  predicate NoDup(d: seq<TypeVariable>)
  {
    forall i, j :: 0 <= i < j < |d| ==> d[i] != d[j]
  }

  /** The map pairing each key with the value at the same position. */
  function Zip(keys: seq<TypeVariable>, values: seq<TypeVariable>): TypeVarMap
    requires |keys| == |values|
  {
    seq(|keys|, i requires 0 <= i < |keys| => (keys[i], values[i]))
  }

  /** The first position holding `k`. */
  function IndexOf(d: seq<TypeVariable>, k: TypeVariable): (r: Option<nat>)
    ensures r.Some? ==> r.value < |d| && d[r.value] == k
    ensures r.None? <==> k !in d
  {
    if d == [] then None
    else if d[0] == k then Some(0)
    else match IndexOf(d[1..], k)
      case None => None
      case Some(i) => Some(i + 1)
  }

  /** The first position holding a variable with the given name. */
  function NameIndex(d: seq<TypeVariable>, name: string): (r: Option<nat>)
    ensures r.Some? ==> r.value < |d| && d[r.value].name == name
    ensures r.Some? ==> forall j :: 0 <= j < r.value ==> d[j].name != name
    ensures r.None? <==> forall j :: 0 <= j < |d| ==> d[j].name != name
  {
    if d == [] then None
    else if d[0].name == name then Some(0)
    else match NameIndex(d[1..], name)
      case None => None
      case Some(i) => Some(i + 1)
  }

  lemma IndexOfNoDup(d: seq<TypeVariable>, j: nat)
    requires NoDup(d) && j < |d|
    ensures IndexOf(d, d[j]) == Some(j)
  {
    var r := IndexOf(d, d[j]);
    assert r.Some?;
    assert d[r.value] == d[j];
  }

  lemma {:induction false} GetZip(keys: seq<TypeVariable>, values: seq<TypeVariable>, k: TypeVariable)
    requires |keys| == |values|
    ensures Get(Zip(keys, values), k) == match IndexOf(keys, k)
      case None => None
      case Some(i) => Some(values[i])
  {
    if keys != [] {
      assert Zip(keys, values)[1..] == Zip(keys[1..], values[1..]);
      GetZip(keys[1..], values[1..], k);
    }
  }

  lemma {:induction false} IdentLookupZip(keys: seq<TypeVariable>, values: seq<TypeVariable>, name: string)
    requires |keys| == |values|
    ensures IdentLookup(Zip(keys, values), name) == match NameIndex(keys, name)
      case None => None
      case Some(i) => Some(values[i])
  {
    if keys != [] {
      assert Zip(keys, values)[1..] == Zip(keys[1..], values[1..]);
      IdentLookupZip(keys[1..], values[1..], name);
    }
  }

  // ---------------------------------------------------------------------
  // The canonical map of a Function's declared variables.
  // ---------------------------------------------------------------------

  /** The canonical image of the variable declared at position `i`. */
  function Canon(v: TypeVariable, i: nat): TypeVariable
  {
    TypeVariable(v.kind, NatToString(i))
  }

  /** The map a Function builds from its declared variables: the i-th
      declared variable is inserted with its canonical image. */
  function CanonicalMap(decls: seq<TypeVariable>): TypeVarMap
    decreases |decls|
  {
    if decls == [] then []
    else
      var n := |decls| - 1;
      Put(CanonicalMap(decls[..n]), decls[n], Canon(decls[n], n))
  }

  /** The canonical image of every declared position. */
  function Indexed(decls: seq<TypeVariable>): (r: seq<TypeVariable>)
    ensures |r| == |decls|
  {
    seq(|decls|, i requires 0 <= i < |decls| => Canon(decls[i], i))
  }

  lemma {:induction false} CanonicalMapKeys(decls: seq<TypeVariable>)
    ensures Keys(CanonicalMap(decls)) == set v | v in decls
    decreases |decls|
  {
    if decls != [] {
      var n := |decls| - 1;
      CanonicalMapKeys(decls[..n]);
      PutKeys(CanonicalMap(decls[..n]), decls[n], Canon(decls[n], n));
      assert decls == decls[..n] + [decls[n]];
    }
  }

  /** For duplicate-free declarations the map holds, in declaration order,
      each declared variable paired with a variable of the same class named
      by its position. */
  lemma {:induction false} CanonicalMapIsIndexed(decls: seq<TypeVariable>)
    requires NoDup(decls)
    ensures CanonicalMap(decls) == Zip(decls, Indexed(decls))
    decreases |decls|
  {
    if decls != [] {
      var n := |decls| - 1;
      var prefix := decls[..n];
      assert NoDup(prefix);
      CanonicalMapIsIndexed(prefix);
      var m := CanonicalMap(prefix);
      assert Indexed(prefix) == Indexed(decls)[..n];
      CanonicalMapKeys(prefix);
      assert decls[n] !in Keys(m);
      PutAppends(m, decls[n], Canon(decls[n], n));
      var z := Zip(decls, Indexed(decls));
      assert z == m + [(decls[n], Canon(decls[n], n))] by {
        assert |z| == |m| + 1;
        forall i | 0 <= i < |z| ensures z[i] == (m + [(decls[n], Canon(decls[n], n))])[i] {
          if i < n {
            assert z[i] == (prefix[i], Indexed(prefix)[i]);
          }
        }
      }
    }
  }

  lemma {:induction false} PutAppends(m: TypeVarMap, k: TypeVariable, v: TypeVariable)
    requires k !in Keys(m)
    ensures Put(m, k, v) == m + [(k, v)]
  {
    if m != [] {
      assert m[0].0 in Keys(m);
      assert Keys(m[1..]) <= Keys(m) by {
        forall x | x in Keys(m[1..]) ensures x in Keys(m) {
          var i :| 0 <= i < |m[1..]| && m[1..][i].0 == x;
          assert m[i + 1].0 == x;
        }
      }
      PutAppends(m[1..], k, v);
      assert m == [m[0]] + m[1..];
    }
  }

  /** `typevar_map[k]` for any declaration list, duplicates included: it
      exists exactly for the declared variables, has the same class, and
      is named by the LAST position holding `k` (a repeated dict key keeps
      its first place but takes the later value). */
  lemma {:induction false} CanonicalMapLookup(decls: seq<TypeVariable>, k: TypeVariable)
    ensures Get(CanonicalMap(decls), k).Some? <==> k in decls
    ensures k in decls ==> exists j :: (0 <= j < |decls| && decls[j] == k
      && (forall j' :: j < j' < |decls| ==> decls[j'] != k)
      && Get(CanonicalMap(decls), k) == Some(Canon(k, j)))
    decreases |decls|
  {
    if decls != [] {
      var n := |decls| - 1;
      var prefix := decls[..n];
      CanonicalMapLookup(prefix, k);
      GetPut(CanonicalMap(prefix), decls[n], Canon(decls[n], n), k);
      assert decls == prefix + [decls[n]];
      if k in decls && k != decls[n] {
        assert k in prefix;
        var j :| 0 <= j < |prefix| && prefix[j] == k
          && (forall j' :: j < j' < |prefix| ==> prefix[j'] != k)
          && Get(CanonicalMap(prefix), k) == Some(Canon(k, j));
        assert decls[j] == k;
      }
    }
  }

  /** The i-th declared variable maps to a variable of the same class
      named `str(i)`. */
  lemma CanonicalImage(decls: seq<TypeVariable>, i: nat)
    requires NoDup(decls) && i < |decls|
    ensures Get(CanonicalMap(decls), decls[i]) == Some(TypeVariable(decls[i].kind, NatToString(i)))
  {
    CanonicalMapIsIndexed(decls);
    GetZip(decls, Indexed(decls), decls[i]);
    IndexOfNoDup(decls, i);
  }

  /** Different declared positions get different canonical variables. */
  lemma CanonicalImagesDistinct(decls: seq<TypeVariable>, i: nat, j: nat)
    requires i < |decls| && j < |decls| && i != j
    ensures Indexed(decls)[i] != Indexed(decls)[j]
  {
    if Indexed(decls)[i] == Indexed(decls)[j] {
      NatToStringInjective(i, j);
    }
  }

  // ---------------------------------------------------------------------
  // `remap_types` and `normalize_typevars`.
  // ---------------------------------------------------------------------

  function RemapType(m: TypeVarMap, t: Type): Result<Type, Error>
    decreases t
  {
    match t
    case Generic(c, gs) =>
      (match RemapAll(m, gs)
       case Failure(e) => Failure(e)
       case Success(rs) => Success(Generic(c, rs)))
    case Var(v) =>
      (match Get(m, v)
       case None => Failure(KeyError(v))
       case Some(w) => Success(Var(w)))
    case List(vs) =>
      (match RemapAll(m, vs)
       case Failure(e) => Failure(e)
       case Success(rs) => Success(List(rs)))
    case Union(ts) =>
      (match RemapAll(m, ts)
       case Failure(e) => Failure(e)
       case Success(rs) => Success(Union(rs)))
    case Sig(s) =>
      (match RemapSignature(m, s)
       case Failure(e) => Failure(e)
       case Success(s') => Success(Sig(s')))
    case Ident(n) =>
      (match IdentLookup(m, n)
       case Some(w) => Success(Var(w))
       case None => Success(t))
  }

  /** Remaps each element in order; stops at the first failure. */
  function RemapAll(m: TypeVarMap, ts: seq<Type>): Result<seq<Type>, Error>
    decreases ts
  {
    if ts == [] then Success([])
    else
      match RemapType(m, ts[0])
      case Failure(e) => Failure(e)
      case Success(r) =>
        (match RemapAll(m, ts[1..])
         case Failure(e) => Failure(e)
         case Success(rs) => Success([r] + rs))
  }

  /** Remaps a variadic slot; an absent slot stays absent. */
  function RemapOpt(m: TypeVarMap, o: Option<Type>): Result<Option<Type>, Error>
    decreases o
  {
    match o
    case None => Success(None)
    case Some(t) =>
      (match RemapType(m, t)
       case Failure(e) => Failure(e)
       case Success(r) => Success(Some(r)))
  }

  function NormalizeTypevars(m: TypeVarMap, p: SignatureParameters): Result<SignatureParameters, Error>
    decreases p
  {
    match RemapAll(m, p.posOnly)
    case Failure(e) => Failure(e)
    case Success(posOnly) =>
      match RemapAll(m, p.params)
      case Failure(e) => Failure(e)
      case Success(params) =>
        match RemapOpt(m, p.vargs)
        case Failure(e) => Failure(e)
        case Success(vargs) =>
          match RemapAll(m, p.kwargOnly)
          case Failure(e) => Failure(e)
          case Success(kwargOnly) =>
            match RemapOpt(m, p.kwargs)
            case Failure(e) => Failure(e)
            case Success(kwargs) => Success(SignatureParameters(posOnly, params, vargs, kwargOnly, kwargs))
  }

  /** The `Signature` case of `remap_types`: the same map for the nested
      parameters and return type. */
  function RemapSignature(m: TypeVarMap, s: Signature): Result<Signature, Error>
    decreases s
  {
    match NormalizeTypevars(m, s.parameters)
    case Failure(e) => Failure(e)
    case Success(p) =>
      match RemapType(m, s.rt)
      case Failure(e) => Failure(e)
      case Success(rt) => Success(Signature(p, rt))
  }

  // ---------------------------------------------------------------------
  // The nodes `remap_types` looks up: variables and identifiers, except in
  // the constructor position of a `Generic`, which is never remapped.
  // ---------------------------------------------------------------------

  function Leaves(t: Type): set<Type>
    decreases t
  {
    match t
    case Generic(_, gs) => LeavesSeq(gs)
    case Ident(_) => {t}
    case List(vs) => LeavesSeq(vs)
    case Var(_) => {t}
    case Union(ts) => LeavesSeq(ts)
    case Sig(s) => LeavesSignature(s)
  }

  function LeavesSeq(ts: seq<Type>): set<Type>
    decreases ts
  {
    if ts == [] then {} else Leaves(ts[0]) + LeavesSeq(ts[1..])
  }

  function LeavesOpt(o: Option<Type>): set<Type>
    decreases o
  {
    match o
    case None => {}
    case Some(t) => Leaves(t)
  }

  function LeavesParams(p: SignatureParameters): set<Type>
    decreases p
  {
    LeavesSeq(p.posOnly) + LeavesSeq(p.params) + LeavesOpt(p.vargs)
    + LeavesSeq(p.kwargOnly) + LeavesOpt(p.kwargs)
  }

  function LeavesSignature(s: Signature): set<Type>
    decreases s
  {
    LeavesParams(s.parameters) + Leaves(s.rt)
  }

  /** Every variable among `leaves` is a key of the map. */
  predicate Declared(keys: set<TypeVariable>, leaves: set<Type>)
  {
    forall x :: x in leaves && x.Var? ==> x.tv in keys
  }

  /** Remapping succeeds exactly when every variable it meets is a key;
      an undeclared one is a `KeyError`, never passed through. */
  lemma {:induction false} RemapSucceedsIffDeclared(m: TypeVarMap, t: Type)
    ensures RemapType(m, t).Success? <==> Declared(Keys(m), Leaves(t))
    decreases t
  {
    match t
    case Generic(_, gs) => RemapAllSucceedsIffDeclared(m, gs);
    case Ident(_) =>
    case List(vs) => RemapAllSucceedsIffDeclared(m, vs);
    case Var(v) => GetIffKey(m, v);
    case Union(ts) => RemapAllSucceedsIffDeclared(m, ts);
    case Sig(s) => RemapSignatureSucceedsIffDeclared(m, s);
  }

  lemma {:induction false} RemapAllSucceedsIffDeclared(m: TypeVarMap, ts: seq<Type>)
    ensures RemapAll(m, ts).Success? <==> Declared(Keys(m), LeavesSeq(ts))
    decreases ts
  {
    if ts != [] {
      RemapSucceedsIffDeclared(m, ts[0]);
      RemapAllSucceedsIffDeclared(m, ts[1..]);
    }
  }

  lemma {:induction false} RemapOptSucceedsIffDeclared(m: TypeVarMap, o: Option<Type>)
    ensures RemapOpt(m, o).Success? <==> Declared(Keys(m), LeavesOpt(o))
    decreases o
  {
    if o.Some? {
      RemapSucceedsIffDeclared(m, o.value);
    }
  }

  lemma {:induction false} NormalizeSucceedsIffDeclared(m: TypeVarMap, p: SignatureParameters)
    ensures NormalizeTypevars(m, p).Success? <==> Declared(Keys(m), LeavesParams(p))
    decreases p
  {
    RemapAllSucceedsIffDeclared(m, p.posOnly);
    RemapAllSucceedsIffDeclared(m, p.params);
    RemapOptSucceedsIffDeclared(m, p.vargs);
    RemapAllSucceedsIffDeclared(m, p.kwargOnly);
    RemapOptSucceedsIffDeclared(m, p.kwargs);
  }

  lemma {:induction false} RemapSignatureSucceedsIffDeclared(m: TypeVarMap, s: Signature)
    ensures RemapSignature(m, s).Success? <==> Declared(Keys(m), LeavesSignature(s))
    decreases s
  {
    NormalizeSucceedsIffDeclared(m, s.parameters);
    RemapSucceedsIffDeclared(m, s.rt);
  }

  /** The variables the canonicaliser meets are among all the variables
      of the type. */
  lemma {:induction false} LeafVarsAreVars(t: Type)
    ensures forall x :: x in Leaves(t) && x.Var? ==> x.tv in AllVars(t)
    decreases t
  {
    match t
    case Generic(_, gs) => LeafVarsAreVarsSeq(gs);
    case Ident(_) =>
    case List(vs) => LeafVarsAreVarsSeq(vs);
    case Var(_) =>
    case Union(ts) => LeafVarsAreVarsSeq(ts);
    case Sig(s) => LeafVarsAreVarsSignature(s);
  }

  lemma {:induction false} LeafVarsAreVarsSeq(ts: seq<Type>)
    ensures forall x :: x in LeavesSeq(ts) && x.Var? ==> x.tv in AllVarsSeq(ts)
    decreases ts
  {
    if ts != [] {
      LeafVarsAreVars(ts[0]);
      LeafVarsAreVarsSeq(ts[1..]);
    }
  }

  lemma {:induction false} LeafVarsAreVarsOpt(o: Option<Type>)
    ensures forall x :: x in LeavesOpt(o) && x.Var? ==> x.tv in AllVarsOpt(o)
    decreases o
  {
    if o.Some? {
      LeafVarsAreVars(o.value);
    }
  }

  lemma {:induction false} LeafVarsAreVarsSignature(s: Signature)
    ensures forall x :: x in LeavesSignature(s) && x.Var? ==> x.tv in AllVarsSignature(s)
    decreases s
  {
    LeafVarsAreVarsSeq(s.parameters.posOnly);
    LeafVarsAreVarsSeq(s.parameters.params);
    LeafVarsAreVarsOpt(s.parameters.vargs);
    LeafVarsAreVarsSeq(s.parameters.kwargOnly);
    LeafVarsAreVarsOpt(s.parameters.kwargs);
    LeafVarsAreVars(s.rt);
  }

  /** A signature whose variables are all declared always constructs. */
  lemma ConstructsWhenAllVarsDeclared(name: string, path: string, docstring: Option<string>,
                                      typevars: MetaTypeVars, signature: Signature)
    requires forall v :: v in AllVarsSignature(signature) ==> v in typevars.generics
    ensures NewFunction(name, path, docstring, typevars, signature).Success?
  {
    LeafVarsAreVarsSignature(signature);
    NewFunctionSucceedsIffDeclared(name, path, docstring, typevars, signature);
  }

  /** A variable occurrence is looked up by class and name: one whose class
      differs from every declared variable of that name is a `KeyError`. */
  lemma RemapVarIsKindSensitive(decls: seq<TypeVariable>, v: TypeVariable)
    requires v !in decls
    ensures RemapType(CanonicalMap(decls), Var(v)) == Failure(KeyError(v))
  {
    CanonicalMapLookup(decls, v);
  }

  /** Lists keep their length and order: the i-th result is the remapped
      i-th input; on failure the error is that of the first failing
      element. */
  lemma {:induction false} RemapAllPointwise(m: TypeVarMap, ts: seq<Type>)
    ensures RemapAll(m, ts).Success? ==>
      |RemapAll(m, ts).value| == |ts|
      && forall i :: 0 <= i < |ts| ==> RemapType(m, ts[i]) == Success(RemapAll(m, ts).value[i])
    ensures RemapAll(m, ts).Failure? ==>
      exists i :: 0 <= i < |ts| && RemapType(m, ts[i]) == Failure(RemapAll(m, ts).error)
        && forall j :: 0 <= j < i ==> RemapType(m, ts[j]).Success?
    decreases ts
  {
    if ts != [] {
      RemapAllPointwise(m, ts[1..]);
      if RemapType(m, ts[0]).Success? && RemapAll(m, ts[1..]).Failure? {
        var i :| 0 <= i < |ts[1..]| && RemapType(m, ts[1..][i]) == Failure(RemapAll(m, ts[1..]).error)
          && forall j :: 0 <= j < i ==> RemapType(m, ts[1..][j]).Success?;
        assert RemapType(m, ts[i + 1]) == Failure(RemapAll(m, ts).error);
        assert forall j :: 1 <= j < i + 1 ==> RemapType(m, ts[j]).Success? by {
          forall j | 1 <= j < i + 1 ensures RemapType(m, ts[j]).Success? {
            assert ts[j] == ts[1..][j - 1];
          }
        }
      }
    }
  }

  /** `remap_types` keeps the node kind: a `Generic` keeps its constructor
      unchanged and remaps only its arguments; lists and unions keep their
      length and member order; a nested signature is rewritten with the
      same map. */
  lemma RemapKeepsShape(m: TypeVarMap, t: Type)
    requires RemapType(m, t).Success?
    ensures var r := RemapType(m, t).value;
      && (t.Generic? ==> r.Generic? && r.ty == t.ty && RemapAll(m, t.generics) == Success(r.generics)
                         && |r.generics| == |t.generics|)
      && (t.List? ==> r.List? && |r.values| == |t.values|
                      && forall i :: 0 <= i < |t.values| ==> RemapType(m, t.values[i]) == Success(r.values[i]))
      && (t.Union? ==> r.Union? && |r.tys| == |t.tys|
                       && forall i :: 0 <= i < |t.tys| ==> RemapType(m, t.tys[i]) == Success(r.tys[i]))
      && (t.Sig? ==> r.Sig? && RemapSignature(m, t.sig) == Success(r.sig))
  {
    match t
    case Generic(_, gs) => RemapAllPointwise(m, gs);
    case List(vs) => RemapAllPointwise(m, vs);
    case Union(ts) => RemapAllPointwise(m, ts);
    case _ =>
  }

  /** `normalize_typevars` keeps the length and order of the three lists
      and leaves a variadic slot empty exactly when it was empty. */
  lemma NormalizeKeepsShape(m: TypeVarMap, p: SignatureParameters)
    requires NormalizeTypevars(m, p).Success?
    ensures var q := NormalizeTypevars(m, p).value;
      && |q.posOnly| == |p.posOnly| && |q.params| == |p.params| && |q.kwargOnly| == |p.kwargOnly|
      && (forall i :: 0 <= i < |p.posOnly| ==> RemapType(m, p.posOnly[i]) == Success(q.posOnly[i]))
      && (forall i :: 0 <= i < |p.params| ==> RemapType(m, p.params[i]) == Success(q.params[i]))
      && (forall i :: 0 <= i < |p.kwargOnly| ==> RemapType(m, p.kwargOnly[i]) == Success(q.kwargOnly[i]))
      && (q.vargs.Some? <==> p.vargs.Some?)
      && (q.kwargs.Some? <==> p.kwargs.Some?)
  {
    RemapAllPointwise(m, p.posOnly);
    RemapAllPointwise(m, p.params);
    RemapAllPointwise(m, p.kwargOnly);
  }

  /** The `Ident` fallback with a Function's map: a name that names a
      declared variable becomes the canonical image of the first such
      variable in declaration order, of whatever class it is; any other
      name is returned unchanged. */
  lemma CanonicalIdent(decls: seq<TypeVariable>, name: string)
    requires NoDup(decls)
    ensures NameIndex(decls, name).None? ==>
      RemapType(CanonicalMap(decls), Ident(name)) == Success(Ident(name))
    ensures NameIndex(decls, name).Some? ==>
      var i := NameIndex(decls, name).value;
      RemapType(CanonicalMap(decls), Ident(name)) == Success(Var(TypeVariable(decls[i].kind, NatToString(i))))
  {
    CanonicalMapIsIndexed(decls);
    IdentLookupZip(decls, Indexed(decls), name);
  }

  // ---------------------------------------------------------------------
  // Alpha-equivalence: renaming the declared variables position for
  // position does not change the canonical form.
  // ---------------------------------------------------------------------

  /** `to` renames `from` position for position, keeping each class. */
  predicate Renaming(from: seq<TypeVariable>, to: seq<TypeVariable>)
  {
    && |from| == |to| && NoDup(from) && NoDup(to)
    && forall i :: 0 <= i < |from| ==> from[i].kind == to[i].kind
  }

  /** No identifier that is left alone under `from` is captured under `to`. */
  predicate NoCapture(from: seq<TypeVariable>, to: seq<TypeVariable>, leaves: set<Type>)
  {
    forall x :: x in leaves && x.Ident? && NameIndex(from, x.name).None? ==> NameIndex(to, x.name).None?
  }

  lemma {:induction false} AlphaType(d1: seq<TypeVariable>, d2: seq<TypeVariable>, img: seq<TypeVariable>, t: Type)
    requires |d1| == |d2| == |img| && NoDup(d1) && NoDup(d2)
    requires NoCapture(d1, d2, Leaves(t))
    ensures RemapType(Zip(d1, d2), t).Success? <==> RemapType(Zip(d1, img), t).Success?
    ensures RemapType(Zip(d1, d2), t).Success? ==>
      RemapType(Zip(d2, img), RemapType(Zip(d1, d2), t).value) == RemapType(Zip(d1, img), t)
    decreases t
  {
    match t
    case Generic(_, gs) => AlphaSeq(d1, d2, img, gs);
    case List(vs) => AlphaSeq(d1, d2, img, vs);
    case Union(ts) => AlphaSeq(d1, d2, img, ts);
    case Sig(s) => AlphaSignature(d1, d2, img, s);
    case Var(v) =>
      GetZip(d1, d2, v);
      GetZip(d1, img, v);
      if v in d1 {
        var j := IndexOf(d1, v).value;
        GetZip(d2, img, d2[j]);
        IndexOfNoDup(d2, j);
      }
    case Ident(n) =>
      IdentLookupZip(d1, d2, n);
      IdentLookupZip(d1, img, n);
      match NameIndex(d1, n)
      case None =>
        assert t in Leaves(t);
        IdentLookupZip(d2, img, n);
      case Some(i) =>
        GetZip(d2, img, d2[i]);
        IndexOfNoDup(d2, i);
  }

  lemma {:induction false} AlphaSeq(d1: seq<TypeVariable>, d2: seq<TypeVariable>, img: seq<TypeVariable>, ts: seq<Type>)
    requires |d1| == |d2| == |img| && NoDup(d1) && NoDup(d2)
    requires NoCapture(d1, d2, LeavesSeq(ts))
    ensures RemapAll(Zip(d1, d2), ts).Success? <==> RemapAll(Zip(d1, img), ts).Success?
    ensures RemapAll(Zip(d1, d2), ts).Success? ==>
      RemapAll(Zip(d2, img), RemapAll(Zip(d1, d2), ts).value) == RemapAll(Zip(d1, img), ts)
    decreases ts
  {
    if ts != [] {
      AlphaType(d1, d2, img, ts[0]);
      AlphaSeq(d1, d2, img, ts[1..]);
      var renamed := RemapAll(Zip(d1, d2), ts);
      if renamed.Success? {
        var rs := renamed.value;
        assert rs[0] == RemapType(Zip(d1, d2), ts[0]).value;
        assert rs[1..] == RemapAll(Zip(d1, d2), ts[1..]).value;
      }
    }
  }

  lemma {:induction false} AlphaOpt(d1: seq<TypeVariable>, d2: seq<TypeVariable>, img: seq<TypeVariable>, o: Option<Type>)
    requires |d1| == |d2| == |img| && NoDup(d1) && NoDup(d2)
    requires NoCapture(d1, d2, LeavesOpt(o))
    ensures RemapOpt(Zip(d1, d2), o).Success? <==> RemapOpt(Zip(d1, img), o).Success?
    ensures RemapOpt(Zip(d1, d2), o).Success? ==>
      RemapOpt(Zip(d2, img), RemapOpt(Zip(d1, d2), o).value) == RemapOpt(Zip(d1, img), o)
    decreases o
  {
    if o.Some? {
      AlphaType(d1, d2, img, o.value);
    }
  }

  lemma {:induction false} AlphaParams(d1: seq<TypeVariable>, d2: seq<TypeVariable>, img: seq<TypeVariable>, p: SignatureParameters)
    requires |d1| == |d2| == |img| && NoDup(d1) && NoDup(d2)
    requires NoCapture(d1, d2, LeavesParams(p))
    ensures NormalizeTypevars(Zip(d1, d2), p).Success? <==> NormalizeTypevars(Zip(d1, img), p).Success?
    ensures NormalizeTypevars(Zip(d1, d2), p).Success? ==>
      NormalizeTypevars(Zip(d2, img), NormalizeTypevars(Zip(d1, d2), p).value) == NormalizeTypevars(Zip(d1, img), p)
    decreases p
  {
    AlphaSeq(d1, d2, img, p.posOnly);
    AlphaSeq(d1, d2, img, p.params);
    AlphaOpt(d1, d2, img, p.vargs);
    AlphaSeq(d1, d2, img, p.kwargOnly);
    AlphaOpt(d1, d2, img, p.kwargs);
  }

  lemma {:induction false} AlphaSignature(d1: seq<TypeVariable>, d2: seq<TypeVariable>, img: seq<TypeVariable>, s: Signature)
    requires |d1| == |d2| == |img| && NoDup(d1) && NoDup(d2)
    requires NoCapture(d1, d2, LeavesSignature(s))
    ensures RemapSignature(Zip(d1, d2), s).Success? <==> RemapSignature(Zip(d1, img), s).Success?
    ensures RemapSignature(Zip(d1, d2), s).Success? ==>
      RemapSignature(Zip(d2, img), RemapSignature(Zip(d1, d2), s).value) == RemapSignature(Zip(d1, img), s)
    decreases s
  {
    AlphaParams(d1, d2, img, s.parameters);
    AlphaType(d1, d2, img, s.rt);
  }

  // ---------------------------------------------------------------------
  // `Function`: canonical form computed once, at construction.
  // ---------------------------------------------------------------------

  datatype Function = Function(
    name: string,
    path: string,
    docstring: Option<string>,
    typevars: MetaTypeVars,
    signature: Signature,
    canonParameters: SignatureParameters,
    canonReturn: Type)

  /** `Function(name, path, docstring, typevars, signature)`: fails with the
      first `KeyError` of the canonicalisation. */
  function NewFunction(name: string, path: string, docstring: Option<string>,
                       typevars: MetaTypeVars, signature: Signature): Result<Function, Error>
  {
    var m := CanonicalMap(typevars.generics);
    match NormalizeTypevars(m, signature.parameters)
    case Failure(e) => Failure(e)
    case Success(ps) =>
      match RemapType(m, signature.rt)
      case Failure(e) => Failure(e)
      case Success(rt) => Success(Function(name, path, docstring, typevars, signature, ps, rt))
  }

  /** `Function.__eq__`: the canonical parameters and return type only. */
  predicate FunctionEq(f: Function, g: Function)
  {
    ParamsEq(f.canonParameters, g.canonParameters) && TypeEq(f.canonReturn, g.canonReturn)
  }

  /** Construction succeeds exactly when every variable the canonicaliser
      meets is declared. */
  lemma NewFunctionSucceedsIffDeclared(name: string, path: string, docstring: Option<string>,
                                       typevars: MetaTypeVars, signature: Signature)
    ensures NewFunction(name, path, docstring, typevars, signature).Success?
        <==> Declared((set v | v in typevars.generics), LeavesSignature(signature))
  {
    var m := CanonicalMap(typevars.generics);
    CanonicalMapKeys(typevars.generics);
    NormalizeSucceedsIffDeclared(m, signature.parameters);
    RemapSucceedsIffDeclared(m, signature.rt);
  }

  /** Two Functions are equal exactly when their canonical forms agree
      structurally, up to the return types of nested signatures. */
  lemma FunctionEqIffCanonicalFormsAgree(f: Function, g: Function)
    ensures FunctionEq(f, g) <==>
      EraseParams(f.canonParameters) == EraseParams(g.canonParameters)
      && EraseReturns(f.canonReturn) == EraseReturns(g.canonReturn)
  {
    ParamsEqIffErased(f.canonParameters, g.canonParameters);
    TypeEqIffErased(f.canonReturn, g.canonReturn);
  }

  /** Name, path and docstring never matter for equality. */
  lemma FunctionEqIgnoresMetadata(name1: string, path1: string, doc1: Option<string>,
                                  name2: string, path2: string, doc2: Option<string>,
                                  typevars: MetaTypeVars, signature: Signature)
    requires NewFunction(name1, path1, doc1, typevars, signature).Success?
    ensures NewFunction(name2, path2, doc2, typevars, signature).Success?
    ensures FunctionEq(NewFunction(name1, path1, doc1, typevars, signature).value,
                       NewFunction(name2, path2, doc2, typevars, signature).value)
  {
    var f := NewFunction(name1, path1, doc1, typevars, signature).value;
    FunctionEqIffCanonicalFormsAgree(f, f);
  }

  /** Renaming the declared variables position for position (keeping each
      class, and capturing no other identifier) yields an equal Function,
      whatever the names, paths and docstrings. */
  lemma AlphaEquivalence(name1: string, path1: string, doc1: Option<string>,
                         name2: string, path2: string, doc2: Option<string>,
                         d1: seq<TypeVariable>, d2: seq<TypeVariable>, signature: Signature)
    requires Renaming(d1, d2)
    requires NoCapture(d1, d2, LeavesSignature(signature))
    requires NewFunction(name1, path1, doc1, MetaTypeVars(d1), signature).Success?
    ensures RemapSignature(Zip(d1, d2), signature).Success?
    ensures var renamed := RemapSignature(Zip(d1, d2), signature).value;
      && NewFunction(name2, path2, doc2, MetaTypeVars(d2), renamed).Success?
      && FunctionEq(NewFunction(name1, path1, doc1, MetaTypeVars(d1), signature).value,
                    NewFunction(name2, path2, doc2, MetaTypeVars(d2), renamed).value)
  {
    var img := Indexed(d1);
    assert Indexed(d2) == img;
    CanonicalMapIsIndexed(d1);
    CanonicalMapIsIndexed(d2);
    AlphaParams(d1, d2, img, signature.parameters);
    AlphaType(d1, d2, img, signature.rt);
    var f1 := NewFunction(name1, path1, doc1, MetaTypeVars(d1), signature).value;
    FunctionEqIffCanonicalFormsAgree(f1, f1);
  }
}
