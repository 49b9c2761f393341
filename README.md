# type-spy in Dafny

type-spy describes a callable's parameter and return types as a tree and
decides whether two such trees are the same signature up to a renaming of
their declared type variables. A tree comes either from a small signature
notation (written here loosely as `[T](T, /, *T) -> T`; the grammar
itself demands a comma for every section slot, written or not) or from a
live function's annotations.

This project models four parts of it:

- **The type AST and its equality** (`types.dfy`, module `Types`).
  - The datatypes cover `Generic`, `Ident`, `List`, the three type-variable
    classes, `Union`, `SignatureParameters`, `Signature` and `MetaTypeVars`.
  - Python's `==` on them is the predicate `TypeEq`. It differs from Dafny's
    `==`: a nested `Signature` compares its parameters only. It is proved
    equal to structural equality after erasing nested return types.
  - `SignatureParameters.__repr__` is modelled twice. `ParamsParts` gives the
    items the method collects, and the method `RenderParameters` appends them
    step by step.
- **Canonical form and `Function` equality** (`canonical.dfy`, module `Canonical`).
  - The `typevar_map` dict is an insertion-ordered list of pairs.
  - `remap_types` returns a `Result`, whose `KeyError` failure stands for
    the exception.
  - `Function` keeps its cached canonical parameters and return type.
    `FunctionEq` compares only those.
- **The signature notation's transformer** (`transformer.dfy`, module `Transformer`).
  - Each `SignatureTransformer` method is a rule over its already-transformed
    children.
  - A parse is an abstract tree shaped by the grammar, transformed bottom-up.
- **The reflective converter** (`gen_sigs.dfy`, module `GenSigs`).
  - A runtime annotation value is a datatype holding what `get_origin`,
    `get_args` and `isinstance` would answer.
  - `convert_type` is the function `Convert`, which threads the list of
    discovered type variables.
  - The class `Discovery` holds that list as a field. Its recursive
    method `ConvertType` and its looping method `ConvertEach` are proved
    against `Convert`.
  - `extract_signature` is the method `ExtractSignature`, proved against
    `Extracted`.
  - `find_matching` is the filter `FindMatching`.
- `wrappers.dfy` (module `Wrappers`) holds `Option` and `Result`.

Python's `==` on `Union` compares the member lists in order, so two unions
with the same members in different orders are unequal. The model does the
same.

## Model

| member | source | states |
|---|---|---|
| `Types.TypeEq` | type_spy/types.py:17-75 | Python `==` on types: same class, then `Generic` compares constructor and argument list, `Ident` the name, `List` and `Union` their lists in order, a type variable its class and name, a nested `Signature` its parameters only. |
| `Types.SeqEq` | type_spy/types.py:74-75 | Python list `==` on types: same length and pairwise `==`. |
| `Types.OptEq` | type_spy/types.py:104-105 | `==` on a variadic slot: both `None`, or both types and `==`. |
| `Types.ParamsEq` | type_spy/types.py:104-105 | `SignatureParameters.__eq__`: all five slots `==`, the keyword-only list included. |
| `Types.SignatureEq` | type_spy/types.py:139-140 | `Signature.__eq__`: the parameters are `==`; the return type is not looked at. |
| `Types.TypeEqIffErased` | type_spy/types.py:17-75 | Two types are `==` exactly when they are structurally equal once every nested signature's return type is erased. |
| `Types.SeqEqIffErased` | type_spy/types.py:74-75 | Python list `==` on types holds exactly when the erased lists are equal (same length, pairwise equal). |
| `Types.OptEqIffErased` | type_spy/types.py:104-105 | A variadic slot compares equal exactly when both are absent or both hold equal types. |
| `Types.ParamsEqIffErased` | type_spy/types.py:104-105 | `SignatureParameters.__eq__` holds exactly when all five slots agree. |
| `Types.TypeEqIsEquivalence` | type_spy/types.py:17-75 | Type `==` is reflexive, symmetric and transitive. |
| `Types.SignatureEqIgnoresReturn` | type_spy/types.py:139-140 | Two signatures with equal parameters are equal whatever their return types. |
| `Types.TypeVariableEqIsKindSensitive` | type_spy/types.py:50-51 | Two type variables are equal exactly when their class and their name agree. |
| `Types.ParamsEqIsSlotSensitive` | type_spy/types.py:104-105 | The same non-empty types as positional-only and as ordinary parameters are unequal. |
| `Types.VarRepr` | type_spy/types.py:47-65 | A variable renders as its name, prefixed by `*` for a `TypeVarTuple` and `**` for a `ParamSpec`. |
| `Types.TypeRepr` | type_spy/types.py:14-137 | Each node's `__repr__`: `ctor[args]`, the bare name, `[values]`, the variable, union members joined by a spaced vertical bar, and `(parameters) -> rt`. |
| `Types.Join` | type_spy/types.py:129 | `sep.join(parts)`: the parts with one separator between neighbours. |
| `Types.Reprs` | type_spy/types.py:14-15 | One rendering per type, in order. |
| `Types.ParamsParts` | type_spy/types.py:107-129 | The number of items is one per type in each list, plus a "/", a "*", a `*vargs` and a `**kwargs` exactly when each applies. |
| `Types.RenderParameters` | type_spy/types.py:107-129 | The loop that collects the items produces exactly `ParamsParts`, joined by ", ". |
| `Types.JoinConcat` | type_spy/types.py:129 | Joining two non-empty runs of items puts exactly one separator between them. |
| `Types.ParamsPartsSlash` | type_spy/types.py:110-116 | "/" directly follows the positional-only items when there are any; otherwise the ordinary parameters come first. |
| `Types.ParamsPartsStar` | type_spy/types.py:118-127 | After the ordinary parameters comes `*vargs`, or else a bare "*" exactly when keyword-only items follow; `**kwargs` is always last. |
| `Canonical.NatToString` | type_spy/types.py:158 | `str(i)` is made of decimal digits only, at least one and at least two from 10 on, and begins with `0` only for 0. |
| `Canonical.NatToStringInjective` | type_spy/types.py:158 | Different indices get different names. |
| `Canonical.Get` | type_spy/types.py:196-197 | `typevar_map[v]`: the value of the pair whose key equals `v` (class and name), or nothing where Python raises `KeyError`. |
| `Canonical.Put` | type_spy/types.py:158 | A dict assignment: an existing key keeps its place and takes the new value; a new key goes last. |
| `Canonical.IdentLookup` | type_spy/types.py:208-211 | The `Ident` fallback: the value of the first pair, in insertion order, whose key has the identifier's name. |
| `Canonical.GetIffKey` | type_spy/types.py:196-197 | Lookup succeeds exactly for the keys of the dict. |
| `Canonical.GetPut` | type_spy/types.py:158 | After `m[k] = v`, `k` maps to `v` and every other key is unchanged. |
| `Canonical.PutKeys` | type_spy/types.py:158 | `m[k] = v` adds exactly `k` to the keys. |
| `Canonical.IndexOf` | type_spy/types.py:158 | The position found holds the key, and no position is found exactly when the key is absent. |
| `Canonical.NameIndex` | type_spy/types.py:208-213 | The first position whose variable has the name; none exactly when no variable has it. |
| `Canonical.IndexOfNoDup` | type_spy/types.py:158 | In a duplicate-free list, each entry is found at its own position. |
| `Canonical.GetZip` | type_spy/types.py:196-197 | A position-for-position map sends a key to the value at the key's first position. |
| `Canonical.IdentLookupZip` | type_spy/types.py:208-213 | The `Ident` fallback returns the value at the first position whose key has that name. |
| `Canonical.CanonicalMap` | type_spy/types.py:158 | The dict comprehension: the i-th declared variable is inserted, in order, with the same class named `str(i)`; a repeated declaration updates its earlier entry. |
| `Canonical.CanonicalMapKeys` | type_spy/types.py:158 | The map's keys are exactly the declared variables. |
| `Canonical.CanonicalMapIsIndexed` | type_spy/types.py:158 | For distinct declarations, the map pairs the i-th declared variable with a variable of the same class named `str(i)`, in declaration order. |
| `Canonical.PutAppends` | type_spy/types.py:158 | Inserting a new key appends it at the end. |
| `Canonical.CanonicalMapLookup` | type_spy/types.py:158 | With duplicate declarations included: a variable is a key exactly when declared, and maps to the image of its last declaration. |
| `Canonical.CanonicalImage` | type_spy/types.py:158 | The i-th of distinct declared variables maps to the same class with name `str(i)`. |
| `Canonical.CanonicalImagesDistinct` | type_spy/types.py:158 | Different positions get different canonical variables. |
| `Canonical.RemapType` | type_spy/types.py:191-213 | `remap_types`: a generic keeps its constructor and remaps its arguments; a variable is looked up (`KeyError` if absent); lists, unions and nested signatures are remapped member by member; an `Ident` is replaced by the first variable with its name, or kept. |
| `Canonical.RemapAll` | type_spy/types.py:193-203 | A list comprehension of `remap_types`, left to right, stopping at the first `KeyError`. |
| `Canonical.RemapOpt` | type_spy/types.py:185-187 | A variadic slot: remapped when present, `None` when absent. |
| `Canonical.NormalizeTypevars` | type_spy/types.py:180-188 | `normalize_typevars`: each of the five slots remapped in place, in the order the constructor call evaluates them. |
| `Canonical.RemapSignature` | type_spy/types.py:205-206 | A nested signature: its parameters normalised, then its return type remapped. |
| `Canonical.RemapSucceedsIffDeclared` | type_spy/types.py:191-213 | `remap_types` raises no `KeyError` exactly when every variable node it visits is a key of the map. |
| `Canonical.RemapAllSucceedsIffDeclared` | type_spy/types.py:193-203 | The same for a list of types. |
| `Canonical.RemapOptSucceedsIffDeclared` | type_spy/types.py:180-188 | The same for a variadic slot. |
| `Canonical.NormalizeSucceedsIffDeclared` | type_spy/types.py:180-188 | `normalize_typevars` succeeds exactly when every visited variable is declared. |
| `Canonical.RemapSignatureSucceedsIffDeclared` | type_spy/types.py:205-206 | A nested signature is remapped without error exactly when its visited variables are declared. |
| `Canonical.LeafVarsAreVars` | type_spy/types.py:191-213 | Every variable node `remap_types` visits is a variable of the type. |
| `Canonical.ConstructsWhenAllVarsDeclared` | type_spy/types.py:156-161 | A `Function` whose signature mentions only declared variables is built without error. |
| `Canonical.RemapVarIsKindSensitive` | type_spy/types.py:196-197 | A variable occurrence that is not declared, class included, is a `KeyError` for that variable. |
| `Canonical.RemapAllPointwise` | type_spy/types.py:193-203 | A remapped list is the element-wise remap; on failure, the error is the first failing element's error. |
| `Canonical.RemapKeepsShape` | type_spy/types.py:191-206 | Remapping keeps the node kind, a generic's constructor, and list and union lengths with each member remapped in place. |
| `Canonical.NormalizeKeepsShape` | type_spy/types.py:180-188 | `normalize_typevars` keeps each list's length and order, and leaves a variadic slot absent exactly when it was absent. |
| `Canonical.CanonicalIdent` | type_spy/types.py:208-213 | An `Ident` naming a declared variable becomes the canonical image of the first such declaration; any other `Ident` is unchanged. |
| `Canonical.AlphaType` | type_spy/types.py:158-161 | Canonicalising a type gives the same result before and after a position-for-position renaming of the declared variables. |
| `Canonical.AlphaSeq` | type_spy/types.py:193-203 | The same for a list of types. |
| `Canonical.AlphaOpt` | type_spy/types.py:180-188 | The same for a variadic slot. |
| `Canonical.AlphaParams` | type_spy/types.py:180-188 | The same for a parameter container. |
| `Canonical.AlphaSignature` | type_spy/types.py:205-206 | The same for a nested signature. |
| `Canonical.NewFunction` | type_spy/types.py:143-161 | `Function.__init__`: keeps name, path, docstring, declared variables and signature, and caches the parameters and return type remapped through the canonical map, or the first `KeyError`. |
| `Canonical.FunctionEq` | type_spy/types.py:166-171 | `Function.__eq__`: the cached canonical parameters and return types are `==`. |
| `Canonical.NewFunctionSucceedsIffDeclared` | type_spy/types.py:156-161 | Building a `Function` succeeds exactly when every variable node the canonicaliser visits is declared. |
| `Canonical.FunctionEqIffCanonicalFormsAgree` | type_spy/types.py:166-171 | Two Functions are equal exactly when their canonical parameters and return types agree, with nested returns erased. |
| `Canonical.FunctionEqIgnoresMetadata` | type_spy/types.py:166-171 | Name, path and docstring never affect equality. |
| `Canonical.AlphaEquivalence` | type_spy/types.py:158-171 | Rewriting a signature with the canonicaliser's own renaming (`remap_types` under the map from distinct old declarations to distinct new ones of the same classes, capture-free) and declaring the new variables gives an equal Function. A generic's constructor is left alone by that rewriting, as by `remap_types`. |
| `Transformer.IdentRule` | type_spy/__init__.py:78-79 | `ident`: an `Ident` of the token. |
| `Transformer.GenericRule` | type_spy/__init__.py:81-82 | `generic`: the first child is the constructor, the rest the arguments. |
| `Transformer.TypeRule` | type_spy/__init__.py:84-85 | `type`: the only child passes through. |
| `Transformer.TypeVariableRule` | type_spy/__init__.py:87-88 | `type_variable`: the only child passes through. |
| `Transformer.TypeVarRule` | type_spy/__init__.py:75-76 | `typevar`: a `TypeVar` named by the token. |
| `Transformer.TypeVarTupleRule` | type_spy/__init__.py:99-100 | `typevartuple`: a `TypeVarTuple` with the child's name. |
| `Transformer.ParamSpecRule` | type_spy/__init__.py:102-103 | `paramspec`: a `ParamSpec` with the child's name. |
| `Transformer.UnionRule` | type_spy/__init__.py:105-106 | `union`: a `Union` of the children in order. |
| `Transformer.PosOnlyParamsRule` | type_spy/__init__.py:60-61 | `pos_only_params`: the children tagged for the positional-only slot. |
| `Transformer.ParamsRule` | type_spy/__init__.py:63-64 | `params`: the children tagged for the ordinary slot. |
| `Transformer.VargsRule` | type_spy/__init__.py:66-67 | `vargs`: the type tagged for the `*args` slot. |
| `Transformer.KeywordOnlyParamsRule` | type_spy/__init__.py:72-73 | `keyword_only_params`: the children tagged for the keyword-only slot. |
| `Transformer.KwargsRule` | type_spy/__init__.py:69-70 | `kwargs`: the type tagged for the `**kwargs` slot. |
| `Transformer.SignatureParametersRule` | type_spy/__init__.py:93-94 | `signature_parameters`: the tagged sections, as a dict, fill their slots; a later tag replaces an earlier one. |
| `Transformer.FillSlot` | type_spy/__init__.py:94 | One tagged section placed in its own slot, the others unchanged. |
| `Transformer.ReturnTyRule` | type_spy/__init__.py:90-91 | `return_ty` with the single type passed on (see Findings for the code as written). |
| `Transformer.SignatureRule` | type_spy/__init__.py:111-115 | `signature`: parameters and return type, or `Ident("None")` as return type when there is no arrow. |
| `Transformer.MetaTypeVariablesRule` | type_spy/__init__.py:108-109 | `meta_type_variables`: the listed variables in order. |
| `Transformer.StartRule` | type_spy/__init__.py:117-127 | `start`: a Function named "<input>" with empty path and docstring, the leading variable list or none, and the signature. |
| `Transformer.TransformType` | type_spy/__init__.py:78-106 | A type subtree transformed bottom-up by the rules. |
| `Transformer.TransformSections` | type_spy/__init__.py:60-73 | The written sections, each through its rule, handed to `signature_parameters`. |
| `Transformer.TransformSignature` | type_spy/__init__.py:111-115 | A signature subtree through `signature_parameters`, `return_ty` and `signature`. |
| `Transformer.TransformTypeVariable` | type_spy/__init__.py:75-103 | A meta-variable entry through `typevar` and, for `*T` and `**T`, `typevartuple` or `paramspec`. |
| `Transformer.TransformStart` | type_spy/__init__.py:117-127 | The whole parse transformed: the meta-variable list, the signature, then `start`. |
| `Transformer.TransformAll` | type_spy/__init__.py:81-82 | A transformed list has one type per written type. |
| `Transformer.TransformAllInOrder` | type_spy/__init__.py:81-82 | The i-th transformed type is the transform of the i-th written type. |
| `Transformer.GenericSplitsConstructor` | type_spy/__init__.py:81-82 | A generic is `Generic(Ident(first), rest)`, with the rest in written order. |
| `Transformer.UnionKeepsOrder` | type_spy/__init__.py:105-106 | A union holds its members in written order. |
| `Transformer.TypeVariableKeepsName` | type_spy/__init__.py:99-103 | `*T` and `**T` keep the name `T` and change only the class. |
| `Transformer.TaggedSections` | type_spy/__init__.py:60-73 | The tagged sections handed to `signature_parameters`, in written order, each produced by its rule. |
| `Transformer.TaggedSectionsFill` | type_spy/__init__.py:93-94 | Sections handed over in written order fill exactly their own slots. |
| `Transformer.SectionsFillSlots` | type_spy/__init__.py:93-94 | Each written section fills its own slot; an absent one leaves an empty list or no type. |
| `Transformer.SignatureReturn` | type_spy/__init__.py:111-115 | Without an arrow the return type is `Ident("None")`; with one it is the transformed return type. |
| `Transformer.ParsedTypeHasNoVariables` | type_spy/__init__.py:30-34 | A parsed type never holds a type-variable node; a bare name becomes an `Ident`. |
| `Transformer.ParsedTypesHaveNoVariables` | type_spy/__init__.py:78-79 | The same for a parsed list of types. |
| `Transformer.ParsedSignatureHasNoVariables` | type_spy/__init__.py:111-115 | The same for a parsed signature. |
| `Transformer.ParsedInputConstructs` | type_spy/__init__.py:117-127 | Parsed input always builds a Function with name "<input>", empty path and docstring, and the listed variables in written order (none without a list). |
| `Transformer.PlainSignatureExample` | type_spy/__init__.py:111-127 | `(int, str) -> bool` builds its parameters and return type, with a canonical form equal to itself. |
| `Transformer.GenericParameterExample` | type_spy/__init__.py:81-82 | `(List[int, str])` has one generic parameter and return type `Ident("None")`. |
| `Transformer.SingleVariableCanonicalForm` | type_spy/types.py:158-161 | `[x](x) -> x` has canonical form `(0) -> 0` whatever `x` is. |
| `Transformer.RenamedVariablesExample` | type_spy/types.py:158-171 | `[T](T) -> T` equals `[U](U) -> U`. |
| `Transformer.ConstructorNotRenamed` | type_spy/types.py:193-194 | `[T](T[int])` and `[U](U[int])` are unequal: a generic's constructor is never renamed, so the canonical forms keep `T` and `U`. |
| `Transformer.SectionMattersExample` | type_spy/__init__.py:60-64 | `(int, /) -> None` differs from `(int) -> None`. |
| `Transformer.TwoVariableCanonicalForm` | type_spy/types.py:158-161 | `[T, S](T) -> S` has canonical form `(0) -> 1`. |
| `Transformer.ReturnSlotAsWritten` | type_spy/__init__.py:90-91 | As written, the return slot receives `return_ty`'s whole children list when an arrow is written, and `Ident("None")` otherwise. |
| `Transformer.CanonicalReturnAsWritten` | type_spy/types.py:191-213 | `remap_types` of that slot: a type is remapped, while a list matches no case and yields `None`. |
| `Transformer.ParsedEqualAsWritten` | type_spy/types.py:166-171 | `Function.__eq__` on two parses as written. |
| `Transformer.ReturnIgnoredAsWritten` | type_spy/__init__.py:90-91 | As written, two parsed signatures with arrows are equal exactly when their canonical parameters are: return types are never compared. |
| `Transformer.DifferentReturnsEqualAsWritten` | type_spy/__init__.py:90-91 | As written, `[T, S](T) -> S` equals `[T](T) -> T`. |
| `Transformer.DifferentReturnsDiffer` | type_spy/__init__.py:90-91 | With the return type passed on, `[T, S](T) -> S` and `[T](T) -> T` differ. |
| `GenSigs.Convert` | type_spy/gen_sigs.py:78-112 | `convert_type` on a value and the list so far: the converted type and the list after the call. |
| `GenSigs.ConvertAll` | type_spy/gen_sigs.py:83 | One converted type per value. |
| `GenSigs.ConvertDiscovers` | type_spy/gen_sigs.py:78-112 | Converting only appends to the list. A duplicate-free list stays duplicate-free, and only `TypeVar`s are added. The entries gained are exactly the variables of the converted type. |
| `GenSigs.ConvertAllDiscovers` | type_spy/gen_sigs.py:83-100 | The same for a list of values converted left to right on one list. |
| `GenSigs.ConvertTypeIgnoresList` | type_spy/gen_sigs.py:78-112 | The converted type does not depend on the list so far. |
| `GenSigs.ConvertAllPointwise` | type_spy/gen_sigs.py:83-100 | The i-th type of a converted list is the conversion of the i-th value on its own. |
| `GenSigs.ClassificationOrder` | type_spy/gen_sigs.py:78-112 | A union origin gives the `Union` of the converted arguments. Any other value with arguments gives a `Generic` of the converted origin (`Ident("None")` when the origin is `None`) over the converted arguments. An argument-free value gives: a `TypeVar`, the plain variable of its name; a list, the `List` of its converted items; `None`, `Ident("None")`; a string, `Ident` of it; a named value, `Ident` of `__name__`; anything else, `Ident("Unknown")`. |
| `GenSigs.AppendNewConcat` | type_spy/gen_sigs.py:94-95 | Appending the unseen occurrences of two runs, one after the other, is the same as doing it for their concatenation. |
| `GenSigs.ConvertDiscoveryOrder` | type_spy/gen_sigs.py:78-112 | The list after a call is the old list followed by the converted type's variables not yet listed, in first-seen order: left to right, a generic's origin before its arguments. |
| `GenSigs.ConvertAllDiscoveryOrder` | type_spy/gen_sigs.py:83-100 | The same for a list of values converted left to right on one list. |
| `GenSigs.TypeVarAppendedOnce` | type_spy/gen_sigs.py:91-97 | A `TypeVar` becomes a plain variable and is appended exactly when it is not yet listed. |
| `GenSigs.Discovery.constructor` | type_spy/gen_sigs.py:65 | The shared list starts empty. |
| `GenSigs.Discovery.ConvertType` | type_spy/gen_sigs.py:78-112 | The converted type and the new list are those `Convert` gives for the old list. |
| `GenSigs.Discovery.ConvertEach` | type_spy/gen_sigs.py:83 | Converting each value in order on the shared list gives what `ConvertAll` gives. |
| `GenSigs.ScanMeetsReference` | type_spy/gen_sigs.py:64-73 | Parameters are the converted non-return annotations, in order. The return type is the converted `"return"` annotation, or `Ident("None")`. The list is duplicate-free, holds only `TypeVar`s, and holds exactly the variables of all annotations. |
| `GenSigs.ScanDiscoveryOrder` | type_spy/gen_sigs.py:68-69 | The shared list holds the annotations' variables in first-seen order, annotation by annotation; this order fixes each one's canonical index. |
| `GenSigs.ScanCoversSignature` | type_spy/gen_sigs.py:64-75 | Every variable in the parameters and return type was discovered. |
| `GenSigs.Extracted` | type_spy/gen_sigs.py:62-75 | `extract_signature`'s result: the converted non-return annotations as parameters, the converted `"return"` annotation or `Ident("None")` as return type, and the discovered variables as declarations. |
| `GenSigs.ExtractedConstructs` | type_spy/gen_sigs.py:75 | The extracted Function always canonicalises, and its i-th discovered variable is renamed `str(i)`. |
| `GenSigs.ExtractSignature` | type_spy/gen_sigs.py:62-75 | The annotation loop builds exactly the Function `Extracted` describes. |
| `GenSigs.FindMatching` | type_spy/gen_sigs.py:118-119 | Every element kept is equal to the value, and none is added. |
| `GenSigs.FindMatchingCounts` | type_spy/gen_sigs.py:118-119 | Each element is kept as often as it occurs when it equals the value, and dropped otherwise. |
| `GenSigs.FindMatchingConcat` | type_spy/gen_sigs.py:118-119 | Filtering distributes over concatenation, so the input order is kept. |

## Left out

- The LALR parse itself (type_spy/__init__.py:14-56, 130-133). Lexing, the grammar tables and conflict resolution belong to the `lark` library.
  - Parses are abstract trees, one constructor per grammar alternative.
  - The grammar's commas around absent sections are not modelled.
- The `list` grammar alternative. `SignatureTransformer` has no method for it, so it stays an untransformed lark tree, which no AST node models.
- `signature_parameters`' keyword plumbing (type_spy/__init__.py:93-94). It splats the section tags into the constructor.
  - The tag `"keyword_only"` is not the constructor's `kwarg_only`.
  - Absent sections leave required arguments missing.
  - The model fills each section's slot and leaves absent ones empty.
- `vargs` and `kwargs` as written pass their child list on, as `return_ty` does. The model passes the single type on.
- `convert_module` (type_spy/gen_sigs.py:29-59) walks live modules through `dir`, `getattr` and `__package__`. That is runtime reflection, not part of this model.
- Python reflection inside `convert_type`: `get_args`, `get_origin`, `isinstance`, and `__name__` with a bare `except`. These are the fields of `RuntimeValue`.
  - The two union origins, `typing.Union` and `UnionType`, are one constructor.
  - A value whose `get_origin` is `None` but which has arguments converts its origin as `None`, as the source would.
- gen_sigs.py imports `Parameter`, `Return`, `Root` and `spec.Any`, which do not exist. The model builds `extract_signature`'s result as a `Function`, with the annotations in the ordinary parameter slot.
- type_spy/parse_stubs.py is not part of this model; it is an unfinished draft.
- `BaseTypeVar.__hash__`, and the `__repr__` of `MetaTypeVars`, `Signature` (outside parameter lists) and `Function`. The model keys its dict by class and name. `TypeRepr` renders types but has no lemmas of its own.
- The `Module` class, an unused data holder.
- Annotation dicts have unique keys. The model takes a list of pairs and lets a later `"return"` replace an earlier one.
- `Canonical.AlphaEquivalence`: states invariance only under the canonicaliser's own renaming of the signature, with distinct declarations. It does not promise that renaming a parsed input's names gives an equal Function. A parse spells each declared name as an `Ident`, and `remap_types` never renames a generic's constructor, so `[T](T[int])` and `[U](U[int])` differ (`Transformer.ConstructorNotRenamed`). Declarations that repeat a variable are excluded too.
- `Canonical.CanonicalIdent`: stated only for duplicate-free declarations. With duplicates, `Canonical.IdentLookup` still scans the dict in insertion order, but no lemma states the result.

## Findings

| source | as written | input that shows it | evidently intended | confidence | as-written member | corrected member |
|---|---|---|---|---|---|---|
| type_spy/__init__.py:90-91 | `return_ty` returns its whole children list as the return type. `remap_types` of a list matches no case, so every parsed Function with an arrow has canonical return `None`. | `[T, S](T) -> S` and `[T](T) -> T` compare equal, once the fixed commas of `signature_parameters` (type_spy/__init__.py:44) and its keyword splat (type_spy/__init__.py:93-94) are repaired so that these inputs parse at all | the return type is the single child, so the two differ | not executed | `Transformer.DifferentReturnsEqualAsWritten` | `Transformer.DifferentReturnsDiffer` |
