# plum signature tuples and dispatcher, in Dafny

This project models two parts of plum, a Python library for multiple dispatch:

- **Signature tuples** (`plum/tuple.py`): the ordered parameter types of one
  implementation. Only the last entry may be a variadic tail `VarArgs(t)`.
  The model covers the views `base`, `len`, `has_varargs` and `varargs_type`,
  the length-compatibility rule and the variadic expansion. It also covers the
  partial order `<=` that plum uses to rank signatures. All of this is pure
  functions over `seq<PType<T>>` (module `Tuples`, file `tuple.dfy`).
- **The dispatcher namespace** (`plum/dispatcher.py`): a `Dispatcher` object
  maps function names to dispatched functions. Its decorators create the
  function for a name when it is absent and then register signatures on it.
  `clear_cache` touches every function in the namespace. This is the class
  `Dispatch.Dispatcher`, whose `functions` field is a `map` that its methods
  update (file `dispatcher.dfy`).

Element types are not modelled. They are a type parameter `T`, and their order
is a relation `le: (T, T) -> bool` that each comparison takes as an argument.
Lemmas assume that `le` is reflexive or transitive only where they need it.
plum's strict `>` on types is `Gt(le, x, y) = le(y, x) && !le(x, y)`.
`VarArgs(t).expand(n)` is `n` copies of `t` (`Tuples.Repeat`).

Exceptions become `Result` values (`wrappers.dfy`). `TupleError.MisplacedVarArgs`
is the constructor's `TypeError`. `TupleError.NoVarArgs` is the `RuntimeError`
of `varargs_type`.

The variadic order is not transitive. Multiple dispatch is usually described
as a partial order on signatures. Transitivity is proved between tuples
without variadic tails (`Tuples.FixedLeTransitive`). It is also proved for a
chain of two fixed tuples followed by a variadic one, which is the chain from
a call through a fixed signature to a variadic signature
(`Tuples.FixedThenVariadicLeTransitive`). It fails for some other triples with
variadic tails. `(0,) <= (*0,)` and `(*0,) <= (0, 0, *0)` both hold, but
`(0,) <= (0, 0, *0)` does not, because `(0,)` and `(0, 0, *0)` are incompatible
(`Tuples.VariadicLeNotTransitive`). The order is not antisymmetric either.
For incomparable `x` and `y`, the single-entry tuples `(*x)` and `(*y)` are
each `<=` the other. The tail check rejects only a strictly greater element
type, and both expansions are empty (`Tuples.VariadicLeNotAntisymmetric`).
The model follows the code.

## Model

| member | source | states |
|---|---|---|
| `Tuples.Make` | plum/tuple.py:21-27 | construction fails with the `TypeError` exactly when some entry other than the last is variadic; on success the tuple keeps the given types and only its last entry can be variadic |
| `Tuples.AnyVarArgs` | plum/tuple.py:26 | the `any(...)` scan is true iff some entry of the scanned slice is `VarArgs` |
| `Tuples.Base` | plum/tuple.py:72-75 | `types` is the base plus the variadic tail when there is one, else the base is all of `types`; in a valid tuple no base entry is variadic |
| `Tuples.Len` | plum/tuple.py:35-36 | `len` is `|types|` minus one exactly when the tuple has varargs |
| `Tuples.HasVarArgs` | plum/tuple.py:77-83 | the predicate has no contract of its own: it holds iff `types` is non-empty and its last entry is variadic, and `Tuples.VarArgsType` is proved defined exactly when it holds |
| `Tuples.VarArgsType` | plum/tuple.py:77-91 | the element type is defined iff `has_varargs` (non-empty and last entry variadic) and is the last entry's inner type; otherwise it is the `RuntimeError` |
| `Tuples.IsCompatible` | plum/tuple.py:93-105 | the predicate has no contract of its own; `Tuples.CompatibleIffEqualExpansions` proves it symmetric and equivalent to the two expansions having equal length |
| `Tuples.Repeat` | plum/tuple.py:49 | `VarArgs(t).expand(n)`: exactly `n` entries, each of them `t` |
| `Tuples.ExpandVarArgsTo` | plum/tuple.py:38-53 | the expansion starts with the base; without varargs it is exactly the base; with varargs its length is `max(len(self), len(other))` and every entry past the base is the variadic element type |
| `Tuples.Gt` | plum/tuple.py:61 | the strict `>` of `Comparable`: `x > y` is `y <= x` and not `x <= y`; no contract of its own, used inside `Tuples.TupleLe` |
| `Tuples.ZipAll` | plum/tuple.py:69-70 | `all` over the `zip` holds iff every pair at an index below the shorter length is ordered |
| `Tuples.CompatibleIffEqualExpansions` | plum/tuple.py:93-105 | two tuples are compatible iff their mutual expansions have equal length, so the `zip` in `__le__` drops nothing; compatibility is symmetric |
| `Tuples.TupleLe` | plum/tuple.py:55-70 | `__le__` itself; the predicate has no contract of its own, and `Tuples.TupleLeIff` characterises it |
| `Tuples.TupleLeIff` | plum/tuple.py:55-70 | `a <= b` is false when only `a` is variadic, when both are and `a`'s element type is strictly greater, or when they are incompatible; otherwise it is the pointwise order over two expansions of equal length |
| `Tuples.TupleLeReflexive` | plum/tuple.py:55-70 | every tuple is `<=` itself when the element order is reflexive |
| `Tuples.FixedLeIff` | plum/tuple.py:55-70 | between tuples without varargs, `a <= b` iff equal length and ordered entry by entry |
| `Tuples.CallLeVariadicIff` | plum/tuple.py:55-70 | a call without varargs is `<=` a variadic signature iff it has at least the signature's base length, matches the base entry by entry, and every extra argument is `<=` the variadic element type |
| `Tuples.FixedLeTransitive` | plum/tuple.py:55-70 | among tuples without varargs, `<=` is transitive when the element order is |
| `Tuples.FixedThenVariadicLeTransitive` | plum/tuple.py:55-70 | if `a` and `b` have no varargs, `c` has, and the element order is transitive, then `a <= b` and `b <= c` give `a <= c` |
| `Tuples.VariadicLeNotTransitive` | plum/tuple.py:55-70 | with variadic tails `<=` is not transitive, even over integers ordered by `<=` |
| `Tuples.VariadicLeNotAntisymmetric` | plum/tuple.py:57-70 | for incomparable `x` and `y`, the distinct single-entry tuples `(*x)` and `(*y)` are each `<=` the other, under any reflexive element order |
| `Dispatch.Precedence` | plum/dispatcher.py:40 | the precedence is the given one, or `0` when absent |
| `Dispatch.ReturnTypeOf` | plum/dispatcher.py:41 | the return type is the given one, or `object` when absent |
| `Dispatch.Call` | plum/dispatcher.py:27-44 | `dispatch(*types)` fails iff `types` is malformed; otherwise its decorator holds exactly one signature, built from `types`, with precedence defaulting to `0` and return type to `object` |
| `Dispatch.MakeAll` | plum/dispatcher.py:61 | the list of tuples is built iff every signature is well formed, and then has one valid tuple per signature, in order |
| `Dispatch.Multi` | plum/dispatcher.py:46-63 | `multi` fails iff some signature is malformed; otherwise its decorator holds every signature in order with one shared precedence and return type |
| `Dispatch.Registrations` | plum/dispatcher.py:74-78 | the decorator registers one entry per signature, in order, each with the decorated implementation, the shared precedence and the shared return type |
| `Dispatch.Dispatcher.constructor` | plum/dispatcher.py:23-25 | a fresh dispatcher has an empty function map and keeps its owning class |
| `Dispatch.Dispatcher.Decorate` | plum/dispatcher.py:65-81 | creates the function for `name` only when absent; otherwise appends the decorator's registrations to the existing one; other names are unchanged; the key set grows by at most `name`; returns the stored function |
| `Dispatch.Dispatcher.ClearCache` | plum/dispatcher.py:85-88 | clears the cache of every function in this namespace, once each, and changes nothing else |
| `Dispatch.DecorateTwice` | plum/dispatcher.py:70-78 | a second decoration under the same name extends the first function's registrations instead of replacing the function |

## Left out

- Logging (`log.debug` in `plum/tuple.py` and the module logger of `plum/dispatcher.py`): output only.
- `__repr__` and `__hash__` of `Tuple`: string formatting and hashing through `multihash`, which is not part of this model.
- The element types (`as_type`, `Union`, `Self`, nominal subtyping) and `Comparable`: `plum/type.py` and `plum/util.py` are not part of this model. Types are the parameter `T`, their order the relation `le`.
- `Function` (`plum/function.py` is not part of this model): its resolution, caching, conversion fallback and return-type checks. `Dispatch.Register` appends to the registrations. Replacing an earlier registration of the same signature and invalidating the cache on register are not modelled. `Dispatch.ClearFunctionCache` only counts clears.
- Dispatch.Dispatcher.Decorate: `Function` is a value record in a map, not a shared object. The model therefore does not capture that the returned function is the same object as the stored one and sees later registrations. It only states that the returned value equals the stored one at return time.
- Dispatch.ReturnTypeOf: an explicit `return_type=object` becomes `Declared(object)`, so the model does not identify it with the default `Object`, as `as_type(object)` does. Element types are abstract here and `object` is not one of them.
- `clear_all_cache` over the process-wide `Function._instances`: global state of `plum/function.py`.
- Decorator mechanics: the closure returned by `_create_decorator` is the value `Dispatch.Decorator`, and applying it is `Dispatch.Dispatcher.Decorate`. The decorated function's `__name__` is an explicit `name` argument. `get_default` is the `Option` argument of `Call` and `Multi`. The module-level `dispatch = Dispatcher()` instance is omitted.
- The return-type behaviour in `tests/dispatcher/test_return_type.py` (a `TypeError` on a violated return type, conversion methods, `Self` in inheriting classes): it lives in `Function` and Python introspection.
