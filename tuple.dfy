/** Signature tuples of plum: a sequence of parameter types of which only the
    last may be a variadic tail, with the variadic expansion and the partial
    order used to rank signatures.

    The element types themselves and their order are not modelled: they are a
    type parameter `T` and a relation `le` that every comparison takes as an
    argument (`le(x, y)` is `x <= y` on plum types). */
module Tuples {
  import opened Wrappers

  /** One entry of a signature: a plain type, or `VarArgs(t)` standing for zero
      or more trailing arguments of type `t`. */
  datatype PType<T> = Plain(ty: T) | VarArgs(ty: T)

  /** A signature tuple; `types` is fixed at construction. */
  datatype Tuple<T> = Tuple(types: seq<PType<T>>)

  /** The two exceptions of the tuple module: the `TypeError` raised by the
      constructor and the `RuntimeError` raised by `varargs_type`. */
  datatype TupleError = MisplacedVarArgs | NoVarArgs

  /** Only the last entry may be variadic. */
  ghost predicate Valid<T>(t: Tuple<T>) {
    forall i :: 0 <= i < |t.types| - 1 ==> t.types[i].Plain?
  }

  /** Python's `any(isinstance(p, VarArgs) for p in ps)`. */
  function AnyVarArgs<T>(ps: seq<PType<T>>): (r: bool)
    ensures r <==> exists i :: 0 <= i < |ps| && ps[i].VarArgs?
  {
    if ps == [] then false
    else ps[0].VarArgs? || (assert forall i :: 0 <= i < |ps| - 1 ==> ps[1..][i] == ps[i + 1]; AnyVarArgs(ps[1..]))
  }

  /** `Tuple(*types)`: fails when an entry other than the last is variadic. */
  function Make<T>(types: seq<PType<T>>): (r: Result<Tuple<T>, TupleError>)
    ensures r.Err? <==> exists i :: 0 <= i < |types| - 1 && types[i].VarArgs?
    ensures r.Err? ==> r.error == MisplacedVarArgs
    ensures r.Ok? ==> r.value.types == types && Valid(r.value)
  {
    var init := if |types| == 0 then [] else types[..|types| - 1];
    assert forall i :: 0 <= i < |types| - 1 ==> init[i] == types[i];
    if AnyVarArgs(init) then Err(MisplacedVarArgs) else Ok(Tuple(types))
  }

  predicate HasVarArgs<T>(t: Tuple<T>) {
    |t.types| > 0 && t.types[|t.types| - 1].VarArgs?
  }

  /** The entries without the variadic tail. */
  function Base<T>(t: Tuple<T>): (r: seq<PType<T>>)
    ensures HasVarArgs(t) ==> t.types == r + [t.types[|t.types| - 1]]
    ensures !HasVarArgs(t) ==> r == t.types
    ensures Valid(t) ==> forall i :: 0 <= i < |r| ==> r[i].Plain?
  {
    if HasVarArgs(t) then t.types[..|t.types| - 1] else t.types
  }

  /** `len(t)`: the number of entries in the base. */
  function Len<T>(t: Tuple<T>): (n: nat)
    ensures n == |t.types| - (if HasVarArgs(t) then 1 else 0)
  {
    |Base(t)|
  }

  /** `t.varargs_type`: the element type of the variadic tail, an error
      when there is none. */
  function VarArgsType<T>(t: Tuple<T>): (r: Result<T, TupleError>)
    ensures r.Ok? <==> HasVarArgs(t)
    ensures r.Ok? ==> t.types == Base(t) + [VarArgs(r.value)]
    ensures r.Err? ==> r.error == NoVarArgs
  {
    if !HasVarArgs(t) then Err(NoVarArgs) else Ok(t.types[|t.types| - 1].ty)
  }

  /** Two tuples are comparable when their lengths match, or when the shorter
      one has a variadic tail that can be stretched to the longer one. */
  predicate IsCompatible<T>(a: Tuple<T>, b: Tuple<T>) {
    || Len(a) == Len(b)
    || (Len(a) > Len(b) && HasVarArgs(b))
    || (Len(a) < Len(b) && HasVarArgs(a))
  }

  /** `VarArgs(x).expand(n)`: `n` copies of `x`. */
  function Repeat<T>(x: T, n: nat): (r: seq<T>)
    ensures |r| == n
    ensures forall i :: 0 <= i < n ==> r[i] == x
  {
    seq(n, _ => x)
  }

  /** The types carried by a sequence of entries. */
  function Types<T>(ps: seq<PType<T>>): (r: seq<T>)
    ensures |r| == |ps|
    ensures forall i :: 0 <= i < |ps| ==> r[i] == ps[i].ty
  {
    seq(|ps|, i requires 0 <= i < |ps| => ps[i].ty)
  }

  function Max(x: int, y: int): int {
    if x < y then y else x
  }

  /** `t.expand_varargs_to(other)`: the base, stretched with copies of the
      variadic element type to the length of `other` when `t` is variadic. */
  function ExpandVarArgsTo<T>(t: Tuple<T>, other: Tuple<T>): (r: seq<T>)
    ensures Len(t) <= |r| && r[..Len(t)] == Types(Base(t))
    ensures !HasVarArgs(t) ==> r == Types(t.types)
    ensures HasVarArgs(t) ==> |r| == Max(Len(t), Len(other))
    ensures HasVarArgs(t) ==> forall i :: Len(t) <= i < |r| ==> r[i] == VarArgsType(t).value
  {
    if HasVarArgs(t) then
      Types(Base(t)) + Repeat(VarArgsType(t).value, Max(Len(other) - Len(t), 0))
    else
      Types(Base(t))
  }

  /** The strict order of plum's `Comparable`: `x > y` is `y <= x and not x <= y`. */
  predicate Gt<T>(le: (T, T) -> bool, x: T, y: T) {
    le(y, x) && !le(x, y)
  }

  /** `all(x <= y for x, y in zip(xs, ys))`; `zip` stops at the shorter side. */
  function ZipAll<T>(le: (T, T) -> bool, xs: seq<T>, ys: seq<T>): (r: bool)
    ensures r <==> forall i :: 0 <= i < |xs| && i < |ys| ==> le(xs[i], ys[i])
  {
    if xs == [] || ys == [] then true
    else
      assert forall i :: 0 <= i < |xs| - 1 ==> xs[1..][i] == xs[i + 1];
      assert forall i :: 0 <= i < |ys| - 1 ==> ys[1..][i] == ys[i + 1];
      le(xs[0], ys[0]) && ZipAll(le, xs[1..], ys[1..])
  }

  /** `a <= b` on signature tuples. */
  predicate TupleLe<T>(le: (T, T) -> bool, a: Tuple<T>, b: Tuple<T>) {
    if HasVarArgs(a) && !HasVarArgs(b) then false
    else if HasVarArgs(a) && HasVarArgs(b) && Gt(le, VarArgsType(a).value, VarArgsType(b).value) then false
    else if !IsCompatible(a, b) then false
    else ZipAll(le, ExpandVarArgsTo(a, b), ExpandVarArgsTo(b, a))
  }

  /** Compatibility is exactly the condition under which both expansions have
      the same length, so the `zip` of `__le__` drops no entry; in particular
      it is symmetric. */
  lemma CompatibleIffEqualExpansions<T>(a: Tuple<T>, b: Tuple<T>)
    ensures IsCompatible(a, b) <==> |ExpandVarArgsTo(a, b)| == |ExpandVarArgsTo(b, a)|
    ensures IsCompatible(a, b) == IsCompatible(b, a)
  {
  }

  /** `a <= b` is false in each of the three rejecting cases and otherwise is
      the pointwise order over two expansions of equal length. */
  lemma TupleLeIff<T>(le: (T, T) -> bool, a: Tuple<T>, b: Tuple<T>)
    ensures TupleLe(le, a, b) <==>
      && (HasVarArgs(a) ==> HasVarArgs(b))
      && (HasVarArgs(a) && HasVarArgs(b) ==> !Gt(le, VarArgsType(a).value, VarArgsType(b).value))
      && |ExpandVarArgsTo(a, b)| == |ExpandVarArgsTo(b, a)|
      && forall i :: 0 <= i < |ExpandVarArgsTo(a, b)| ==> le(ExpandVarArgsTo(a, b)[i], ExpandVarArgsTo(b, a)[i])
  {
  }

  /** Every tuple is at most itself, given that the element order is reflexive. */
  lemma TupleLeReflexive<T>(le: (T, T) -> bool, t: Tuple<T>)
    requires forall x :: le(x, x)
    ensures TupleLe(le, t, t)
  {
  }

  /** Between two tuples without variadic tails, `a <= b` holds exactly when
      they have the same length and are ordered entry by entry. */
  lemma FixedLeIff<T>(le: (T, T) -> bool, a: Tuple<T>, b: Tuple<T>)
    requires !HasVarArgs(a) && !HasVarArgs(b)
    ensures TupleLe(le, a, b) <==>
      |a.types| == |b.types| && forall i :: 0 <= i < |a.types| ==> le(a.types[i].ty, b.types[i].ty)
  {
  }

  /** A call without a variadic tail is at most a variadic signature exactly
      when it supplies at least the signature's base, its first entries are
      ordered against that base, and every extra argument is at most the
      variadic element type. */
  lemma CallLeVariadicIff<T>(le: (T, T) -> bool, call: Tuple<T>, sig: Tuple<T>)
    requires !HasVarArgs(call) && HasVarArgs(sig)
    ensures TupleLe(le, call, sig) <==>
      && |call.types| >= Len(sig)
      && (forall i :: 0 <= i < Len(sig) ==> le(call.types[i].ty, Base(sig)[i].ty))
      && (forall i :: Len(sig) <= i < |call.types| ==> le(call.types[i].ty, VarArgsType(sig).value))
  {
  }

  /** On tuples without variadic tails the order is transitive whenever the
      element order is. */
  lemma FixedLeTransitive<T>(le: (T, T) -> bool, a: Tuple<T>, b: Tuple<T>, c: Tuple<T>)
    requires forall x, y, z :: le(x, y) && le(y, z) ==> le(x, z)
    requires !HasVarArgs(a) && !HasVarArgs(b) && !HasVarArgs(c)
    requires TupleLe(le, a, b) && TupleLe(le, b, c)
    ensures TupleLe(le, a, c)
  {
  }

  /** The chain that matters when ranking a call: a call at most a fixed
      signature that is at most a variadic one is at most the variadic one,
      whenever the element order is transitive. */
  lemma FixedThenVariadicLeTransitive<T>(le: (T, T) -> bool, a: Tuple<T>, b: Tuple<T>, c: Tuple<T>)
    requires forall x, y, z :: le(x, y) && le(y, z) ==> le(x, z)
    requires !HasVarArgs(a) && !HasVarArgs(b) && HasVarArgs(c)
    requires TupleLe(le, a, b) && TupleLe(le, b, c)
    ensures TupleLe(le, a, c)
  {
  }

  /** With variadic tails in play the order is not transitive, even over a
      reflexive and transitive element order: `(0,) <= (*0,)` and
      `(*0,) <= (0, 0, *0)`, but `(0,)` and `(0, 0, *0)` are incompatible. */
  lemma VariadicLeNotTransitive()
    ensures var le := (x: int, y: int) => x <= y;
      var a, b, c := Tuple([Plain(0)]), Tuple([VarArgs(0)]), Tuple([Plain(0), Plain(0), VarArgs(0)]);
      TupleLe(le, a, b) && TupleLe(le, b, c) && !TupleLe(le, a, c)
  {
  }

  /** For incomparable `x` and `y`, the single-entry tuples `(*x)` and `(*y)`
      are each at most the other: the strict check rejects only a strictly
      greater tail, and both expansions are empty. So the order is not
      antisymmetric either, even over a reflexive element order. */
  lemma VariadicLeNotAntisymmetric<T>(le: (T, T) -> bool, x: T, y: T)
    requires forall z :: le(z, z)
    requires !le(x, y) && !le(y, x)
    ensures TupleLe(le, Tuple([VarArgs(x)]), Tuple([VarArgs(y)]))
    ensures TupleLe(le, Tuple([VarArgs(y)]), Tuple([VarArgs(x)]))
    ensures Tuple([VarArgs(x)]) != Tuple([VarArgs(y)])
  {
  }
}
