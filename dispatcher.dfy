/** plum's `Dispatcher`: a namespace that maps function names to dispatched
    functions and registers signatures on them through decorators.

    A dispatched `Function` is kept opaque: it is a record of its first
    implementation, the owning class, the registrations made on it in order,
    and how many times its cache was cleared. How it resolves calls is not
    modelled. */
module Dispatch {
  import opened Wrappers
  import opened Tuples

  /** The declared return type of a registration; `Object` is the default,
      Python's `object`. */
  datatype ReturnType<T> = Object | Declared(ty: T)

  /** One call of `Function.register`: signature, implementation, precedence
      and declared return type. */
  datatype Registration<T, F> = Registration(signature: Tuple<T>, impl: F, precedence: int, returnType: ReturnType<T>)

  /** A dispatched function: `Function(f, in_class=...)` with the registrations
      made on it so far and the number of `clear_cache` calls it received. */
  datatype Function<T, F> = Function(f: F, inClass: Option<T>, registrations: seq<Registration<T, F>>, cacheClears: nat)

  /** `Function.register(signature, impl, precedence, return_type)`. */
  function Register<T, F>(fn: Function<T, F>, r: Registration<T, F>): Function<T, F> {
    fn.(registrations := fn.registrations + [r])
  }

  /** `Function.clear_cache()`. */
  function ClearFunctionCache<T, F>(fn: Function<T, F>): Function<T, F> {
    fn.(cacheClears := fn.cacheClears + 1)
  }

  /** The decorator built by `_create_decorator`: the signatures it registers,
      with their shared precedence and return type. */
  datatype Decorator<T> = Decorator(signatures: seq<Tuple<T>>, precedence: int, returnType: ReturnType<T>)

  /** What applying decorator `d` to implementation `f` registers, one entry per
      signature, in order. */
  function Registrations<T, F>(d: Decorator<T>, f: F): (rs: seq<Registration<T, F>>)
    ensures |rs| == |d.signatures|
    ensures forall i :: 0 <= i < |rs| ==>
      rs[i].signature == d.signatures[i] && rs[i].impl == f &&
      rs[i].precedence == d.precedence && rs[i].returnType == d.returnType
  {
    seq(|d.signatures|, i requires 0 <= i < |d.signatures| =>
      Registration(d.signatures[i], f, d.precedence, d.returnType))
  }

  /** The keyword arguments `precedence` (default `0`) and `return_type`
      (default `object`). */
  function Precedence(precedence: Option<int>): (p: int)
    ensures precedence.None? ==> p == 0
    ensures precedence.Some? ==> p == precedence.value
  {
    precedence.GetOr(0)
  }

  function ReturnTypeOf<T>(returnType: Option<T>): (r: ReturnType<T>)
    ensures returnType.None? <==> r == Object
    ensures returnType.Some? ==> r == Declared(returnType.value)
  {
    match returnType
    case None => Object
    case Some(t) => Declared(t)
  }

  /** `[Tuple(*types) for types in signatures]`: the first malformed signature
      raises, otherwise every signature becomes a tuple, in order. */
  function MakeAll<T>(signatures: seq<seq<PType<T>>>): (r: Result<seq<Tuple<T>>, TupleError>)
    ensures r.Ok? <==> forall i :: 0 <= i < |signatures| ==> Make(signatures[i]).Ok?
    ensures r.Err? ==> r.error == MisplacedVarArgs
    ensures r.Ok? ==> |r.value| == |signatures|
    ensures r.Ok? ==> forall i :: 0 <= i < |signatures| ==> r.value[i].types == signatures[i] && Valid(r.value[i])
  {
    if signatures == [] then Ok([])
    else
      var t :- Make(signatures[0]);
      var ts :- MakeAll(signatures[1..]);
      assert forall i :: 1 <= i < |signatures| ==> signatures[1..][i - 1] == signatures[i];
      Ok([t] + ts)
  }

  /** `dispatch(*types, precedence=..., return_type=...)`: a decorator for the
      one signature `types`, or the constructor's error. */
  function Call<T>(types: seq<PType<T>>, precedence: Option<int>, returnType: Option<T>): (r: Result<Decorator<T>, TupleError>)
    ensures r.Ok? <==> !exists i :: 0 <= i < |types| - 1 && types[i].VarArgs?
    ensures r.Err? ==> r.error == MisplacedVarArgs
    ensures r.Ok? ==>
      && |r.value.signatures| == 1 && r.value.signatures[0].types == types
      && (precedence.None? ==> r.value.precedence == 0)
      && (returnType.None? ==> r.value.returnType == Object)
      && (precedence.Some? ==> r.value.precedence == precedence.value)
      && (returnType.Some? ==> r.value.returnType == Declared(returnType.value))
  {
    var t :- Make(types);
    Ok(Decorator([t], Precedence(precedence), ReturnTypeOf(returnType)))
  }

  /** `dispatch.multi(*signatures, precedence=..., return_type=...)`: a
      decorator for all the signatures, in order, sharing one precedence and
      one return type. */
  function Multi<T>(signatures: seq<seq<PType<T>>>, precedence: Option<int>, returnType: Option<T>): (r: Result<Decorator<T>, TupleError>)
    ensures r.Ok? <==> forall k :: 0 <= k < |signatures| ==>
      !exists i :: 0 <= i < |signatures[k]| - 1 && signatures[k][i].VarArgs?
    ensures r.Err? ==> r.error == MisplacedVarArgs
    ensures r.Ok? ==>
      && |r.value.signatures| == |signatures|
      && (forall k :: 0 <= k < |signatures| ==> r.value.signatures[k].types == signatures[k])
      && r.value.precedence == Precedence(precedence)
      && r.value.returnType == ReturnTypeOf(returnType)
  {
    var ts :- MakeAll(signatures);
    Ok(Decorator(ts, Precedence(precedence), ReturnTypeOf(returnType)))
  }

  /** A namespace of dispatched functions, optionally owned by a class. */
  class Dispatcher<T, F> {
    var functions: map<string, Function<T, F>>
    const inClass: Option<T>

    /** `Dispatcher(in_class=...)`: an empty namespace. */
    constructor(inClass: Option<T>)
      ensures functions == map[]
      ensures this.inClass == inClass
    {
      functions := map[];
      this.inClass := inClass;
    }

    /** Applying decorator `d` to an implementation `f` whose `__name__` is
        `name`: creates the function for `name` if absent, registers every
        signature of `d` on it in order, and returns it. */
    method Decorate(d: Decorator<T>, name: string, f: F) returns (fn: Function<T, F>)
      modifies this
      ensures functions.Keys == old(functions).Keys + {name}
      ensures forall n :: n in old(functions) && n != name ==> functions[n] == old(functions)[n]
      ensures name in old(functions) ==>
        functions[name] == old(functions)[name].(registrations := old(functions)[name].registrations + Registrations(d, f))
      ensures name !in old(functions) ==>
        functions[name] == Function(f, inClass, Registrations(d, f), 0)
      ensures fn == functions[name]
    {
      if name !in functions {
        functions := functions[name := Function(f, inClass, [], 0)];
      }
      ghost var before := functions[name];
      ghost var others := functions - {name};
      var rs := Registrations(d, f);
      for k := 0 to |d.signatures|
        invariant name in functions
        invariant functions[name] == before.(registrations := before.registrations + rs[..k])
        invariant functions - {name} == others
        invariant functions.Keys == others.Keys + {name}
      {
        functions := functions[name := Register(functions[name], Registration(d.signatures[k], f, d.precedence, d.returnType))];
        assert rs[..k + 1] == rs[..k] + [rs[k]];
      }
      assert rs[..|d.signatures|] == rs;
      forall n | n in old(functions) && n != name
        ensures functions[n] == old(functions)[n]
      {
        assert n in others;
      }
      fn := functions[name];
    }

    /** `clear_cache()`: clears the cache of every function of this namespace
        and nothing else. */
    method ClearCache()
      modifies this
      ensures functions.Keys == old(functions).Keys
      ensures forall n :: n in functions ==> functions[n] == ClearFunctionCache(old(functions)[n])
    {
      var pending := functions.Keys;
      while pending != {}
        invariant pending <= functions.Keys == old(functions).Keys
        invariant forall n :: n in functions ==>
          functions[n] == if n in pending then old(functions)[n] else ClearFunctionCache(old(functions)[n])
        decreases pending
      {
        var n :| n in pending;
        functions := functions[n := ClearFunctionCache(functions[n])];
        pending := pending - {n};
      }
    }
  }

  /** Decorating twice under one name in a fresh namespace: the function is
      created by the first decoration only, keeps its first implementation,
      and the second decoration extends its registrations. */
  method DecorateTwice<T, F>(d1: Decorator<T>, d2: Decorator<T>, name: string, f1: F, f2: F)
    returns (fn: Function<T, F>)
    ensures fn.f == f1 && fn.cacheClears == 0
    ensures fn.registrations == Registrations(d1, f1) + Registrations(d2, f2)
  {
    var dispatch := new Dispatcher<T, F>(None);
    var _ := dispatch.Decorate(d1, name, f1);
    fn := dispatch.Decorate(d2, name, f2);
  }
}
