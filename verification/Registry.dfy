/** The functions that evaluator and emitted C share by name (src/registry/defaults.c, src/codegen.c). */
module Registry {
  import opened Common
  import opened Codegen
  import opened Meaning
  import opened CodegenMeaning

  /** The C function that a registered name calls. */
  const REGISTERED: map<string, string> := map[
    "abs" := "fabs", "floor" := "floor", "ceil" := "ceil", "round" := "round", "trunc" := "trunc",
    "sqrt" := "sqrt", "cbrt" := "cbrt", "hypot" := "hypot", "pow" := "pow",
    "exp" := "exp", "exp2" := "exp2", "expm1" := "expm1",
    "log" := "log", "log10" := "log10", "log2" := "log2", "log1p" := "log1p",
    "mod" := "fmod", "copysign" := "copysign",
    "sin" := "sin", "cos" := "cos", "tan" := "tan", "asin" := "asin", "acos" := "acos", "atan" := "atan",
    "atan2" := "atan2", "sinh" := "sinh", "cosh" := "cosh", "tanh" := "tanh",
    "isnan" := "isnan", "isfinite" := "isfinite"]

  /** Every one of them is emitted as a call of that C function. */
  lemma EmittedAsRegistered(name: string)
    requires name in REGISTERED
    ensures DefaultFunction(name) == Some(REGISTERED[name])
  {
  }

  /** Besides, the emitter accepts three C names that are not registered. */
  lemma EmittedOtherwise(name: string)
    ensures DefaultFunction(name).Some? <==> name in REGISTERED || name == "fmod" || name == "fmin" || name == "fmax"
  {
  }

  /** Registered names call their C functions, and the three other names are unknown. */
  ghost predicate Registers<N(!new)>(A: Arith<N>) {
    forall fn: string, vs: seq<Val<N>> ::
      && (fn in REGISTERED ==> A.builtin(fn, vs) == A.cFunction(REGISTERED[fn], vs))
      && (fn == "fmod" || fn == "fmin" || fn == "fmax" ==> A.builtin(fn, vs).None?)
  }

  /** With the registry's own table, emitted calls compute what the evaluator's calls compute. */
  lemma RegistryAgrees<N(!new)>(A: Arith<N>, t: Target)
    requires Registers(A) && t.mapFunction.None?
    ensures FunctionsAgree(A, t)
  {
    forall fn: string, vs: seq<Val<N>> | MappedFunction(t, fn, |vs|).Some? && A.builtin(fn, vs).Some?
      ensures A.cFunction(MappedFunction(t, fn, |vs|).value, vs) == A.builtin(fn, vs)
    {
      EmittedOtherwise(fn);
      assert fn in REGISTERED;
      EmittedAsRegistered(fn);
    }
  }

  /** A host's own mapping comes first, and the table applies where it has none. */
  lemma HostMapsFirst(t: Target, fn: string, argc: nat)
    ensures t.mapFunction.Some? && t.mapFunction.value(fn, argc).Some? ==>
              MappedFunction(t, fn, argc) == t.mapFunction.value(fn, argc)
    ensures (t.mapFunction.None? || t.mapFunction.value(fn, argc).None?) && fn in REGISTERED ==>
              MappedFunction(t, fn, argc) == Some(REGISTERED[fn])
  {
    if fn in REGISTERED {
      EmittedAsRegistered(fn);
    }
  }
}
