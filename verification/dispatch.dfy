/** The torch-function override table of the descriptor: torch functions
    registered with `implements_for_meta` are routed to their descriptor
    handler by `__torch_function__`; anything else is declined. */
module Dispatch {
  import opened Errors
  import opened MetaTensors
  import opened Stacking

  /** The torch functions a caller may apply to descriptors. */
  datatype TorchFunction = TorchStack | OtherFunction(name: string)

  /** The descriptor handlers that can be registered. */
  datatype Handler = StackMetaHandler

  /** `META_HANDLED_FUNCTIONS`: torch function to handler. */
  type Registry = map<TorchFunction, Handler>

  /** `implements_for_meta(f)(h)`: registers `h` for `f`, replacing any
      earlier handler for `f` and leaving the other entries alone. */
  function Register(reg: Registry, f: TorchFunction, h: Handler): (r: Registry)
    ensures r.Keys == reg.Keys + {f}
    ensures f in r && r[f] == h
    ensures forall g :: g in reg && g != f ==> g in r && r[g] == reg[g]
  {
    reg[f := h]
  }

  /** The table as built when the module is loaded: only `torch.stack`. */
  const MetaHandledFunctions: Registry := Register(map[], TorchStack, StackMetaHandler)

  /** A Python type among the argument types, with whether it is a subclass of
      `torch.Tensor` or of `MetaTensor`. */
  datatype PyType = PyType(name: string, isTensorLike: bool)

  /** The arguments a stack handler receives. */
  datatype StackArgs = StackArgs(tensors: seq<MetaTensor>, dim: int, safe: bool)

  /** What `__torch_function__` returns: `NotImplemented`, or what the handler
      produced (a descriptor or the exception it raised). */
  datatype Outcome = NotImplemented | Handled(result: Result<MetaTensor>)

  /** Runs a registered handler. */
  function Apply(h: Handler, args: StackArgs, defaultDtype: DType): Result<MetaTensor>
  {
    match h
    case StackMetaHandler => StackMeta(args.tensors, args.dim, args.safe, defaultDtype)
  }

  /** `__torch_function__(func, types, args)`: declines unless `func` is
      registered and every argument type is tensor-like; otherwise returns
      what the registered handler computes. */
  function TorchFunctionOverride(reg: Registry, func: TorchFunction, types: seq<PyType>,
                                 args: StackArgs, defaultDtype: DType): (o: Outcome)
    ensures o.NotImplemented? <==>
              func !in reg || exists i :: 0 <= i < |types| && !types[i].isTensorLike
    ensures o.Handled? ==> func in reg && o.result == Apply(reg[func], args, defaultDtype)
  {
    if func !in reg || exists i :: 0 <= i < |types| && !types[i].isTensorLike then NotImplemented
    else Handled(Apply(reg[func], args, defaultDtype))
  }

  /** With the table as loaded, `torch.stack` over tensor-like arguments is
      answered by `stack_meta`, and every other torch function is declined. */
  lemma DispatchAsLoaded(func: TorchFunction, types: seq<PyType>, args: StackArgs, defaultDtype: DType)
    requires forall i :: 0 <= i < |types| ==> types[i].isTensorLike
    ensures func == TorchStack ==>
              TorchFunctionOverride(MetaHandledFunctions, func, types, args, defaultDtype)
              == Handled(StackMeta(args.tensors, args.dim, args.safe, defaultDtype))
    ensures func != TorchStack ==>
              TorchFunctionOverride(MetaHandledFunctions, func, types, args, defaultDtype) == NotImplemented
  {
  }

  /** A single argument type that is not tensor-like makes the override
      decline, whatever is registered. */
  lemma ForeignTypeDeclines(reg: Registry, func: TorchFunction, types: seq<PyType>, i: nat,
                            args: StackArgs, defaultDtype: DType)
    requires i < |types| && !types[i].isTensorLike
    ensures TorchFunctionOverride(reg, func, types, args, defaultDtype) == NotImplemented
  {
  }
}
