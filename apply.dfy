/** `Function.prototype.myApply(context = {}, args = [])`: like `myCall`, with the arguments
    passed as one array that is spread into the call. */
module ApplyPolyfill {
  import opened Js
  import opened Receivers
  import CallPolyfill

  /** `Array.isArray(args)` after the default: an omitted or undefined `args` is `[]`. */
  predicate IsArgList(args: Value) {
    args.Undefined? || args.Arr?
  }

  /** The positional arguments `...args` spreads. */
  function Spread(args: Value): seq<Value>
    requires IsArgList(args)
  {
    if args.Arr? then args.elems else []
  }

  /** What `myApply` returns: the not-callable check, then the array check, then the field
      write, then the call with its result dropped. */
  function ApplyResult(code: Code, target: Value, before: Option<map<string, Value>>, args: Value): Completion {
    if !target.Func? then Err(NotCallable)
    else if !IsArgList(args) then Err(NotAnArray)
    else if before.None? then Err(TypeError)
    else DiscardResult(code(target.id, Obj(Attach(before.value, target)), Spread(args)))
  }

  /** `myApply` with an array is `myCall` with its elements in order, `myApply` without
      arguments is `myCall` with none, and a non-array throws, unless the target is not
      callable, which is reported first. */
  lemma ApplyIsCallWithSpread(code: Code, target: Value, before: Option<map<string, Value>>, args: Value)
    ensures args.Arr? ==>
              ApplyResult(code, target, before, args) == CallPolyfill.CallResult(code, target, before, args.elems)
    ensures args.Undefined? ==>
              ApplyResult(code, target, before, args) == CallPolyfill.CallResult(code, target, before, [])
    ensures !target.Func? ==> ApplyResult(code, target, before, args) == Err(NotCallable)
    ensures target.Func? && !IsArgList(args) ==> ApplyResult(code, target, before, args) == Err(NotAnArray)
  {
  }

  /** `target.myApply(context, args)`. The ghost `ran` lists the runs of a target. */
  method MyApply(code: Code, target: Value, context: ContextArg, args: Value)
      returns (c: Completion, ghost ran: seq<TargetCall>)
    modifies Frame(context)
    ensures c == ApplyResult(code, target, old(FieldsOf(context)), args)
    ensures target.Func? && IsArgList(args) && (context.NullContext? || context.Primitive?) ==>
              c == Err(TypeError)
    ensures !target.Func? || !IsArgList(args) || context.NullContext? || context.Primitive? ==>
              ran == [] && unchanged(Frame(context))
    ensures context.Given? && target.Func? && IsArgList(args) ==>
              context.record.fields == Attach(old(context.record.fields), target)
    ensures target.Func? && IsArgList(args) && (context.NoContext? || context.Given?) ==>
              ran == [TargetCall(target.id, Obj(Attach(old(FieldsOf(context)).value, target)), Spread(args))]
  {
    ran := [];
    if !target.Func? {
      return Err(NotCallable), ran;
    }
    if !IsArgList(args) {
      return Err(NotAnArray), ran;
    }
    var ctx: Record;
    match context {
      case NullContext =>
        return Err(TypeError), ran;
      case Primitive(_) =>
        return Err(TypeError), ran;
      case NoContext =>
        ctx := new Record(map[]);
      case Given(record) =>
        ctx := record;
    }
    ctx.fields := Attach(ctx.fields, target);
    var f := Get(ctx.fields, FnKey);
    ran := [TargetCall(f.id, Obj(ctx.fields), Spread(args))];
    c := DiscardResult(code(f.id, Obj(ctx.fields), Spread(args)));
  }
}
