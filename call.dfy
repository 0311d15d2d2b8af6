/** `Function.prototype.myCall(context = {}, ...args)`: runs the target with `context` as its
    receiver by storing it in `context.fn` and calling it as a method. The target's return value
    is dropped, and `context.fn` stays set afterwards. */
module CallPolyfill {
  import opened Js
  import opened Receivers

  /** What `myCall` returns, from the target, the receiver's fields on entry (None for a null
      or primitive context) and the arguments. On `null` the write `context.fn = this` throws
      a TypeError; on a primitive the write is dropped and calling the undefined `context.fn`
      throws a TypeError; either way the target does not run. */
  function CallResult(code: Code, target: Value, before: Option<map<string, Value>>, args: seq<Value>): Completion {
    if !target.Func? then Err(NotCallable)
    else if before.None? then Err(TypeError)
    else DiscardResult(code(target.id, Obj(Attach(before.value, target)), args))
  }

  /** The check order of `myCall`: a non-function target throws first, then a null or
      primitive context fails with a TypeError; otherwise the target's exception propagates and
      a normal result is replaced by undefined. */
  lemma CallOutcomes(code: Code, target: Value, before: Option<map<string, Value>>, args: seq<Value>)
    ensures var r := CallResult(code, target, before, args);
            && (!target.Func? ==> r == Err(NotCallable))
            && (target.Func? && before.None? ==> r == Err(TypeError))
            && (target.Func? && before.Some? ==>
                  var t := code(target.id, Obj(Attach(before.value, target)), args);
                  (t.Ok? ==> r == Ok(Undefined)) && (t.Err? ==> r == t))
  {
  }

  /** `target.myCall(context, ...args)`. The ghost `ran` lists the runs of a target. */
  method MyCall(code: Code, target: Value, context: ContextArg, args: seq<Value>)
      returns (c: Completion, ghost ran: seq<TargetCall>)
    modifies Frame(context)
    ensures c == CallResult(code, target, old(FieldsOf(context)), args)
    ensures target.Func? && (context.NullContext? || context.Primitive?) ==> c == Err(TypeError)
    ensures !target.Func? || context.NullContext? || context.Primitive? ==>
              ran == [] && unchanged(Frame(context))
    ensures context.Given? && target.Func? ==>
              context.record.fields == Attach(old(context.record.fields), target)
    ensures target.Func? && (context.NoContext? || context.Given?) ==>
              ran == [TargetCall(target.id, Obj(Attach(old(FieldsOf(context)).value, target)), args)]
  {
    ran := [];
    if !target.Func? {
      return Err(NotCallable), ran;
    }
    var ctx: Record;
    match context {
      case NullContext =>
        return Err(TypeError), ran;
      case Primitive(_) =>
        return Err(TypeError), ran;
      case NoContext =>
        ctx := new Record(map[]);
      case Given(record) =>
        ctx := record;
    }
    ctx.fields := Attach(ctx.fields, target);
    var f := Get(ctx.fields, FnKey);
    ran := [TargetCall(f.id, Obj(ctx.fields), args)];
    c := DiscardResult(code(f.id, Obj(ctx.fields), args));
  }
}
