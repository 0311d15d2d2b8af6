/** `Function.prototype.myBind(context = {}, ...args)`: stores the target in `context.fn` and
    returns a function that, each time it is called with `newArgs`, calls `context.fn` as a
    method of `context` with `args` followed by `newArgs` and returns its result. The field is
    read at call time, so anything that later overwrites `context.fn` redirects the bound
    function. */
module BindPolyfill {
  import opened Js
  import opened Receivers
  import CallPolyfill

  /** What calling a bound function returns, from the context's fields at that moment:
      `context.fn(...preset, ...newArgs)`, or a TypeError when `context.fn` is not a function. */
  function BoundResult(code: Code, fields: map<string, Value>, preset: seq<Value>, newArgs: seq<Value>): Completion {
    var f := Get(fields, FnKey);
    if f.Func? then code(f.id, Obj(fields), preset + newArgs) else Err(TypeError)
  }

  /** Binding then calling is calling the target directly on the context with the preset
      arguments followed by the call-time ones; the result comes back unchanged, where
      `myCall` with the same arguments drops it. */
  lemma BoundCallIsDirectCall(code: Code, target: Value, fields: map<string, Value>, preset: seq<Value>, newArgs: seq<Value>)
    requires target.Func?
    ensures BoundResult(code, Attach(fields, target), preset, newArgs)
            == code(target.id, Obj(Attach(fields, target)), preset + newArgs)
    ensures CallPolyfill.CallResult(code, target, Some(fields), preset + newArgs)
            == DiscardResult(BoundResult(code, Attach(fields, target), preset, newArgs))
  {
  }

  /** A later bind on the same context wins: a function bound earlier now runs the later
      target. */
  lemma LaterBindRedirects(code: Code, first: Value, second: Value, fields: map<string, Value>, preset: seq<Value>, newArgs: seq<Value>)
    requires first.Func? && second.Func?
    ensures BoundResult(code, Attach(Attach(fields, first), second), preset, newArgs)
            == code(second.id, Obj(Attach(fields, second)), preset + newArgs)
  {
    assert Attach(Attach(fields, first), second) == Attach(fields, second);
  }

  /** A function bound to a primitive throws a TypeError on every call and never runs the
      target: `context.fn` reads undefined there. */
  lemma PrimitiveBoundCallThrows(code: Code, preset: seq<Value>, newArgs: seq<Value>)
    ensures BoundResult(code, map[], preset, newArgs) == Err(TypeError)
  {
    assert Get(map[], FnKey) == Undefined;
  }

  /** The closure `myBind` returns: it captures the context object and the preset arguments,
      and nothing else. */
  class BoundFunction {
    const context: Record
    const preset: seq<Value>

    constructor (context: Record, preset: seq<Value>)
      ensures this.context == context && this.preset == preset
    {
      this.context := context;
      this.preset := preset;
    }

    /** Calling the bound function: looks up `context.fn` now and runs it, every time. The ghost
        `ran` lists the runs of a target. */
    method Invoke(code: Code, newArgs: seq<Value>) returns (c: Completion, ghost ran: seq<TargetCall>)
      ensures c == BoundResult(code, context.fields, preset, newArgs)
      ensures var f := Get(context.fields, FnKey);
              ran == if f.Func? then [TargetCall(f.id, Obj(context.fields), preset + newArgs)] else []
    {
      var f := Get(context.fields, FnKey);
      if !f.Func? {
        return Err(TypeError), [];
      }
      ran := [TargetCall(f.id, Obj(context.fields), preset + newArgs)];
      c := code(f.id, Obj(context.fields), preset + newArgs);
    }
  }

  /** `target.myBind(context, ...preset)`. On a primitive context the write `context.fn` is
      dropped and binding succeeds; the bound function sees the primitive as an object without
      own properties (a fresh, empty record nobody else holds), so each call of it throws. */
  method MyBind(target: Value, context: ContextArg, preset: seq<Value>) returns (r: Result<BoundFunction>)
    modifies Frame(context)
    ensures !target.Func? ==> r == Err(NotCallable) && unchanged(Frame(context))
    ensures target.Func? && context.NullContext? ==> r == Err(TypeError)
    ensures target.Func? && (context.NoContext? || context.Given?) ==>
              && r.Ok? && fresh(r.value) && r.value.preset == preset
              && r.value.context.fields == Attach(old(FieldsOf(context)).value, target)
              && (context.Given? ==> r.value.context == context.record)
              && (context.NoContext? ==> fresh(r.value.context))
    ensures target.Func? && context.Primitive? ==>
              && r.Ok? && fresh(r.value) && r.value.preset == preset
              && fresh(r.value.context) && r.value.context.fields == map[]
  {
    if !target.Func? {
      return Err(NotCallable);
    }
    var ctx: Record;
    match context {
      case NullContext =>
        return Err(TypeError);
      case Primitive(_) =>
        var wrapper := new Record(map[]);
        var bound := new BoundFunction(wrapper, preset);
        return Ok(bound);
      case NoContext =>
        ctx := new Record(map[]);
      case Given(record) =>
        ctx := record;
    }
    ctx.fields := Attach(ctx.fields, target);
    var bound := new BoundFunction(ctx, preset);
    r := Ok(bound);
  }

  /** Two binds on one context, then a call of the first bound function: it runs the second
      target, with the first bind's preset arguments. */
  method RebindRedirects(code: Code, first: Value, second: Value, context: Record, preset: seq<Value>, newArgs: seq<Value>)
      returns (c: Completion)
    requires first.Func? && second.Func?
    modifies context
    ensures c == code(second.id, Obj(Attach(old(context.fields), second)), preset + newArgs)
  {
    var b1 := MyBind(first, Given(context), preset);
    var b2 := MyBind(second, Given(context), []);
    ghost var ran;
    c, ran := b1.value.Invoke(code, newArgs);
    assert Attach(Attach(old(context.fields), first), second) == Attach(old(context.fields), second);
  }
}
