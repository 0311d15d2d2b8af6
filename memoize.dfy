/** `myMemoize(fn)`: a wrapper that owns a private cache from argument lists to results.

    The key of a call is its argument list. The source derives it with `JSON.stringify(args)`;
    on JSON-shaped argument lists that serialization is injective, so the list itself stands
    for its key here: two calls share an entry exactly when their argument lists are equal,
    element by element and in order.

    The hit test is the truthiness of the stored value (`!res[key]`), so a falsy result is
    stored but never served. */
module Memoize {
  import opened Js
  import Seqs

  type Cache = map<seq<Value>, Value>

  /** One invocation of the wrapped function: its receiver and its arguments. */
  datatype Invocation = Invocation(receiver: Value, args: seq<Value>)

  /** `res[argsCache]` is truthy: the wrapper answers from the cache. An absent key reads as
      undefined, which is falsy. */
  predicate IsHit(cache: Cache, args: seq<Value>) {
    args in cache && Truthy(cache[args])
  }

  /** What one call of the wrapper does: what it returns or throws, the cache afterwards, and
      whether the wrapped function ran. */
  datatype StepResult = StepResult(result: Completion, cache: Cache, invoked: bool)

  /** One call of the wrapper returned by `myMemoize`, with the receiver of `fn` taken to be
      the wrapper's own `this` (see AsWrittenMissThrows for the code as written). */
  function Step(fn: Behaviour, cache: Cache, receiver: Value, args: seq<Value>): StepResult {
    if IsHit(cache, args) then StepResult(Ok(cache[args]), cache, false)
    else
      match fn(receiver, args)
      case Err(e) => StepResult(Err(e), cache, true)
      case Ok(v) => StepResult(Ok(v), cache[args := v], true)
  }

  /** The wrapper as written: on a miss, `context || this` reads the undeclared name `context`,
      which throws before `fn` is reached and before anything is assigned. */
  function StepAsWritten(cache: Cache, receiver: Value, args: seq<Value>): StepResult {
    if IsHit(cache, args) then StepResult(Ok(cache[args]), cache, false)
    else StepResult(Err(ReferenceError("context")), cache, false)
  }

  /** A hit returns the stored value, does not run `fn`, and leaves the cache as it was. */
  lemma HitServesCache(fn: Behaviour, cache: Cache, receiver: Value, args: seq<Value>)
    requires args in cache && Truthy(cache[args])
    ensures var o := Step(fn, cache, receiver, args);
            o.result == Ok(cache[args]) && o.cache == cache && !o.invoked
  {
  }

  /** A miss runs `fn` once with the caller's receiver and arguments; a normal result is stored
      under the key and returned, a thrown exception propagates and nothing is stored. */
  lemma MissStoresResult(fn: Behaviour, cache: Cache, receiver: Value, args: seq<Value>)
    requires !IsHit(cache, args)
    ensures var o := Step(fn, cache, receiver, args);
            && o.invoked
            && (fn(receiver, args).Ok? ==>
                  o.result == fn(receiver, args) && o.cache == cache[args := fn(receiver, args).value])
            && (fn(receiver, args).Err? ==> o.result == fn(receiver, args) && o.cache == cache)
  {
  }

  /** A falsy stored value (0, "", false, null, undefined) is not a hit: `fn` runs again. */
  lemma FalsyEntryIsRecomputed(fn: Behaviour, cache: Cache, receiver: Value, args: seq<Value>)
    requires args in cache && !Truthy(cache[args])
    ensures Step(fn, cache, receiver, args).invoked
  {
  }

  /** Only the entry of the current key can be written: every other entry keeps its value, no
      entry is removed, and a truthy entry is never overwritten. */
  lemma OnlyCurrentKeyWritten(fn: Behaviour, cache: Cache, receiver: Value, args: seq<Value>)
    ensures var c := Step(fn, cache, receiver, args).cache;
            && cache.Keys <= c.Keys
            && c.Keys <= cache.Keys + {args}
            && (forall k :: k in cache && k != args ==> c[k] == cache[k])
            && (IsHit(cache, args) ==> c[args] == cache[args])
  {
  }

  /** For all argument lists: once a call has produced a truthy result, the next call with the
      same list is answered from the cache, whatever its receiver, without running `fn`. */
  lemma SecondCallServedFromCache(fn: Behaviour, cache: Cache, r1: Value, r2: Value, args: seq<Value>)
    requires var first := Step(fn, cache, r1, args); first.result.Ok? && Truthy(first.result.value)
    ensures var first := Step(fn, cache, r1, args);
            var second := Step(fn, first.cache, r2, args);
            !second.invoked && second.result == first.result && second.cache == first.cache
  {
  }

  /** A call that threw leaves the cache as it was, so the next call with the same list runs
      `fn` again (no negative caching). */
  lemma FailureIsRetried(fn: Behaviour, cache: Cache, r1: Value, r2: Value, args: seq<Value>)
    requires Step(fn, cache, r1, args).result.Err?
    ensures var first := Step(fn, cache, r1, args);
            first.cache == cache && first.invoked && Step(fn, first.cache, r2, args).invoked
  {
  }

  /** `clumsyProduct(num1, num2)`: the product of its first two arguments; the busy loop before
      it only costs time. Operands that are not numbers are outside this model; the model
      returns 0 for them. */
  function ClumsyProduct(receiver: Value, args: seq<Value>): Completion {
    if |args| >= 2 && args[0].Num? && args[1].Num? then Ok(Num(args[0].n * args[1].n))
    else Ok(Num(0))
  }

  /** (3, 4) then (3, 4) then (4, 3): the second call comes from the cache, the third is a
      different key although its product is equal, so it runs the product again. */
  lemma OrderSensitiveKeys(receiver: Value)
    ensures var first := Step(ClumsyProduct, map[], receiver, [Num(3), Num(4)]);
            var second := Step(ClumsyProduct, first.cache, receiver, [Num(3), Num(4)]);
            var third := Step(ClumsyProduct, second.cache, receiver, [Num(4), Num(3)]);
            && first.result == Ok(Num(12)) && first.invoked
            && second.result == Ok(Num(12)) && !second.invoked
            && third.result == Ok(Num(12)) && third.invoked
            && third.cache == map[[Num(3), Num(4)] := Num(12), [Num(4), Num(3)] := Num(12)]
  {
    var first := Step(ClumsyProduct, map[], receiver, [Num(3), Num(4)]);
    assert [Num(3), Num(4)] != [Num(4), Num(3)] by {
      assert [Num(3), Num(4)][0] != [Num(4), Num(3)][0];
    }
    assert first.cache == map[[Num(3), Num(4)] := Num(12)];
  }

  /** A product of 0 is stored but never served: every call with those arguments runs again. */
  lemma ZeroProductIsRecomputed(receiver: Value)
    ensures var first := Step(ClumsyProduct, map[], receiver, [Num(0), Num(7)]);
            var second := Step(ClumsyProduct, first.cache, receiver, [Num(0), Num(7)]);
            && first.result == Ok(Num(0)) && first.cache == map[[Num(0), Num(7)] := Num(0)]
            && second.invoked && second.result == Ok(Num(0)) && second.cache == first.cache
  {
  }

  /** As written, every miss throws a ReferenceError and the cache is never written, so the
      wrapper caches nothing at all; the product call that the corrected Step answers with 12
      throws instead. */
  lemma AsWrittenMissThrows(cache: Cache, receiver: Value, args: seq<Value>)
    ensures StepAsWritten(cache, receiver, args).cache == cache
    ensures !IsHit(cache, args) ==>
              StepAsWritten(cache, receiver, args).result == Err(ReferenceError("context"))
    ensures StepAsWritten(map[], receiver, [Num(3), Num(4)]).result == Err(ReferenceError("context"))
    ensures Step(ClumsyProduct, map[], receiver, [Num(3), Num(4)]).result == Ok(Num(12))
  {
  }

  /** The cache and the number of times `fn` ran after a sequence of calls. */
  datatype RunResult = RunResult(cache: Cache, invocations: nat)

  /** Successive calls of one wrapper, in order. */
  function Run(fn: Behaviour, cache: Cache, calls: seq<Invocation>): RunResult
    decreases |calls|
  {
    if calls == [] then RunResult(cache, 0)
    else
      var before := Run(fn, cache, calls[..|calls| - 1]);
      var last := calls[|calls| - 1];
      var o := Step(fn, before.cache, last.receiver, last.args);
      RunResult(o.cache, before.invocations + if o.invoked then 1 else 0)
  }

  /** The keys whose entries are served from the cache. */
  function HitKeys(cache: Cache): set<seq<Value>> {
    set k | k in cache && Truthy(cache[k])
  }

  /** The argument lists of a sequence of calls. */
  function ArgLists(calls: seq<Invocation>): set<seq<Value>> {
    set i | 0 <= i < |calls| :: calls[i].args
  }

  /** `fn` always returns a truthy value. */
  ghost predicate AlwaysTruthy(fn: Behaviour) {
    forall r, a :: fn(r, a).Ok? && Truthy(fn(r, a).value)
  }

  /** Keys only ever go from absent to present, and a served entry never changes. */
  lemma {:induction false} RunOnlyGrows(fn: Behaviour, cache: Cache, calls: seq<Invocation>)
    ensures cache.Keys <= Run(fn, cache, calls).cache.Keys
    ensures forall k :: k in HitKeys(cache) ==>
              k in HitKeys(Run(fn, cache, calls).cache) && Run(fn, cache, calls).cache[k] == cache[k]
    decreases |calls|
  {
    if calls != [] {
      var before := Run(fn, cache, calls[..|calls| - 1]);
      var last := calls[|calls| - 1];
      RunOnlyGrows(fn, cache, calls[..|calls| - 1]);
      OnlyCurrentKeyWritten(fn, before.cache, last.receiver, last.args);
    }
  }

  /** The wrapped function never runs more often than the wrapper is called. */
  lemma {:induction false} RunInvocationsAtMostCalls(fn: Behaviour, cache: Cache, calls: seq<Invocation>)
    ensures Run(fn, cache, calls).invocations <= |calls|
    decreases |calls|
  {
    if calls != [] {
      RunInvocationsAtMostCalls(fn, cache, calls[..|calls| - 1]);
    }
  }

  lemma ArgListsSnoc(calls: seq<Invocation>, last: Invocation)
    ensures ArgLists(calls + [last]) == ArgLists(calls) + {last.args}
  {
    var all := calls + [last];
    forall k | k in ArgLists(all) ensures k in ArgLists(calls) + {last.args} {
      var i :| 0 <= i < |all| && all[i].args == k;
      if i < |calls| {
        assert all[i] == calls[i];
      }
    }
    forall k | k in ArgLists(calls) ensures k in ArgLists(all) {
      var i :| 0 <= i < |calls| && calls[i].args == k;
      assert all[i] == calls[i];
    }
    assert all[|calls|] == last;
  }

  /** One call seen through HitKeys: a run of `fn` that returns a truthy value adds exactly
      the current key, which was not served before; a hit changes nothing. */
  lemma StepHitKeys(fn: Behaviour, cache: Cache, receiver: Value, args: seq<Value>)
    requires fn(receiver, args).Ok? && Truthy(fn(receiver, args).value)
    ensures var o := Step(fn, cache, receiver, args);
            && (o.invoked ==> args !in HitKeys(cache) && HitKeys(o.cache) == HitKeys(cache) + {args})
            && (!o.invoked ==> o.cache == cache)
  {
  }

  /** When `fn` always returns a truthy value, each run of `fn` adds one new served key, and
      every new served key is the argument list of some call. */
  lemma {:induction false} RunInvocationsAreNewKeys(fn: Behaviour, cache: Cache, calls: seq<Invocation>)
    requires AlwaysTruthy(fn)
    ensures var final := Run(fn, cache, calls);
            && final.invocations == |HitKeys(final.cache) - HitKeys(cache)|
            && HitKeys(final.cache) - HitKeys(cache) <= ArgLists(calls)
    decreases |calls|
  {
    if calls == [] {
      assert HitKeys(cache) - HitKeys(cache) == {};
    } else {
      var prefix := calls[..|calls| - 1];
      var before := Run(fn, cache, prefix);
      var last := calls[|calls| - 1];
      var o := Step(fn, before.cache, last.receiver, last.args);
      RunInvocationsAreNewKeys(fn, cache, prefix);
      RunOnlyGrows(fn, cache, prefix);
      assert calls == prefix + [last];
      ArgListsSnoc(prefix, last);
      StepHitKeys(fn, before.cache, last.receiver, last.args);
      if o.invoked {
        NewKeysGrowByOne(HitKeys(cache), HitKeys(before.cache), HitKeys(o.cache), last.args);
      }
    }
  }

  lemma NewKeysGrowByOne<T>(initial: set<T>, before: set<T>, after: set<T>, x: T)
    requires initial <= before && x !in before && after == before + {x}
    ensures after - initial == (before - initial) + {x}
    ensures |after - initial| == |before - initial| + 1
  {
    assert x !in before - initial;
  }

  /** For all call sequences: when `fn` always returns a truthy value, it runs at most once per
      distinct argument list, whatever the number of calls and their receivers. */
  lemma AtMostOneInvocationPerKey(fn: Behaviour, calls: seq<Invocation>)
    requires AlwaysTruthy(fn)
    ensures Run(fn, map[], calls).invocations <= |ArgLists(calls)|
  {
    RunInvocationsAreNewKeys(fn, map[], calls);
    Seqs.SubsetCard(HitKeys(Run(fn, map[], calls).cache) - HitKeys(map[]), ArgLists(calls));
  }

  /** The closure returned by `myMemoize(fn)`, with its captured cache `res`. The ghost log
      records each time `fn` runs. */
  class Memoized {
    const fn: Behaviour
    var res: Cache
    ghost var log: seq<Invocation>

    /** `myMemoize(fn)`: a new wrapper whose cache is empty and belongs to it alone. */
    constructor (fn: Behaviour)
      ensures this.fn == fn && res == map[] && log == []
    {
      this.fn := fn;
      res := map[];
      log := [];
    }

    /** Calling the wrapper with receiver `receiver` (its `this`) and arguments `args`. */
    method Call(receiver: Value, args: seq<Value>) returns (c: Completion)
      modifies this
      ensures var o := Step(fn, old(res), receiver, args);
              && c == o.result
              && res == o.cache
              && log == old(log) + if o.invoked then [Invocation(receiver, args)] else []
    {
      var argsCache := args;
      if !(argsCache in res && Truthy(res[argsCache])) {
        log := log + [Invocation(receiver, args)];
        var r := fn(receiver, args);
        if r.Err? {
          return r;
        }
        res := res[argsCache := r.value];
      }
      c := Ok(res[argsCache]);
    }
  }
}
