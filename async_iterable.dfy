/** `map` and `collect` over async iterables.  An async iterable is modelled
    by a generator object: it answers `next()` from a finite trace of yielded
    values followed by a return value, and its `[Symbol.asyncIterator]()` is
    the object itself, as for every generator. */
module AsyncIterable {
  import opened Js

  /** What a `next()` call resolves to: `{done: false, value}`, or
      `{done: true, value}` where the value is the return value, or undefined
      (`None`) once the generator has already returned. */
  datatype IterResult<T, R> = Yield(value: T) | Done(result: Option<R>)

  /** Everything an async iterable produces: the yielded values in order and
      the value it returns at the end. */
  datatype Trace<T, R> = Trace(yielded: seq<T>, result: R)

  /** The answer to the `k`-th `next()` call (counting from 0) on a fresh
      generator with trace `t`. */
  function Step<T, R>(t: Trace<T, R>, k: nat): IterResult<T, R>
  {
    if k < |t.yielded| then Yield(t.yielded[k])
    else if k == |t.yielded| then Done(Some(t.result))
    else Done(None)
  }

  /** The trace of `map(iterable, callback)` over an iterable with trace `t`. */
  function MapTrace<T, U, R>(t: Trace<T, R>, callback: T -> U): (r: Trace<U, R>)
    ensures |r.yielded| == |t.yielded|
    ensures r.result == t.result
  {
    Trace(seq(|t.yielded|, i requires 0 <= i < |t.yielded| => callback(t.yielded[i])), t.result)
  }

  /** How `map` turns one answer of its source into its own answer. */
  function MapResult<T, U, R>(r: IterResult<T, R>, callback: T -> U): IterResult<U, R>
  {
    match r
    case Yield(v) => Yield(callback(v))
    case Done(x) => Done(x)
  }

  /** The mapped trace yields `callback(v)` for each yielded `v`, in order, and
      returns the same value. */
  lemma MapTraceElements<T, U, R>(t: Trace<T, R>, callback: T -> U)
    ensures forall i :: 0 <= i < |t.yielded| ==> MapTrace(t, callback).yielded[i] == callback(t.yielded[i])
    ensures MapTrace(t, callback).result == t.result
  {
  }

  /** Answer by answer, mapping the source's answers is the same as answering
      from the mapped trace. */
  lemma MapStepAgrees<T, U, R>(t: Trace<T, R>, callback: T -> U, k: nat)
    ensures MapResult(Step(t, k), callback) == Step(MapTrace(t, callback), k)
  {
  }

  /** Mapping twice is mapping once with the composed callback. */
  lemma {:induction false} MapTraceCompose<T, U, V, R>(t: Trace<T, R>, f: T -> U, g: U -> V)
    ensures MapTrace(MapTrace(t, f), g) == MapTrace(t, x => g(f(x)))
  {
    var lhs := MapTrace(MapTrace(t, f), g);
    var rhs := MapTrace(t, x => g(f(x)));
    assert |lhs.yielded| == |rhs.yielded|;
    forall i | 0 <= i < |lhs.yielded|
      ensures lhs.yielded[i] == rhs.yielded[i]
    {
      MapTraceElements(t, f);
      MapTraceElements(MapTrace(t, f), g);
      MapTraceElements(t, x => g(f(x)));
    }
  }

  /** A generator object over a finite trace. */
  class Generator<T, R> {
    const trace: Trace<T, R>
    /** How many `next()` calls have been answered. */
    var pos: nat

    constructor (trace: Trace<T, R>)
      ensures this.trace == trace && pos == 0
    {
      this.trace := trace;
      pos := 0;
    }

    /** `[Symbol.asyncIterator]()`: a generator is its own iterator, so every
        call continues where the previous one left off. */
    function AsyncIterator(): (it: Generator<T, R>)
      ensures it == this
    {
      this
    }

    /** `next()`: the next answer of the trace. */
    method Next() returns (r: IterResult<T, R>)
      modifies this`pos
      ensures r == Step(trace, old(pos))
      ensures pos == old(pos) + 1
    {
      r := Step(trace, pos);
      pos := pos + 1;
    }
  }

  /** `collect(iterable)`: pull until `done`, pushing every yielded value.
      On a fresh generator the entries are all yielded values in order and the
      result is the return value; on one that already returned, nothing is
      collected and the result is undefined. */
  method Collect<T, R>(iterable: Generator<T, R>) returns (entries: seq<T>, result: Option<R>)
    modifies iterable
    ensures old(iterable.pos) <= |iterable.trace.yielded| ==>
      entries == iterable.trace.yielded[old(iterable.pos)..] && result == Some(iterable.trace.result)
    ensures old(iterable.pos) > |iterable.trace.yielded| ==> entries == [] && result == None
    ensures iterable.pos == if old(iterable.pos) <= |iterable.trace.yielded|
      then |iterable.trace.yielded| + 1 else old(iterable.pos) + 1
  {
    var start := iterable.pos;
    var n := |iterable.trace.yielded|;
    entries := [];
    while true
      invariant start <= iterable.pos
      invariant start <= n ==> iterable.pos <= n && entries == iterable.trace.yielded[start..iterable.pos]
      invariant start > n ==> iterable.pos == start && entries == []
      decreases n + 1 - iterable.pos
    {
      var it := iterable.AsyncIterator();
      var r := it.Next();
      if r.Done? {
        return entries, r.result;
      }
      entries := entries + [r.value];
    }
  }

  /** The async generator `map(iterable, callback)`: each `next()` pulls one
      answer from the source and yields `callback(value)`, or returns the
      source's `done` value and is finished from then on. */
  class Mapped<T, U, R> {
    const source: Generator<T, R>
    const callback: T -> U
    var finished: bool

    constructor (source: Generator<T, R>, callback: T -> U)
      ensures this.source == source && this.callback == callback && !finished
    {
      this.source := source;
      this.callback := callback;
      finished := false;
    }

    method Next() returns (r: IterResult<U, R>)
      modifies this`finished, source`pos
      ensures old(finished) ==> r == Done(None) && source.pos == old(source.pos) && finished
      ensures !old(finished) ==>
        && source.pos == old(source.pos) + 1
        && r == Step(MapTrace(source.trace, callback), old(source.pos))
        && (finished <==> r.Done?)
    {
      if finished {
        return Done(None);
      }
      var it := source.AsyncIterator();
      var answer := it.Next();
      MapStepAgrees(source.trace, callback, old(source.pos));
      match answer {
        case Done(value) =>
          finished := true;
          r := Done(value);
        case Yield(value) =>
          r := Yield(callback(value));
      }
    }
  }

  /** `map` yields exactly as many values as its source: on a fresh source,
      the mapped answers are yields for the first `|yielded|` calls and `done`
      with the same return value on the next. */
  lemma MapKeepsCount<T, U, R>(t: Trace<T, R>, callback: T -> U)
    ensures forall k: nat :: k < |t.yielded| ==> Step(MapTrace(t, callback), k).Yield?
    ensures Step(MapTrace(t, callback), |t.yielded|) == Done(Some(t.result))
  {
  }
}
