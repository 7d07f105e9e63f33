/** Runtime type guards: `assertTypeOf(value, ...types)` and
    `assertInstanceOf(value, constructor)`. */
module Assertions {
  import opened Js

  /** The names `typeof` can produce that a caller may ask for (not "function"). */
  datatype RuntimeType = TString | TNumber | TBigint | TBoolean | TSymbol | TUndefined | TObject
  {
    function Name(): string {
      match this
      case TString => "string"
      case TNumber => "number"
      case TBigint => "bigint"
      case TBoolean => "boolean"
      case TSymbol => "symbol"
      case TUndefined => "undefined"
      case TObject => "object"
    }
  }

  /** `types.some((t) => typeof value === t)` */
  predicate Matches(v: JsValue, types: seq<RuntimeType>) {
    exists i :: 0 <= i < |types| && types[i].Name() == TypeOf(v)
  }

  /** The listed type names joined by " | ". */
  function JoinNames(types: seq<RuntimeType>): string
    decreases |types|
  {
    if |types| == 0 then ""
    else if |types| == 1 then types[0].Name()
    else types[0].Name() + " | " + JoinNames(types[1..])
  }

  /** The `TypeError` thrown for a value of none of the listed types.  Building
      the message converts the value to a string, which itself throws a
      `TypeError` for a symbol. */
  function TypeOfFailure(v: JsValue, types: seq<RuntimeType>): (e: Exception)
    ensures e.TypeError?
    ensures !v.Symbol? ==> e.message == "Expected '" + JoinNames(types) + "', got '" + ToStr(v).value + "'"
  {
    match ToStr(v)
    case Normal(text) => TypeError("Expected '" + JoinNames(types) + "', got '" + text + "'")
    case Throw(conversion) => conversion
  }

  /** `assertTypeOf(value, ...types)`. */
  function AssertTypeOf(v: JsValue, types: seq<RuntimeType>): (c: Completion<()>)
    ensures c.Normal? <==> exists i :: 0 <= i < |types| && types[i].Name() == TypeOf(v)
    ensures c.Throw? ==> c.exc == TypeOfFailure(v, types) && c.exc.TypeError?
  {
    if Matches(v, types) then Normal(()) else Throw(TypeOfFailure(v, types))
  }

  /** `assertInstanceOf(value, constructor)`; `ctorText` is `String(constructor)`. */
  function AssertInstanceOf(v: JsValue, ctor: nat, ctorText: string): (c: Completion<()>)
    ensures c.Normal? <==> (v.Object? || v.Function?) && ctor in v.protos
    ensures c.Throw? ==> c.exc.TypeError?
  {
    if InstanceOf(v, ctor) then Normal(())
    else
      match ToStr(v)
      case Normal(text) => Throw(TypeError("Expected instance of '" + ctorText + "', got '" + text + "'"))
      case Throw(conversion) => Throw(conversion)
  }

  /** With no listed type, every value is rejected. */
  lemma EmptyTypesAlwaysThrow(v: JsValue)
    ensures AssertTypeOf(v, []).Throw?
  {
  }

  /** `null` passes as "object", as does every object; functions do not. */
  lemma NullIsObject()
    ensures AssertTypeOf(Null, [TObject]) == Normal(())
    ensures forall p, t :: AssertTypeOf(Object(p, t), [TObject]) == Normal(())
    ensures forall p, t :: AssertTypeOf(Function(p, t), [TObject]).Throw?
  {
    assert [TObject][0].Name() == "object";
  }

  /** The outcome depends only on the set of listed types, not on their order
      or repetition. */
  lemma {:induction false} OrderIrrelevant(v: JsValue, types1: seq<RuntimeType>, types2: seq<RuntimeType>)
    requires forall t :: t in types1 <==> t in types2
    ensures AssertTypeOf(v, types1).Normal? == AssertTypeOf(v, types2).Normal?
  {
    if Matches(v, types1) {
      var i :| 0 <= i < |types1| && types1[i].Name() == TypeOf(v);
      assert types1[i] in types2;
      var j :| 0 <= j < |types2| && types2[j] == types1[i];
    }
    if Matches(v, types2) {
      var i :| 0 <= i < |types2| && types2[i].Name() == TypeOf(v);
      assert types2[i] in types1;
      var j :| 0 <= j < |types1| && types1[j] == types2[i];
    }
  }

  /** The failure message lists the types in the order given, joined by " | ". */
  lemma FailureMessageListsTypes()
    ensures JoinNames([TNumber, TBigint, TString]) == "number | bigint | string"
  {
    var ts := [TNumber, TBigint, TString];
    assert ts[1..] == [TBigint, TString] && ts[2..] == [TString];
    assert JoinNames([TString]) == "string";
    assert JoinNames([TBigint, TString]) == "bigint | string";
  }
}
