/** decodeAndRun up to the reflective call: the decoded call names a shadow
    method ("avm_" + name), the selector picks it, the decoded arguments are
    converted to its parameter types, and the invocation is checked for
    arity as Method.invoke checks it. */
module Dispatch {
  import opened Base
  import opened JavaStrings
  import opened ABITypes
  import opened DescriptorText
  import opened Payload
  import opened Selector

  /** The prefix the shadowing transformation puts on every user method. */
  const SHADOW_PREFIX: string := "avm_"

  /** The Java primitive types whose parameters receive an unboxed value. */
  const PRIMITIVE_TYPES: set<string> := {"byte", "boolean", "short", "int", "long", "float", "double", "char"}

  /** An argument as handed to Method.invoke: the shadow object itself, or
      the primitive value it holds. */
  datatype Arg = Shadow(value: Value) | Unboxed(value: Value)

  function ConvertOne(pType: string, v: Value): Arg {
    if pType in PRIMITIVE_TYPES then Unboxed(v) else Shadow(v)
  }

  /** convertArguments: nothing when the counts differ; otherwise each
      argument kept in place, unboxed exactly for a primitive parameter. */
  function Converted(parameterTypes: seq<string>, arguments: seq<Value>): (r: Option<seq<Arg>>)
    ensures r.None? <==> |arguments| != |parameterTypes|
    ensures r.Some? ==> |r.value| == |arguments|
    ensures r.Some? ==> forall i :: 0 <= i < |arguments| ==>
      r.value[i].value == arguments[i] && (r.value[i].Unboxed? <==> parameterTypes[i] in PRIMITIVE_TYPES)
  {
    if |arguments| != |parameterTypes| then None
    else Some(seq(|arguments|, i requires 0 <= i < |arguments| => ConvertOne(parameterTypes[i], arguments[i])))
  }

  /** convertArguments as the runtime runs it: a list of the arguments in
      which each primitive parameter's entry is replaced in turn. */
  method ConvertArguments(parameterTypes: seq<string>, arguments: seq<Value>) returns (r: Option<seq<Arg>>)
    ensures r == Converted(parameterTypes, arguments)
  {
    if |arguments| != |parameterTypes| {
      return None;
    }
    var argList: seq<Arg> := seq(|arguments|, i requires 0 <= i < |arguments| => Shadow(arguments[i]));
    for index := 0 to |argList|
      invariant |argList| == |arguments|
      invariant forall k :: 0 <= k < index ==> argList[k] == ConvertOne(parameterTypes[k], arguments[k])
      invariant forall k :: index <= k < |argList| ==> argList[k] == Shadow(arguments[k])
    {
      if parameterTypes[index] in PRIMITIVE_TYPES {
        argList := argList[index := Unboxed(argList[index].value)];
      }
    }
    assert argList == Converted(parameterTypes, arguments).value;
    return Some(argList);
  }

  /** The reflective call decodeAndRun makes: the method, whether it runs on
      the contract object (the receiver is dropped for a static method), and
      the arguments. */
  datatype Invocation = Invocation(target: JavaMethod, onInstance: bool, args: seq<Arg>)

  /** The arguments passed to Method.invoke: none when the call carried no
      argument array or convertArguments gave up. */
  function PassedArgs(target: JavaMethod, arguments: Option<seq<Value>>): seq<Arg> {
    if arguments.None? then []
    else
      var conv := Converted(target.parameterTypes, arguments.value);
      if conv.None? then [] else conv.value
  }

  /** decodeAndRun up to the call. No call (empty data) and no matching
      method dereference null; an argument count that differs from the
      method's is refused by Method.invoke as invalid data. */
  function InvocationOf(reg: Registry, methods: seq<JavaMethod>, txData: Option<seq<byte>>): (r: Result<Invocation>)
    requires reg.MarkersReserved()
    ensures txData.None? || |txData.value| == 0 ==> r == Err(NullDereference)
    ensures r.Ok? ==>
      && CallOf(reg, txData).Ok? && CallOf(reg, txData).value.Some?
      && var caller := CallOf(reg, txData).value.value;
      && r.value.target in methods
      && r.value.target.name == SHADOW_PREFIX + caller.methodName
      && SelectorOf(reg, methods, r.value.target.name, caller.argsDescriptor) == Ok(Some(r.value.target))
      && r.value.onInstance == !r.value.target.isStatic
      && r.value.args == PassedArgs(r.value.target, caller.arguments)
      && |r.value.args| == |r.value.target.parameterTypes|
  {
    var caller :- CallOf(reg, txData);
    if caller.None? then Err(NullDereference)
    else
      var mc := caller.value;
      var selected :- SelectorOf(reg, methods, SHADOW_PREFIX + mc.methodName, mc.argsDescriptor);
      if selected.None? then Err(NullDereference)
      else
        var target := selected.value;
        var args := PassedArgs(target, mc.arguments);
        if |args| != |target.parameterTypes| then Err(InvalidTxData)
        else Ok(Invocation(target, !target.isStatic, args))
  }

  /** A call naming a method the contract does not have fails with a null
      dereference, whatever its arguments. */
  lemma InvocationUnknown(reg: Registry, methods: seq<JavaMethod>, txData: Option<seq<byte>>, caller: MethodCaller)
    requires reg.MarkersReserved() && CallOf(reg, txData) == Ok(Some(caller))
    requires forall k :: 0 <= k < |methods| ==> methods[k].name != SHADOW_PREFIX + caller.methodName
    ensures InvocationOf(reg, methods, txData) == Err(NullDereference)
  {
    SelectorUnnamed(reg, methods, SHADOW_PREFIX + caller.methodName, caller.argsDescriptor);
  }

  /** Data holding only a method name calls the first method of that name
      when it takes no parameters, with no arguments. */
  lemma InvocationWithoutArguments(reg: Registry, methods: seq<JavaMethod>, bytes: seq<byte>, j: nat)
    requires reg.MarkersReserved() && |bytes| > 0 && Unmarked(AsString(bytes))
    requires j < |methods| && methods[j].name == SHADOW_PREFIX + AsString(bytes)
    requires forall k :: 0 <= k < j ==> methods[k].name != SHADOW_PREFIX + AsString(bytes)
    ensures InvocationOf(reg, methods, Some(bytes)) ==
      if |methods[j].parameterTypes| == 0 then Ok(Invocation(methods[j], !methods[j].isStatic, []))
      else Err(NullDereference)
  {
    CallOfWithoutDescriptor(reg, bytes);
    SelectorFirstNamed(reg, methods, SHADOW_PREFIX + AsString(bytes), None, j);
  }

  /** Data written as name<descriptor>payload for a run of shapes calls the
      first method named "avm_" + name when its parameters fit the shapes one
      by one, with the decoded payload converted to its parameter types. */
  lemma InvocationEncoded(reg: Registry, methods: seq<JavaMethod>, bytes: seq<byte>, name: string, ts: seq<Token>, argData: seq<byte>, j: nat)
    requires reg.MarkersReserved() && AllWellFormed(ts) && |ts| > 0 && Unmarked(name)
    requires AsString(bytes) == name + "<" + RenderAll(ts) + ">" + AsString(argData)
    requires j < |methods| && methods[j].name == SHADOW_PREFIX + name
    requires forall k :: 0 <= k < j ==> methods[k].name != SHADOW_PREFIX + name
    ensures InvocationOf(reg, methods, Some(bytes)) ==
      var vs :- ValuesAt(reg, argData, 0, DescriptorsOf(reg, ts));
      var params := methods[j].parameterTypes;
      if |params| == |ts| && FitsFrom(reg, ts, params, 0)
      then Ok(Invocation(methods[j], !methods[j].isStatic, Converted(params, vs.0).value))
      else Err(NullDereference)
  {
    var desc := RenderAll(ts);
    CallOfEncoded(reg, bytes, name, ts, argData);
    SelectorFirstNamed(reg, methods, SHADOW_PREFIX + name, Some(desc), j);
    ParamsMatchRendered(reg, methods[j].parameterTypes, ts);
  }
}
