// stub_body of tools/gen_stubs.py: the body generated for one unimplemented export, as a statement list.
module Stubs {
  import opened Wrappers
  import opened Sequences
  import opened Text
  import opened Params
  import opened StubParams
  import opened NotificationNames

  datatype Mode = Sync | Async

  // The API version handed to the trace: zero, or the ApiVersion of an options parameter.
  datatype Version = Zero | VersionOf(param: string)

  datatype Statement =
    | Trace(name: string, version: Version, mode: Mode)
    | Unused(param: string)
    | InitOutput(param: string, pointee: string)
    | Complete(clientData: string, delegate: string, info: string)
    | AddNotification(delegate: string, info: string, event: string)
    | RemoveNotification(last: Option<string>)
    | TraceReturn(shape: string)
    | Return(value: string)

  datatype Delegate = Delegate(param: string, info: string)

  const NOTIFICATION_ID := "EOS_NotificationId"

  function DelegateOf(p: string, info: string): Option<Delegate> {
    if ParamName(p).Some? && info != "" then Some(Delegate(ParamName(p).value, info)) else None
  }

  // The first parameter of a known delegate type; unusable when it has no name.
  function FirstDelegate(params: seq<string>, delegates: map<string, string>): Option<Delegate> {
    if params == [] then None
    else if DelegateType(params[0]) in delegates then
      DelegateOf(params[0], delegates[DelegateType(params[0])])
    else FirstDelegate(params[1..], delegates)
  }

  // The version of the first named options parameter.
  function ApiVersion(params: seq<string>): (v: Version)
    ensures v.VersionOf? ==> v.param in Names(params)
  {
    if params == [] then Zero
    else if ParamName(params[0]).Some? && TakesOptions(params[0]) then VersionOf(ParamName(params[0]).value)
    else ApiVersion(params[1..])
  }

  function Names(params: seq<string>): set<string> {
    set p | p in params && ParamName(p).Some? :: ParamName(p).value
  }

  function UnusedAll(params: seq<string>): (body: seq<Statement>)
    ensures forall s :: s in body ==> s.Unused?
    ensures forall n :: Unused(n) in body <==> n in Names(params)
  {
    if params == [] then []
    else
      assert params == [params[0]] + params[1..];
      (if ParamName(params[0]).Some? then [Unused(ParamName(params[0]).value)] else []) + UnusedAll(params[1..])
  }

  function Initializer(p: string): Statement
    requires IsOutput(p)
  {
    InitOutput(ParamName(p).value, Pointee(ParamType(p)))
  }

  function Initializers(params: seq<string>): (body: seq<Statement>)
    ensures forall s :: s in body ==> s.InitOutput?
  {
    if params == [] then []
    else (if IsOutput(params[0]) then [Initializer(params[0])] else []) + Initializers(params[1..])
  }

  // The output parameters, in order.
  function Outputs(params: seq<string>): (outputs: seq<string>)
    ensures forall p :: p in outputs <==> p in params && IsOutput(p)
  {
    if params == [] then []
    else
      assert params == [params[0]] + params[1..];
      (if IsOutput(params[0]) then [params[0]] else []) + Outputs(params[1..])
  }

  lemma {:induction false} OutputsConcat(params: seq<string>, more: seq<string>)
    ensures Outputs(params + more) == Outputs(params) + Outputs(more)
  {
    hide IsOutput;
    if params == [] {
      assert params + more == more;
    } else {
      assert (params + more)[1..] == params[1..] + more;
      OutputsConcat(params[1..], more);
      Associative(if IsOutput(params[0]) then [params[0]] else [], Outputs(params[1..]), Outputs(more));
    }
  }

  // One initialiser an output parameter, in the order of the signature.
  lemma {:induction false} InitializersInOrder(params: seq<string>)
    ensures |Initializers(params)| == |Outputs(params)|
    ensures forall k :: 0 <= k < |Outputs(params)| ==>
              && IsOutput(Outputs(params)[k])
              && Initializers(params)[k]
                   == InitOutput(ParamName(Outputs(params)[k]).value, Pointee(ParamType(Outputs(params)[k])))
  {
    hide ParamName, ParamType, Pointee, EndsWith, Without;
    InitializersMap(params);
    forall k | 0 <= k < |Outputs(params)| ensures IsOutput(Outputs(params)[k]) {
      assert Outputs(params)[k] in Outputs(params);
    }
  }

  lemma {:induction false} InitializersMap(params: seq<string>)
    ensures |Initializers(params)| == |Outputs(params)|
    ensures forall k :: 0 <= k < |Outputs(params)| ==>
              IsOutput(Outputs(params)[k]) && Initializers(params)[k] == Initializer(Outputs(params)[k])
  {
    hide IsOutput, Initializer;
    if params != [] {
      InitializersMap(params[1..]);
      forall k | 0 <= k < |Outputs(params)|
        ensures IsOutput(Outputs(params)[k]) && Initializers(params)[k] == Initializer(Outputs(params)[k]) {
        var first := if IsOutput(params[0]) then 1 else 0;
        if k >= first { assert Outputs(params)[k] == Outputs(params[1..])[k - first]; }
      }
    }
  }

  // output_initializers
  method OutputInitializers(params: seq<string>) returns (body: seq<Statement>)
    ensures body == Initializers(params)
  {
    hide IsOutput, Initializer;
    body := [];
    for i := 0 to |params|
      invariant body + Initializers(params[i..]) == Initializers(params)
    {
      assert params[i..][1..] == params[i + 1..];
      var line := if IsOutput(params[i]) then [Initializer(params[i])] else [];
      Associative(body, line, Initializers(params[i + 1..]));
      body := body + line;
    }
    assert body + [] == body;
  }

  // The trace shape and value a non-void return type answers with; None where the generator gives up.
  function Answer(ret: string): Option<(string, string)> {
    if ret == "EOS_EResult" then Some(("not_implemented", "EOS_EResult::EOS_NotImplemented"))
    else if ret == "EOS_Bool" then Some(("bool", "EOS_FALSE"))
    else if ret in {"const char*", "double", "float"} then None
    else if ret in {"uint32_t", "int32_t", "uint64_t", "int64_t"} then Some(("count", "0"))
    else Some(("null_handle", "NULL"))
  }

  // What a known delegate asks for, beside notification ids.
  predicate Completes(ret: string, delegate: Option<Delegate>) {
    delegate.Some? && ret != NOTIFICATION_ID
  }

  // The trace scope, the unused parameters and the output initialisers.
  function Opening(name: string, ret: string, params: seq<string>, delegate: Option<Delegate>): seq<Statement> {
    [Trace(name, ApiVersion(params), if Completes(ret, delegate) then Async else Sync)]
    + (if ret == "void" && delegate.None? && Contains(name, "RemoveNotify") && params != [] then
         UnusedAll(params[..|params| - 1])
       else if ret == NOTIFICATION_ID then UnusedAll(params)
       else UnusedAll(params) + Initializers(params))
  }

  // The call that reports a completion through a known delegate.
  function Completion(params: seq<string>, delegate: Option<Delegate>): seq<Statement> {
    if delegate.None? then []
    else [Complete(ClientDataIn(params), delegate.value.param, delegate.value.info)]
  }

  function ClientDataIn(params: seq<string>): string {
    if "ClientData" in Names(params) then "ClientData" else "NULL"
  }

  // The completion or notification call and the return; None where the generator raises.
  function Closing(name: string, ret: string, params: seq<string>, delegate: Option<Delegate>, event: string):
    Option<seq<Statement>>
  {
    var complete := Completion(params, delegate);
    if ret == NOTIFICATION_ID then
      if delegate.Some? then
        Some([AddNotification(delegate.value.param, delegate.value.info, event),
              TraceReturn("notification"), Return("eosr_id")])
      else Some([TraceReturn("null_notification_id"), Return("EOS_INVALID_NOTIFICATIONID")])
    else if ret == "void" then
      Some(if delegate.None? && Contains(name, "RemoveNotify") && params != [] then
             [RemoveNotification(ParamName(params[|params| - 1]))]
           else complete)
    else if Answer(ret).None? then None
    else Some(complete + [TraceReturn(Answer(ret).value.0), Return(Answer(ret).value.1)])
  }

  function Body(name: string, ret: string, params: seq<string>, delegate: Option<Delegate>, event: string):
    Option<seq<Statement>>
  {
    match Closing(name, ret, params, delegate, event)
    case None => None
    case Some(closing) => Some(Opening(name, ret, params, delegate) + closing)
  }

  // Parameter `i` is the first named options parameter, or there is none.
  lemma {:induction false} ApiVersionIs(params: seq<string>, i: nat)
    requires i <= |params| && (i < |params| ==> ParamName(params[i]).Some? && TakesOptions(params[i]))
    requires forall j :: 0 <= j < i ==> ParamName(params[j]).None? || !TakesOptions(params[j])
    ensures ApiVersion(params) == if i == |params| then Zero else VersionOf(ParamName(params[i]).value)
  {
    hide ParamName, TakesOptions;
    if i > 0 { ApiVersionIs(params[1..], i - 1); }
  }

  // api_version_expression
  method FindApiVersion(params: seq<string>) returns (v: Version)
    ensures v == ApiVersion(params)
  {
    hide TakesOptions, ParamName;
    for i := 0 to |params|
      invariant ApiVersion(params[i..]) == ApiVersion(params)
    {
      assert params[i..][1..] == params[i + 1..];
      if ParamName(params[i]).Some? && TakesOptions(params[i]) { return VersionOf(ParamName(params[i]).value); }
    }
    v := Zero;
  }

  // Parameter `i` is the first of a known delegate type, or there is none.
  lemma {:induction false} FirstDelegateIs(params: seq<string>, delegates: map<string, string>, i: nat)
    requires i <= |params| && (i < |params| ==> DelegateType(params[i]) in delegates)
    requires forall j :: 0 <= j < i ==> DelegateType(params[j]) !in delegates
    ensures FirstDelegate(params, delegates) ==
              if i == |params| || ParamName(params[i]).None? || delegates[DelegateType(params[i])] == "" then None
              else Some(Delegate(ParamName(params[i]).value, delegates[DelegateType(params[i])]))
  {
    hide ParamName, DelegateType;
    if i > 0 { FirstDelegateIs(params[1..], delegates, i - 1); }
  }

  // The search at the head of stub_body.
  method FindDelegate(params: seq<string>, delegates: map<string, string>) returns (delegate: Option<Delegate>)
    ensures delegate == FirstDelegate(params, delegates)
  {
    hide ParamName, DelegateType;
    for i := 0 to |params|
      invariant FirstDelegate(params[i..], delegates) == FirstDelegate(params, delegates)
    {
      assert params[i..][1..] == params[i + 1..];
      var kind := DelegateType(params[i]);
      if kind in delegates { return DelegateOf(params[i], delegates[kind]); }
    }
    delegate := None;
  }

  // stub_body, for the newline-free names the header scan yields; None is the ValueError for a return type
  // without a trace shape.
  method StubBody(name: string, ret: string, params: seq<string>, delegates: map<string, string>)
    returns (body: Option<seq<Statement>>)
    requires '\n' !in name
    ensures body.None? <==> ret in {"const char*", "double", "float"}
    ensures body.Some? ==>
              Disciplined(name, ret, params, FirstDelegate(params, delegates), EventName(name), body.value)
    ensures body == Body(name, ret, params, FirstDelegate(params, delegates), EventName(name))
  {
    hide Disciplined, ApiVersion, Contains, ParamName, UnusedAll, Initializers;
    var delegate := FindDelegate(params, delegates);
    BodiesAreDisciplined(name, ret, params, delegate, EventName(name));
    var version := FindApiVersion(params);
    var traced := [Trace(name, version, if Completes(ret, delegate) then Async else Sync)];
    var begin := traced + UnusedAll(params);
    var initialize := OutputInitializers(params);
    Associative(traced, UnusedAll(params), initialize);
    var complete := Completion(params, delegate);

    if ret == NOTIFICATION_ID {
      if delegate.None? {
        return Some(begin + [TraceReturn("null_notification_id"), Return("EOS_INVALID_NOTIFICATIONID")]);
      }
      var event := NotificationEvent(name);
      return Some(begin + [AddNotification(delegate.value.param, delegate.value.info, event),
                           TraceReturn("notification"), Return("eosr_id")]);
    }
    if ret == "void" {
      if delegate.None? && Contains(name, "RemoveNotify") && params != [] {
        var others, last := params[..|params| - 1], params[|params| - 1];
        return Some(traced + UnusedAll(others) + [RemoveNotification(ParamName(last))]);
      }
      return Some(begin + initialize + complete);
    }
    var answer := Answer(ret);
    if answer.None? { return None; }
    body := Some(begin + initialize + (complete + [TraceReturn(answer.value.0), Return(answer.value.1)]));
  }

  /******* What every generated body keeps *******/

  function Completions(body: seq<Statement>): nat {
    if body == [] then 0 else (if body[0].Complete? then 1 else 0) + Completions(body[1..])
  }

  function Returns(body: seq<Statement>): nat {
    if body == [] then 0 else (if body[0].Return? then 1 else 0) + Returns(body[1..])
  }

  function Inits(body: seq<Statement>): seq<Statement> {
    if body == [] then [] else (if body[0].InitOutput? then [body[0]] else []) + Inits(body[1..])
  }

  lemma {:induction false} CountsConcat(a: seq<Statement>, b: seq<Statement>)
    ensures Completions(a + b) == Completions(a) + Completions(b)
    ensures Returns(a + b) == Returns(a) + Returns(b)
  {
    if a == [] {
      assert a + b == b;
    } else {
      assert (a + b)[1..] == a[1..] + b;
      CountsConcat(a[1..], b);
    }
  }

  lemma {:induction false} InitsConcat(a: seq<Statement>, b: seq<Statement>)
    ensures Inits(a + b) == Inits(a) + Inits(b)
  {
    if a == [] {
      assert a + b == b;
    } else {
      assert (a + b)[1..] == a[1..] + b && (a + b)[0] == a[0];
      InitsConcat(a[1..], b);
      Associative(if a[0].InitOutput? then [a[0]] else [], Inits(a[1..]), Inits(b));
    }
  }

  lemma {:induction false} NoInits(body: seq<Statement>)
    requires forall s :: s in body ==> !s.InitOutput?
    ensures Inits(body) == []
  {
    if body != [] {
      assert body[0] in body;
      NoInits(body[1..]);
    }
  }

  lemma {:induction false} OnlyInits(body: seq<Statement>)
    requires forall s :: s in body ==> s.InitOutput?
    ensures Inits(body) == body
  {
    if body != [] {
      assert body[0] in body;
      OnlyInits(body[1..]);
    }
  }

  lemma {:induction false} NothingCounted(body: seq<Statement>)
    requires forall s :: s in body ==> s.Unused? || s.InitOutput? || s.Trace?
    ensures Completions(body) == 0 && Returns(body) == 0
  {
    if body != [] {
      assert body[0] in body;
      NothingCounted(body[1..]);
    }
  }

  // Values that report nothing; none of them is made up.
  const HONEST := {"EOS_EResult::EOS_NotImplemented", "EOS_FALSE", "0", "NULL", "EOS_INVALID_NOTIFICATIONID"}

  // A remove-notification stub, which forwards its last parameter.
  predicate Removes(name: string, ret: string, params: seq<string>, delegate: Option<Delegate>) {
    ret == "void" && delegate.None? && Contains(name, "RemoveNotify") && params != []
  }

  // Calls only go where the signature asks for them, and with the delegate found there; a completion gets the
  // caller's own ClientData wherever the signature has it.
  ghost predicate Calls(name: string, ret: string, params: seq<string>, delegate: Option<Delegate>, event: string,
                        s: Statement)
  {
    match s
    case Complete(clientData, param, info) =>
      && delegate == Some(Delegate(param, info))
      && ((exists p :: p in params && ParamName(p) == Some("ClientData")) ==> clientData == "ClientData")
      && ((forall p :: p in params ==> ParamName(p) != Some("ClientData")) ==> clientData == "NULL")
    case AddNotification(param, info, e) =>
      ret == "EOS_NotificationId" && delegate == Some(Delegate(param, info)) && e == event
    case RemoveNotification(last) =>
      Removes(name, ret, params, delegate) && last == ParamName(params[|params| - 1])
    case Return(value) => value in HONEST || (value == "eosr_id" && ret == "EOS_NotificationId" && delegate.Some?)
    case _ => true
  }

  predicate InitsOutputs(name: string, ret: string, params: seq<string>, delegate: Option<Delegate>) {
    ret != "EOS_NotificationId" && !Removes(name, ret, params, delegate)
  }

  // `body` ends by tracing a return of this shape and returning this value.
  predicate Ends(body: seq<Statement>, shape: string, value: string) {
    |body| > 1 && body[|body| - 2] == TraceReturn(shape) && body[|body| - 1] == Return(value)
  }

  // What each return type answers: not implemented, false, zero, a null handle, or the id of a notification.
  ghost predicate EndsHonestly(ret: string, delegate: Option<Delegate>, body: seq<Statement>) {
    if ret == "void" then true
    else if ret == "EOS_EResult" then Ends(body, "not_implemented", "EOS_EResult::EOS_NotImplemented")
    else if ret == "EOS_Bool" then Ends(body, "bool", "EOS_FALSE")
    else if ret in {"uint32_t", "int32_t", "uint64_t", "int64_t"} then Ends(body, "count", "0")
    else if ret != "EOS_NotificationId" then Ends(body, "null_handle", "NULL")
    else if delegate.None? then Ends(body, "null_notification_id", "EOS_INVALID_NOTIFICATIONID")
    else
      && Ends(body, "notification", "eosr_id") && |body| > 2
      && body[|body| - 3].AddNotification?
  }

  ghost predicate Disciplined(name: string, ret: string, params: seq<string>, delegate: Option<Delegate>, event: string,
                              body: seq<Statement>)
  {
    // One completion call where one is due, none anywhere else, and the trace scope says so.
    && Completions(body) == (if delegate.Some? && ret != "EOS_NotificationId" then 1 else 0)
    && |body| > 0
    && body[0] == Trace(name, ApiVersion(params), if delegate.Some? && ret != "EOS_NotificationId" then Async else Sync)
    // Outputs are initialised before the callback can look at them.
    && (forall i, j :: 0 <= i < j < |body| && body[i].Complete? ==> !body[j].InitOutput?)
    // Every output once and in order, but for notifications and removals, which have none to report.
    && Inits(body) == (if InitsOutputs(name, ret, params, delegate) then Initializers(params) else [])
    // A non-void body returns once, at its end, right after tracing the return; a void body never does.
    && Returns(body) == (if ret == "void" then 0 else 1)
    && (ret != "void" ==> |body| > 1 && body[|body| - 1].Return? && body[|body| - 2].TraceReturn?)
    && EndsHonestly(ret, delegate, body)
    && (Removes(name, ret, params, delegate) ==> body[|body| - 1].RemoveNotification?)
    && (forall s :: s in body ==> Calls(name, ret, params, delegate, event, s))
    // Every named parameter is used.
    && (forall n :: n in Names(params) ==> Unused(n) in body || RemoveNotification(Some(n)) in body)
  }

  lemma OpeningIsQuiet(name: string, ret: string, params: seq<string>, delegate: Option<Delegate>)
    ensures var opening := Opening(name, ret, params, delegate);
            && |opening| > 0
            && opening[0] == Trace(name, ApiVersion(params), if Completes(ret, delegate) then Async else Sync)
            && Completions(opening) == 0 && Returns(opening) == 0
            && (forall s :: s in opening ==> s.Trace? || s.Unused? || s.InitOutput?)
            && Inits(opening) == (if InitsOutputs(name, ret, params, delegate) then Initializers(params) else [])
            && (forall n :: n in Names(params) ==>
                  || Unused(n) in opening
                  || (Removes(name, ret, params, delegate) && ParamName(params[|params| - 1]) == Some(n)))
  {
    hide ApiVersion, Contains, ParamName, ParamType, Initializers, UnusedAll, Completions, Returns, Inits;
    var opening := Opening(name, ret, params, delegate);
    NothingCounted(opening);
    OpeningInits(name, ret, params, delegate);
    if Removes(name, ret, params, delegate) {
      assert params == params[..|params| - 1] + [params[|params| - 1]];
    }
  }

  lemma OpeningInits(name: string, ret: string, params: seq<string>, delegate: Option<Delegate>)
    ensures Inits(Opening(name, ret, params, delegate))
              == if InitsOutputs(name, ret, params, delegate) then Initializers(params) else []
  {
    hide ApiVersion, Contains, ParamName, Inits, Names, Initializers, UnusedAll;
    var opening := Opening(name, ret, params, delegate);
    if InitsOutputs(name, ret, params, delegate) {
      var quiet := opening[..1] + UnusedAll(params);
      NoInits(quiet);
      OnlyInits(Initializers(params));
      InitsConcat(quiet, Initializers(params));
      assert opening == quiet + Initializers(params);
    } else {
      NoInits(opening);
    }
  }

  lemma ClosingCounts(name: string, ret: string, params: seq<string>, delegate: Option<Delegate>, event: string)
    requires Closing(name, ret, params, delegate, event).Some?
    ensures var closing := Closing(name, ret, params, delegate, event).value;
            && Completions(closing) == (if Completes(ret, delegate) then 1 else 0)
            && Returns(closing) == (if ret == "void" then 0 else 1)
  {
    hide Answer, Contains, ParamName, Names;
    var closing := Closing(name, ret, params, delegate, event).value;
    if |closing| > 1 { CountPair(closing[|closing| - 2], closing[|closing| - 1]); }
    if |closing| == 2 { assert closing == [closing[0], closing[1]]; }
    if |closing| == 3 {
      CountsConcat([closing[0]], [closing[1], closing[2]]);
      assert closing == [closing[0]] + [closing[1], closing[2]];
    }
  }

  lemma ClientDataOf(params: seq<string>)
    ensures (exists p :: p in params && ParamName(p) == Some("ClientData")) ==> ClientDataIn(params) == "ClientData"
    ensures (forall p :: p in params ==> ParamName(p) != Some("ClientData")) ==> ClientDataIn(params) == "NULL"
  {
    hide ParamName;
  }

  lemma EndsConcat(opening: seq<Statement>, closing: seq<Statement>, ret: string, delegate: Option<Delegate>)
    requires EndsHonestly(ret, delegate, closing)
    ensures EndsHonestly(ret, delegate, opening + closing)
  {
    var body := opening + closing;
    assert forall i :: 0 <= i < |closing| ==> body[|opening| + i] == closing[i];
  }

  lemma ClosingEnds(name: string, ret: string, params: seq<string>, delegate: Option<Delegate>, event: string)
    requires Closing(name, ret, params, delegate, event).Some?
    ensures var closing := Closing(name, ret, params, delegate, event).value;
            && (forall s :: s in closing ==> !s.InitOutput? && Calls(name, ret, params, delegate, event, s))
            && EndsHonestly(ret, delegate, closing)
            && (ret != "void" ==>
                  |closing| > 1 && closing[|closing| - 1].Return? && closing[|closing| - 2].TraceReturn?)
            && (Removes(name, ret, params, delegate) ==>
                  closing == [RemoveNotification(ParamName(params[|params| - 1]))])
  {
    hide Contains, ParamName, Names, ClientDataIn;
    ClientDataOf(params);
  }

  lemma QuietCalls(name: string, ret: string, params: seq<string>, delegate: Option<Delegate>, event: string,
                   opening: seq<Statement>)
    requires forall s :: s in opening ==> s.Trace? || s.Unused? || s.InitOutput?
    ensures forall s :: s in opening ==> Calls(name, ret, params, delegate, event, s)
  {
  }

  lemma CompletionsComeLast(opening: seq<Statement>, closing: seq<Statement>)
    requires forall s :: s in opening ==> !s.Complete?
    requires forall s :: s in closing ==> !s.InitOutput?
    ensures var body := opening + closing;
            forall i, j :: 0 <= i < j < |body| && body[i].Complete? ==> !body[j].InitOutput?
  {
  }

  lemma CountPair(a: Statement, b: Statement)
    ensures Completions([a, b]) == Completions([a]) + Completions([b])
    ensures Returns([a, b]) == Returns([a]) + Returns([b])
  {
  }

  lemma NamesAreUsed(name: string, ret: string, params: seq<string>, delegate: Option<Delegate>,
                     opening: seq<Statement>, closing: seq<Statement>)
    requires Removes(name, ret, params, delegate) ==> closing == [RemoveNotification(ParamName(params[|params| - 1]))]
    requires forall n :: n in Names(params) ==>
               || Unused(n) in opening
               || (Removes(name, ret, params, delegate) && ParamName(params[|params| - 1]) == Some(n))
    ensures forall n :: n in Names(params) ==>
              Unused(n) in opening + closing || RemoveNotification(Some(n)) in opening + closing
  {
    hide Names, ParamName, Contains;
  }

  // Every signature that generates a body at all generates a disciplined one.
  lemma BodiesAreDisciplined(name: string, ret: string, params: seq<string>, delegate: Option<Delegate>, event: string)
    ensures Body(name, ret, params, delegate, event).None? <==> ret in {"const char*", "double", "float"}
    ensures Body(name, ret, params, delegate, event).Some? ==>
              Disciplined(name, ret, params, delegate, event, Body(name, ret, params, delegate, event).value)
  {
    hide Calls, Opening, ApiVersion, Contains, ParamName, Names, Removes, Completions, Returns, Inits, Initializers;
    if Closing(name, ret, params, delegate, event).Some? {
      hide Closing, Answer;
      var opening, closing := Opening(name, ret, params, delegate), Closing(name, ret, params, delegate, event).value;
      OpeningIsQuiet(name, ret, params, delegate);
      ClosingCounts(name, ret, params, delegate, event);
      ClosingEnds(name, ret, params, delegate, event);
      CountsConcat(opening, closing);
      InitsConcat(opening, closing);
      NoInits(closing);
      CompletionsComeLast(opening, closing);
      QuietCalls(name, ret, params, delegate, event, opening);
      NamesAreUsed(name, ret, params, delegate, opening, closing);
      hide EndsHonestly;
      EndsConcat(opening, closing, ret, delegate);
    }
  }

  /******* Names a body refers to *******/

  function Mentioned(s: Statement): set<string> {
    match s
    case Trace(_, version, _) => if version.VersionOf? then {version.param} else {}
    case Unused(param) => {param}
    case InitOutput(param, _) => {param}
    case Complete(clientData, delegate, _) => {clientData, delegate}
    case AddNotification(delegate, _, _) => {"ClientData", delegate}
    case RemoveNotification(last) => {if last.Some? then last.value else "None"}
    case _ => {}
  }

  // Everything the statements name is a parameter, or NULL.
  ghost predicate Closed(body: seq<Statement>, params: seq<string>) {
    forall s :: s in body ==> Mentioned(s) <= Names(params) + {"NULL"}
  }

  lemma {:induction false} FirstDelegateIsNamed(params: seq<string>, delegates: map<string, string>)
    ensures FirstDelegate(params, delegates).Some? ==> FirstDelegate(params, delegates).value.param in Names(params)
  {
    if params != [] && DelegateType(params[0]) !in delegates {
      FirstDelegateIsNamed(params[1..], delegates);
      assert Names(params[1..]) <= Names(params);
    }
  }

  lemma {:induction false} InitializersAreNamed(params: seq<string>)
    ensures forall s :: s in Initializers(params) ==> s.InitOutput? && s.param in Names(params)
  {
    hide ParamName;
    if params != [] {
      InitializersAreNamed(params[1..]);
      assert params[0] in params && Names(params[1..]) <= Names(params);
    }
  }

  lemma OpeningIsClosed(name: string, ret: string, params: seq<string>, delegate: Option<Delegate>)
    ensures Closed(Opening(name, ret, params, delegate), params)
  {
    hide UnusedAll, Initializers, Contains, ParamName, ApiVersion;
    InitializersAreNamed(params);
  }

  ghost predicate NamesWhatItNeeds(name: string, ret: string, params: seq<string>, delegate: Option<Delegate>) {
    && (ret == NOTIFICATION_ID && delegate.Some? ==> "ClientData" in Names(params))
    && (Removes(name, ret, params, delegate) ==> ParamName(params[|params| - 1]).Some? || "None" in Names(params))
  }

  lemma ClosingIsClosed(name: string, ret: string, params: seq<string>, delegate: Option<Delegate>, event: string)
    requires Closing(name, ret, params, delegate, event).Some?
    requires delegate.Some? ==> delegate.value.param in Names(params)
    ensures Closed(Closing(name, ret, params, delegate, event).value, params) <==>
              NamesWhatItNeeds(name, ret, params, delegate)
  {
    hide Contains, ParamName, Answer;
    var closing := Closing(name, ret, params, delegate, event).value;
    if ret == NOTIFICATION_ID && delegate.Some? {
      assert closing[0] in closing && "ClientData" in Mentioned(closing[0]);
      assert "ClientData" != "NULL" by { assert "ClientData"[0] != "NULL"[0]; }
    } else if Removes(name, ret, params, delegate) {
      assert params[|params| - 1] in params;
      assert closing[0] in closing;
      assert Mentioned(closing[0]) <= Names(params) <==> NamesWhatItNeeds(name, ret, params, delegate);
      assert "None" != "NULL" by { assert "None"[1] != "NULL"[1]; }
    }
  }

  // A generated body names an undeclared identifier in exactly two cases: a notification whose signature
  // has no ClientData parameter, and a remove-notification stub whose last parameter has no name.
  lemma BodiesAreClosed(name: string, ret: string, params: seq<string>, delegates: map<string, string>, event: string)
    requires Body(name, ret, params, FirstDelegate(params, delegates), event).Some?
    ensures var delegate := FirstDelegate(params, delegates);
            Closed(Body(name, ret, params, delegate, event).value, params) <==>
              NamesWhatItNeeds(name, ret, params, delegate)
  {
    var delegate := FirstDelegate(params, delegates);
    FirstDelegateIsNamed(params, delegates);
    OpeningIsClosed(name, ret, params, delegate);
    ClosingIsClosed(name, ret, params, delegate, event);
    ClosedConcat(Opening(name, ret, params, delegate), Closing(name, ret, params, delegate, event).value, params);
  }

  lemma ClosedConcat(a: seq<Statement>, b: seq<Statement>, params: seq<string>)
    ensures Closed(a + b, params) <==> Closed(a, params) && Closed(b, params)
  {
  }

  /******* The two cases *******/

  lemma {:induction false} ContainsInside(before: string, part: string, after: string)
    ensures Contains(before + part + after, part)
  {
    var s := before + part + after;
    if before == "" {
      assert part <= s;
    } else {
      ContainsInside(before[1..], part, after);
      assert s[1..] == before[1..] + part + after;
    }
  }

  lemma OnEventDeclaration()
    ensures var p := "EOS_OnEvent NotificationFn";
            ParamName(p) == Some("NotificationFn") && DelegateType(p) == "EOS_OnEvent"
  {
    hide ParamName, ParamType, DelegateType, Identifier, Stripped, Contains;
    assert "EOS_OnEvent NotificationFn" == "EOS_OnEvent" + " " + "NotificationFn";
    OnEventWords();
    ConstHasAnS("EOS_OnEvent");
    DeclaredType("EOS_OnEvent", "NotificationFn");
    DelegateTypeOf("EOS_OnEvent", "NotificationFn");
  }

  lemma OnEventWords()
    ensures Identifier("NotificationFn") && Stripped("EOS_OnEvent")
  {
  }

  // A notification stub refers to ClientData, whatever the signature calls that parameter.
  lemma NotificationWithoutClientData(name: string, event: string)
    ensures var params, delegates := ["EOS_OnEvent NotificationFn"], map["EOS_OnEvent" := "EOS_OnEventInfo"];
            var body := Body(name, NOTIFICATION_ID, params, FirstDelegate(params, delegates), event);
            body.Some? && !Closed(body.value, params)
  {
    hide ParamName, DelegateType, Body, Closed, Disciplined, Removes;
    var params, delegates := ["EOS_OnEvent NotificationFn"], map["EOS_OnEvent" := "EOS_OnEventInfo"];
    OnEventDeclaration();
    OneName(params[0]);
    assert "NotificationFn"[0] != "ClientData"[0];
    BodiesAreDisciplined(name, NOTIFICATION_ID, params, FirstDelegate(params, delegates), event);
    BodiesAreClosed(name, NOTIFICATION_ID, params, delegates, event);
  }

  lemma OneName(p: string)
    ensures Names([p]) == if ParamName(p).Some? then {ParamName(p).value} else {}
  {
    hide ParamName;
    assert p in [p];
  }

  lemma DotsAreNameless()
    ensures ParamName("...") == None
  {
    hide IsSpace;
    assert !IsSpace('.') by { SpaceIsNoDot(); }
  }

  lemma SpaceIsNoDot()
    ensures !IsSpace('.')
  {
  }

  // A remove-notification stub forwards its last parameter, also one without a name.
  lemma RemovalOfNamelessParameter(event: string)
    ensures var name, params := "EOS_X_RemoveNotifyY", ["..."];
            var body := Body(name, "void", params, FirstDelegate(params, map[]), event);
            body.Some? && !Closed(body.value, params)
  {
    hide ParamName, DelegateType, Body, Closed, Contains, Disciplined;
    var name, params := "EOS_X_RemoveNotifyY", ["..."];
    ContainsInside("EOS_X_", "RemoveNotify", "Y");
    assert "EOS_X_" + "RemoveNotify" + "Y" == name;
    DotsAreNameless();
    OneName(params[0]);
    BodiesAreDisciplined(name, "void", params, FirstDelegate(params, map[]), event);
    BodiesAreClosed(name, "void", params, map[], event);
  }
}
