/** The request-time parameter binder of minirest.py: the `wrap` closure that
    `Api.route` builds around a handler when type validation is on. For each
    declared parameter, in declaration order, it reads the query value (or the
    default), converts it with the parameter's annotation, and either collects
    it into an ordered name-to-value map or stops with a bad-request message. */
module Binder {
  import opened Wrappers
  import opened PyRuntime

  /** A parameter annotation used as a converter, e.g. `int`: its `__name__`
      and the call `annotation(v)`, which either returns a value or raises
      `TypeError`/`ValueError` (here: `None`). */
  datatype Converter = Converter(typeName: string, apply: Value -> Option<Value>)

  /** One declared parameter of a handler, as `inspect.signature` reports it:
      `annotation` is `None` for `inspect.Parameter.empty`, and so is
      `default`; a default of Python `None` is `Some(PyNone)`. */
  datatype ParamSpec = ParamSpec(name: string, annotation: Option<Converter>, default: Option<Value>)

  /** `flask.request.args`, first value per key. */
  type Query = map<string, string>

  /** The `bpar` OrderedDict of bound arguments. */
  type Bound = OrderedDict<Value>

  /** The text every bad-request message starts with. */
  const ValidationError: string := "Validation Error."

  /** The text of a missing-parameter message up to the name (the source's
      spelling of "Reqired" is kept). */
  const MissingPrefix: string := ValidationError + " Reqired HTTP parameter \""

  /** The text of a missing-parameter message after the name. */
  const MissingSuffix: string := "\" is not present"

  /** The message for a required parameter absent from the query; `.format`
      fills in the parameter name, which can be read back from it. */
  function MissingMessage(name: string): (m: string)
    ensures |m| == |MissingPrefix| + |name| + |MissingSuffix|
    ensures m[..|MissingPrefix|] == MissingPrefix
    ensures m[|MissingPrefix|..|MissingPrefix| + |name|] == name
    ensures m[|MissingPrefix| + |name|..] == MissingSuffix
    ensures m[|m| - 1] == 't'
  {
    var m := MissingPrefix + name + MissingSuffix;
    assert m[|MissingPrefix|..|MissingPrefix| + |name|] == name;
    assert m[|m| - 1] == MissingSuffix[|MissingSuffix| - 1];
    m
  }

  /** The text of a failed-conversion message up to the type name. The
      source concatenates three literals and applies `.format` to the last one
      only, so the `{param.name}` and `{param.value}` placeholders of the
      second literal are never filled in. */
  const ConversionPrefix: string :=
    ValidationError + " Invalid HTTP parameter \"{param.name}\" value \"{param.value}\" could not be converted to \""

  /** The message for a failed conversion: only the annotation's name is
      substituted. */
  function ConversionMessage(typeName: string): (m: string)
    ensures |m| == |ConversionPrefix| + |typeName| + 1
    ensures m[..|ConversionPrefix|] == ConversionPrefix
    ensures m[|ConversionPrefix|..|m| - 1] == typeName
    ensures m[|m| - 1] == '"'
  {
    var m := ConversionPrefix + typeName + "\"";
    assert m[|ConversionPrefix|..|m| - 1] == typeName;
    m
  }

  /** Reading one parameter: `request.args.get(name, default)` for a
      defaulted parameter, `request.args[name]` for a required one, where
      `None` stands for the `KeyError` of an absent required parameter. */
  function Lookup(p: ParamSpec, q: Query): (r: Option<Value>)
    ensures r.None? <==> p.default.None? && p.name !in q
    ensures p.name in q ==> r == Some(Str(q[p.name]))
    ensures p.name !in q && p.default.Some? ==> r == p.default
  {
    if p.default.Some? then
      Some(if p.name in q then Str(q[p.name]) else p.default.value)
    else if p.name in q then
      Some(Str(q[p.name]))
    else
      None
  }

  /** Binding one parameter: its value after `annotation(v) if v is not None
      else None` when it is annotated, or the bad-request message. Only a
      required parameter absent from the query or an annotated one can fail. */
  function BindParam(p: ParamSpec, q: Query): (r: Result<Value, string>)
    ensures r.Err? ==> (p.default.None? && p.name !in q) || p.annotation.Some?
  {
    match Lookup(p, q)
    case None => Err(MissingMessage(p.name))
    case Some(v) =>
      match p.annotation
      case None => Ok(v)
      case Some(c) =>
        if v == PyNone then Ok(PyNone)
        else
          match c.apply(v)
          case Some(w) => Ok(w)
          case None => Err(ConversionMessage(c.typeName))
  }

  /** The outcomes of binding one parameter. The two messages can never be
      confused: the missing-parameter one comes exactly from a required
      parameter absent from the query, and every other failure is the
      annotation's conversion message. A present value binds raw or
      converted; an absent default binds as is or converted. */
  lemma BindParamOutcomes(p: ParamSpec, q: Query)
    ensures BindParam(p, q) == Err(MissingMessage(p.name)) <==> p.default.None? && p.name !in q
    ensures BindParam(p, q).Err? && BindParam(p, q) != Err(MissingMessage(p.name)) ==>
      p.annotation.Some? && BindParam(p, q) == Err(ConversionMessage(p.annotation.value.typeName))
    ensures p.name in q && p.annotation.None? ==> BindParam(p, q) == Ok(Str(q[p.name]))
    ensures p.name in q && p.annotation.Some? ==>
      match p.annotation.value.apply(Str(q[p.name]))
      case Some(w) => BindParam(p, q) == Ok(w)
      case None => BindParam(p, q) == Err(ConversionMessage(p.annotation.value.typeName))
    ensures p.name !in q && p.default.Some? && (p.annotation.None? || p.default.value == PyNone) ==>
      BindParam(p, q) == Ok(p.default.value)
    ensures p.name !in q && p.default.Some? && p.annotation.Some? && p.default.value != PyNone ==>
      match p.annotation.value.apply(p.default.value)
      case Some(w) => BindParam(p, q) == Ok(w)
      case None => BindParam(p, q) == Err(ConversionMessage(p.annotation.value.typeName))
  {
    if p.annotation.Some? {
      var cm, mm := ConversionMessage(p.annotation.value.typeName), MissingMessage(p.name);
      assert cm[|cm| - 1] != mm[|mm| - 1];
    }
  }

  /** What the loop over the parameters produces: the bound map, or the
      message of the first parameter that fails (the prefix is bound before
      the last parameter is looked at). */
  function Bind(specs: seq<ParamSpec>, q: Query): (r: Result<Bound, string>)
    ensures r.Ok? ==> DistinctKeys(r.value) && |r.value| <= |specs|
    decreases |specs|
  {
    if specs == [] then Ok([])
    else
      var p := specs[|specs| - 1];
      match Bind(specs[..|specs| - 1], q)
      case Err(m) => Err(m)
      case Ok(b) =>
        match BindParam(p, q)
        case Err(m) => Err(m)
        case Ok(v) => Ok(Put(b, p.name, v))
  }

  function Names(specs: seq<ParamSpec>): (ns: seq<string>)
    ensures |ns| == |specs|
    ensures forall i :: 0 <= i < |specs| ==> ns[i] == specs[i].name
  {
    seq(|specs|, i requires 0 <= i < |specs| => specs[i].name)
  }

  /** Python forbids two parameters of one signature to share a name. */
  predicate DistinctNames(specs: seq<ParamSpec>)
  {
    forall i, j :: 0 <= i < j < |specs| ==> specs[i].name != specs[j].name
  }

  /** The binder succeeds exactly when every parameter binds on its own. */
  lemma {:induction false} BindOkIffEveryParamBinds(specs: seq<ParamSpec>, q: Query)
    ensures Bind(specs, q).Ok? <==> forall i :: 0 <= i < |specs| ==> BindParam(specs[i], q).Ok?
    decreases |specs|
  {
    if specs != [] {
      var init := specs[..|specs| - 1];
      BindOkIffEveryParamBinds(init, q);
      assert forall i :: 0 <= i < |init| ==> init[i] == specs[i];
    }
  }

  /** The first failing parameter decides the message. */
  lemma {:induction false} BindFailsAtFirstFailure(specs: seq<ParamSpec>, q: Query, i: nat)
    requires i < |specs|
    requires forall j :: 0 <= j < i ==> BindParam(specs[j], q).Ok?
    requires BindParam(specs[i], q).Err?
    ensures Bind(specs, q) == Err(BindParam(specs[i], q).error)
    decreases |specs|
  {
    var init := specs[..|specs| - 1];
    if i < |specs| - 1 {
      BindFailsAtFirstFailure(init, q, i);
    } else {
      BindOkIffEveryParamBinds(init, q);
    }
  }

  /** One step of the binder's loop: after a prefix that bound to `b`, a
      parameter that binds to `v` extends `b` with it. */
  lemma BindStep(specs: seq<ParamSpec>, q: Query, i: nat, b: Bound, v: Value)
    requires i < |specs| && Bind(specs[..i], q) == Ok(b)
    requires BindParam(specs[i], q) == Ok(v)
    ensures Bind(specs[..i + 1], q) == Ok(Put(b, specs[i].name, v))
  {
    assert specs[..i + 1][..i] == specs[..i];
  }

  /** After a prefix that bound, a parameter that fails with `m` ends the
      whole binding with `m`. */
  lemma BindStopsAt(specs: seq<ParamSpec>, q: Query, i: nat, b: Bound, m: string)
    requires i < |specs| && Bind(specs[..i], q) == Ok(b)
    requires BindParam(specs[i], q) == Err(m)
    ensures Bind(specs, q) == Err(m)
  {
    BindOkIffEveryParamBinds(specs[..i], q);
    assert forall j :: 0 <= j < i ==> specs[..i][j] == specs[j];
    BindFailsAtFirstFailure(specs, q, i);
  }

  /** Conversely, every bad-request message comes from the first failing
      parameter. */
  lemma {:induction false} BindErrorComesFromFirstFailure(specs: seq<ParamSpec>, q: Query)
    requires Bind(specs, q).Err?
    ensures exists i :: 0 <= i < |specs|
                        && (forall j :: 0 <= j < i ==> BindParam(specs[j], q).Ok?)
                        && BindParam(specs[i], q) == Err(Bind(specs, q).error)
    decreases |specs|
  {
    var init := specs[..|specs| - 1];
    if Bind(init, q).Err? {
      BindErrorComesFromFirstFailure(init, q);
      var i :| 0 <= i < |init|
               && (forall j :: 0 <= j < i ==> BindParam(init[j], q).Ok?)
               && BindParam(init[i], q) == Err(Bind(init, q).error);
      assert forall j :: 0 <= j <= i ==> init[j] == specs[j];
    } else {
      BindOkIffEveryParamBinds(init, q);
      var i := |specs| - 1;
      assert forall j :: 0 <= j < i ==> init[j] == specs[j];
      assert BindParam(specs[i], q) == Err(Bind(specs, q).error);
    }
  }

  /** A successful binding of a non-empty list extends the binding of its
      prefix with the last parameter. */
  lemma BindLast(specs: seq<ParamSpec>, q: Query)
    requires specs != [] && Bind(specs, q).Ok?
    ensures Bind(specs[..|specs| - 1], q).Ok? && BindParam(specs[|specs| - 1], q).Ok?
    ensures Bind(specs, q).value
            == Put(Bind(specs[..|specs| - 1], q).value, specs[|specs| - 1].name, BindParam(specs[|specs| - 1], q).value)
  {
  }

  /** On success the bound map holds exactly the declared names, in
      declaration order, each with the value its parameter binds to. */
  lemma {:induction false} BoundInDeclarationOrder(specs: seq<ParamSpec>, q: Query)
    requires DistinctNames(specs)
    requires Bind(specs, q).Ok?
    ensures |Bind(specs, q).value| == |specs|
    ensures forall i :: 0 <= i < |specs| ==>
      BindParam(specs[i], q).Ok? && Bind(specs, q).value[i] == (specs[i].name, BindParam(specs[i], q).value)
    decreases |specs|
  {
    if specs != [] {
      var init := specs[..|specs| - 1];
      var p := specs[|specs| - 1];
      BindLast(specs, q);
      BoundInDeclarationOrder(init, q);
      var b := Bind(init, q).value;
      var v := BindParam(p, q).value;
      forall j | 0 <= j < |b| ensures b[j].0 != p.name {
        assert b[j].0 == init[j].name;
      }
      PutNewKey(b, p.name, v);
      var r := b + [(p.name, v)];
      forall i | 0 <= i < |init|
        ensures BindParam(specs[i], q).Ok? && r[i] == (specs[i].name, BindParam(specs[i], q).value)
      {
        assert specs[i] == init[i];
      }
    }
  }

  /** The keys of a successful binding are the declared names, in order. */
  lemma BoundKeysAreNames(specs: seq<ParamSpec>, q: Query)
    requires DistinctNames(specs)
    requires Bind(specs, q).Ok?
    ensures Keys(Bind(specs, q).value) == Names(specs)
  {
    BoundInDeclarationOrder(specs, q);
  }

  /** A required parameter absent from the query makes the binder fail, so
      the handler is not called. */
  lemma MissingRequiredRejects(specs: seq<ParamSpec>, q: Query, i: nat)
    requires i < |specs| && specs[i].default.None? && specs[i].name !in q
    ensures Bind(specs, q).Err?
  {
    BindOkIffEveryParamBinds(specs, q);
  }

  /** When every earlier parameter binds, an absent required parameter gives
      the message naming it. */
  lemma FirstMissingRequiredMessage(specs: seq<ParamSpec>, q: Query, i: nat)
    requires i < |specs| && specs[i].default.None? && specs[i].name !in q
    requires forall j :: 0 <= j < i ==> BindParam(specs[j], q).Ok?
    ensures Bind(specs, q) == Err(MissingMessage(specs[i].name))
    ensures Bind(specs, q) == Err(MissingPrefix + specs[i].name + MissingSuffix)
  {
    BindFailsAtFirstFailure(specs, q, i);
  }

  /** When every earlier parameter binds, a failed conversion gives the
      conversion message, which names the type but neither the parameter nor
      its value. */
  lemma FirstConversionFailureMessage(specs: seq<ParamSpec>, q: Query, i: nat)
    requires i < |specs| && specs[i].annotation.Some?
    requires Lookup(specs[i], q).Some? && Lookup(specs[i], q).value != PyNone
    requires specs[i].annotation.value.apply(Lookup(specs[i], q).value).None?
    requires forall j :: 0 <= j < i ==> BindParam(specs[j], q).Ok?
    ensures Bind(specs, q) == Err(ConversionPrefix + specs[i].annotation.value.typeName + "\"")
  {
    BindFailsAtFirstFailure(specs, q, i);
  }

  /** The value bound for the parameter at position `i` when the binder
      succeeds. */
  function BoundValue(specs: seq<ParamSpec>, q: Query, i: nat): Value
    requires i < |specs| && Bind(specs, q).Ok?
    requires |Bind(specs, q).value| == |specs|
  {
    Bind(specs, q).value[i].1
  }

  /** A parameter present in the query binds to the raw string when it is
      not annotated. */
  lemma PresentUnannotatedBindsRaw(specs: seq<ParamSpec>, q: Query, i: nat)
    requires DistinctNames(specs) && Bind(specs, q).Ok?
    requires i < |specs| && specs[i].name in q && specs[i].annotation.None?
    ensures |Bind(specs, q).value| == |specs| && BoundValue(specs, q, i) == Str(q[specs[i].name])
  {
    BoundInDeclarationOrder(specs, q);
  }

  /** A parameter present in the query binds to what its converter returns
      for the raw string. */
  lemma PresentAnnotatedBindsConverted(specs: seq<ParamSpec>, q: Query, i: nat)
    requires DistinctNames(specs) && Bind(specs, q).Ok?
    requires i < |specs| && specs[i].name in q && specs[i].annotation.Some?
    ensures specs[i].annotation.value.apply(Str(q[specs[i].name])).Some?
    ensures |Bind(specs, q).value| == |specs|
    ensures BoundValue(specs, q, i) == specs[i].annotation.value.apply(Str(q[specs[i].name])).value
  {
    BoundInDeclarationOrder(specs, q);
  }

  /** A defaulted parameter absent from the query binds to its default when
      it is not annotated or the default is `None`. */
  lemma AbsentDefaultBindsDefault(specs: seq<ParamSpec>, q: Query, i: nat)
    requires DistinctNames(specs) && Bind(specs, q).Ok?
    requires i < |specs| && specs[i].name !in q && specs[i].default.Some?
    requires specs[i].annotation.None? || specs[i].default.value == PyNone
    ensures |Bind(specs, q).value| == |specs| && BoundValue(specs, q, i) == specs[i].default.value
  {
    BoundInDeclarationOrder(specs, q);
  }

  /** An annotated parameter's default that is not `None` still goes through
      the converter. */
  lemma AbsentDefaultIsConverted(specs: seq<ParamSpec>, q: Query, i: nat)
    requires DistinctNames(specs) && Bind(specs, q).Ok?
    requires i < |specs| && specs[i].name !in q && specs[i].default.Some?
    requires specs[i].annotation.Some? && specs[i].default.value != PyNone
    ensures specs[i].annotation.value.apply(specs[i].default.value).Some?
    ensures |Bind(specs, q).value| == |specs|
    ensures BoundValue(specs, q, i) == specs[i].annotation.value.apply(specs[i].default.value).value
  {
    BoundInDeclarationOrder(specs, q);
  }

  /** A handler `greet(name: str, times: int = 1)`, with the converters
      `str` and `int` described only by what they do on the inputs below. */
  function GreetSignature(toStr: Converter, toInt: Converter): seq<ParamSpec>
  {
    [ParamSpec("name", Some(toStr), None), ParamSpec("times", Some(toInt), Some(Int(1)))]
  }

  /** A one-parameter signature whose parameter binds. */
  lemma BindOne(p0: ParamSpec, q: Query, v0: Value)
    requires BindParam(p0, q) == Ok(v0)
    ensures Bind([p0], q) == Ok([(p0.name, v0)])
  {
    assert [p0][..0] == [];
    PutNewKey([], p0.name, v0);
    assert [] + [(p0.name, v0)] == [(p0.name, v0)];
  }

  /** A two-parameter signature whose parameters both bind. */
  lemma BindTwo(p0: ParamSpec, p1: ParamSpec, q: Query, v0: Value, v1: Value)
    requires p0.name != p1.name
    requires BindParam(p0, q) == Ok(v0) && BindParam(p1, q) == Ok(v1)
    ensures Bind([p0, p1], q) == Ok([(p0.name, v0), (p1.name, v1)])
  {
    BindOne(p0, q, v0);
    assert [p0, p1][..1] == [p0];
    PutNewKey([(p0.name, v0)], p1.name, v1);
    assert [(p0.name, v0)] + [(p1.name, v1)] == [(p0.name, v0), (p1.name, v1)];
  }

  /** `greet` with both arguments binds the converted `times`. */
  lemma GreetBindsBoth(toStr: Converter, toInt: Converter)
    requires toStr.apply(Str("Ann")) == Some(Str("Ann"))
    requires toInt.apply(Str("3")) == Some(Int(3))
    ensures Bind(GreetSignature(toStr, toInt), map["name" := "Ann", "times" := "3"])
            == Ok([("name", Str("Ann")), ("times", Int(3))])
  {
    var sig, q := GreetSignature(toStr, toInt), map["name" := "Ann", "times" := "3"];
    assert BindParam(sig[0], q) == Ok(Str("Ann"));
    assert BindParam(sig[1], q) == Ok(Int(3));
    BindTwo(sig[0], sig[1], q, Str("Ann"), Int(3));
  }

  /** `greet` without `times` binds the default, passed through `int`. */
  lemma GreetUsesDefault(toStr: Converter, toInt: Converter)
    requires toStr.apply(Str("Ann")) == Some(Str("Ann"))
    requires toInt.apply(Int(1)) == Some(Int(1))
    ensures Bind(GreetSignature(toStr, toInt), map["name" := "Ann"])
            == Ok([("name", Str("Ann")), ("times", Int(1))])
  {
    var sig, q := GreetSignature(toStr, toInt), map["name" := "Ann"];
    assert BindParam(sig[0], q) == Ok(Str("Ann"));
    assert BindParam(sig[1], q) == Ok(Int(1));
    BindTwo(sig[0], sig[1], q, Str("Ann"), Int(1));
  }

  /** `greet` with a `times` that `int` rejects answers with the conversion
      message. */
  lemma GreetRejectsBadTimes(toStr: Converter, toInt: Converter)
    requires toStr.apply(Str("Ann")) == Some(Str("Ann"))
    requires toInt.apply(Str("abc")).None?
    ensures Bind(GreetSignature(toStr, toInt), map["times" := "abc", "name" := "Ann"])
            == Err(ConversionMessage(toInt.typeName))
  {
    var sig, q := GreetSignature(toStr, toInt), map["times" := "abc", "name" := "Ann"];
    assert BindParam(sig[0], q) == Ok(Str("Ann"));
    BindOne(sig[0], q, Str("Ann"));
    assert sig[..1] == [sig[0]];
    assert BindParam(sig[1], q) == Err(ConversionMessage(toInt.typeName));
    BindStopsAt(sig, q, 1, [("name", Str("Ann"))], ConversionMessage(toInt.typeName));
  }

  /** `greet` without `name` answers with the missing-parameter message. */
  lemma GreetRequiresName(toStr: Converter, toInt: Converter)
    ensures Bind(GreetSignature(toStr, toInt), map["times" := "3"]) == Err(MissingMessage("name"))
  {
    var sig, q := GreetSignature(toStr, toInt), map["times" := "3"];
    assert sig[..0] == [];
    assert BindParam(sig[0], q) == Err(MissingMessage("name"));
    BindStopsAt(sig, q, 0, [], MissingMessage("name"));
  }
}
