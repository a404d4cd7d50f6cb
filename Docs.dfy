/** The documentation records minirest.py keeps in `Api._docs`: what
    `_build_doc_dict` records for a handler and how `build_doc_data`
    rewrites the records in place. */
module Docs {
  import opened Wrappers
  import opened PyRuntime
  import opened Binder

  /** One entry of an entry's `params` list: `name`, `type`, `required`, and
      `default`, a key only present for a parameter that is not required. */
  datatype ParamDoc = ParamDoc(name: string, typ: string, required: bool, default: Option<Value>)

  /** One element of `_docs`. The `name` key can be deleted, so it is
      optional; `methods` is the value stored under the singular key
      `method`: the HTTP methods passed to `route`. */
  datatype DocEntry = DocEntry(route: string, methods: seq<string>, name: Option<string>, params: seq<ParamDoc>, doc: string)

  /** What the registrar reads off a handler function: its `__name__`, its
      signature (`None` when `inspect.signature` raises), and its `__doc__`. */
  datatype Handler = Handler(name: string, signature: Option<seq<ParamSpec>>, docstring: Option<string>)

  /** `inspect.Parameter.empty.__name__`, the type an unannotated parameter is
      documented with. */
  const EmptyAnnotationName: string := "_empty"

  /** The documented type of a parameter: `param.annotation.__name__`. */
  function TypeName(p: ParamSpec): (t: string)
    ensures p.annotation.Some? ==> t == p.annotation.value.typeName
    ensures p.annotation.None? ==> t == EmptyAnnotationName
  {
    if p.annotation.Some? then p.annotation.value.typeName else EmptyAnnotationName
  }

  /** The documentation of one parameter. */
  function ParamDocOf(p: ParamSpec): (d: ParamDoc)
    ensures d.name == p.name && d.typ == TypeName(p)
    ensures d.required <==> p.default.None?
    ensures d.default.Some? <==> !d.required
    ensures d.default.Some? ==> d.default == p.default
  {
    if p.default.None? then ParamDoc(p.name, TypeName(p), true, None)
    else ParamDoc(p.name, TypeName(p), false, p.default)
  }

  /** The `params` list of an entry: one documentation per parameter, in
      declaration order. */
  function ParamDocs(sig: seq<ParamSpec>): (ds: seq<ParamDoc>)
    ensures |ds| == |sig|
    ensures forall i :: 0 <= i < |sig| ==> ds[i] == ParamDocOf(sig[i])
  {
    seq(|sig|, i requires 0 <= i < |sig| => ParamDocOf(sig[i]))
  }

  /** The entry `_build_doc_dict` appends for a handler registered at `rule`
      whose signature is `sig` and whose docstring is `docstring`. */
  function NewEntry(rule: string, methods: Option<seq<string>>, name: string, sig: seq<ParamSpec>, docstring: string): (e: DocEntry)
    ensures e.route == rule && e.name == Some(name)
    ensures methods.Some? ==> e.methods == methods.value
    ensures methods.None? ==> e.methods == []
    ensures |e.params| == |sig|
    ensures forall i :: 0 <= i < |sig| ==> e.params[i] == ParamDocOf(sig[i])
    ensures e.doc == Strip(docstring)
    ensures e.doc == [] || (!IsSpace(e.doc[0]) && !IsSpace(e.doc[|e.doc| - 1]))
  {
    DocEntry(rule,
             if methods.Some? then methods.value else [],
             Some(name),
             ParamDocs(sig),
             Strip(docstring))
  }

  /** A parameter is documented as required exactly when leaving it out of
      the query makes the binder answer with the missing-parameter message. */
  lemma RequiredMatchesBinder(rule: string, methods: Option<seq<string>>, name: string, sig: seq<ParamSpec>,
                              docstring: string, q: Query, i: nat)
    requires i < |sig| && sig[i].name !in q
    ensures |NewEntry(rule, methods, name, sig, docstring).params| == |sig|
    ensures NewEntry(rule, methods, name, sig, docstring).params[i].required
            <==> BindParam(sig[i], q) == Err(MissingMessage(sig[i].name))
  {
    BindParamOutcomes(sig[i], q);
  }

  /** The message of the assertion `build_doc_data` fails on an entry without
      a `name` key. */
  const NameAssertion: string := "\"name\" key must be present"

  /** An entry after `build_doc_data` has prefixed its route. */
  function Prefixed(e: DocEntry, prefix: string): DocEntry
  {
    e.(route := prefix + e.route)
  }

  /** An entry after `build_doc_data` has processed it completely: the route
      prefixed and, outside debug mode, the name deleted. */
  function Finished(e: DocEntry, prefix: string, debug: bool): (r: DocEntry)
    ensures r.route == prefix + e.route
    ensures r.name == (if debug then e.name else None)
    ensures r.methods == e.methods && r.params == e.params && r.doc == e.doc
  {
    var p := Prefixed(e, prefix);
    if debug then p else p.(name := None)
  }

  /** The position of the first entry without a name, or `|docs|`. */
  function FirstUnnamed(docs: seq<DocEntry>): (k: nat)
    ensures k <= |docs|
    ensures forall j :: 0 <= j < k ==> docs[j].name.Some?
    ensures k < |docs| ==> docs[k].name.None?
  {
    if docs == [] || docs[0].name.None? then 0 else 1 + FirstUnnamed(docs[1..])
  }

  /** Where `build_doc_data` stops: at the first unnamed entry outside debug
      mode, otherwise after the last entry. */
  function StopAt(docs: seq<DocEntry>, debug: bool): nat
  {
    if debug then |docs| else FirstUnnamed(docs)
  }

  /** `_docs` after `build_doc_data`: the entries before the stopping point
      are finished, the one it stops at has had its route prefixed before the
      assertion failed, and the rest are untouched. */
  function DocsAfterBuild(docs: seq<DocEntry>, prefix: string, debug: bool): (r: seq<DocEntry>)
    ensures |r| == |docs|
    ensures forall j :: 0 <= j < |docs| ==>
      r[j].methods == docs[j].methods && r[j].params == docs[j].params && r[j].doc == docs[j].doc
    ensures forall j :: 0 <= j < |docs| ==>
      r[j].route == (if j <= StopAt(docs, debug) then prefix + docs[j].route else docs[j].route)
    ensures forall j :: 0 <= j < |docs| ==>
      r[j].name == (if j < StopAt(docs, debug) && !debug then None else docs[j].name)
  {
    var k := StopAt(docs, debug);
    seq(|docs|, j requires 0 <= j < |docs| =>
      if j < k then Finished(docs[j], prefix, debug)
      else if j == k then Prefixed(docs[j], prefix)
      else docs[j])
  }

  /** In debug mode every entry gets the prefix and keeps its name. */
  lemma DebugBuildPrefixesEveryRoute(docs: seq<DocEntry>, prefix: string)
    ensures forall j :: 0 <= j < |docs| ==>
      DocsAfterBuild(docs, prefix, true)[j] == docs[j].(route := prefix + docs[j].route)
  {
  }

  /** Building twice in debug mode is not idempotent: the second build
      prefixes the already prefixed routes again, and names survive both. */
  lemma {:induction false} DebugBuildTwice(docs: seq<DocEntry>, prefix1: string, prefix2: string)
    ensures forall j :: 0 <= j < |docs| ==>
      && DocsAfterBuild(DocsAfterBuild(docs, prefix1, true), prefix2, true)[j].route == prefix2 + prefix1 + docs[j].route
      && DocsAfterBuild(DocsAfterBuild(docs, prefix1, true), prefix2, true)[j].name == docs[j].name
  {
    var once := DocsAfterBuild(docs, prefix1, true);
    forall j | 0 <= j < |docs|
      ensures DocsAfterBuild(once, prefix2, true)[j].route == prefix2 + prefix1 + docs[j].route
      ensures DocsAfterBuild(once, prefix2, true)[j].name == docs[j].name
    {
      assert once[j] == Finished(docs[j], prefix1, true);
      assert prefix2 + (prefix1 + docs[j].route) == prefix2 + prefix1 + docs[j].route;
    }
  }

  /** Outside debug mode a build over named entries prefixes every route and
      deletes every name. */
  lemma NonDebugBuildDeletesNames(docs: seq<DocEntry>, prefix: string)
    requires forall j :: 0 <= j < |docs| ==> docs[j].name.Some?
    ensures FirstUnnamed(docs) == |docs|
    ensures forall j :: 0 <= j < |docs| ==>
      DocsAfterBuild(docs, prefix, false)[j] == docs[j].(route := prefix + docs[j].route, name := None)
  {
  }

  /** Outside debug mode a build that meets an unnamed first entry stops
      there, after prefixing its route. */
  lemma NonDebugBuildStopsAtUnnamedHead(docs: seq<DocEntry>, prefix: string)
    requires docs != [] && docs[0].name.None?
    ensures FirstUnnamed(docs) == 0
    ensures DocsAfterBuild(docs, prefix, false)[0] == docs[0].(route := prefix + docs[0].route)
  {
  }

  /** Outside debug mode a build that got through a non-empty `_docs` leaves
      no name behind, so the next build stops at the very first entry: the
      second documentation request fails the name assertion. */
  lemma SecondNonDebugBuildFails(docs: seq<DocEntry>, prefix1: string, prefix2: string)
    requires docs != [] && FirstUnnamed(docs) == |docs|
    ensures FirstUnnamed(DocsAfterBuild(docs, prefix1, false)) == 0
    ensures DocsAfterBuild(DocsAfterBuild(docs, prefix1, false), prefix2, false)[0].route == prefix2 + prefix1 + docs[0].route
  {
    var once := DocsAfterBuild(docs, prefix1, false);
    NonDebugBuildDeletesNames(docs, prefix1);
    NonDebugBuildStopsAtUnnamedHead(once, prefix2);
  }

  /** Appending a named entry keeps every entry named. */
  lemma AppendNamed(docs: seq<DocEntry>, e: DocEntry)
    requires FirstUnnamed(docs) == |docs| && e.name.Some?
    ensures FirstUnnamed(docs + [e]) == |docs| + 1
  {
    assert forall j :: 0 <= j < |docs| ==> (docs + [e])[j] == docs[j];
  }

  /** Entries recorded at registration all carry a name, so the first build
      after any number of registrations gets through outside debug mode. */
  lemma RegisteredEntriesBuildOnce(docs: seq<DocEntry>, rule: string, methods: Option<seq<string>>, name: string,
                                   sig: seq<ParamSpec>, docstring: string)
    requires FirstUnnamed(docs) == |docs|
    ensures FirstUnnamed(docs + [NewEntry(rule, methods, name, sig, docstring)]) == |docs| + 1
  {
    AppendNamed(docs, NewEntry(rule, methods, name, sig, docstring));
  }
}
