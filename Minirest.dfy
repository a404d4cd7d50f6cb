/** The `Api` object of minirest.py: its configuration, the documentation
    store `_docs`, registration of handlers, the request-time binder wrapped
    around each handler, and the documentation build. */
module Minirest {
  import opened Wrappers
  import opened PyRuntime
  import opened Binder
  import opened Docs

  /** How one request through a registered wrapper ends: the handler was
      called with the bound arguments and returned `response`, the
      bad-request function was called with `message`, or an exception
      escaped. */
  datatype Outcome<R> =
    | HandlerCalled(args: Bound, response: R)
    | BadRequest(message: string, response: R)
    | Raised(exception: Exception)

  class Api<Response> {
    const documentRoute: string
    const typeValidation: bool
    const debug: bool
    /** `bad_request_fn`: turns a validation message into a response. */
    const badRequest: string -> Response
    /** `_docs`: one entry per handler registered so far, in order. */
    var docs: seq<DocEntry>

    constructor (badRequest: string -> Response, documentRoute: string := "/api/docs/",
                 typeValidation: bool := true, debug: bool := false)
      ensures this.badRequest == badRequest && this.documentRoute == documentRoute
      ensures this.typeValidation == typeValidation && this.debug == debug
      ensures docs == []
    {
      this.badRequest := badRequest;
      this.documentRoute := documentRoute;
      this.typeValidation := typeValidation;
      this.debug := debug;
      docs := [];
    }

    /** `_build_doc_dict`: records the documentation of handler `h`
        registered at `rule`. A handler whose signature cannot be read is
        skipped; a handler without a docstring raises on `.strip()` before
        anything is appended. */
    method BuildDocDict(rule: string, methods: Option<seq<string>>, h: Handler)
      returns (r: Result<Option<DocEntry>, Exception>)
      modifies this
      ensures h.signature.None? ==> r == Ok(None) && docs == old(docs)
      ensures h.signature.Some? && h.docstring.None? ==> r == Err(AttributeError) && docs == old(docs)
      ensures h.signature.Some? && h.docstring.Some? ==>
        var e := NewEntry(rule, methods, h.name, h.signature.value, h.docstring.value);
        r == Ok(Some(e)) && docs == old(docs) + [e]
    {
      if h.signature.None? {
        return Ok(None);
      }
      var sig := h.signature.value;
      var paramDoc: seq<ParamDoc> := [];
      var i := 0;
      while i < |sig|
        invariant 0 <= i <= |sig|
        invariant |paramDoc| == i
        invariant forall j :: 0 <= j < i ==> paramDoc[j] == ParamDocOf(sig[j])
      {
        var p := sig[i];
        var pdoc := if p.default.None? then ParamDoc(p.name, TypeName(p), true, None)
                    else ParamDoc(p.name, TypeName(p), false, p.default);
        paramDoc := paramDoc + [pdoc];
        i := i + 1;
      }
      if h.docstring.None? {
        return Err(AttributeError);
      }
      assert paramDoc == ParamDocs(sig);
      var entry := DocEntry(rule, if methods.Some? then methods.value else [], Some(h.name),
                            paramDoc, Strip(h.docstring.value));
      docs := docs + [entry];
      r := Ok(Some(entry));
    }

    /** `route(rule, **options)` applied to handler `h`: records its
        documentation, then reads its signature again for the wrapper; the
        result is the signature the wrapper binds with. Registering the
        wrapper with Flask is not part of this model. */
    method Route(rule: string, methods: Option<seq<string>>, h: Handler)
      returns (r: Result<seq<ParamSpec>, Exception>)
      modifies this
      ensures h.signature.None? ==> r == Err(SignatureUnreadable) && docs == old(docs)
      ensures h.signature.Some? && h.docstring.None? ==> r == Err(AttributeError) && docs == old(docs)
      ensures h.signature.Some? && h.docstring.Some? ==>
        r == Ok(h.signature.value)
        && docs == old(docs) + [NewEntry(rule, methods, h.name, h.signature.value, h.docstring.value)]
    {
      var doc := BuildDocDict(rule, methods, h);
      if doc.Err? {
        return Err(doc.error);
      }
      if h.signature.None? {
        return Err(SignatureUnreadable);
      }
      r := Ok(h.signature.value);
    }

    /** The wrapper around a handler with signature `sig`, run on one
        request with query arguments `query`. With validation on it binds
        the parameters in declaration order and stops at the first failure;
        with validation off it raises before binding anything. */
    method Wrap(sig: seq<ParamSpec>, handler: Bound -> Response, query: Query)
      returns (outcome: Outcome<Response>)
      ensures !typeValidation ==> outcome == Raised(UnboundLocalError)
      ensures typeValidation && Bind(sig, query).Ok? ==>
        outcome == HandlerCalled(Bind(sig, query).value, handler(Bind(sig, query).value))
      ensures typeValidation && Bind(sig, query).Err? ==>
        outcome == BadRequest(Bind(sig, query).error, badRequest(Bind(sig, query).error))
    {
      if !typeValidation {
        return Raised(UnboundLocalError);
      }
      var bpar: Bound := [];
      var i := 0;
      while i < |sig|
        invariant 0 <= i <= |sig|
        invariant Bind(sig[..i], query) == Ok(bpar)
      {
        var p := sig[i];
        var v: Value;
        if p.default.Some? {
          v := if p.name in query then Str(query[p.name]) else p.default.value;
        } else {
          if p.name !in query {
            var msg := MissingMessage(p.name);
            assert Lookup(p, query).None?;
            BindStopsAt(sig, query, i, bpar, msg);
            return BadRequest(msg, badRequest(msg));
          }
          v := Str(query[p.name]);
        }
        assert Lookup(p, query) == Some(v);
        if p.annotation.Some? && v != PyNone {
          var converted := p.annotation.value.apply(v);
          if converted.None? {
            var msg := ConversionMessage(p.annotation.value.typeName);
            BindStopsAt(sig, query, i, bpar, msg);
            return BadRequest(msg, badRequest(msg));
          }
          v := converted.value;
        }
        BindStep(sig, query, i, bpar, v);
        bpar := Put(bpar, p.name, v);
        i := i + 1;
      }
      assert sig[..i] == sig;
      outcome := HandlerCalled(bpar, handler(bpar));
    }

    /** `build_doc_data` with `prefix` for the configured `SERVER_NAME`:
        rewrites every entry of `_docs` in place and returns `_docs`, or
        fails the name assertion at the first unnamed entry outside debug
        mode, leaving the entries before it finished and its route already
        prefixed. */
    method BuildDocData(prefix: string) returns (r: Result<seq<DocEntry>, Exception>)
      modifies this
      ensures docs == DocsAfterBuild(old(docs), prefix, debug)
      ensures debug || FirstUnnamed(old(docs)) == |old(docs)| ==> r == Ok(docs)
      ensures !debug && FirstUnnamed(old(docs)) < |old(docs)| ==> r == Err(AssertionError(NameAssertion))
    {
      ghost var d0 := docs;
      var i := 0;
      while i < |docs|
        invariant 0 <= i <= |docs| == |d0|
        invariant debug || forall j :: 0 <= j < i ==> d0[j].name.Some?
        invariant forall j :: 0 <= j < i ==> docs[j] == Finished(d0[j], prefix, debug)
        invariant forall j :: i <= j < |d0| ==> docs[j] == d0[j]
      {
        docs := docs[i := docs[i].(route := prefix + docs[i].route)];
        if !debug {
          if docs[i].name.None? {
            assert FirstUnnamed(d0) == i;
            assert docs == DocsAfterBuild(d0, prefix, debug);
            return Err(AssertionError(NameAssertion));
          }
          docs := docs[i := docs[i].(name := None)];
        }
        i := i + 1;
      }
      assert !debug ==> FirstUnnamed(d0) == |d0|;
      assert docs == DocsAfterBuild(d0, prefix, debug);
      r := Ok(docs);
    }
  }
}
