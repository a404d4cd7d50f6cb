# minirest in Dafny

minirest is a small layer over Flask. Its `Api.route` decorator reads a
handler function's declared parameters, turns each one into an HTTP query
parameter, and converts the query value with the parameter's type
annotation. It also records a documentation entry for each handler, and
`Api.build_doc_data` hands those entries out.

This project models the two algorithms that do the work.

- **The request-time binder.** This is the `wrap` closure built by
  `Api.route`. It walks the declared parameters in order. It reads each value
  from the query, or falls back to the default, and converts it with the
  annotation. Then it either calls the handler with the ordered map of bound
  arguments, or calls `bad_request_fn` with a message.
- **The documentation store.** This is `Api._docs`. `_build_doc_dict`
  appends one entry per handler. `build_doc_data` rewrites every entry in
  place: it prefixes the route and, outside debug mode, deletes the name.

Files:

- `Wrappers.dfy`: `Option` and `Result`.
- `PyRuntime.dfy`: the parts of the Python runtime the code relies on.
  - Python values as the binder sees them.
  - The exceptions that escape.
  - `OrderedDict` item assignment (`Put`).
  - `str.strip` (`Strip`), using the same whitespace set as `str.isspace`.
- `Binder.dfy`: the binder as specification functions, with the lemmas about
  them.
  - `Lookup` models `request.args.get(name, default)` and
    `request.args[name]`.
  - `BindParam` binds one parameter.
  - `Bind` is the whole loop, with the first failure deciding the message.
- `Docs.dfy`: the documentation records as specification functions, with
  their lemmas.
  - `ParamDocOf` and `NewEntry` give what `_build_doc_dict` records.
  - `DocsAfterBuild` gives `_docs` after `build_doc_data`.
- `Minirest.dfy`: the `Api` class.
  - The fields are `_docs`, `debug`, `type_validation`, `bad_request_fn` and
    `document_route`.
  - `Wrap` runs the binder's loop. Its contract ties it to `Bind`.
  - `BuildDocDict` runs the parameter-documentation loop and appends to
    `docs`.
  - `BuildDocData` rewrites `docs` in place, entry by entry.
  - `Route` is the decorator's own sequence of steps.

Inputs that Python gets by reflection or from Flask are passed in here as
plain values:

- A handler is a `Handler`: its name, its signature as a list of
  `ParamSpec`, and its docstring. The signature is `None` when
  `inspect.signature` fails.
- A type annotation is a `Converter`: its `__name__`, plus a function that
  returns a value or `None`. `None` stands for `TypeError` or `ValueError`.
- The query is a `map<string, string>` holding the first value of each key.
- The `SERVER_NAME` prefix is a string argument.
- The handler and `bad_request_fn` are function parameters.

Behaviour of the code worth knowing:

- Defaults are converted. A defaulted parameter missing from the query binds
  to its default passed through the annotation (`int(1)`), unless the default
  is `None` (minirest.py:63, 73-74).
- The conversion message does not name the parameter. Only the last of the
  three concatenated literals is formatted. So `{param.name}` and
  `{param.value}` stay in the text, and only the type name is filled in
  (minirest.py:76-80).
- The required-parameter message keeps the source's spelling "Reqired"
  (minirest.py:70).
- Introspection failure is not tolerated. `_build_doc_dict` skips a handler
  whose signature cannot be read (minirest.py:95-98). But the decorator then
  calls `inspect.signature` again and raises (minirest.py:55). `Route`
  returns `SignatureUnreadable` in that case, which stands for the
  `ValueError` or `TypeError` that `inspect.signature` raises.
- The documentation key is `method`, singular (minirest.py:102). `method`
  is a reserved word in Dafny, so the `DocEntry` field holding it is named
  `methods`.
- A second `build_doc_data` outside debug mode fails its assertion on the
  first entry (`SecondNonDebugBuildFails`). A second call in debug mode
  prefixes every route again (`DebugBuildTwice`).
- With `type_validation=False`, the `else` branch reads `param` before it is
  ever assigned in `wrap`. It therefore raises `UnboundLocalError` before
  binding anything (minirest.py:82-86). `Wrap` returns
  `Raised(UnboundLocalError)`.

## Model

| member | source | states |
|---|---|---|
| `PyRuntime.Put` | minirest.py:81 | `bpar[name] = v` keeps the keys distinct. An existing key keeps its position and takes `v`. A new key is appended at the end. Every other item is unchanged. |
| `PyRuntime.PutNewKey` | minirest.py:81 | Assigning a key the dictionary does not hold appends exactly that item. |
| `PyRuntime.Strip` | minirest.py:115 | The stripped docstring neither starts nor ends with a character `str.isspace` accepts. |
| `PyRuntime.StripCutsOnlySpace` | minirest.py:115 | Stripping removes only whitespace, and only from the two ends. The result is an infix of the input. |
| `PyRuntime.StripIdempotent` | minirest.py:115 | Stripping twice gives the same text as stripping once. |
| `Binder.MissingMessage` | minirest.py:68-70 | The missing-parameter message is the fixed prefix with its spelling "Reqired", then the parameter name, which can be read back at a fixed position, then `" is not present`. |
| `Binder.ConversionMessage` | minirest.py:76-80 | The conversion message is the fixed prefix with `{param.name}` and `{param.value}` left unfilled, then the type name, then a closing quote. |
| `Binder.Lookup` | minirest.py:62-71 | A parameter's value is the query string when the query has its name, otherwise its default. It is missing exactly when the parameter has no default and is absent. |
| `Binder.BindParam` | minirest.py:62-80 | Binding one parameter can fail only when it is required and absent from the query, or when it is annotated. |
| `Binder.BindParamOutcomes` | minirest.py:62-80 | One parameter fails with the missing-parameter message exactly when it has no default and is absent from the query. Every other failure is its annotation's conversion message. A present value binds raw when unannotated and converted otherwise. An absent default binds as is when unannotated or `None`, and converted otherwise. |
| `Binder.Bind` | minirest.py:59-81 | A successful binding is an OrderedDict with distinct keys and at most one item per declared parameter. |
| `Binder.BindOkIffEveryParamBinds` | minirest.py:61-81 | The binder reaches the handler call exactly when every parameter, taken alone, binds. |
| `Binder.BindFailsAtFirstFailure` | minirest.py:61-80 | If all parameters before position `i` bind and parameter `i` fails, the result is the bad-request message of parameter `i`. |
| `Binder.BindErrorComesFromFirstFailure` | minirest.py:61-80 | Every bad-request message is that of a failing parameter whose predecessors all bind. |
| `Binder.BindStep` | minirest.py:60-81 | One loop iteration: after a bound prefix, a parameter that binds to `v` extends the map with `name -> v`. |
| `Binder.BindStopsAt` | minirest.py:64-80 | One loop iteration: after a bound prefix, a parameter that fails ends the whole binding with its message. |
| `Binder.BoundInDeclarationOrder` | minirest.py:60-81 | For a signature with distinct names, a successful binding has one item per parameter. Item `i` is parameter `i`'s name with the value that parameter binds to. |
| `Binder.BoundKeysAreNames` | minirest.py:60-81 | The keys of a successful binding are exactly the declared names, in declaration order. |
| `Binder.MissingRequiredRejects` | minirest.py:64-71 | A parameter without a default that is absent from the query makes the binder fail, so the handler is never called. |
| `Binder.FirstMissingRequiredMessage` | minirest.py:64-71 | If the first failing parameter is a required one that is absent, the message is the missing-parameter message: the fixed prefix, the parameter's name and `" is not present`. |
| `Binder.FirstConversionFailureMessage` | minirest.py:72-80 | If the first failure is a conversion failure, the message is the fixed text with literal `{param.name}` and `{param.value}` placeholders, followed by the annotation's name. |
| `Binder.PresentUnannotatedBindsRaw` | minirest.py:62-74 | An unannotated parameter present in the query binds to the raw query string. |
| `Binder.PresentAnnotatedBindsConverted` | minirest.py:62-74 | An annotated parameter present in the query binds to the converter's result on the raw string. |
| `Binder.AbsentDefaultBindsDefault` | minirest.py:62-74 | A defaulted parameter absent from the query binds to its default when it is unannotated or the default is `None`. |
| `Binder.AbsentDefaultIsConverted` | minirest.py:62-74 | An annotated parameter absent from the query, whose default is not `None`, binds to the converter's result on the default. |
| `Binder.BindOne` | minirest.py:60-81 | A one-parameter signature whose parameter binds gives a map with just that item. |
| `Binder.BindTwo` | minirest.py:60-81 | A two-parameter signature with distinct names, where both parameters bind, gives the two items in declaration order. |
| `Binder.GreetBindsBoth` | minirest.py:59-81 | For `greet(name: str, times: int = 1)`, the query `name=Ann&times=3` binds `{name: "Ann", times: 3}`. |
| `Binder.GreetUsesDefault` | minirest.py:59-81 | For `greet`, the query `name=Ann` binds `{name: "Ann", times: 1}`. |
| `Binder.GreetRejectsBadTimes` | minirest.py:59-81 | For `greet`, the query `times=abc&name=Ann` ends with the conversion message for `int`. |
| `Binder.GreetRequiresName` | minirest.py:64-71 | For `greet`, a query without `name` ends with the missing-parameter message for `name`. |
| `Docs.TypeName` | minirest.py:106 | The documented type is the annotation's `__name__`, and `_empty` for an unannotated parameter. |
| `Docs.NewEntry` | minirest.py:100-115 | A new entry has the rule as route, the handler's name, the given methods or an empty list, one parameter documentation per parameter in order, and the docstring as `str.strip()` returns it, so with no whitespace left at either end. |
| `Docs.ParamDocOf` | minirest.py:105-113 | A parameter's documentation has its name and its annotation's name. `required` holds exactly when there is no default. A `default` is present exactly when the parameter is not required, and it is the declared default. |
| `Docs.ParamDocs` | minirest.py:104-114 | The `params` list has one documentation per declared parameter, in declaration order. |
| `Docs.RequiredMatchesBinder` | minirest.py:105-113 | A parameter absent from the query is documented as required exactly when the binder rejects it with the missing-parameter message. |
| `Docs.Finished` | minirest.py:26-35 | A processed entry has the prefix prepended to its route. Its name is kept in debug mode and deleted otherwise. Its methods, params and doc are unchanged. |
| `Docs.FirstUnnamed` | minirest.py:31-35 | Gives the position where a non-debug build fails its assertion: every earlier entry has a name, and the entry there has none. |
| `Docs.DocsAfterBuild` | minirest.py:24-36 | A build keeps the number of entries and every entry's methods, params and doc. It prefixes the routes up to and including the stopping point. Outside debug mode it deletes the names before that point. Everything else stays as it was. |
| `Docs.DebugBuildPrefixesEveryRoute` | minirest.py:26-31 | A debug-mode build prefixes every route and changes nothing else. |
| `Docs.DebugBuildTwice` | minirest.py:26-36 | Two debug-mode builds prefix every route twice and keep every name. |
| `Docs.NonDebugBuildDeletesNames` | minirest.py:26-35 | A non-debug build over named entries prefixes every route and deletes every name. |
| `Docs.NonDebugBuildStopsAtUnnamedHead` | minirest.py:26-35 | A non-debug build whose first entry has no name stops there, after that entry's route has been prefixed. |
| `Docs.SecondNonDebugBuildFails` | minirest.py:26-35 | After a non-debug build of a non-empty `_docs`, the next non-debug build fails on entry 0, whose route by then carries both prefixes. |
| `Docs.AppendNamed` | minirest.py:100-117 | Appending a named entry to a fully named `_docs` keeps it fully named. |
| `Docs.RegisteredEntriesBuildOnce` | minirest.py:93-117 | The entry a registration appends carries a name, so the first non-debug build after registrations gets through. |
| `Minirest.Api.constructor` | minirest.py:13-20 | A new `Api` stores its configuration, with the source's defaults (`/api/docs/`, validation on, debug off), and starts with an empty `_docs`. |
| `Minirest.Api.BuildDocDict` | minirest.py:93-118 | If the signature cannot be read, nothing is recorded. If there is no docstring, `AttributeError` is raised and nothing is recorded. Otherwise exactly one entry is appended after the existing ones, and that entry is returned. |
| `Minirest.Api.Route` | minirest.py:53-91 | Decorating records the handler's documentation as `BuildDocDict` does. It raises `SignatureUnreadable` (the `ValueError` or `TypeError` of `inspect.signature`) when the signature cannot be read and `AttributeError` when the docstring is missing. Otherwise it yields the signature the wrapper binds with. |
| `Minirest.Api.Wrap` | minirest.py:57-88 | With validation on: if `Bind` succeeds, the handler is called once with the bound map and its result is returned; otherwise `bad_request_fn` is called with `Bind`'s message. With validation off, `UnboundLocalError` is raised. |
| `Minirest.Api.BuildDocData` | minirest.py:24-36 | `_docs` becomes `DocsAfterBuild`, rewritten in place. The call returns `_docs` when in debug mode or every entry has a name. Otherwise it fails with the `"name" key must be present` assertion. |

## Left out

- Flask registration of the wrapper (minirest.py:90) and the `*args, **kwargs`
  Flask passes to it. The source ignores those arguments too.
- `get_doc_json_req` and `flask.jsonify` (minirest.py:38-45). They are
  response serialization only.
- `flask.current_app.config` (minirest.py:28). The prefix is a string
  argument. Flask's default configuration holds `SERVER_NAME = None`, so in
  an app that never sets it `.get('SERVER_NAME', '')` returns `None` and the
  concatenation raises `TypeError`, which `except KeyError` does not catch.
  That failure is not modelled: `BuildDocData` always receives a string.
- `inspect.signature`, `__name__` and `__doc__`. They are replaced by the
  `Handler` and `ParamSpec` inputs. Positional-only, `*args` and `**kwargs`
  parameters are not modelled.
- `sig.bind(**bpar)` (minirest.py:87) is taken to succeed. For ordinary
  parameters bound by name it always does.
- Converters are opaque functions. What `int(...)` or `float(...)` actually
  accepts is not modelled, and neither is an exception other than
  `TypeError` or `ValueError` raised by a converter.
- The `KeyError` on `route` (minirest.py:29-30) cannot happen. Every
  `DocEntry` has a route.
- Assertions are taken to be enabled. Under `python -O` the `assert False` at
  minirest.py:35 disappears and the loop would go on.
- Aliasing. `_build_doc_dict` returns the dict it stored, and `build_doc_data`
  returns `_docs` itself. The model passes these as values, so a caller that
  later mutates them is not captured.
- Concurrent documentation requests racing on the in-place rewrite. Only a
  single-threaded run is modelled.
- `document_route` is stored but, as in the source, used for nothing.
