# alphavel/core in Dafny

A model of the core of the alphavel PHP micro-framework, with proofs about it. The core covers:

- the HTTP request path: the router and its routes, the middleware pipeline, the service container, the request and response objects, the exception handler, and the application object that ties them together for one request;
- the configuration store and the array helpers it is built on;
- the console: the base command class, the console front-end, and the two code-generating commands `make:command` and `make:migration`.

There is one module per source file:

| module | source file |
|---|---|
| `Php` | the PHP values and builtins the framework relies on |
| `Helpers` | `helpers.php` |
| `Configs` | `Config.php` |
| `Routes` | `Route.php` |
| `Routing` | `Router.php` |
| `Pipelines` | `Pipeline.php` |
| `Containers` | `Container.php` |
| `Requests` | `Request.php` |
| `Responses` | `Response.php` |
| `Exceptions` | `ExceptionHandler.php` |
| `Applications` | `Application.php` |
| `Commands` | `Console/Command.php` |
| `Consoles` | `Console/Console.php` |
| `MakeCommands` | `Console/Commands/MakeCommandCommand.php` |
| `MakeMigrations` | `Console/Commands/MakeMigrationCommand.php` |
| `Transport` | the Swoole request record and the response sink the application writes to |

The model follows the source's own form:

- Objects whose fields the source updates are classes, with `modifies` clauses on their methods:
  - the router, a route, the pipeline, the container, the request and the response;
  - the exception handler, the application, a command and the console.
- Their loops are `while` loops with invariants, proved against specification functions:
  - dispatch;
  - booting the providers;
  - parsing argv;
  - measuring and printing a table;
  - listing the console commands.
- Pure code is written as functions:
  - the template compiler and matcher;
  - the helpers and the exception payloads;
  - the name derivations of the generators.

PHP values are the `Php.Value` datatype:

- null, booleans, integers, strings;
- arrays with string keys;
- objects with a class, an identity, properties and an optional count.

A thrown object is a `Php.Throwable`: its class, its ancestors, its message and its optional status code. An operation that may throw returns an `Outcome`.

Where the code and the framework's documented behaviour disagree, the model follows the code:

- A route whose handler is a closure is registered and matched. But `callController` destructures the handler as an array, so calling that route always throws an `Error`. The exception renderer turns that into a 500 (`Applications.CallController`).
- The compiled pattern `#^...$#` has no `D` modifier, so `$` also matches before one final newline. A URI with a trailing `"\n"` matches (`Routes.MatchSound`, `Routes.MatchComplete`). In the same way, a `make:command` name followed by a newline passes the name check (`MakeCommands.TrailingNewlineAccepted`).

## Model

| member | source | states |
|---|---|---|
| Php.Explode | helpers.php:66 | `explode` gives at least one piece and no piece contains the separator |
| Php.ImplodeExplode | helpers.php:66 | joining the pieces of `explode` with the separator gives the string back |
| Php.ExplodeImplode | helpers.php:66 | exploding a join of separator-free pieces gives the pieces back |
| Php.SplitOnce | Console/Command.php:43 | `explode($sep, $s, 2)`: one piece exactly when the separator is absent, otherwise the text before the first separator and everything after it |
| Php.SplitOnceOf | Console/Command.php:43 | a separator-free head, the separator and any tail split into exactly that head and that tail |
| Php.ExplodeHead | Route.php:35 | `explode` gives one piece exactly when the separator is absent, and that piece is the whole string; otherwise the string is the first piece, the separator and the join of the rest, and the second piece begins that rest |
| Php.Lower | Request.php:81 | `strtolower` keeps the length and lowercases exactly the ASCII capitals |
| Php.TrimEmptyIff | helpers.php:100 | `trim` gives the empty string exactly when every character is trimmable whitespace |
| Php.RemoveAll | Console/Commands/MakeCommandCommand.php:104 | removing every occurrence of a needle never lengthens the text |
| Php.RemoveAllSubset | Console/Commands/MakeCommandCommand.php:104 | removing a needle introduces no new character |
| Php.IndexOfKey | Console/Console.php:19-22 | the position of a key in an ordered PHP array is its first occurrence, and there is none exactly when the key is absent |
| Php.PutLookup | Console/Console.php:19-22 | assigning `$a[$k] = $v` makes `k` answer `v` and leaves every other key's answer alone; an existing key keeps its position, a new one goes last, distinct keys stay distinct |
| Php.WordRun | Console/Command.php:65 | the run of `\w` characters from a position is maximal |
| Php.InstanceOfSpelling | ExceptionHandler.php:48 | `instanceof` with a class name read from a string ignores ASCII letter case and a leading backslash, and an object is an instance of its own class |
| Php.NewArgumentCountError | Container.php:80 | the `ArgumentCountError` that `new` raises for a constructor needing arguments is an `Error` and not an `Exception` |
| Helpers.Walk | helpers.php:66-74 | the segment walk answers the value reached along the path, or the default as soon as a segment is missing or the current value is not an array |
| Helpers.ReachAppend | helpers.php:66-74 | walking a path in two parts is walking the first part and then the second from where it stopped |
| Helpers.ArrayGet | helpers.php:60-75 | `array_get` answers a non-null top-level entry under the whole dotted key first, and otherwise the segment walk over the dot-separated key |
| Helpers.ArrayGetPath | helpers.php:62-74 | for a key built from dot-free segments and not shadowed at the top level, `array_get` is the walk, so a reachable null is answered as null, not the default |
| Helpers.PropWalk | helpers.php:44-52 | the property walk answers the value reached when every segment names a set, non-null property of an object along the path, and the default otherwise |
| Helpers.PropReachAppend | helpers.php:44-50 | following properties along a path in two parts is following the first part and then the second from where it stopped |
| Helpers.DataGet | helpers.php:37-56 | `data_get` on an array is `array_get`; on an object it is the property walk over the dot-separated key; on anything else it answers the default |
| Helpers.DataGetNullProperty | helpers.php:43-50 | a property set to null is not `isset`, so `data_get` answers the default for it |
| Helpers.ArrayOnly | helpers.php:79-82 | `array_only` keeps exactly the listed keys present in the array, with their values |
| Helpers.ArrayExcept | helpers.php:86-89 | `array_except` keeps exactly the keys not listed, with their values |
| Helpers.OnlyExceptPartition | helpers.php:78-90 | `array_only` and `array_except` over the same keys are disjoint and together give the array back |
| Helpers.Blank | helpers.php:93-112 | null is blank; numbers and booleans never are; an array is blank iff it is empty; a countable object iff its count is 0 |
| Helpers.Filled | helpers.php:116-119 | `filled` is the negation of `blank` |
| Helpers.BlankString | helpers.php:93-112 | a string is blank exactly when it is all trimmable whitespace |
| Helpers.IndexFrom | helpers.php:125 | `strpos` from a position finds the first occurrence at or after it, or reports that there is none |
| Helpers.StrContains | helpers.php:123-126 | `str_contains` holds exactly when the needle occurs somewhere |
| Helpers.StrStartsWith | helpers.php:130-133 | `str_starts_with` holds exactly when the needle is a prefix |
| Configs.Config.constructor | Config.php:9-14 | a new store is empty |
| Configs.Config.Load | Config.php:25-36 | a loaded array is merged over the items, later keys winning; anything else (no file, not an array) changes nothing |
| Configs.Config.Get | Config.php:38-41 | `get` is `data_get` over the items |
| Configs.Config.Has | Config.php:61-64 | `has` holds exactly when `get` without a default is not null |
| Configs.Config.All | Config.php:66-69 | `all` answers the items unchanged |
| Configs.Config.Set | Config.php:43-59 | `set` writes the value at the dot-separated path, creating or replacing intermediate arrays |
| Configs.SetPath | Config.php:45-58 | writing along a path adds the first segment as a key and leaves every other key alone; a one-segment path stores the value there, a longer one leaves an array there |
| Configs.DottedKeySplits | Config.php:45 | a key with a dot splits into at least two segments, none of them the whole key |
| Configs.SetPathReach | Config.php:48-58 | after `set`, the path reaches the value and every proper prefix of it reaches an array |
| Configs.SetPathKeepsOthers | Config.php:43-59 | `set` leaves every path that diverges from the written one as it was |
| Configs.SetThenGet | Config.php:38-59 | after `set($k, $v)`, `get($k)` answers `v` unless a dotted key is shadowed by a non-null top-level entry with that literal name |
| Configs.SetThenHas | Config.php:43-64 | after setting a non-null value, the key is present |
| Configs.SetPathTwice | Config.php:43-59 | setting the same path twice is setting it once to the second value |
| Routes.Parse | Route.php:40-45 | the template compiler turns each `{name}` into a parameter whose name is non-empty and has no `}`; `RenderParse` and `ParseRender` below show that it loses nothing |
| Routes.RenderParse | Route.php:42 | writing the compiled pieces back as text, each parameter as `{name}`, gives the template back |
| Routes.ParseRender | Route.php:42 | pieces whose literals are plain and whose names are non-empty and free of `}` are what their rendering compiles to |
| Routes.MatchSound | Route.php:63-67 | whatever the anchored pattern matches is the template with each parameter replaced by a non-empty, slash-free capture (or that plus one final newline) |
| Routes.MatchComplete | Route.php:42-44 | every such instantiation of the template, with or without a final newline, is matched |
| Routes.ParseHandlerPair | Route.php:25-38 | the string handler `"C@m"` becomes the pair `[C, m]` |
| Routes.ParseHandlerNoAt | Route.php:35-37 | a string handler without `@` becomes the pair `[s, null]` |
| Routes.ParseHandler | Route.php:25-38 | a closure and an array are kept as given; a string becomes a two-item callable whose first item is the text before the first `@` and whose second is null exactly when there is no `@`, and otherwise the text after that `@` up to the next one |
| Routes.Route.constructor | Route.php:17-23 | a new route keeps its method and path, parses its handler, compiles its pattern once and has no middleware |
| Routes.Route.Middleware | Route.php:47-55 | `middleware` appends its entries after the existing ones and returns the same route |
| Routes.Route.Matches | Route.php:57-74 | a route whose method is neither `*` nor the request's matches nothing; a match carries the route's current handler and middleware and one parameter per placeholder, named in template order |
| Routes.Route.GetPath | Route.php:76-79 | `getPath` answers the template as registered, which compiles to the route's pattern |
| Routes.Route.GetMethod | Route.php:81-84 | `getMethod` answers the registered method, and unless it is `*` no other method matches the route |
| Routes.Route.GetMiddlewares | Route.php:86-89 | `getMiddlewares` answers the middleware list, which every match carries |
| Routes.MatchesSound | Route.php:57-74 | a match has an accepted method, and the URI is the template filled with the captured values |
| Routes.MatchesComplete | Route.php:57-74 | with an accepted method, every filling of a compilable template is matched |
| Routes.ParseLiterals | Route.php:42 | text without `{` compiles to itself |
| Routes.ParseTrailingParam | Route.php:42 | a literal prefix followed by `{name}` compiles to that prefix and one parameter |
| Routes.UsersTemplate | Route.php:40-45 | `/users/{id}` compiles to the literal `/users/` and the parameter `id` |
| Routes.PrefixParamEmpty | Route.php:42-44 | a parameter needs at least one character, so the bare prefix is not matched |
| Routes.PrefixParamValue | Route.php:42-44 | the prefix followed by any non-empty slash-free value is matched |
| Routes.UsersEmptyId | Route.php:40-45 | `/users/` does not match `/users/{id}` |
| Routes.UsersNestedPath | Route.php:40-45 | `/users/42/x` does not match `/users/{id}` |
| Routes.UsersWithId | Route.php:40-45 | `/users/42` matches `/users/{id}` |
| Routing.FirstIndex | Router.php:47-56 | the first route in registration order that matches, and no route matches exactly when there is none |
| Routing.Router.constructor | Router.php:7 | a new router has no routes |
| Routing.Router.AddRoute | Router.php:39-45 | exactly one new route object goes at the end, earlier routes untouched, and it is the object returned, so middleware added to it later is seen by dispatch |
| Routing.Router.Get | Router.php:9-12 | registers with the method `GET` |
| Routing.Router.Post | Router.php:14-17 | registers with the method `POST` |
| Routing.Router.Put | Router.php:19-22 | registers with the method `PUT` |
| Routing.Router.Delete | Router.php:24-27 | registers with the method `DELETE` |
| Routing.Router.Patch | Router.php:29-32 | registers with the method `PATCH` |
| Routing.Router.Any | Router.php:34-37 | registers with the method `*` |
| Routing.Router.Dispatch | Router.php:47-56 | dispatch answers the match of the first matching route, changes nothing, and answers null exactly when no route matches |
| Routing.Router.GetRoutes | Router.php:58-61 | `getRoutes` answers the registered routes, and nothing is found for a URI and method exactly when none of them matches |
| Routing.EarlierRouteShadows | Router.php:49-53 | a route registered after one with the same template and the same (or `*`) method is never the one dispatched |
| Pipelines.ReduceSnoc | Pipeline.php:27-31 | `array_reduce` over the reversed pipes wraps the stack built from the earlier pipes in one more layer |
| Pipelines.ComposeIsRun | Pipeline.php:25-47 | the closure built by `array_reduce` and `carry` behaves as the layered run of the pipes around the destination |
| Pipelines.RunPrefix | Pipeline.php:36-47 | pipes that all call `next` once pass the forwarded value inward and unwind the inner result outward |
| Pipelines.Onion | Pipeline.php:25-47 | with pipes that each call `next` once, the trace is every before-part in order, the destination, then every after-part in reverse; a throw from the destination propagates unchanged with no after-part run |
| Pipelines.RunHeadStops | Pipeline.php:38-45 | a first pipe that does not call `next` decides the outcome alone |
| Pipelines.StopAt | Pipeline.php:38-45 | a pipe that does not call `next` stops the run there; later pipes are never resolved |
| Pipelines.ShortCircuitAt | Pipeline.php:38-46 | a pipe that answers without calling `next` gives that answer, wrapped by the earlier pipes, and neither the destination nor any later pipe runs |
| Pipelines.ThrowAt | Pipeline.php:40-44 | a pipe that cannot be resolved, or that throws, propagates that throwable unchanged past the earlier pipes |
| Pipelines.Pipeline.constructor | Pipeline.php:7-9 | a new pipeline has no passable and no pipes |
| Pipelines.Pipeline.Send | Pipeline.php:11-16 | `send` replaces the passable and returns the same pipeline |
| Pipelines.Pipeline.Through | Pipeline.php:18-23 | `through` replaces the pipes and returns the same pipeline |
| Pipelines.Pipeline.Then | Pipeline.php:25-34 | `then` runs the layered pipes around the destination on the passable, or throws the uninitialised-property error when nothing was sent |
| Containers.Container.constructor | Container.php:13-20 | a new container has no bindings and no instances |
| Containers.MakeStep | Container.php:72-94 | a stored instance is answered with no change; bindings never change and an instance is only ever added by a shared binding, as what its factory produced; with no instance, binding or class the answer is "Binding [id] not found" |
| Containers.GetStep | Container.php:55-70 | without `has` the answer is NotFoundException and nothing changes; otherwise the state is `make`'s, a value is `make`'s value, and an `Exception` thrown is `make`'s wrapped in a ContainerException |
| Containers.Container.Bind | Container.php:31-37 | `bind` replaces the binding for the id with a transient one and changes nothing else |
| Containers.Container.Singleton | Container.php:39-45 | `singleton` replaces the binding for the id with a shared one and changes nothing else |
| Containers.Container.Instance | Container.php:47-50 | `instance` stores the value for the id and changes nothing else |
| Containers.Container.Make | Container.php:72-94 | `make` answers and updates the state as `MakeStep` prescribes |
| Containers.Container.HasEntry | Container.php:96-99 | `has` holds exactly when there is a non-null instance or a binding |
| Containers.Container.Get | Container.php:55-70 | `get` answers and updates the state as `GetCases` describes |
| Containers.InstanceFirst | Container.php:74-76 | a stored instance is answered before any binding, so re-binding the id does not change what `make` answers |
| Containers.SingletonMemoised | Container.php:86-93 | a shared binding's factory result is stored, and the next `make` answers the same value without running it again |
| Containers.TransientFresh | Container.php:86-93 | a transient constructor binding of a class whose constructor returns gives a different object on each `make` and stores nothing |
| Containers.FallbackFresh | Container.php:78-81 | with no instance and no binding, an existing class whose constructor returns gives a fresh instance of that class each time, never cached |
| Containers.FallbackConstructorThrows | Container.php:78-81 | with no instance and no binding, a class whose constructor throws makes `make` throw the same and change nothing |
| Containers.GetArgumentCountError | Container.php:61-69 | a factory constructing a class that needs arguments makes `get` throw the `ArgumentCountError` itself, unwrapped, since it is not an `Exception` |
| Containers.MissingFails | Container.php:78-84 | with no instance, binding or class, `make` throws "Binding [id] not found in container" and changes nothing |
| Containers.NullInstanceAbsent | Container.php:72-99 | an instance registered as null counts as absent for both `has` and `make` |
| Containers.GetCases | Container.php:55-70 | `get` throws NotFoundException whenever `has` is false, wraps an `Exception` from `make` in a ContainerException, lets any other throwable through, and otherwise answers what `make` answers |
| Requests.HeaderKey | Request.php:81 | the header key is lowercased and `_` becomes `-`, character by character |
| Requests.HeaderKeyPlain | Request.php:81 | a key already without capitals or underscores is left alone |
| Requests.HeaderKeyIdempotent | Request.php:79-84 | normalising a key twice is normalising it once |
| Requests.Dashed | Request.php:81 | `str_replace('_', '-')` changes exactly the underscores |
| Requests.Request.constructor | Request.php:7-19 | a new request has empty query, body fields, headers and server data and no raw body |
| Requests.Request.CreateFromTransport | Request.php:21-32 | every field is overwritten from the transport record, with method `GET`, URI `/` and empty arrays as defaults, and the same request is returned |
| Requests.Request.GetMethod | Request.php:34-37 | `getMethod` answers the method as the transport gave it |
| Requests.Request.GetUri | Request.php:39-42 | `getUri` answers the URI as the transport gave it |
| Requests.Request.Input | Request.php:44-47 | `input` answers a non-null POST field, else the non-null query field, and the default when `has` is false |
| Requests.Request.Only | Request.php:54-57 | `only` keeps exactly the listed keys present in query or POST, POST winning |
| Requests.Request.Except | Request.php:59-62 | `except` keeps exactly the unlisted keys present in query or POST, POST winning |
| Requests.Request.Has | Request.php:64-67 | `has` implies the key is in `all`, and a non-null entry of `all` is reported |
| Requests.Request.Filled | Request.php:69-72 | `filled` holds exactly when `input` without a default is not blank |
| Requests.Request.Query | Request.php:74-77 | `query` answers a non-null query field and otherwise the default; without a set POST field it agrees with `input` |
| Requests.Request.IsPost | Request.php:117-120 | `isPost` holds exactly when the method is `POST` |
| Requests.Request.IsGet | Request.php:122-125 | `isGet` holds exactly when the method is `GET` |
| Requests.Request.IsPut | Request.php:127-130 | `isPut` holds exactly when the method is `PUT` |
| Requests.Request.IsDelete | Request.php:132-135 | `isDelete` holds exactly when the method is `DELETE` |
| Requests.Request.All | Request.php:49-52 | `all` has the keys of query and post, with post winning on shared keys |
| Requests.Request.Header | Request.php:79-84 | `header` looks the value up under the normalised key, else answers the default |
| Requests.Request.BearerToken | Request.php:86-95 | a token exists exactly when the authorization header starts with the case-sensitive `"Bearer "`, and it is the rest of that header |
| Requests.Request.IsJson | Request.php:112-115 | `isJson` holds exactly when the content type contains `application/json` |
| Requests.MethodChecksExclusive | Request.php:117-135 | the four method checks are exact comparisons: at most one holds, and a lower-case method satisfies none |
| Requests.InputFallsBackToQuery | Request.php:44-47 | `input` answers a non-null body field, and otherwise exactly what `query` answers for the same key and default |
| Requests.HasIffInput | Request.php:44-67 | `has` holds exactly when `input` without a default is not null |
| Requests.FilledHas | Request.php:69-72 | a filled key is present |
| Requests.InputAgreesWithAll | Request.php:44-52 | `input` agrees with `all` except where post holds null for a key the query has, in which case `all` says null and `input` answers the query value |
| Requests.OnlyExceptSplitAll | Request.php:54-62 | `only` and `except` over the same keys partition `all` |
| Requests.HeaderSpellings | Request.php:79-84 | keys with the same normalisation (`Content_Type`, `content-type`) read the same header |
| Requests.BearerRoundTrip | Request.php:86-95 | a header `"Bearer " + t` gives back the token `t` |
| Responses.SuccessPayload | Response.php:18-24 | the success payload is exactly `{status: 'success', data}` |
| Responses.ErrorPayload | Response.php:26-38 | the error payload is `{status: 'error', message}`, plus `errors` exactly when errors is not null |
| Responses.Response.constructor | Response.php:7-11 | a new response has status 200, no headers and empty content |
| Responses.Response.Make | Response.php:13-16 | `make` gives a fresh response with status 200, no headers and empty content |
| Responses.Response.Success | Response.php:18-24 | `success` gives a JSON response of the success payload with the given status |
| Responses.Response.Error | Response.php:26-38 | `error` gives a JSON response of the error payload with the given status |
| Responses.Response.Json | Response.php:40-47 | `json` sets the JSON content type, the encoded data and the status, and returns the same response |
| Responses.Response.Content | Response.php:49-54 | `content` changes the content only |
| Responses.Response.Status | Response.php:56-61 | `status` changes the status only |
| Responses.Response.Header | Response.php:63-68 | `header` sets the key, replacing an earlier value in place and leaving other headers alone |
| Responses.Response.Redirect | Response.php:70-76 | `redirect` sets `Location` and the status and leaves the content alone |
| Responses.Response.GetStatusCode | Response.php:78-81 | `getStatusCode` answers the status of the response's data |
| Responses.Response.GetHeaders | Response.php:83-86 | `getHeaders` answers the headers of the response's data, each key at most once |
| Responses.Response.GetContent | Response.php:88-91 | `getContent` answers the content of the response's data |
| Responses.HeaderTwice | Response.php:63-68 | setting a header twice is setting it once to the second value |
| Exceptions.StatusCode | ExceptionHandler.php:124-131 | the status is the throwable's own status code when it has one, else 500 |
| Exceptions.Payload | ExceptionHandler.php:98-108 | the body always has `success=false`; with debug off it is exactly that and "Internal Server Error"; with debug on it carries the message, class, file, line and trace |
| Exceptions.FirstHandlerFirst | ExceptionHandler.php:47-53 | the handler called is the first registered whose class the throwable is an instance of, and there is none exactly when no class applies |
| Exceptions.Dispatch | ExceptionHandler.php:45-56 | a handler is called exactly when some registered class applies, and then with the throwable itself under the first registered class it belongs to, no earlier class applying; otherwise the throwable is rendered |
| Exceptions.SwooleOps | ExceptionHandler.php:91-111 | the Swoole rendering is the status, the JSON content type, then the encoded payload |
| Exceptions.PlainOps | ExceptionHandler.php:67-89 | the plain rendering is the Swoole rendering before headers are sent, and only its body after |
| Exceptions.NewErrorException | ExceptionHandler.php:61 | the converted error is an `Exception` with the message, file and line given |
| Exceptions.HandleError | ExceptionHandler.php:58-65 | `handleError` throws that exception exactly when the level's bit is set in the reporting mask, and otherwise answers false |
| Exceptions.ExceptionHandler.constructor | ExceptionHandler.php:11-18 | a new handler is in debug mode with no handlers |
| Exceptions.ExceptionHandler.SetDebug | ExceptionHandler.php:35-38 | `setDebug` changes the debug flag only |
| Exceptions.ExceptionHandler.RegisterHandler | ExceptionHandler.php:40-43 | registering a class replaces its handler in place, or adds it last |
| Exceptions.ExceptionHandler.Handle | ExceptionHandler.php:45-56 | `handle` records the dispatch: the first applicable handler, or the rendering |
| Exceptions.ExceptionHandler.RenderSwoole | ExceptionHandler.php:91-111 | the sink receives the status, the JSON content type and the payload, in that order |
| Exceptions.ExceptionHandler.Capture | ExceptionHandler.php:113-122 | `capture` answers the callback's value, or null after handling what it threw |
| Exceptions.ReRegisterSamePlace | ExceptionHandler.php:40-53 | re-registering a class does not change which handler a throwable reaches |
| Exceptions.SameClassesSameHandler | ExceptionHandler.php:47-53 | which handler is chosen depends only on the registered classes and their order |
| Exceptions.DebugOnlyAddsDetail | ExceptionHandler.php:76-86 | the non-debug body is the same for every throwable and has strictly fewer keys than the debug body |
| Exceptions.HandleCases | ExceptionHandler.php:45-56 | with no applicable handler the throwable is rendered, starting with its status when headers are not yet sent; with one it is handed to a handler |
| Exceptions.PlainAfterHeaders | ExceptionHandler.php:67-111 | the plain rendering is the Swoole rendering, less the status and content type once headers are sent |
| Applications.Application.constructor | Application.php:11-25 | a new application has no providers, nothing booted and no configuration |
| Applications.Application.Register | Application.php:36-46 | a new provider is constructed, has `register` called and is recorded last; a known one changes nothing |
| Applications.Application.Boot | Application.php:94-102 | `boot` calls `boot()` once on each registered provider not yet booted, in registration order, and marks them all booted |
| Applications.Application.BootAt | Application.php:96-101 | one pass of the boot loop extends the calls and the booted set by that provider |
| Applications.Application.BootOne | Application.php:97-100 | a provider is booted at most once |
| Applications.Application.Config | Application.php:119-122 | `config` is `array_get` over the loaded configuration |
| Applications.Application.LoadConfig | Application.php:124-127 | a file that returns an array is merged over the configuration; anything else is an `Error` and changes nothing |
| Applications.Application.SendResponse | Application.php:189-198 | the sink receives the status, then every header in order, then the body |
| Applications.SendOps | Application.php:189-198 | sending a response is its status, then each header in order, then its content |
| Applications.Application.HandleRequest | Application.php:154-178 | the request is built from the transport record (method, URI, query, POST, headers, server and body), the match is what the router answers for that URI and method, and the sink receives exactly what `Respond` prescribes for the match |
| Applications.Application.Receive | Application.php:156 | the request is a fresh one whose every field is filled from the transport record |
| Applications.Application.Answer | Application.php:159-177 | no match gives the 404 response; a match runs the route |
| Applications.Application.NotFound | Application.php:161-166 | the 404 response is sent |
| Applications.NotFoundOps | Application.php:161-163 | the 404 answer is status 404 and the JSON body `{"error": "Not Found"}` with no header |
| Applications.Finish | Application.php:174-177 | a response is sent as `SendOps` says; a throwable is rendered with its own status; anything else is the 500 of the return-type error |
| Applications.Respond | Application.php:159-177 | every answer starts with a status; no match gives the 404 answer, a match one of the pipeline outcomes' answers |
| Applications.Application.RunRoute | Application.php:168-177 | the middleware pipeline around the controller runs, and its outcome is sent or rendered |
| Applications.Application.Through | Application.php:169-172 | the outcome is the pipeline of the route's middleware around the controller call |
| Applications.Application.Reply | Application.php:174-176 | a response is sent, and a throwable is rendered |
| Applications.ControllerClass | Application.php:182-184 | `new $controller()` instantiates the named class for a string and the object's own class for an object, and nothing else can be instantiated |
| Applications.CallController | Application.php:180-187 | a closure handler, or a controller that is neither a string nor an object, throws an `Error`; a class whose constructor throws gives that throwable before the method is looked up; otherwise a fresh controller of an existing class gets the request and the route values in match order, its response is the answer, and a non-response answer is an error |
| Applications.ObjectControllerIsItsClass | Application.php:182-184 | a controller given as an object answers exactly as its class name would, whatever the object's own state |
| Applications.BootCallsSnoc | Application.php:94-102 | one more provider adds one boot call, unless it is already booted |
| Applications.BootCallsNone | Application.php:94-102 | booting when every provider is booted calls nothing |
| Applications.BootCallsInOrder | Application.php:94-102 | booting fresh providers calls each exactly once, in registration order |
| Applications.LedgerRegister | Application.php:36-46 | registering a new provider keeps the event record consistent |
| Applications.LedgerBoot | Application.php:94-102 | booting a provider keeps the event record consistent, so no provider is booted twice across any number of `boot` calls |
| Applications.HeaderOpsInOrder | Application.php:193-195 | the headers are written one by one, in order |
| Applications.NotFoundIgnoresWorld | Application.php:159-166 | without a match the response is the 404 whatever the controllers and middleware would do, and no pipeline runs |
| Applications.NoMiddlewareCallsController | Application.php:168-172 | a route without middleware answers what its controller answers |
| Applications.ShortCircuitSkipsController | Application.php:168-172 | a first middleware that answers without calling `next` decides the response, whatever the controller would do |
| Applications.ThrownIsRendered | Application.php:175-177 | a throwable from the pipeline is rendered with its status instead of propagating |
| Applications.ResponseIsSent | Application.php:189-198 | a response from the pipeline is written as its status, its headers in order and its body |
| Commands.Classify | Console/Command.php:41-51 | `--name=value` gives the option `name` with everything after the first `=`, `--name` gives true, `-rest` gives `rest` set to true, and anything else is positional; the token can be spelt again from the result |
| Commands.StepCases | Console/Command.php:40-52 | one token updates the options or appends a positional argument, as the three branches of the loop say |
| Commands.Step | Console/Command.php:40-52 | a token not starting with `-` is appended to the arguments; any other adds exactly its option name to the options and keeps the arguments |
| Commands.ParseAll | Console/Command.php:40-52 | the parse only extends the arguments, by tokens of `args` not starting with `-`, at most one per token, and never drops an option |
| Commands.Slice2 | Console/Command.php:38 | the first two argv entries are dropped |
| Commands.Positionals | Console/Command.php:48-51 | the positional arguments are tokens that do not start with `-` |
| Commands.ParsePositionals | Console/Command.php:40-52 | the positional arguments are exactly the tokens not starting with `-`, in their order |
| Commands.LastOptionWins | Console/Command.php:44 | a repeated option keeps the value of its last occurrence |
| Commands.LongOptionWithValue | Console/Command.php:43-44 | `--name=value` sets `name` to all of `value`, even when it contains `=` |
| Commands.ShortOptionIsFlag | Console/Command.php:45-47 | `-x=3` sets the option `x=3` to true, never to a value |
| Commands.ScriptAndCommandIgnored | Console/Command.php:38 | the first two argv entries never change what is parsed |
| Commands.PlaceholderAt | Console/Command.php:65 | a placeholder match is non-empty and ends inside the signature |
| Commands.PlaceholderFound | Console/Command.php:65 | `{name}` and `{name?}` each contribute their name |
| Commands.OptionPlaceholderSkipped | Console/Command.php:65 | `{--name}` is not an argument placeholder |
| Commands.NoBraceSkipped | Console/Command.php:65 | text without `{` holds no placeholder |
| Commands.PlaceholderNames | Console/Command.php:65-66 | the placeholder names are non-empty runs of `\w` characters, no more of them than the signature has characters |
| Commands.NameThenOptionPlaceholders | Console/Command.php:64-73 | in `cmd {name} {--opt}` the only argument name is `name` |
| Commands.CommandName | Console/Command.php:195-201 | `getSignature` answers the leading run of characters that are neither whitespace nor `{`, or the whole signature when that run is empty |
| Commands.CommandNameOf | Console/Command.php:195-201 | a name followed by a space or a placeholder is what `getSignature` answers |
| Commands.Command.GetSignature | Console/Command.php:195-201 | `getSignature` answers the command name of the signature, a prefix of it that stops at its end or at a space or brace |
| Commands.ColumnWidth | Console/Command.php:237-246 | a column's width is the largest header or cell length in it |
| Commands.WidthsStep | Console/Command.php:242-246 | one more cell widens only its own column |
| Commands.Widths | Console/Command.php:235-246 | there is one width per column that the headers or any row reach |
| Commands.Pad | Console/Command.php:267 | `str_pad` pads on the right to the width and never truncates |
| Commands.RowLineLength | Console/Command.php:261-271 | a printed row is one bar plus, per cell, its padded width and three frame characters |
| Commands.RowLine | Console/Command.php:261-271 | a printed row starts with a bar and has at least one bar and three frame characters per cell |
| Commands.Separator | Console/Command.php:250 | the separator is all dashes, as long as the header row plus the widths of the columns beyond the headers |
| Commands.SeparatorLength | Console/Command.php:250 | the separator is as long as the header row plus the widths of extra columns, so with no extra columns it is as long as the header and every full row |
| Commands.AskAsWritten | Console/Command.php:140-148 | a truthy answer is returned; a falsy one gives the default, or a TypeError when there is none |
| Commands.Ask | Console/Command.php:140-148 | the intended `ask` agrees with the code whenever that returns, and answers "" instead of throwing |
| Commands.Command.constructor | Console/Command.php:12-18 | a new command has no arguments and no options |
| Commands.Command.Initialize | Console/Command.php:27-53 | `initialize` adds the parse of argv without its first two entries to what was collected |
| Commands.Command.ParseOne | Console/Command.php:41-51 | one pass of the parse loop is one step of the parse |
| Commands.Command.ArgumentAt | Console/Command.php:60-62 | `argument(i)` answers the i-th positional argument or the default |
| Commands.Command.ArgumentNamed | Console/Command.php:64-73 | `argument(name)` answers the positional argument at the first position of `name` among the placeholders, or the default when the name is not there |
| Commands.Command.Option | Console/Command.php:79-82 | `option` answers the stored value or the default |
| Commands.Command.Line | Console/Command.php:132-135 | a message is printed as one line |
| Commands.Command.PrintTableRow | Console/Command.php:261-271 | the row is printed as one line of padded, framed cells |
| Commands.Command.Table | Console/Command.php:233-256 | `table` prints the header row, the separator and every row, padded to the column widths |
| Commands.Command.PrintRows | Console/Command.php:253-255 | every row is printed, in order |
| Commands.MeasureColumns | Console/Command.php:235-246 | the width loops compute each column's largest header or cell length |
| Commands.WidenForRow | Console/Command.php:243-245 | the inner width loop widens the columns by one row |
| Commands.IndexOf | Console/Command.php:67 | `array_search` finds the first position holding the name itself, and none exactly when the name is absent (strict comparison, see Left out) |
| Consoles.RequestedName | Console/Console.php:80 | a missing command name is `list` |
| Consoles.Decide | Console/Console.php:80-109 | built-in names are handled first; an unregistered other name is unknown; a registered one runs its class |
| Consoles.RunOutcome | Console/Console.php:78-128 | only the listing can throw out of `run`; an unknown name answers 1, the version and help answer 0 |
| Consoles.Describe | Console/Console.php:146-147 | describing a missing class throws an `Error`, not an `Exception`; an existing one answers its description |
| Consoles.MaxLen | Console/Console.php:140-143 | the padding width is at least every signature's length |
| Consoles.Listing | Console/Console.php:145-151 | the listing has one line per command until a class fails to describe itself |
| Consoles.Console.constructor | Console/Console.php:10-14 | a new console has no commands, the name `alphavel` and version `1.0.0` |
| Consoles.Console.Register | Console/Console.php:19-22 | `register` maps the signature to the class, replacing an earlier class in place |
| Consoles.Console.SetName | Console/Console.php:173-176 | `setName` changes the name only |
| Consoles.Console.SetVersion | Console/Console.php:181-184 | `setVersion` changes the version only |
| Consoles.Console.ListAll | Console/Console.php:133-154 | the listing prints one padded line per command in registration order, and the first failure escapes |
| Consoles.Console.LongestSignature | Console/Console.php:140-143 | the loop computes the longest signature |
| Consoles.Console.Run | Console/Console.php:78-128 | `run` answers as `RunOutcome` prescribes and prints the listing only for `list` |
| Consoles.ListingStops | Console/Console.php:145-151 | a failure while describing one command ends the listing there |
| Consoles.ListingNext | Console/Console.php:145-151 | a described command adds its line |
| Consoles.ListingSticks | Console/Console.php:145-151 | once the listing has failed, later commands change nothing |
| Consoles.MissingNameLists | Console/Console.php:80-87 | without a command name, `run` lists the commands |
| Consoles.BuiltinsShadow | Console/Console.php:83-101 | built-in names never run a registered command and answer 0 unless the listing throws |
| Consoles.UnknownRunsNothing | Console/Console.php:104-109 | an unregistered name answers 1 whatever any command would do |
| Consoles.ExecuteCases | Console/Console.php:111-127 | a registered command is initialised with the whole argv when it can be; `run` answers its exit code, or 1 if it threw |
| Consoles.RegisterThenRun | Console/Console.php:19-22 | after registering a non-built-in name, running it runs the new class |
| Consoles.ListingAligned | Console/Console.php:140-151 | every description starts in the same column: two spaces, the longest signature and two more |
| MakeCommands.Chunks | Console/Commands/MakeCommandCommand.php:107 | the split before each capital loses nothing, gives non-empty pieces with no inner capital, and each piece after the first starts with a capital |
| MakeCommands.CommandSignature | Console/Commands/MakeCommandCommand.php:100-110 | the derived signature has no uppercase letter |
| MakeCommands.ChunkCount | Console/Commands/MakeCommandCommand.php:107 | text starting with a capital splits into one piece per capital |
| MakeCommands.LowerImplode | Console/Commands/MakeCommandCommand.php:109 | lowercasing a join lowercases each piece |
| MakeCommands.PartsPerCapital | Console/Commands/MakeCommandCommand.php:104-109 | when the stripped name starts with a capital, the signature has one `:`-separated part per capital |
| MakeCommands.TwoWords | Console/Commands/MakeCommandCommand.php:100-110 | `SendEmailCommand` and names like it become `send:email` |
| MakeCommands.SuffixRemoved | Console/Commands/MakeCommandCommand.php:104 | removing `Command` from a name that has it only as its suffix leaves the rest |
| MakeCommands.ChunksOfTwo | Console/Commands/MakeCommandCommand.php:107 | two capitalised words split into those two words |
| MakeCommands.StubSignature | Console/Commands/MakeCommandCommand.php:59-70 | the stub's signature begins with the derived signature |
| MakeCommands.StubRoundTrip | Console/Commands/MakeCommandCommand.php:57-70 | the generated command's `getSignature` answers the derived signature, and its only argument placeholder is `argument` |
| MakeCommands.SignatureChars | Console/Commands/MakeCommandCommand.php:100-110 | the derived signature is made of lowercase letters, digits and `:` |
| MakeCommands.NameAlnum | Console/Commands/MakeCommandCommand.php:19 | an accepted name is alphanumeric |
| MakeCommands.StubArgument | Console/Commands/MakeCommandCommand.php:70 | the stub's placeholders declare the single argument `argument` |
| MakeCommands.TrailingNewlineAccepted | Console/Commands/MakeCommandCommand.php:19 | a valid name followed by a newline also passes the name check |
| MakeCommands.Handle | Console/Commands/MakeCommandCommand.php:13-55 | a name failing `^[A-Z][a-zA-Z0-9]+Command$` fails before any path is formed; an existing file without `--force` is refused; otherwise the stub is written to `app/Console/Commands/<name>.php` |
| MakeCommands.InvalidNameFails | Console/Commands/MakeCommandCommand.php:19-24 | an invalid name gives FAILURE whatever the files, force flag and directory |
| MakeCommands.ForceOverwrites | Console/Commands/MakeCommandCommand.php:32-37 | with `--force` a valid name is always created |
| MakeMigrations.TableCapture | Console/Commands/MakeMigrationCommand.php:63 | a capture is a `\w+` word followed by `_table` |
| MakeMigrations.CreateFrom | Console/Commands/MakeMigrationCommand.php:63-65 | the create search answers only real matches |
| MakeMigrations.AddFrom | Console/Commands/MakeMigrationCommand.php:67-69 | the add search answers only real matches |
| MakeMigrations.ExtractTableName | Console/Commands/MakeMigrationCommand.php:60-73 | the table name is a word found before `_table` in the name, or `table_name` |
| MakeMigrations.CreateTable | Console/Commands/MakeMigrationCommand.php:63-65 | `create_<t>_table` gives `t`, underscores included, as greedy `\w+` does |
| MakeMigrations.AddTable | Console/Commands/MakeMigrationCommand.php:67-69 | `add_<x>_to_<t>_table` gives `t` when `create_` occurs nowhere in the name and no `_to_` starts after the one that follows `<x>` (otherwise the greedy `\w+` backtracks to the last `_to_`) |
| MakeMigrations.CreateBeatsAdd | Console/Commands/MakeMigrationCommand.php:63-72 | the create pattern takes priority over the add pattern |
| MakeMigrations.CreateFromNone | Console/Commands/MakeMigrationCommand.php:63 | without `create_` the create pattern finds nothing |
| MakeMigrations.UcWords | Console/Commands/MakeMigrationCommand.php:77 | `ucwords` with `_` as delimiter upper-cases exactly the first character and every character after an underscore, keeping the rest and the length |
| MakeMigrations.UcFromAt | Console/Commands/MakeMigrationCommand.php:77 | after the first character, each character is upper-cased exactly when the character before it is `_`; the first one is upper-cased when the walk starts at a word boundary |
| MakeMigrations.DropChar | Console/Commands/MakeMigrationCommand.php:77 | removing `_` removes exactly the underscores |
| MakeMigrations.ClassName | Console/Commands/MakeMigrationCommand.php:77 | the class name contains no `_` |
| MakeMigrations.ClassNameWord | Console/Commands/MakeMigrationCommand.php:77 | a name without `_` is only capitalised |
| MakeMigrations.ClassNameCons | Console/Commands/MakeMigrationCommand.php:77 | each `_`-separated word is capitalised and joined, so `create_users_table` gives `CreateUsersTable` |
| MakeMigrations.Plan | Console/Commands/MakeMigrationCommand.php:22-49 | an empty name is refused; otherwise the file name is `<timestamp>_<name>.php`, an existing file is refused, and a new one gets the derived class and table names |
| MakeMigrations.EmptyNameUnreachable | Console/Commands/MakeMigrationCommand.php:20-26 | as written, the empty-name branch is never reached: an empty answer throws a TypeError inside `ask` |
| MakeMigrations.EmptyNameFails | Console/Commands/MakeMigrationCommand.php:20-26 | with the intended `ask`, an empty answer gives "name is required" and exit code 1, and any other answer is handled as the code handles it |

## Left out

- The Swoole server and its process topology (`Application::run`) are not modelled. Provider discovery from `composer.json` (`discoverProviders`) and the loading of files with `require` are not modelled either. Transport objects are the `Transport` records and sinks. `LoadConfig` and `Config.Load` take the value the file returned as a parameter.
- `Application::make`, `singleton` and `bind` only forward to the container, which the `Containers` module models. They have no members of their own.
- The process-wide singletons (`getInstance` of the application, configuration, container and exception handler) are not modelled; each object is built explicitly. `ExceptionHandler::register`, which installs PHP's global handlers, is not modelled.
- PHP's dynamic features are parameters:
  - `new $class()` and `class_exists`, given by a class table that says, for each existing class, what its constructor does (returns or throws), looked up by the name as written or, for a controller object, by its class name; the table is taken to list the class of every such object, which in PHP always exists;
  - `method_exists`;
  - controller actions and middleware behaviour, given by the `World` records;
  - factories, given by the `Factory` datatype.
- Clocks, the working directory and file existence are parameters of the generators.
- Files are never written: the generators answer what they would create.
- Printed output is only modelled as the listing of `Console.ListAll` and the lines of `Command.Table`. The following are not modelled:
  - ANSI colours;
  - the `info`/`error`/`warn`/`success`/`comment` wrappers;
  - `confirm`, `choice` and `progressBar`;
  - the help and version text;
  - the hints the generators print.
- `ask` reads its line as a parameter. The prompt it echoes is not modelled.
- `Console::autodiscover` and `getClassNameFromFile` read files and match PHP source text, and are not modelled.
- The other console commands (the cache, route-list, serve and remaining `make:*` commands), `Controller.php`, `CoreServiceProvider.php`, `Facade.php`, and the helpers `app`, `config`, `env`, `now` and `today` are not part of this model.
- `Request::json` decodes JSON and is not modelled.
- `json_encode` is not modelled: a JSON body is kept as the value it encodes. PHP array keys are strings only and their order is dropped, except where order is observable:
  - route parameters;
  - response headers;
  - providers;
  - exception handlers;
  - console commands.
- Floating-point numbers are not modelled.
- The messages of engine errors (missing class, uninitialised property, non-array config) stand in for PHP's exact wording.
- `strlen` is taken as a count of characters.
- Exceptions thrown by provider constructors or by their `register`/`boot` methods are not modelled.
- `ExceptionHandler::renderException` echoes text and calls `header()`. It is modelled as the same operations on a sink, with `headers_sent()` as a parameter.
- A request before `createFromSwoole` has the empty string as method and URI. PHP would throw on reading these uninitialised typed properties.
- Adapting the request and dispatching cannot fail in the model, so the path where such a failure escapes `handleRequest` is not modelled.
- Routes.Route.constructor: requires every literal character of the template to be one that stands for itself in the pattern (no regular-expression metacharacter or `#`), and no parameter name to contain `>`, since PCRE would end the group name there and read the rest of the name as pattern text; templates that would change the meaning of the compiled pattern are outside the model.
- Routing.Router.AddRoute: has the same restriction on templates as the route constructor.
- Routing.Router.Get: has the same restriction on templates as the route constructor.
- Routing.Router.Post: has the same restriction on templates as the route constructor.
- Routing.Router.Put: has the same restriction on templates as the route constructor.
- Routing.Router.Delete: has the same restriction on templates as the route constructor.
- Routing.Router.Patch: has the same restriction on templates as the route constructor.
- Routing.Router.Any: has the same restriction on templates as the route constructor.
- Commands.IndexOf: compares names with strict equality, while `array_search` without its strict flag compares loosely; two different names can only compare equal loosely when both are numeric strings (`"1"` and `"01"`, `"1e1"` and `"10"`), which `\w+` placeholders and argument names can be, and the model does not find those.
- Applications.Application.HandleRequest: also returns the request it built and the match it found, so that its contract can name them.

## Findings

| source | as written | input that shows it | evidently intended | confidence | as-written member | corrected member |
|---|---|---|---|---|---|---|
| Console/Command.php:140-148 | `ask` returns `$answer ?: $default` from a function declared to return `string`. With no default, an empty answer returns null, which is a TypeError. So the empty-name check at Console/Commands/MakeMigrationCommand.php:22-26 can never run. | an empty line (or `0`) at the `make:migration` prompt | the command prints "Migration name is required" and exits with 1 | not executed | MakeMigrations.EmptyNameUnreachable | MakeMigrations.EmptyNameFails |
