# urlshort in Dafny

A model of the `urlshort` package: an HTTP handler that redirects request
paths to destinations from a table. A path the table does not contain goes
to a fallback handler. The table comes either from a map the caller supplies
(`MapHandler`) or from a YAML list of `path`/`url` records (`YAMLHandler`).

Modules:

- `Wrappers`: `Result`. It stands for Go's `(value, error)` return pair.
- `PathTable`: the `path` record (`Rule`) and the fold `makeMap`. `MakeMap` is
  the functional definition. `BuildTable` is the `for … range` loop as
  written, proved equal to `MakeMap`. `LastIndex` is an independent reference
  definition: the position of the last rule that mentions a path. The lemmas
  connect the two.
- `Dispatch`: the closure that `MapHandler` returns, as a Dafny function value
  `Request -> Decision`. The decision is `Redirect(destination, 302)` on an
  exact-match hit. On a miss it is `Fallback(request)` with the untouched
  request. The HTTP side effects are left to whoever acts on the decision.
- `UrlShort`: `YAMLHandler`, which chains decode, build and dispatch. A
  decoding error short-circuits the chain. The YAML decoder is foreign code,
  so its outcome (`Result<seq<Rule>, ParseError>`) is an input.

## Model

| member | source | states |
|---|---|---|
| `PathTable.MakeMap` | handler.go:60-66 | the table's keys are exactly the paths the rules mention |
| `PathTable.BuildTable` | handler.go:60-66 | the loop that assigns `pathsMap[p.Path] = p.URL` for each rule in order builds the same table as the fold |
| `PathTable.MakeMapEmpty` | handler.go:61 | no rules give the empty table |
| `PathTable.MakeMapAppend` | handler.go:62-64 | one more rule sets its own path to its destination; every other path keeps its presence and its value |
| `PathTable.MakeMapLastWriteWins` | handler.go:62-64 | for each path some rule mentions, the table holds the destination of the last rule that mentions it |
| `PathTable.MakeMapKeepsLastWrite` | handler.go:62-64 | a rule that no later rule overrides has its destination in the table |
| `PathTable.MakeMapDistinct` | handler.go:62-64 | when no path repeats, every rule's destination is in the table under its path |
| `PathTable.MakeMapConcat` | handler.go:60-66 | building from `a + b` gives `a`'s table overridden by `b`'s table |
| `PathTable.SwapDistinctNeighbours` | handler.go:62-64 | swapping two adjacent rules for different paths leaves the table unchanged, so order only matters between rules for the same path |
| `PathTable.MakeMapSize` | handler.go:60-66 | the table has at most one entry per rule, and exactly one per rule when no path repeats |
| `PathTable.DuplicatePathExample` | handler.go:62-64 | `[("/a","x"), ("/a","y")]` gives `{"/a": "y"}` |
| `Dispatch.MapHandler` | handler.go:15-23 | a request is redirected iff its path is a key; a redirect goes to the mapped destination with status 302; otherwise the fallback gets the same request |
| `Dispatch.OnlyPathConsulted` | handler.go:17 | two requests with the same path get the same redirect, or both go to the fallback |
| `Dispatch.MapHandlerMonotone` | handler.go:17-20 | a larger table that agrees with a smaller one keeps all of its redirects; a larger table falls back only where the smaller one falls back too |
| `Dispatch.GodocExample` | handler.go:17-20 | the godoc path is redirected to the godoc URL; `/missing` goes to the fallback unchanged |
| `UrlShort.YAMLHandler` | handler.go:41-49 | a decoding error comes back as the same error with no handler; decoded rules give a handler that answers every request as `MapHandler(makeMap(rules))` does |
| `UrlShort.YAMLHandlerServes` | handler.go:47-48 | the handler built from decoded rules redirects exactly the paths some rule mentions, to the last such rule's destination with 302; it sends every other request to the fallback unchanged |
| `UrlShort.EmptyDocumentFallsBack` | handler.go:47-48 | an empty rule list sends every request to the fallback |
| `UrlShort.DuplicateDocumentExample` | handler.go:47-48 | a document that maps `/u` twice redirects `/u` to the second destination |

## Left out

- `parseYAML` and `yaml.Unmarshal` (handler.go:51-58): foreign library code. The YAML grammar, the `yaml:"path"` / `yaml:"url"` field tags and the ignoring of unknown fields belong to the decoder. `YAMLHandler` takes the decoder's outcome as its input instead of the bytes.
- `http.Redirect` internals: rewriting relative destinations, writing the `Location` header, and the response body. This is library behaviour. The model stops at the decision `Redirect(destination, 302)`.
- `http.ResponseWriter`, `ServeHTTP` and the fallback handler's own behaviour. The fallback is opaque, so the model only records that it receives the unchanged request.
- `Request`: carries the method, path and headers only. The rest of `*http.Request` is never consulted by the handler.
- Concurrent request serving: the table `YAMLHandler` builds is private to its handler and read-only after it is built, so there is nothing to model there.
- Dispatch.MapHandler: the model takes the caller's map as a value, a snapshot at construction. In Go the closure keeps a reference to the caller's own map and reads it on every request (handler.go:15-17), so later changes by the caller change later redirects, and a write while requests are served is a data race. Neither is modelled.
- A `nil` fallback handler: Go calls `fallback.ServeHTTP` without a nil check (handler.go:20), so every miss panics. The model always returns `Fallback(request)` and leaves the fallback's existence to the caller.
- Go strings are byte strings. Here they are `string` (`seq<char>`), which is enough because the handler only compares them for equality and copies them.
- A `nil` `pathsToUrls` map in Go behaves like an empty one for lookups. The model has no `nil` map and uses `map[]`.
