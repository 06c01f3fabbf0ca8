# gin-di-router in Dafny

gin-di-router is a small adapter for the gin web framework. It registers HTTP routes from the methods of a controller object. `Register` and `RegisterWithGroup` do four things:

- look at the controller's methods through reflection;
- keep the exported ones that take no argument besides the receiver;
- call each kept method to learn its `APIType` (the HTTP verb), its handler chain and, optionally, an explicit path;
- register the route on a gin router group.

The default path is the method name converted by `ToSnakeCase`.

This project models that core in two modules.

- `snake_case.dfy`, module `SnakeCase`, covers `ToSnakeCase` and is pure.
  - Each of the two regular-expression rewrites is a left-to-right scanner. It takes the leftmost match, consumes it and resumes after it, as Go's `ReplaceAllString` does. `FirstCap`/`FirstCapRun` model `(.)([A-Z][a-z]+)`, and `AllCap` models `([a-z0-9])([A-Z])`. `ToLower` is then applied.
  - The main theorem, `ToSnakeCaseSpec`, proves the composition equal to a closed-form reference definition. `SnakeSpec` is the lowercased input with one `_` woven in before every position where `IsBoundary` holds.
  - `ToSnakeCase`'s own contract says that the output is never shorter than the input and holds no upper-case ASCII letter. The other string facts follow from the main theorem: insertion only, idempotence, concatenation and the worked examples.
- `router.dfy`, module `Router`, covers `suitableMethods`, the APIType switch, `Register`, `RegisterWithGroup`, `Group` and `SetGroup`.
  - Reflection becomes a sequence of method descriptors (`MethodDesc`). Each descriptor holds what reflect reports about a method and what calling the method returns.
  - A gin router group becomes the class `RouterGroup`, which holds the routes registered on it, in order.
  - `GinDIRouter` is a class whose `group` field `SetGroup` reassigns.
  - `SuitableMethods` is a loop proved equal to the function `Kept` and the arity log `ArityLog`.
  - The registration loop ranges over a Go map, and Go leaves that order unspecified. `InstallAll` therefore picks keys in any order and returns that order as a ghost value. `Register` and `RegisterWithGroup` state two things:
    - the exact new route list, for the order that was used;
    - the order-free multiset of added routes, `Added`. The lemmas describe `Added` route by route.

The two entry points treat an explicit path differently, and the model follows the code:

- `Register` ignores a third return value and always uses the snake-cased method name (tool.go:72-75).
- `RegisterWithGroup` uses the third return value, but still passes it through `ToSnakeCase` (tool.go:132-136). So `"custom/Path"` is registered as `"custom/_path"` (`SnakeCase.ExampleSlash`).

## Model

| member | source | states |
|---|---|---|
| SnakeCase.LowerChar | tool.go:60 | one rune of strings.ToLower: an ASCII capital becomes its lower-case letter (code point + 32), and every other rune is unchanged; the result is never an ASCII capital |
| SnakeCase.ToSnakeCaseSpec | tool.go:54-61 | the two regex passes followed by ToLower equal the reference definition: the lowercased input with one '_' before each rune that is an ASCII capital, is not first, and either follows [a-z0-9] or follows a non-newline rune and precedes a lower-case letter |
| SnakeCase.ToLower | tool.go:60 | strings.ToLower keeps the length and maps each rune by LowerChar, so the result holds no ASCII capital |
| SnakeCase.FirstCap | tool.go:54-58 | the first rewrite, (.)([A-Z][a-z]+) to ${1}_${2} by leftmost non-overlapping matches, never shortens its input; FirstCapMarks gives the exact insertions |
| SnakeCase.FirstCapRun | tool.go:54-58 | the greedy rest of one match of [a-z]+, after which scanning resumes; it never shortens its input |
| SnakeCase.FirstCapMarks | tool.go:54-58 | the first rewrite only inserts underscores, each one just after a rune that starts a match; a place where the pattern fits but gets no underscore follows a lower-case rune consumed by the previous match |
| SnakeCase.AllCap | tool.go:55-59 | the second rewrite, ([a-z0-9])([A-Z]) to ${1}_${2}, never shortens its input |
| SnakeCase.AllCapWeave | tool.go:55-59 | applied to s with underscores woven in at some marks, the second rewrite gives s woven at those marks together with a mark before each capital that directly follows [a-z0-9] in s |
| SnakeCase.ToSnakeCase | tool.go:57-61 | the result is never shorter than the input and holds no ASCII capital letter |
| SnakeCase.ToSnakeCaseInsertsOnly | tool.go:54-60 | the result is the lowercased input with underscores inserted; nothing is removed or reordered, and each insertion sits before an upper-case letter of the input that is not its first rune |
| SnakeCase.ToSnakeCaseSplitsCamel | tool.go:55-59 | a capital after [a-z0-9] always gets an underscore, even when pass 1 consumed the rune before it; the result splits there into the converted prefix, "_" plus the lowered capital, and the converted suffix |
| SnakeCase.ToSnakeCaseFixesLower | tool.go:54-61 | input without ASCII capitals (empty, or already converted) is returned unchanged |
| SnakeCase.ToSnakeCaseIdempotent | tool.go:54-60 | converting twice gives the same result as converting once |
| SnakeCase.ToSnakeCaseNoBoundary | tool.go:54-61 | input with no word boundary (for example an all-capital acronym) is only lowercased |
| SnakeCase.ToSnakeCaseAppend | tool.go:54-61 | the conversion of a + b is the conversion of a, then "_" exactly when the first rune of b is a boundary of a + b, then the conversion of b; this is proved when a has fewer than two runes, b is empty, the last rune of a is not upper-case, or the first rune of b is not lower-case |
| SnakeCase.ToSnakeCaseWord | tool.go:54-61 | a word whose only possible capital is its first rune is lowercased without underscores |
| SnakeCase.ToSnakeCaseNextWord | tool.go:54-58 | a capitalized lower-case word after any rune but a newline is split off with one '_' and lowercased |
| SnakeCase.ExampleGetUserData | tool.go:54-61 | "GetUserData" becomes "get_user_data" (pass 1 leaves "Data" for pass 2) |
| SnakeCase.ExampleAcronymFirst | tool.go:54-61 | "ABCTest" becomes "abc_test" |
| SnakeCase.ExampleAcronymLast | tool.go:55-60 | "getHTTP" becomes "get_http" |
| SnakeCase.ExampleAcronymInside | tool.go:54-61 | "getHTTPResponse" becomes "get_http_response" |
| SnakeCase.ExampleTestController | tool_test.go:12 | the test controller's method TestThisFunction converts to "test_this_function" |
| SnakeCase.ExampleTestThis | tool_test.go:12 | the first two words of that method name, "TestThis", convert to "test_this" |
| SnakeCase.ExampleUnderscore | tool.go:54-58 | pass 1 fires after '_': "Get_User" becomes "get__user" |
| SnakeCase.ExampleSlash | tool.go:54-58 | pass 1 fires after '/': "custom/Path" becomes "custom/_path" |
| Router.ApiTypeOf | tool.go:15-25 | every registration verb corresponds to an APIType between Get and Head |
| Router.Dispatch | tool.go:76-114 | the switch installs a route exactly for the APITypes Get..Head, each under the verb of that constant; it logs exactly for Default; any other integer matches no case |
| Router.DispatchVerb | tool.go:76-108 | a verb is selected by exactly one APIType, its own constant |
| Router.Suitable | tool.go:187-197 | an exported method is either kept (exactly one input, the receiver) or reported for its number of inputs, never both |
| Router.Kept | tool.go:181-202 | the map of kept methods never has more entries than the controller has methods |
| Router.ArityLog | tool.go:192-197 | at most one wrong-arity line per method |
| Router.SuitableMethods | tool.go:181-202 | the loop returns exactly the map Kept (later entries with the same name overwrite earlier ones) and, when reportErr is set, exactly the wrong-arity lines ArityLog in method order; with reportErr unset it logs nothing |
| Router.KeptDomain | tool.go:187-199 | a name is a key of the result iff some exported method with exactly one input (the receiver) has that name |
| Router.KeptValue | tool.go:199 | the method stored under a name is a suitable method of the controller with that name |
| Router.KeptLast | tool.go:183-199 | the method stored under a name is the last suitable method of that name |
| Router.KeptDistinct | tool.go:183-199 | with distinct method names, as in a Go type, every suitable method is stored under its own name as it is |
| Router.ArityLogEntries | tool.go:188-197 | a line is logged iff an exported method has a number of inputs other than 1, naming that method and its count; unexported methods are skipped without a line |
| Router.PathOf | tool.go:132-136 | the path rule: Register (no override) always uses the snake-cased method name; RegisterWithGroup uses the snake-cased third return value when there is one and the snake-cased name otherwise; a path never holds an ASCII capital |
| Router.Registration | tool.go:76-114 | one kept method causes at most one registration: a route with the selected verb, the given path and the method's handlers unchanged, and nothing for Default or an unknown APIType |
| Router.NoTypeLog | tool.go:109-112 | a kept method logs the "no api type" line exactly when its APIType is Default |
| Router.RouterGroup.Handle | tool.go:79 | a gin registration call appends exactly one route (verb, path, handlers) to the group's routes |
| Router.Switch | tool.go:76-114 | the switch statement appends exactly Registration(path, m) to the group, and reports a log line iff the APIType is Default |
| Router.InstallAll | tool.go:71-115 | the range loop visits every kept name exactly once, in some order; the group's routes grow by each visited method's registration in that order; the log holds each visited method's "no api type" line |
| Router.EnumGather | tool.go:71 | whatever order the map is ranged in, the multiset of what the loop produces is the same |
| Router.GatherPick | tool.go:71 | the order-free total is one picked key's contribution plus the total over the remaining keys, for any key picked |
| Router.AddedRoute | tool.go:71-115 | a route is added iff some kept method, stored under some name, has an APIType selecting the route's verb, has the route's handlers, and has the path the entry point chooses |
| Router.AddedBound | tool.go:71-115 | a registration adds no more routes than there are kept methods, and no more kept methods than the controller has |
| Router.NoTypeLinesLogged | tool.go:109-112 | a "no api type" line is logged iff some kept method has APIType Default |
| Router.NoTypeLinesBound | tool.go:109-112 | at most one such line per kept method |
| Router.SamePathsWithoutOverride | tool.go:132-136 | when no method returns a third value, both entry points add the same routes |
| Router.ExampleTestControllerRoute | tool_test.go:12-24 | registering the test controller adds exactly one GET route, "test_this_function", with the handlers the method returns |
| Router.GinDIRouter.SetGroup | tool.go:37-40 | after SetGroup(g), Group() returns g |
| Router.GinDIRouter.Register | tool.go:63-117 | appends to the router's own group the registrations of the kept methods, each at the snake-cased method name, in some enumeration order of the kept names; as a multiset the added routes are exactly Added(methods, false); the log is the wrong-arity lines followed by one "no api type" line per Default method |
| Router.GinDIRouter.RegisterWithGroup | tool.go:119-177 | as Register, but on the given group and at the snake-cased returned path when there is one; the router's group field is unchanged, and so are that group's routes unless it is the given group |

## Left out

- ToLower: maps each rune by LowerChar, so it shares the ASCII restriction below.
- LowerChar: lowercases only ASCII letters, whereas strings.ToLower also maps non-ASCII upper-case runes. The regexes' classes are ASCII, so only the final lowercasing differs, and only on non-ASCII input.
- Go strings are UTF-8 bytes, and `.` matches one rune, with invalid bytes read as U+FFFD. The model works on sequences of runes.
- Reflection is replaced by `MethodDesc` values. This covers `reflect.TypeOf`, `Method(m)`, `PkgPath`, `NumIn` and `Func.Call`.
- The panics from the type assertions and the indexing of `result` (tool.go:72-74, 129-133) are not modelled. By construction, every descriptor returns an APIType, a handler list and an optional string.
- gin itself is not part of this model. A router group is only the list of routes registered on it. Handlers are opaque ids. `Any` is one route with verb ANY, not its expansion into every HTTP method.
- `log.Println` output is modelled as `Diagnostic` values. The text is not modelled.
- A nil group pointer is not modelled, because Dafny references here are non-null.
- The `service` struct and the `sync.Mutex` in `methodType` (tool.go:42-52) are only bookkeeping. The mutex is never locked.
- The test in tool_test.go starts an HTTP server on port 8082 and asserts nothing. Only its controller is modelled, in `ExampleTestControllerRoute`.
- Router.GinDIRouter.Group: the getter has no contract of its own. `SetGroup`'s postcondition states what it returns.
