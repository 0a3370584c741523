# GiraphQL plugin helpers in Dafny

A Dafny model of three small, pure parts of the GiraphQL schema builder:

- the **directives plugin** (`GiraphQLDirectivesPlugin`): `normalizeDirectives`, which converts the
  `directives` option between an ordered list of `{ name, args? }` and an object keyed by directive
  name, under the builder option `useGraphQLToolsUnorderedDirectives`; and the four configuration
  hooks `onOutputFieldConfig`, `onInputFieldConfig`, `onEnumValueConfig` and `onTypeConfig`, which
  store the normalised directives under `extensions.directives`;
- the **scope-auth cache helpers**: `canCache`, a recursion over a nested scope map with `$granted`,
  `$all` and `$any`, and `cacheKey`, which turns a response path into a dot-joined key, `"*"` for the root;
- the **type reference handle** `BaseTypeRef`: a `{ kind, name }` pair over six kinds, printed as
  `<Kind>Ref<<name>>`.

Modules:

| file | module | contents |
|---|---|---|
| `wrappers.dfy` | `Wrappers` | `Option` (absent, `undefined` or `null` versus present) and `Result` (a value or a thrown error) |
| `js.dfy` | `Js` | plain JavaScript values, truthiness, `??`, `String(n)` for non-negative integers below 10^21 |
| `assoc_list.dfy` | `AssocList` | JavaScript objects as ordered association lists. Entry order is the `Object.keys` order. `Put` is `{ ...m, [k]: v }` |
| `directives.dfy` | `Directives` | `normalizeDirectives`, the grouping reduce (as written and corrected), and the four hooks |
| `scope_auth.dfy` | `ScopeAuth` | `canCache` and `cacheKey` |
| `refs.dfy` | `Refs` | `BaseTypeRef`, its `toString`, and a parser that reads a printed reference back |

The builder option is a boolean parameter `unordered`. A configuration object is `Config<P>`.
Its `directives` field is `giraphqlOptions.directives`, with absent or `null` as `None`.
Its `extensions` field is an optional ordered object. `P` stands for every other property, which
the hooks copy without looking at it.

## Model

| member | source | states |
|---|---|---|
| `Directives.Normalize` | packages/deno/packages/plugin-directives/index.ts:68-88 | Unordered mode returns an object unchanged. It turns a list into an object keyed by name, in order of first occurrence, each key holding the array of that name's arguments. Ordered mode returns a list unchanged. It turns an object into a list of the same length whose i-th element is `{ name: key i, args: value i }` |
| `Directives.NormalizeIdempotent` | packages/deno/packages/plugin-directives/index.ts:69-87 | Normalising twice in one mode equals normalising once |
| `Directives.Group` | packages/deno/packages/plugin-directives/index.ts:74-82 | The grouped object never holds a key twice |
| `Directives.GroupLookup` | packages/deno/packages/plugin-directives/index.ts:74-82 | The group of a name holds exactly the arguments (with `?? {}`) of the directives with that name, in list order. A name absent from the list has no group |
| `Directives.GroupKeys` | packages/deno/packages/plugin-directives/index.ts:74-82 | The group keys are the directive names, each once, in order of first occurrence |
| `Directives.GroupKeySet` | packages/deno/packages/plugin-directives/index.ts:74-82 | The key set equals the set of directive names in the list |
| `Directives.GroupTotal` | packages/deno/packages/plugin-directives/index.ts:74-82 | The group sizes add up to the length of the list |
| `Directives.GroupDistinctSingleton` | packages/deno/packages/plugin-directives/index.ts:75-80 | With distinct names, every group is a singleton holding its own directive's arguments |
| `Directives.RecordToList` | packages/deno/packages/plugin-directives/index.ts:87 | The names of the produced list are the object's keys, in key order |
| `Directives.RecordToListLookup` | packages/deno/packages/plugin-directives/index.ts:87 | In the produced list, the directive named after a key carries that key's value as its `args` |
| `Directives.GroupAsWrittenAgrees` | packages/deno/packages/plugin-directives/index.ts:74-82 | The reduce as written succeeds iff no directive name is inherited from the accumulator's prototype. When it succeeds, its result is the corrected grouping |
| `Directives.ToStringDirectiveThrows` | packages/deno/packages/plugin-directives/index.ts:75-76 | A single directive named `toString` makes the reduce as written throw. The corrected grouping gives it the group `[{}]` |
| `Directives.WithDirectives` | packages/deno/packages/plugin-directives/index.ts:13-23 | Without directives the configuration is returned untouched. With directives, only `extensions.directives` changes: it becomes the normalised directives. Every other property and extension keeps its value, and the extension keys keep their order |
| `Directives.OnOutputFieldConfig` | packages/deno/packages/plugin-directives/index.ts:12-24 | The same guarantee for output field configurations |
| `Directives.OnInputFieldConfig` | packages/deno/packages/plugin-directives/index.ts:25-37 | The same guarantee for input field configurations |
| `Directives.OnEnumValueConfig` | packages/deno/packages/plugin-directives/index.ts:38-50 | The same guarantee for enum value configurations |
| `Directives.OnTypeConfig` | packages/deno/packages/plugin-directives/index.ts:51-63 | The same guarantee for type configurations |
| `Directives.WithDirectivesIdempotent` | packages/deno/packages/plugin-directives/index.ts:17-23 | Applying a hook to its own output changes nothing |
| `AssocList.Put` | packages/deno/packages/plugin-directives/index.ts:19-22 | After `{ ...m, [k]: v }`, `k` reads `v` and every other key reads as before |
| `AssocList.PutKeys` | packages/deno/packages/plugin-directives/index.ts:19-22 | An existing key keeps its position, and a new key is appended at the end |
| `ScopeAuth.CanCache` | packages/deno/packages/plugin-scope-auth/util.ts:4-9 | A map with a truthy `$granted` is never cacheable. A map with no `$all` and no `$any` is cacheable iff its `$granted` is falsy |
| `ScopeAuth.CanCacheIffNoneGranted` | packages/deno/packages/plugin-scope-auth/util.ts:4-9 | A map is cacheable iff no map reachable through `$all` and `$any`, itself included, has a truthy `$granted` |
| `ScopeAuth.CacheableReachable` | packages/deno/packages/plugin-scope-auth/util.ts:8 | Every nested map of a cacheable map is cacheable |
| `ScopeAuth.CacheKey` | packages/deno/packages/plugin-scope-auth/util.ts:10-22 | The loop returns `"*"` for no path. Otherwise it returns the keys from root to leaf, joined with `.` |
| `ScopeAuth.CacheKeyStep` | packages/deno/packages/plugin-scope-auth/util.ts:15-21 | A single-segment path gives the string form of its key. A path with a `prev` gives the key of `prev`, then `.`, then the string form of its own key |
| `ScopeAuth.CacheKeyDots` | packages/deno/packages/plugin-scope-auth/util.ts:15-21 | When no key string contains `.`, the key holds one `.` fewer than the path has segments |
| `ScopeAuth.CacheKeySplits` | packages/deno/packages/plugin-scope-auth/util.ts:15-21 | When no key string contains `.`, splitting the key at `.` gives back the path's key strings |
| `ScopeAuth.CacheKeyInjective` | packages/deno/packages/plugin-scope-auth/util.ts:15-21 | Two paths whose key strings differ, none containing `.`, get different cache keys |
| `ScopeAuth.SplitJoin` | packages/deno/packages/plugin-scope-auth/util.ts:18 | Strings joined with `.` are recovered by splitting at `.` when none of them contains `.` |
| `Js.NatToString` | packages/deno/packages/plugin-scope-auth/util.ts:15 | `String` of a list index is its decimal digits without leading zeros, whose value is the index, so it contains no `.` |
| `Refs.KindFromName` | packages/core/src/refs/base.ts:7 | Only the six kind literals name a kind, and the named kind prints back as that literal |
| `Refs.ToString` | packages/core/src/refs/base.ts:14-16 | The printed form is the kind, `Ref<`, the name verbatim and `>`, with length `|kind| + |name| + 5` |
| `Refs.ParseToString` | packages/core/src/refs/base.ts:6-16 | Reading a printed reference back gives the kind and name the constructor stored |
| `Refs.ToStringInjective` | packages/core/src/refs/base.ts:14-16 | Distinct references print differently, so the printed form is an identity key |

## Findings

| source | as written | input that shows it | evidently intended | confidence | as-written member | corrected member |
|---|---|---|---|---|---|---|
| packages/deno/packages/plugin-directives/index.ts:74-82 | The reduce starts from `{}`. `if (obj[directive.name])` is also truthy for names the accumulator inherits from `Object.prototype`, such as `toString`, `constructor` and `valueOf`. It then calls `.push` on an inherited function and throws a `TypeError` | unordered mode, directives `[{ name: "toString" }]` | every name gets its own group, here `{ toString: [{}] }` | high; not executed | `Directives.GroupAsWritten` (shown by `Directives.ToStringDirectiveThrows` and `Directives.GroupAsWrittenAgrees`) | `Directives.Group` (proved by `Directives.GroupLookup`), which `Directives.Normalize` uses |

## Left out

- `afterBuild` and `mockAst`: `mockAst` changes an external `GraphQLSchema` object in place. It is defined in `mock-ast.ts`, which is not part of this model. `afterBuild` itself returns its argument.
- `SchemaBuilder.registerPlugin(...)` at import time: a side effect on a global plugin registry whose code is not part of this model.
- `this.builder.options`: only `useGraphQLToolsUnorderedDirectives` is read, and it is the boolean parameter `unordered`.
- Key order of integer-like keys: JavaScript lists keys such as `"1"` before other keys in ascending numeric order. The model keeps plain insertion order. GraphQL directive names cannot start with a digit, so they are never integer-like.
- Floating-point numbers, `NaN` and `-0` in `Js.Value`: numbers are integers here.
- Js.NatToString: models `String(n)` only below 10^21, where JavaScript prints plain digits. From 10^21 up it prints an exponent form such as `1.5e+21`, which may contain `.`. Numeric path keys are list indices, `ScopeAuth.ListIndex`, below 2^32, so they never reach that range.
- The declared type of `$granted` comes from the scope-auth `index.ts`, which is not part of this model. `$granted` may hold any plain value, and only its truthiness is used.
- Cyclic scope maps: if a cycle through `$all` or `$any` is reached before a truthy `$granted` ends the recursion, `canCache` recurses until the call stack overflows and throws a `RangeError`. `ScopeMap` is an inductive datatype, so every modelled map is finite and that error is not modelled.
- The `typename` field of a response path: `cacheKey` never reads it.
- The order of a configuration's top-level properties: the hooks keep every property other than `extensions` inside the opaque `props`, so only the order of the extension keys is modelled.
- Object identity and aliasing: values are compared structurally. An unchanged config, or directives passed through unchanged, is the same object in JavaScript. The spread copy shares `giraphqlOptions` and every other property value with its input, and the groups hold the caller's own `args` objects. A later in-place mutation of one therefore shows in the other. The model's value equalities cannot express that sharing.
- Field names in response paths: `cacheKey` gives a field named `0` and the list index 0 the same key, and so does the model. `ScopeAuth.CacheKeyInjective` therefore compares key strings, not keys. GraphQL names cannot start with a digit, so such a field never occurs in a real response path. The model's `Name` keys are not restricted to GraphQL names.
