# Content switcher, modelled in Dafny

The content switcher is a small localisation helper. It is created with an
ordered list of content-set codes (locale tags, say) and an options value. It
keeps one selected code, initially the first in the list. It resolves lookups
to the value stored for the selected code. A lookup names either content
registered earlier under a string ID, or an inline object mapping codes to
values. The registry is itself callable. In immediate mode a call returns the
value. In defer mode it returns a closure that resolves later, against the
selection current when the closure runs. `switch` changes the selection,
`add` registers content, `get` always resolves now and `defer` always hands
back a closure. In strict mode a miss throws an error with a fixed message
format. Otherwise a miss yields `undefined`.

The model has three modules:

- `Content` (content.dfy) holds values and pure rules. It has the lookup
  argument by its JavaScript `typeof` (`ById`, `Inline`, `Other`), the
  outcome of a lookup (`Value`, `Absent` for `undefined`, `Error` for a thrown
  error) and the options argument with its normalisation. It also has the
  error message (`ErrorMessage`, built from `QuotedList`) and `Resolve`, the
  rule every lookup follows. An inline object is an `Obj`: its own keys in
  enumeration order, each listed once, with the value under each. The type
  rules out a key list that disagrees with the values.
- `ContentSwitcher` (content_switcher.dfy) holds the state. `Registry` has
  the fields the source keeps on its internal object: `selected` and the table
  `byId` change, while `codes`, `deferMode` and `strict` are fixed. Its
  methods `Switch`, `Add`, `Get`, `Defer` and `Call` are the public
  functions. `Thunk` is the closure that `defer` returns. It holds a reference
  to the registry, not a copy of its state, so `Invoke` sees later switches
  and later registrations.
- `Scenarios` (scenarios.dfy) has client methods. Each one runs a new
  registry through a short sequence of calls and states what the calls
  return.

Two details of the source decide parts of the model:

- An empty code list is not rejected. The selection is then JavaScript's
  `undefined`. Property lookups (`hasOwnProperty(undefined)`, `obj[undefined]`)
  and the message template both turn that into the text `"undefined"`. So the
  constructor selects the code `"undefined"` (`Content.UndefinedCode`) and has
  no precondition.
- Options are read as follows. A falsy value becomes `{}`. A string `s`
  becomes `{mode: s}`, so the shorthand can never turn on strict mode. Defer
  mode is on exactly when `mode` is the string `"defer"`. Strict mode follows
  the truthiness of `strict`. `Options.Settings` records that truthiness as a
  `bool`.

## Model

| member | source | states |
|---|---|---|
| `Content.Normalise` | contentswitcher-v2.js:20-25 | defer mode is on exactly when the options are the string "defer" or an object whose mode is "defer"; strict is on exactly when the options are an object with a truthy strict |
| `Content.ShorthandIsModeOnly` | contentswitcher-v2.js:21-24 | a string option s configures exactly like the object {mode: s} and never turns on strict mode |
| `Content.DefaultsAreImmediateAndLenient` | contentswitcher-v2.js:20 | absent (falsy) options, an object with neither property, or an unrecognised value all give immediate, non-strict mode |
| `Content.QuotedList` | contentswitcher-v2.js:40 | the joined list is empty exactly when the object has no keys, and for one key it is that key in double quotes |
| `Content.QuotedListAppend` | contentswitcher-v2.js:40 | the join of two non-empty key lists is the first join, ", ", then the second join; with the one-key case this fixes the list as exactly the quoted keys in enumeration order, separated by ", " |
| `Content.QuotedListHasEveryKey` | contentswitcher-v2.js:40 | every key appears, in double quotes, in the ", "-joined list |
| `Content.Descriptor` | contentswitcher-v2.js:35-41 | the description of the argument always begins with the word "content", and is that word alone exactly for an argument that is neither a string nor an object |
| `Content.ErrorMessage` | contentswitcher-v2.js:34-43 | the message starts with "Content missing for code " followed directly by the code |
| `Content.MessageNamesCode` | contentswitcher-v2.js:42 | the selected code occurs in every error message |
| `Content.MessageNamesId` | contentswitcher-v2.js:36-38 | for a string argument the message contains the ID in double quotes |
| `Content.MessageListsEveryCode` | contentswitcher-v2.js:39-41 | for an object argument the message contains each of the object's keys in double quotes |
| `Content.EmptyObjectMessage` | contentswitcher-v2.js:39-42 | for an object with no keys the message ends in "content with codes " with nothing after it |
| `Content.Resolve` | contentswitcher-v2.js:45-66 | the immediate lookup rule: an error arises only in strict mode, never for an argument that is neither string nor object, and it always names the selected code; such an argument always gives undefined |
| `Content.Missing` | contentswitcher-v2.js:52-53 | a strict miss is a thrown error whose message names the selected code |
| `Content.ResolveById` | contentswitcher-v2.js:47-51 | a string lookup gives a value exactly when the ID is registered and its map has the selected code, and the value is that entry |
| `Content.ResolveInline` | contentswitcher-v2.js:56-60 | an object lookup gives a value exactly when the object has the selected code, and the value is the object's; the table plays no part |
| `Content.MissPolicy` | contentswitcher-v2.js:45-66 | an error arises exactly on a miss in strict mode for a string or object argument, carrying the formatted message; any other argument gives undefined even in strict mode |
| `Content.ResolveAfterRegister` | contentswitcher-v2.js:83-86 | after registering a map under an ID, that ID resolves to the map's entry for the selected code or misses as an unregistered ID would; every other lookup resolves as before |
| `ContentSwitcher.Registry.constructor` | contentswitcher-v2.js:16-26 | the first code is selected ("undefined" for an empty list), the code list is kept, the table is empty, and mode and strictness come from the normalised options |
| `ContentSwitcher.Registry.Switch` | contentswitcher-v2.js:28-32 | the selection becomes the given code, member of the list or not; the table is unchanged |
| `ContentSwitcher.Registry.Add` | contentswitcher-v2.js:83-86 | the table maps the ID to the given map, replacing any earlier entry; all other IDs and the selection are unchanged |
| `ContentSwitcher.Registry.Get` | contentswitcher-v2.js:45-66 | the result is the resolution of the argument against the current selection, strictness and table; an error names the selected code and only arises in strict mode |
| `ContentSwitcher.Registry.Defer` | contentswitcher-v2.js:68-73 | a new closure over this registry and the argument is returned, whatever the mode |
| `ContentSwitcher.Registry.Call` | contentswitcher-v2.js:75-81 | in defer mode a new closure over this registry and the argument, otherwise the immediate resolution |
| `ContentSwitcher.Thunk.constructor` | contentswitcher-v2.js:69-71 | the closure keeps the registry itself and the argument |
| `ContentSwitcher.Thunk.Invoke` | contentswitcher-v2.js:69-71 | running the closure resolves the argument against the registry's selection and table at the time of the run |
| `Scenarios.InitialSelection` | contentswitcher-v2.js:18 | a new registry resolves an inline object to its value for the first code |
| `Scenarios.SwitchChangesResolution` | contentswitcher-v2.js:28-29 | after switching from a to b, an inline lookup gives the value for b instead of a |
| `Scenarios.IdentifierRoundTrip` | contentswitcher-v2.js:83-84 | after adding {en: "Hi", fr: "Salut"} under "greeting" and selecting fr, looking up "greeting" gives "Salut" |
| `Scenarios.StrictMiss` | contentswitcher-v2.js:52-53 | in strict mode an unregistered ID throws an error naming the selected code and the quoted ID |
| `Scenarios.LenientMiss` | contentswitcher-v2.js:45-65 | without strict mode, an unregistered ID and an object lacking the selected code both give undefined |
| `Scenarios.DeferredSeesSwitch` | contentswitcher-v2.js:68-77 | in defer mode the resolver returns a closure; a switch between creating and running it changes what it returns |
| `Scenarios.EscapeHatches` | contentswitcher-v2.js:88-92 | get resolves immediately on a defer-mode registry, and defer waits on an immediate-mode registry |
| `Scenarios.HelloBonjour` | contentswitcher-v2.js:75-92 | with en and fr, after adding "hello", the resolver gives "Hello", and after switching to fr it gives "Bonjour" |

## Left out

- The `version` constant attached to the constructor (contentswitcher-v2.js:12-14, 96) is a literal with no behaviour.
- The global `window.contentSwitcherV2` and the wrapping function expression (contentswitcher-v2.js:11, 97-98) are browser module plumbing.
- Attaching `switch`, `defer`, `get` and `add` as properties of the function object (contentswitcher-v2.js:88-92) becomes methods of `Registry`. Function identity is not modelled.
- `null` as a lookup argument: `typeof null` is "object", and `hasOwnProperty` on it throws a TypeError. The model has no null argument.
- Prototype-chain effects are not modelled. These include keys such as `__proto__`, which `add` would not store as an own property, and an inline object or a registered map that shadows `hasOwnProperty`.
- A non-object value registered with `add` is not modelled: the table holds code-to-value maps only.
- A non-string `mode` compared with loose equality to "defer" (an object whose string form is "defer") is not modelled: `mode` is a string or absent.
- The source reads `options.strict` on every lookup, so a caller that keeps the options object and changes `strict` later changes the registry's behaviour. The model fixes strictness at construction. This aliasing is not captured.
- Registered maps and inline objects are held by reference in the source: `add` stores the caller's object (contentswitcher-v2.js:84) and reads it again on every lookup (49-50), and a deferred closure keeps the caller's argument object (69-70). A caller who changes such an object later changes what later lookups return. The model stores `map` and `Obj` values, so it does not capture those later changes.
- Codes, IDs and keys are strings of characters. JavaScript's UTF-16 code units and string coercion of non-string keys are not modelled.
