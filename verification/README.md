# fillit `Template` in Dafny

This is a model of the `Template` class of fillit, a small string-template filler. A
template holds four things:

- the original text (`template`);
- the working text (`result`);
- the pending pairs (`pairs`), an insertion-ordered JavaScript `Map` from match specifier
  to replacement value;
- the key pattern (`keyPattern`), which must contain the word "key".

`fill` works through the pending pairs in insertion order, one replacement pass per pair,
each pass acting on the previous pass's output. After the last pass it clears the pending
pairs.

- A `RegExp` specifier is used as it is.
- A string specifier is spliced into the key pattern in place of its first "key". With the
  default pattern `@key`, the specifier `name` becomes `@name`. Every occurrence of the
  spliced text is then replaced.

The methods are pure functions:

- `setKeyPattern`, `addPair` and `addPairs` map a `Template` value to a `Result`. A success
  carries the next state; a failure carries the error the class would throw. Every check runs
  before the object is touched, so the caller keeps the old state.
- `handleTemplateSource` maps its arguments and a file loader to the loaded text or an error.
- `reset` maps a `Template` to a `Template` and always succeeds.

`fill` can throw half-way. `new RegExp` rejects a spliced key such as `(` under `@key` with
a `SyntaxError`. By then the argument has been merged into the pending pairs and the earlier
passes have been stored in the result. So a failed `Fill` carries the error together with
the state it leaves: the staged pairs still pending, and the result as the earlier passes
left it.

`Sessions` strings the calls together, `handleTemplateSource` included. That is the only call
that changes the template text.

The getters `getPairs`, `getResult`, `getTemplate` and `getKeyPattern` are the datatype's
fields.

Modules:

- `Wrappers` (`wrappers.dfy`): `Option` and `Result`.
- `JsValues` (`js_values.dfy`): the JavaScript values that reach the class, with
  truthiness and `String(v)` written out.
- `Errors` (`errors.dfy`): the thrown errors, with their names and messages.
- `Strings` (`strings.dfy`): `indexOf`, `includes`, and literal global replacement.
  - `ReplaceAll` is the scanning definition.
  - `ReplaceEach` is an independent leftmost-match reference.
  - They are proved equal.
- `OrderedMaps` (`ordered_map.dfy`): a `Map` as a sequence of entries with unique keys,
  with `set` and the spread-merge `new Map([...a, ...b])`.
- `Templates` (`template.dfy`): the class itself.
- `TemplateProperties` (`template_props.dfy`): properties that relate several calls.
- `Sessions` (`session.dfy`): a whole object life, as a sequence of calls.
- `Scenarios` (`scenarios.dfy`): the library's unit tests, stated as lemmas on the same
  inputs, and one scenario of a key the engine refuses.

Two outside services are parameters:

- The file reader `fs.readFileSync` is a `Loader`. It maps a path and an encoding to the
  text or to a failure message.
- The JavaScript regular-expression engine is an `Engine` with two parts:
  - `replace` maps a matcher, a text and a replacement to the replaced text;
  - `syntaxError` gives the message of the `SyntaxError` that compiling a spliced key
    throws, or nothing when the source compiles.

A string specifier is replaced by the verified literal `ReplaceAll` when all of these hold:

- the key pattern has no regular-expression metacharacter;
- the name has no metacharacter;
- the value has no `$`.

In that case the global regular expression matches the spliced text literally. When the
pattern and the name are plain, the spliced source always compiles. A string key whose
pattern or name is not plain is first checked with `syntaxError`. Every pass not computed
literally goes to `replace`, so `Fill` needs no precondition.

`setKeyPattern` refuses `keey`, which does not contain the contiguous word "key"; the unit
tests expect the same (test/test.js:44).

## Model

| member | source | states |
|---|---|---|
| Templates.HandleTemplateSource | index.js:27-39 | Succeeds exactly when one of path and text is truthy and, for a path, the read succeeds. Neither gives MissingSource and both give MultipleSources. A path yields the file's text, a read failure carries the reader's reason, and literal text is returned as given. |
| Templates.Construct | index.js:5-9 | A source error comes first; then the pattern (default `@key`) must contain "key", otherwise KeyPatternError for that pattern. A new template has result equal to template, no pending pairs, and the pattern or its default. |
| Templates.SetKeyPattern | index.js:126-132 | Succeeds exactly when the pattern contains the contiguous word "key". It then stores the pattern verbatim and changes nothing else; otherwise it fails with KeyPatternError carrying the pattern. |
| Templates.AddPair | index.js:77-97 | Checks in the source's order: missing key, missing value (single key only), array length other than 2, array with a falsy element. It succeeds exactly when none applies. On success only the pending pairs change, and exactly one entry is set: (key[0], key[1]) for an array, or (key, value). |
| Templates.AddPairs | index.js:105-116 | Fails with a TypeError exactly when the argument is not a Map. On success the pending pairs become the ordered merge of the old pairs and the argument, the argument's values winning; an empty Map changes nothing. |
| Templates.Expand | index.js:59 | A pattern containing "key" has its leftmost "key" replaced by the name, with the text before and after kept. A pattern without "key" is returned unchanged. |
| Templates.Step | index.js:55-62 | One pass never throws for a RegExp key, nor for a string key when the pattern and the name are plain. For any other string key it throws exactly when the engine refuses the spliced source, with the engine's SyntaxError for that key under that pattern as the message; when it does not throw, or when the name is plain but the value holds `$`, the text is the engine's global replace with the compiled key. |
| Templates.ApplyAll | index.js:54-63 | With no pairs the text comes back as it is. With one pair the run is that pair's pass: its replaced text, or a halt with the pass's SyntaxError message on the unchanged text. When every key is a RegExp or a plain name under a plain pattern, no pass throws. With `TemplateProperties.ApplyAllConcat` this fixes the run over any list as the passes in insertion order. |
| Templates.Staged | index.js:50-52 | Without a Map argument the pending pairs are used as they are. With one, they are the ordered merge: the old keys in order then the new ones, each with the argument's value if it has one. |
| Templates.Fill | index.js:49-68 | A truthy non-Map argument throws a TypeError and changes nothing; a falsy one adds nothing. Otherwise the argument is staged as by addPairs and the passes run in insertion order over the current result. It succeeds exactly when no pass throws; then the pending pairs end empty and template and key pattern are untouched. When a pass throws, the SyntaxError carries the state left: result after the earlier passes, staged pairs still pending. |
| Templates.Reset | index.js:139-141 | The result becomes the template; template, pairs and key pattern are untouched. |
| Errors.Message | errors.js:1-6 | A KeyPatternError's message is "Invalid key pattern: " followed by the pattern: its prefix is that fixed text and the rest is the pattern. |
| Errors.Name | errors.js:4 | The name is "KeyPatternError" exactly for a bad key pattern, "TypeError" exactly for a non-Map argument, "SyntaxError" exactly for a refused key, and "Error" for every other failure. |
| JsValues.FalsyValues | index.js:79-88 | The values the checks treat as missing are exactly undefined, null and the empty string. |
| JsValues.ToString | index.js:59-62 | A string converts to itself; every other value to a non-empty text. A RegExp converts to "/", its source, "/" and its flags. |
| Strings.IndexOf | index.js:59 | Finds something exactly when the word occurs, and what it finds is the leftmost occurrence. |
| Strings.Includes | index.js:127 | True exactly when the word occurs contiguously in the pattern. |
| Strings.IndexFromFindsLeftmost | index.js:127 | The search from a position returns an occurrence with none before it, and returns nothing only when nothing occurs from there on. |
| Strings.ReplaceAllIsLeftmostScan | index.js:59-62 | The scanning replace-all equals the reference: take the leftmost match, substitute it, and resume right after it, as a global regular expression does. |
| Strings.ReplaceAllWithoutMatch | index.js:62 | A text in which the target does not occur comes back unchanged. |
| Strings.ReplaceAllBySelf | index.js:62 | Replacing the target by itself changes nothing. |
| Strings.ReplaceAllSkipsPrefix | index.js:62 | A prefix in which no match starts is copied through, and the rest is replaced on its own. |
| Strings.ReplaceAllAtMatch | index.js:62 | A match at the front is substituted and scanning resumes after it. |
| OrderedMaps.KeysAt | index.js:54 | The keys a Map is iterated with are its entries' keys, position by position. |
| OrderedMaps.Lookup | index.js:93-95 | Finds a value exactly when the key is present. |
| OrderedMaps.LookupIsEntry | index.js:93-95 | In a map with unique keys, the value found for a key is exactly the value of its stored entry. |
| OrderedMaps.Set | index.js:93-95 | The key then maps to the value and every other key keeps its value. An existing key keeps its position; a new key is appended at the end, with all earlier entries unchanged. |
| OrderedMaps.Merge | index.js:111 | Each key maps to the second map's value if it has one, otherwise to the first map's. The keys are the first map's in order, then the second map's new keys in their order. |
| OrderedMaps.MergeDisjoint | index.js:111 | When the second map brings only new keys, the merge is plain concatenation and still has unique keys. |
| OrderedMaps.MergeIntoEmpty | index.js:109-114 | Merging into an empty map gives the merged map itself, which is why storing the argument directly when nothing is pending agrees with the merge. |
| TemplateProperties.ApplyAllConcat | index.js:54-63 | Running the passes of p + q equals running p and then running q on its output. If a pass of p throws, the whole run stops with the same error and text. |
| TemplateProperties.HaltIsFirstFailure | index.js:54-63 | A run that throws stops at a pair whose pass throws. The text it leaves is what the passes before that pair produced, and the message is that pair's. |
| TemplateProperties.FillWithNothingPending | index.js:49-67 | With nothing pending, fill(), fill(null) and fill(new Map()) return the template as it is. |
| TemplateProperties.FillEmptyMapIsNoArgument | index.js:50-52 | fill(new Map()) behaves exactly as fill(). |
| TemplateProperties.FillResultPersists | index.js:65-67 | After a successful fill, a further fill() returns the same result: the result persists and the pairs are drained. |
| TemplateProperties.FillInStages | index.js:49-65 | When b brings only new keys, staging map a and then calling fill(b) has the same outcome as fill(a) followed by fill(b). Both return the same template, or both throw the same error leaving the same result. If fill(a) throws, the single fill(b) throws the same error. Each pass works on the previous output. |
| TemplateProperties.RegexKeyUsedVerbatim | index.js:56-57 | A RegExp key is handed to the engine as it is, whatever the key pattern, and its pass does not throw. |
| TemplateProperties.RegexKeysIgnoreKeyPattern | index.js:56-57 | Pairs whose specifiers are all RegExp objects fill the same way under any key pattern. |
| TemplateProperties.ExpandLength | index.js:59 | Splicing a name into a pattern that contains "key" changes its length by the name's length less three. |
| TemplateProperties.ExpandDefault | index.js:5 | Under the default pattern `@key`, the spliced text for a name is "@" followed by the name. |
| TemplateProperties.StringKeyReplacesEveryOccurrence | index.js:59-62 | Under a plain pattern, a plain string key whose spliced text is not empty and a value without `$`, the pass replaces every occurrence of the spliced text, leftmost first, by the value. |
| TemplateProperties.DefaultPatternReplacesAtKey | index.js:59-62 | Under the default pattern, the pass for key k replaces every "@k" literally by the value. |
| Sessions.Apply | index.js:27-141 | handleTemplateSource succeeds exactly when the source is accepted, and then replaces only the template text. No other call changes the template text. A throwing call other than fill leaves the object as it was. A fill that throws on a truthy non-Map changes nothing; one that throws in the engine leaves the staged pairs pending. A valid key pattern stays valid, and reset() never throws and brings the result back to the template. |
| Sessions.Run | index.js:27-141 | Through any sequence of calls, each on the state the previous one left, the key pattern keeps containing "key". Without a handleTemplateSource call, the template text never changes. |
| Sessions.RunKeepsLoadedText | index.js:27-39 | After any sequence of calls, the template text is that of the last successful handleTemplateSource, or the initial text if there was none. |
| Sessions.ResetRestoresLoadedText | index.js:139-141 | After any calls on a constructed template, reset() restores the text last loaded. That is the constructed text unless handleTemplateSource was called since, and the key pattern still contains "key". |
| Scenarios.NoReplacements | test/test.js:17-29 | fill() and fill(new Map()) on the fresh page give the page back. |
| Scenarios.CustomPatternAccepted | test/test.js:32-35 | `%%@key##!` is stored verbatim. |
| Scenarios.AddPairScenarios | test/test.js:105-116 | Each rejected addPair form gives its own error in the source's order; `['key','value']` and a RegExp key are accepted. |
| Scenarios.PatternsWithoutKeyRefused | test/test.js:41-46 | `ke y`, `keey` and the empty pattern are refused with KeyPatternError. |
| Scenarios.ReversedPatternRefused | test/test.js:41-46 | `%%@yek##!` is refused with KeyPatternError. |
| Scenarios.SingleReplacement | test/test.js:50-53 | fill with {test: replaced} turns the page into `<div>replaced@anotherTest</div>`. |
| Scenarios.CustomPatternReplacement | test/test.js:55-63 | Under `%%@key##!`, the pair thisismykey -> replaced turns `<div>%%@thisismykey##!</div>` into `<div>replaced</div>`. |
| Scenarios.RegexAfterString | test/test.js:65-70 | The RegExp pair is handed to the engine with the output of the earlier string pair, not the original page. |
| Scenarios.PairThenFill | test/test.js:72-80 | addPair('test', 'replaced') and then fill() or fill(new Map()) give `<div>replaced@anotherTest</div>`. |
| Scenarios.MultiReplacement | test/test.js:82-91 | Both string pairs are replaced first, in order, and the RegExp pair sees their combined output. |
| Scenarios.ChainedReplacement | test/test.js:93-101 | A value put in by the first pair is matched by the second pair in the same fill. |
| Scenarios.SourceScenarios | test/test.js:118-124 | No source gives MissingSource and two sources give MultipleSources. |
| Scenarios.ConstructFromFile | test/test.js:10-14 | Construction from a path yields the page as template and result, no pairs, and the default pattern. |
| Scenarios.AddPairsScenarios | test/test.js:126-132 | A non-Map argument is refused with PairsType and a Map is accepted. |
| Scenarios.CleanupScenario | test/test.js:135-152 | Two added pairs are pending; fill drains them, and reset brings back the page. |
| Scenarios.RefusedKeyStopsFill | index.js:49-65 | With test -> replaced pending, fill(new Map([['(', 'x']])) throws the engine's SyntaxError. The page keeps the replaced @test, and both pairs stay pending. |

## Left out

- File reading: the encoding and `fs` errors are not modelled. The reader is the `Loader` parameter, and its failure message is kept as the error's message.
- Sessions.Apply: `handleTemplateSource` called without an encoding makes `fs.readFileSync` return a `Buffer`, not a string. The model always passes an encoding string, so that case is not modelled.
- The JavaScript regular-expression engine is the `Engine` parameter and is not modelled. This covers RegExp keys with their flags and `lastIndex`, metacharacters in key patterns or names, and `$` sequences in values. It also covers which spliced sources fail to compile, beyond the fact that a plain one always compiles.
- Characters: a Dafny `string` is a sequence of Unicode scalar values, while JavaScript strings are UTF-16 code units. Lone surrogates cannot be represented. An empty target, as in `/(?:)/g`, inserts between the two halves of a surrogate pair in JavaScript but between scalar values here. ExpandLength counts scalar values, not code units.
- Expand: splices the name verbatim. `String.prototype.replace` would also interpret `$` sequences in the name. A name with `$` is not plain, so the model hands that case to the engine rather than to `Expand`.
- Object aliasing: when nothing is pending, `addPairs` stores the caller's own `Map` (index.js:113). The model has value semantics, so later changes through either reference are not modelled.
- Getter closures (index.js:12-15) are field reads on the datatype.
- Only `undefined`, `null`, strings and RegExp objects are modelled as JavaScript values. Numbers, booleans, arrays and plain objects are not. Of the arguments to `addPairs` and `fill` that are not a `Map`, the truthy ones are the single `NotAMap` case and the falsy ones the single `Falsy` case; `fill` skips a `Falsy` argument and `addPairs` refuses it with the same TypeError.
- A constructor option of `null` as the pattern would throw a TypeError from `pattern.includes`. The model takes the pattern as an optional string, so that case is not modelled.
- Errors.Message: the contract states only how the key-pattern error's message is built. The other fixed texts, and the loader's and engine's messages passed through unchanged, are in the definition but not in the contract.
- The scenarios assume the template files hold the texts that the tests' expected outputs imply.
