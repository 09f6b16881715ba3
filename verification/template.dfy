/** The `Template` class of index.js: a template text, the working result, the pending
    (match specifier -> value) pairs and the key pattern, with every public operation as a
    pure transition that either yields the next state or the error the class would throw.
    Every check that throws runs before the object is touched, so a failed call returns no
    state; the exception is `fill`, whose regular-expression engine can throw half-way, and
    whose failure therefore carries the state it leaves behind. */
module Templates {
  import opened Wrappers
  import opened Strings
  import opened JsValues
  import opened OrderedMaps
  import opened Errors

  /** The word a key pattern must contain; the first occurrence is replaced by the key. */
  const KeyWord := "key"
  const DefaultKeyPattern := "@key"
  const DefaultEncoding := "utf8"

  /** The pending pairs: a JavaScript `Map` from match specifier to replacement value. */
  type Pairs = PairMap<JsValue, JsValue>

  datatype Template = Template(template: string, result: string, pairs: Pairs, keyPattern: string)

  /** What every constructed template keeps: its key pattern contains "key". */
  ghost predicate Valid(t: Template) {
    Contains(t.keyPattern, KeyWord)
  }

  // ---------------------------------------------------------------------------------
  // Construction

  /** The constructor's option object; `text` is the `string` option. An absent option is
      `None`. */
  datatype Options = Options(path: Option<string>, text: Option<string>, pattern: Option<string>, encoding: Option<string>)

  /** Reads a whole file, given its path and text encoding, or fails with the reader's message. */
  type Loader = (string, string) -> Result<string, string>

  /** The option is present and truthy (a non-empty string). */
  predicate Given(o: Option<string>) {
    o.Some? && |o.value| > 0
  }

  function OrDefault(o: Option<string>, default: string): (r: string) {
    if o.Some? then o.value else default
  }

  /** `handleTemplateSource`: exactly one of the path and the literal text must be given;
      a path is read through `load`. */
  function HandleTemplateSource(path: Option<string>, text: Option<string>, encoding: string, load: Loader): (r: Result<string, Error>)
    ensures r.Success? <==> Given(path) != Given(text) && (Given(path) ==> load(path.value, encoding).Success?)
    ensures !Given(path) && !Given(text) ==> r == Failure(MissingSource)
    ensures Given(path) && Given(text) ==> r == Failure(MultipleSources)
    ensures Given(path) && !Given(text) && r.Success? ==> r.value == load(path.value, encoding).value
    ensures Given(path) && !Given(text) && r.Failure? ==> r.error == SourceRead(load(path.value, encoding).error)
    ensures !Given(path) && Given(text) ==> r == Success(text.value)
  {
    if !Given(path) && !Given(text) then Failure(MissingSource)
    else if Given(path) && Given(text) then Failure(MultipleSources)
    else if Given(path) then
      match load(path.value, encoding)
      case Success(contents) => Success(contents)
      case Failure(reason) => Failure(SourceRead(reason))
    else Success(text.value)
  }

  /** `setKeyPattern`: the pattern is stored verbatim exactly when it contains "key". */
  function SetKeyPattern(t: Template, pattern: string): (r: Result<Template, Error>)
    ensures r.Success? <==> Contains(pattern, KeyWord)
    ensures r.Success? ==> r.value == t.(keyPattern := pattern) && Valid(r.value)
    ensures r.Failure? ==> r.error == KeyPatternError(pattern)
  {
    if Includes(pattern, KeyWord) then Success(t.(keyPattern := pattern))
    else Failure(KeyPatternError(pattern))
  }

  /** `new Template(options)`: the source is checked first, then the key pattern. */
  function Construct(opts: Options, load: Loader): (r: Result<Template, Error>)
    ensures var src := HandleTemplateSource(opts.path, opts.text, OrDefault(opts.encoding, DefaultEncoding), load);
      && (src.Failure? ==> r == Failure(src.error))
      && (r.Success? <==> src.Success? && Contains(OrDefault(opts.pattern, DefaultKeyPattern), KeyWord))
      && (src.Success? && r.Failure? ==> r.error == KeyPatternError(OrDefault(opts.pattern, DefaultKeyPattern)))
      && (r.Success? ==> r.value.template == src.value && r.value.result == src.value)
    ensures r.Success? ==> r.value.pairs == [] && r.value.keyPattern == OrDefault(opts.pattern, DefaultKeyPattern)
    ensures r.Success? ==> Valid(r.value)
  {
    var text :- HandleTemplateSource(opts.path, opts.text, OrDefault(opts.encoding, DefaultEncoding), load);
    SetKeyPattern(Template(text, text, [], DefaultKeyPattern), OrDefault(opts.pattern, DefaultKeyPattern))
  }

  // ---------------------------------------------------------------------------------
  // Pending pairs

  /** The first argument of `addPair`: a single key, or a `[key, value]` array. */
  datatype KeyArg = Scalar(v: JsValue) | Array(items: seq<JsValue>)

  /** The argument of `addPairs` and `fill`: a falsy value, some other non-`Map` value, or a `Map`. */
  datatype PairsArg = Falsy | NotAMap | MapOf(entries: Pairs)

  /** `after` is `before` with `k` set to `v`: the value of `k` is `v`, every other key keeps
      its value, and the key order changes only by appending a new `k`. */
  ghost predicate SetsOnly(before: Pairs, after: Pairs, k: JsValue, v: JsValue) {
    && Lookup(after, k) == Some(v)
    && (forall k' :: k' != k ==> Lookup(after, k') == Lookup(before, k'))
    && Keys(after) == (if k in Keys(before) then Keys(before) else Keys(before) + [k])
  }

  /** `addPair(key, value)`: checks, in order, a missing key, a missing value for a single
      key, an array not of length two and an array with a falsy element; then sets one pair.
      In the array form the `value` argument is ignored. */
  function AddPair(t: Template, key: KeyArg, value: JsValue): (r: Result<Template, Error>)
    ensures key.Scalar? && !Truthy(key.v) ==> r == Failure(MissingKey)
    ensures key.Scalar? && Truthy(key.v) && !Truthy(value) ==> r == Failure(MissingValue)
    ensures key.Array? && |key.items| != 2 ==> r == Failure(PairLength)
    ensures key.Array? && |key.items| == 2 && !(Truthy(key.items[0]) && Truthy(key.items[1])) ==>
      r == Failure(IncompletePair)
    ensures r.Success? <==>
      if key.Scalar? then Truthy(key.v) && Truthy(value)
      else |key.items| == 2 && Truthy(key.items[0]) && Truthy(key.items[1])
    ensures r.Success? ==> r.value == t.(pairs := r.value.pairs)
    ensures r.Success? && key.Scalar? ==> SetsOnly(t.pairs, r.value.pairs, key.v, value)
    ensures r.Success? && key.Array? ==> SetsOnly(t.pairs, r.value.pairs, key.items[0], key.items[1])
  {
    var isArray := key.Array?;
    if key.Scalar? && !Truthy(key.v) then Failure(MissingKey)
    else if !isArray && !Truthy(value) then Failure(MissingValue)
    else if isArray && |key.items| != 2 then Failure(PairLength)
    else if isArray && (!Truthy(key.items[0]) || !Truthy(key.items[1])) then Failure(IncompletePair)
    else if isArray then Success(t.(pairs := Set(t.pairs, key.items[0], key.items[1])))
    else Success(t.(pairs := Set(t.pairs, key.v, value)))
  }

  /** `addPairs(pairs)`: only a `Map` is accepted. A non-empty `Map` replaces empty pending
      pairs outright and is otherwise merged after them; either way the outcome is the
      ordered merge, with the argument's values winning. */
  function AddPairs(t: Template, arg: PairsArg): (r: Result<Template, Error>)
    ensures r.Failure? <==> !arg.MapOf?
    ensures r.Failure? ==> r.error == PairsType
    ensures r.Success? ==> r.value == t.(pairs := Merge(t.pairs, arg.entries))
  {
    match arg
    case MapOf(entries) =>
      if |entries| > 0 then
        if |t.pairs| > 0 then Success(t.(pairs := Merge(t.pairs, entries)))
        else
          MergeIntoEmpty(entries);
          Success(t.(pairs := entries))
      else Success(t)
    case _ => Failure(PairsType)
  }

  // ---------------------------------------------------------------------------------
  // Filling

  /** `keyPattern.replace('key', name)`: the first "key" in the pattern becomes `name`. */
  function Expand(pattern: string, name: string): (r: string)
    ensures !Contains(pattern, KeyWord) ==> r == pattern
    ensures Contains(pattern, KeyWord) ==>
      exists i: nat :: FirstAt(pattern, KeyWord, i) && r == pattern[..i] + name + pattern[i + |KeyWord|..]
  {
    match IndexOf(pattern, KeyWord)
    case None => pattern
    case Some(i) => pattern[..i] + name + pattern[i + |KeyWord|..]
  }

  /** Characters with a meaning of their own in a JavaScript regular expression, or, for
      `$`, in a replacement string. */
  const Special := "\\^$.|?*+()[]{}"

  /** `s` has no special character, so as a regular expression it matches itself literally,
      and as a replacement it is inserted as is. */
  predicate Plain(s: string) {
    forall i :: 0 <= i < |s| ==> s[i] !in Special
  }

  /** The regular expression a pass of `fill` matches with: a user-supplied `RegExp` key, or
      the one compiled from the key pattern and a key name. */
  datatype Matcher = UserRegex(id: nat, source: string, flags: string) | KeyRegex(keyPattern: string, name: string)

  /** The JavaScript regular-expression engine, for the cases the model does not compute
      itself. `replace` is `text.replace(matcher, replacement)`. `syntaxError(pattern, name)`
      is the message of the `SyntaxError` that `new RegExp(pattern.replace('key', name), 'g')`
      throws, or `None` when that source compiles. */
  datatype Engine = Engine(
    replace: (Matcher, string, string) -> string,
    syntaxError: (string, string) -> Option<string>)

  /** A string key under this pattern is a regular expression that always compiles and
      matches its spliced text literally, and a `RegExp` key is already compiled: either
      way, its pass cannot throw. */
  predicate SafeKey(keyPattern: string, key: JsValue) {
    key.Regex? || (Plain(keyPattern) && Plain(ToString(key)))
  }

  /** One pass of `fill`: replace the matches of one pending pair in `text`, or fail with the
      message of the `SyntaxError` thrown while compiling the key. A key that is not a
      `RegExp` is turned into a name and spliced into the key pattern; when pattern and name
      are plain, the spliced source compiles, and when the replacement also has no `$`,
      every occurrence of the spliced text is replaced literally. Everything else is left
      to `engine`. */
  function Step(engine: Engine, keyPattern: string, pair: (JsValue, JsValue), text: string): (r: Result<string, string>)
    ensures SafeKey(keyPattern, pair.0) ==> r.Success?
    ensures r.Failure? ==> engine.syntaxError(keyPattern, ToString(pair.0)) == Some(r.error)
    ensures !SafeKey(keyPattern, pair.0) ==> (r.Failure? <==> engine.syntaxError(keyPattern, ToString(pair.0)).Some?)
    ensures !SafeKey(keyPattern, pair.0) && r.Success? ==>
      r.value == engine.replace(KeyRegex(keyPattern, ToString(pair.0)), text, ToString(pair.1))
    ensures !pair.0.Regex? && SafeKey(keyPattern, pair.0) && '$' in ToString(pair.1) ==>
      r == Success(engine.replace(KeyRegex(keyPattern, ToString(pair.0)), text, ToString(pair.1)))
  {
    var key := pair.0;
    var replacement := ToString(pair.1);
    if key.Regex? then Success(engine.replace(UserRegex(key.id, key.source, key.flags), text, replacement))
    else
      var name := ToString(key);
      if Plain(keyPattern) && Plain(name) then
        if '$' !in replacement then Success(ReplaceAll(text, Expand(keyPattern, name), replacement))
        else Success(engine.replace(KeyRegex(keyPattern, name), text, replacement))
      else
        match engine.syntaxError(keyPattern, name)
        case Some(message) => Failure(message)
        case None => Success(engine.replace(KeyRegex(keyPattern, name), text, replacement))
  }

  /** Where the passes of `fill` stopped: the `SyntaxError` message and the result as the
      passes before the failing one left it. */
  datatype Halt = Halt(message: string, text: string)

  /** The passes of `fill`, in insertion order, each on the previous pass's output, up to the
      first pass that throws. */
  function ApplyAll(engine: Engine, keyPattern: string, pairs: seq<(JsValue, JsValue)>, text: string): (r: Result<string, Halt>)
    decreases |pairs|
    ensures (forall i :: 0 <= i < |pairs| ==> SafeKey(keyPattern, pairs[i].0)) ==> r.Success?
    ensures |pairs| == 0 ==> r == Success(text)
    ensures |pairs| == 1 ==> r == match Step(engine, keyPattern, pairs[0], text)
      case Success(next) => Success(next)
      case Failure(message) => Failure(Halt(message, text))
  {
    if |pairs| == 0 then Success(text)
    else
      match Step(engine, keyPattern, pairs[0], text)
      case Failure(message) => Failure(Halt(message, text))
      case Success(next) => ApplyAll(engine, keyPattern, pairs[1..], next)
  }

  /** The pending pairs `fill(arg)` works through. */
  function Staged(pending: Pairs, arg: PairsArg): (r: Pairs)
    ensures !arg.MapOf? ==> r == pending
    ensures arg.MapOf? ==> Keys(r) == Keys(pending) + Fresh(Keys(arg.entries), Keys(pending))
    ensures arg.MapOf? ==> forall k :: Lookup(r, k) == if k in Keys(arg.entries) then Lookup(arg.entries, k) else Lookup(pending, k)
  {
    if arg.MapOf? then Merge(pending, arg.entries) else pending
  }

  /** An exception thrown by `fill`, with the object as it is left. */
  datatype Thrown = Thrown(error: Error, left: Template)

  /** `fill(pairs)`: a truthy argument is first added with `addPairs`; then every pending pair
      is applied to the current result, and the pending pairs are cleared. A non-`Map`
      argument throws before anything changes. A key the engine refuses throws after the
      argument was merged and the earlier passes were stored: those stay, and the pairs are
      not cleared. */
  function Fill(engine: Engine, t: Template, arg: PairsArg): (r: Result<Template, Thrown>)
    ensures arg.NotAMap? ==> r == Failure(Thrown(PairsType, t))
    ensures !arg.NotAMap? ==> (r.Success? <==> ApplyAll(engine, t.keyPattern, Staged(t.pairs, arg), t.result).Success?)
    ensures r.Success? ==>
      r.value == t.(result := ApplyAll(engine, t.keyPattern, Staged(t.pairs, arg), t.result).value, pairs := [])
    ensures r.Failure? && !arg.NotAMap? ==>
      var halt := ApplyAll(engine, t.keyPattern, Staged(t.pairs, arg), t.result).error;
      r.error == Thrown(RegexSyntax(halt.message), t.(result := halt.text, pairs := Staged(t.pairs, arg)))
  {
    var added := if arg.Falsy? then Success(t) else AddPairs(t, arg);
    if added.Failure? then Failure(Thrown(added.error, t))
    else
      var staged := added.value;
      match ApplyAll(engine, staged.keyPattern, staged.pairs, staged.result)
      case Success(text) => Success(staged.(result := text, pairs := []))
      case Failure(halt) => Failure(Thrown(RegexSyntax(halt.message), staged.(result := halt.text)))
  }

  /** `reset()`: the result goes back to the template; nothing else changes. */
  function Reset(t: Template): (r: Template)
    ensures r.result == t.template
    ensures r.template == t.template && r.pairs == t.pairs && r.keyPattern == t.keyPattern
  {
    t.(result := t.template)
  }
}
