/** The life of one `Template` object: a sequence of public calls. A call that throws before
    touching the object leaves it as it was; `fill` may throw half-way and leave its partial
    work behind. The template text changes only through `handleTemplateSource`, the key
    pattern always contains "key", and `reset()` brings back the text last loaded. */
module Sessions {
  import opened Wrappers
  import opened JsValues
  import opened Errors
  import opened Templates

  /** A call of a public method. */
  datatype Op =
    | LoadSource(path: Option<string>, text: Option<string>, encoding: string)
    | SetPattern(pattern: string)
    | AddOne(key: KeyArg, value: JsValue)
    | AddMany(pairs: PairsArg)
    | FillWith(pairs: PairsArg)
    | ResetResult

  /** What a call leaves behind: the object's state afterwards, and the error it threw, if any. */
  datatype Outcome = Outcome(state: Template, thrown: Option<Error>)

  /** A call whose checks all run before it changes anything. */
  function Checked(t: Template, call: Result<Template, Error>): (r: Outcome) {
    match call
    case Success(next) => Outcome(next, None)
    case Failure(error) => Outcome(t, Some(error))
  }

  /** The outcome of one call. */
  function Apply(e: Engine, load: Loader, t: Template, op: Op): (r: Outcome)
    ensures op.LoadSource? ==>
      var source := HandleTemplateSource(op.path, op.text, op.encoding, load);
      && (r.thrown.None? <==> source.Success?)
      && (source.Success? ==> r.state == t.(template := source.value))
    ensures !op.LoadSource? ==> r.state.template == t.template
    ensures r.thrown.Some? && !op.FillWith? ==> r.state == t
    ensures op.FillWith? && r.thrown.Some? ==>
      if op.pairs.NotAMap? then r.state == t && r.thrown == Some(PairsType)
      else r.state.pairs == Staged(t.pairs, op.pairs) && r.thrown.value.RegexSyntax?
    ensures Valid(t) ==> Valid(r.state)
    ensures op.ResetResult? ==> r.thrown.None? && r.state.result == t.template
  {
    match op
    case LoadSource(path, text, encoding) =>
      (match HandleTemplateSource(path, text, encoding, load)
       case Success(source) => Outcome(t.(template := source), None)
       case Failure(error) => Outcome(t, Some(error)))
    case SetPattern(p) => Checked(t, SetKeyPattern(t, p))
    case AddOne(k, v) => Checked(t, AddPair(t, k, v))
    case AddMany(a) => Checked(t, AddPairs(t, a))
    case FillWith(a) =>
      (match Fill(e, t, a)
       case Success(next) => Outcome(next, None)
       case Failure(thrown) => Outcome(thrown.left, Some(thrown.error)))
    case ResetResult => Outcome(Reset(t), None)
  }

  /** The object after a sequence of calls, each on the state the previous one left. */
  function Run(e: Engine, load: Loader, t: Template, ops: seq<Op>): (r: Template)
    decreases |ops|
    ensures Valid(t) ==> Valid(r)
    ensures (forall i :: 0 <= i < |ops| ==> !ops[i].LoadSource?) ==> r.template == t.template
  {
    if |ops| == 0 then t
    else Run(e, load, Apply(e, load, t, ops[0]).state, ops[1..])
  }

  /** The text of the last `handleTemplateSource` call in `ops` that succeeded, or `text`
      when none did. */
  function LoadedText(load: Loader, text: string, ops: seq<Op>): (r: string)
    decreases |ops|
  {
    if |ops| == 0 then text
    else
      var last := ops[|ops| - 1];
      if last.LoadSource? && HandleTemplateSource(last.path, last.text, last.encoding, load).Success? then
        HandleTemplateSource(last.path, last.text, last.encoding, load).value
      else LoadedText(load, text, ops[..|ops| - 1])
  }

  /** The last call of a sequence acts on the state the others left. */
  lemma {:induction false} RunLast(e: Engine, load: Loader, t: Template, ops: seq<Op>)
    requires |ops| > 0
    ensures Run(e, load, t, ops) == Apply(e, load, Run(e, load, t, ops[..|ops| - 1]), ops[|ops| - 1]).state
    decreases |ops|
  {
    hide Apply;
    var next := Apply(e, load, t, ops[0]).state;
    if |ops| == 1 {
      assert ops[..0] == [] && ops[1..] == [];
    } else {
      var init := ops[..|ops| - 1];
      assert init[0] == ops[0];
      assert init[1..] == ops[1..][..|ops| - 2];
      assert Run(e, load, t, init) == Run(e, load, next, init[1..]);
      RunLast(e, load, next, ops[1..]);
      assert ops[1..][|ops| - 2] == ops[|ops| - 1];
    }
  }

  /** Whatever calls came before, the template text is the one last loaded. */
  lemma {:induction false} RunKeepsLoadedText(e: Engine, load: Loader, t: Template, ops: seq<Op>)
    ensures Run(e, load, t, ops).template == LoadedText(load, t.template, ops)
    decreases |ops|
  {
    if |ops| > 0 {
      RunLast(e, load, t, ops);
      RunKeepsLoadedText(e, load, t, ops[..|ops| - 1]);
    }
  }

  /** Whatever calls a constructed template went through, `reset()` restores the text last
      loaded into it, which is the text it was constructed with unless `handleTemplateSource`
      was called since; and its key pattern still contains "key". */
  lemma ResetRestoresLoadedText(e: Engine, load: Loader, opts: Options, ops: seq<Op>)
    requires Construct(opts, load).Success?
    ensures var t := Construct(opts, load).value;
      var r := Apply(e, load, Run(e, load, t, ops), ResetResult);
      && r.thrown.None? && Valid(r.state)
      && r.state.result == LoadedText(load, t.template, ops)
      && ((forall i :: 0 <= i < |ops| ==> !ops[i].LoadSource?) ==> r.state.result == t.template)
  {
    RunKeepsLoadedText(e, load, Construct(opts, load).value, ops);
  }
}
