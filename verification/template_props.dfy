/** Properties of `fill` and of the key pattern that relate several calls or hold for every
    input: passes compose as a left fold that stops at the first key the engine refuses,
    staged pairs apply in order, a `RegExp` key ignores the key pattern, and a string key
    replaces every leftmost occurrence of its spliced text. */
module TemplateProperties {
  import opened Wrappers
  import opened Strings
  import opened JsValues
  import opened OrderedMaps
  import opened Errors
  import opened Templates

  /** Applying pairs `p` then pairs `q` is applying `p + q`: each pass works on the output of
      the one before, and a pass of `p` that throws stops the whole run where it stands. */
  lemma {:induction false} ApplyAllConcat(e: Engine, kp: string, p: seq<(JsValue, JsValue)>, q: seq<(JsValue, JsValue)>, text: string)
    ensures var first := ApplyAll(e, kp, p, text);
      ApplyAll(e, kp, p + q, text) == if first.Success? then ApplyAll(e, kp, q, first.value) else first
    decreases |p|
  {
    if |p| == 0 {
      assert p + q == q;
    } else {
      assert (p + q)[0] == p[0];
      assert (p + q)[1..] == p[1..] + q;
      var step := Step(e, kp, p[0], text);
      if step.Success? {
        ApplyAllConcat(e, kp, p[1..], q, step.value);
      }
    }
  }

  /** A run that throws stops at its first refused pair: the text it leaves is what the
      passes before that pair produced, and the message is that pair's. */
  lemma {:induction false} HaltIsFirstFailure(e: Engine, kp: string, pairs: seq<(JsValue, JsValue)>, text: string)
    ensures var r := ApplyAll(e, kp, pairs, text);
      r.Failure? ==> exists i ::
        && 0 <= i < |pairs|
        && ApplyAll(e, kp, pairs[..i], text) == Success(r.error.text)
        && Step(e, kp, pairs[i], r.error.text) == Failure(r.error.message)
    decreases |pairs|
  {
    if |pairs| > 0 {
      var r := ApplyAll(e, kp, pairs, text);
      var step := Step(e, kp, pairs[0], text);
      if step.Failure? {
        assert pairs[..0] == [];
        assert ApplyAll(e, kp, pairs[..0], text) == Success(text);
      } else {
        HaltIsFirstFailure(e, kp, pairs[1..], step.value);
        if r.Failure? {
          var i :| 0 <= i < |pairs[1..]| &&
            ApplyAll(e, kp, pairs[1..][..i], step.value) == Success(r.error.text) &&
            Step(e, kp, pairs[1..][i], r.error.text) == Failure(r.error.message);
          assert pairs[..i + 1][0] == pairs[0] && pairs[..i + 1][1..] == pairs[1..][..i];
          assert pairs[1..][i] == pairs[i + 1];
        }
      }
    }
  }

  /** With nothing pending, `fill()`, `fill(null)` and `fill(new Map())` return the current
      result and leave the template as it is. */
  lemma FillWithNothingPending(e: Engine, t: Template, arg: PairsArg)
    requires |t.pairs| == 0
    requires arg.Falsy? || (arg.MapOf? && |arg.entries| == 0)
    ensures Fill(e, t, arg) == Success(t)
  {
    assert Staged(t.pairs, arg) == [];
  }

  /** An empty `Map` argument behaves as no argument. */
  lemma FillEmptyMapIsNoArgument(e: Engine, t: Template)
    ensures Fill(e, t, MapOf([])) == Fill(e, t, Falsy)
  {
    assert Staged(t.pairs, MapOf([])) == t.pairs;
  }

  /** The result of a `fill` persists: a following `fill()` with nothing new returns it again. */
  lemma FillResultPersists(e: Engine, t: Template, arg: PairsArg)
    requires Fill(e, t, arg).Success?
    ensures Fill(e, Fill(e, t, arg).value, Falsy) == Fill(e, t, arg)
  {
    var t' := Fill(e, t, arg).value;
    FillWithNothingPending(e, t', Falsy);
  }

  /** Two calls of `fill` that the caller cannot tell apart by what they return or throw:
      both return the same template, or both throw the same error and leave the same
      result. The pairs left pending after a throw may differ. */
  ghost predicate SameOutcome(x: Result<Template, Thrown>, y: Result<Template, Thrown>) {
    && x.Success? == y.Success?
    && (x.Success? ==> x.value == y.value)
    && (x.Failure? ==> x.error.error == y.error.error && x.error.left.result == y.error.left.result)
  }

  /** Staging map `a` with `addPairs` and then calling `fill(b)` once has the same outcome as
      `fill(a)` followed by `fill(b)`, as long as `b` brings only keys that are new. When
      `fill(a)` throws, the single `fill(b)` throws the same error with the same result. */
  lemma FillInStages(e: Engine, t: Template, a: Pairs, b: Pairs)
    requires forall k :: k in Keys(b) ==> k !in Keys(t.pairs) && k !in Keys(a)
    ensures var once := Fill(e, AddPairs(t, MapOf(a)).value, MapOf(b));
      var first := Fill(e, t, MapOf(a));
      && (first.Success? ==> SameOutcome(once, Fill(e, first.value, MapOf(b))))
      && (first.Failure? ==> SameOutcome(once, first))
  {
    var pa := Merge(t.pairs, a);
    assert Keys(pa) == Keys(t.pairs) + Fresh(Keys(a), Keys(t.pairs));
    MergeDisjoint(pa, b);
    MergeIntoEmpty(b);
    assert AddPairs(t, MapOf(a)).value == t.(pairs := pa);
    assert Staged(t.pairs, MapOf(a)) == pa;
    hide Merge, Keys, Lookup, Fresh, AddPairs, Staged;
    FillTwoMaps(e, t, pa, b);
  }

  /** `fill(b)` with `pa` pending, where `b` brings only new keys, against the fill of `pa`
      alone followed by `fill(b)`. */
  lemma FillTwoMaps(e: Engine, t: Template, pa: Pairs, b: Pairs)
    requires Merge(pa, b) == pa + b && Merge([], b) == b
    ensures var once := Fill(e, t.(pairs := pa), MapOf(b));
      var first := Fill(e, t.(pairs := pa), Falsy);
      && (first.Success? ==> SameOutcome(once, Fill(e, first.value, MapOf(b))))
      && (first.Failure? ==> SameOutcome(once, first))
  {
    ApplyAllConcat(e, t.keyPattern, pa, b, t.result);
    StagedOfMerged(pa, b);
    hide Merge, Staged, Step;
    match ApplyAll(e, t.keyPattern, pa, t.result)
    case Success(text) => FillAfterCleanRun(e, t, pa, b, text);
    case Failure(halt) => FillAfterHalt(e, t, pa, b, halt);
  }

  /** The half of `FillTwoMaps` where the passes of `pa` all succeed. */
  lemma FillAfterCleanRun(e: Engine, t: Template, pa: Pairs, b: Pairs, text: string)
    requires Merge(pa, b) == pa + b && Merge([], b) == b
    requires ApplyAll(e, t.keyPattern, pa, t.result) == Success(text)
    ensures Fill(e, t.(pairs := pa), Falsy) == Success(t.(result := text, pairs := []))
    ensures SameOutcome(Fill(e, t.(pairs := pa), MapOf(b)), Fill(e, t.(result := text, pairs := []), MapOf(b)))
  {
    hide Merge, Staged, ApplyAll, Step;
    ApplyAllConcat(e, t.keyPattern, pa, b, t.result);
    StagedOfMerged(pa, b);
  }

  /** What `fill` stages for `pa` pending and argument `b`, when `b` brings only new keys. */
  lemma StagedOfMerged(pa: Pairs, b: Pairs)
    requires Merge(pa, b) == pa + b && Merge([], b) == b
    ensures Staged(pa, MapOf(b)) == pa + b && Staged([], MapOf(b)) == b && Staged(pa, Falsy) == pa
  {
  }

  /** The half of `FillTwoMaps` where a pass of `pa` throws. */
  lemma FillAfterHalt(e: Engine, t: Template, pa: Pairs, b: Pairs, halt: Halt)
    requires Staged(pa, MapOf(b)) == pa + b && Staged(pa, Falsy) == pa
    requires ApplyAll(e, t.keyPattern, pa, t.result) == Failure(halt)
    requires ApplyAll(e, t.keyPattern, pa + b, t.result) == Failure(halt)
    ensures Fill(e, t.(pairs := pa), Falsy) == Failure(Thrown(RegexSyntax(halt.message), t.(result := halt.text, pairs := pa)))
    ensures Fill(e, t.(pairs := pa), MapOf(b)) == Failure(Thrown(RegexSyntax(halt.message), t.(result := halt.text, pairs := pa + b)))
  {
    hide Staged, ApplyAll;
  }

  /** A `RegExp` key is used as it is: the pass hands it to the engine unchanged, whatever the
      key pattern. */
  lemma RegexKeyUsedVerbatim(e: Engine, kp: string, key: JsValue, value: JsValue, text: string)
    requires key.Regex?
    ensures Step(e, kp, (key, value), text) == Success(e.replace(UserRegex(key.id, key.source, key.flags), text, ToString(value)))
  {
  }

  /** Pairs whose keys are all `RegExp` objects fill the same way under every key pattern. */
  lemma {:induction false} RegexKeysIgnoreKeyPattern(e: Engine, kp1: string, kp2: string, pairs: seq<(JsValue, JsValue)>, text: string)
    requires forall i :: 0 <= i < |pairs| ==> pairs[i].0.Regex?
    ensures ApplyAll(e, kp1, pairs, text) == ApplyAll(e, kp2, pairs, text)
    decreases |pairs|
  {
    if |pairs| > 0 {
      var next := Step(e, kp1, pairs[0], text);
      assert next == Step(e, kp2, pairs[0], text) && next.Success?;
      RegexKeysIgnoreKeyPattern(e, kp1, kp2, pairs[1..], next.value);
    }
  }

  /** Splicing a name into a pattern that contains "key" grows it by the name's length less three. */
  lemma ExpandLength(pattern: string, name: string)
    requires Contains(pattern, KeyWord)
    ensures |Expand(pattern, name)| == |pattern| - |KeyWord| + |name|
  {
    var i := IndexOf(pattern, KeyWord).value;
    assert Expand(pattern, name) == pattern[..i] + name + pattern[i + |KeyWord|..];
  }

  /** With the default pattern `@key`, the text matched for a key is "@" followed by the key. */
  lemma ExpandDefault(name: string)
    ensures Expand(DefaultKeyPattern, name) == "@" + name
  {
    assert OccursAt(DefaultKeyPattern, KeyWord, 1);
    assert DefaultKeyPattern[0..3][0] == '@' != KeyWord[0];
    assert !OccursAt(DefaultKeyPattern, KeyWord, 0);
    assert IndexOf(DefaultKeyPattern, KeyWord) == Some(1);
    assert DefaultKeyPattern[..1] == "@";
    assert DefaultKeyPattern[1 + |KeyWord|..] == "";
  }

  /** A string key under a plain pattern replaces every occurrence of the spliced text,
      leftmost first and resuming after each replacement, by the value. */
  lemma StringKeyReplacesEveryOccurrence(e: Engine, kp: string, key: JsValue, value: JsValue, text: string)
    requires !key.Regex? && Plain(kp) && Plain(ToString(key)) && '$' !in ToString(value)
    requires |Expand(kp, ToString(key))| > 0
    ensures Step(e, kp, (key, value), text) == Success(ReplaceEach(text, Expand(kp, ToString(key)), ToString(value)))
  {
    ReplaceAllIsLeftmostScan(text, Expand(kp, ToString(key)), ToString(value));
  }

  /** The same for the default pattern: every "@" + key becomes the value. */
  lemma DefaultPatternReplacesAtKey(e: Engine, key: JsValue, value: JsValue, text: string)
    requires !key.Regex? && Plain(ToString(key)) && '$' !in ToString(value)
    ensures Step(e, DefaultKeyPattern, (key, value), text) == Success(ReplaceAll(text, "@" + ToString(key), ToString(value)))
    ensures Step(e, DefaultKeyPattern, (key, value), text) == Success(ReplaceEach(text, "@" + ToString(key), ToString(value)))
  {
    ExpandDefault(ToString(key));
    DefaultIsPlain();
    ReplaceAllIsLeftmostScan(text, "@" + ToString(key), ToString(value));
  }

  /** The default pattern `@key` has no special character. */
  lemma DefaultIsPlain()
    ensures Plain(DefaultKeyPattern)
  {
    forall i | 0 <= i < |DefaultKeyPattern|
      ensures DefaultKeyPattern[i] !in Special
    {
      assert DefaultKeyPattern[i] in "@key";
    }
  }
}
