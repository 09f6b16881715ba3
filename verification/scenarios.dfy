/** The behaviour the library's own unit tests describe, stated about the model on the same
    inputs. The file `test.template.html` they load is taken to hold
    `<div>@test@anotherTest</div>`, the text their expected outputs imply. */
module Scenarios {
  import opened Wrappers
  import opened Strings
  import opened JsValues
  import opened OrderedMaps
  import opened Errors
  import opened Templates
  import opened TemplateProperties

  const Open := "<div>"
  const Close := "</div>"
  const AtTest := "@test"
  const AtAnother := "@anotherTest"

  /** The text of `test.template.html`. */
  const Page := Open + (AtTest + (AtAnother + Close))

  /** A template built from `Page`, as after construction with the default options. */
  const FreshPage := Template(Page, Page, [], DefaultKeyPattern)

  /** A custom pattern containing "key" is kept verbatim. */
  lemma CustomPatternAccepted(t: Template)
    ensures SetKeyPattern(t, "%%@key##!") == Success(t.(keyPattern := "%%@key##!"))
  {
    assert OccursAt("%%@key##!", KeyWord, 3);
  }

  /** Patterns without a contiguous "key" are refused with an error naming them. */
  lemma PatternsWithoutKeyRefused(t: Template)
    ensures SetKeyPattern(t, "ke y") == Failure(KeyPatternError("ke y"))
    ensures SetKeyPattern(t, "keey") == Failure(KeyPatternError("keey"))
    ensures SetKeyPattern(t, "") == Failure(KeyPatternError(""))
  {
    NoMatchAt("ke y", KeyWord, 0, 2);
    NoMatchAt("ke y", KeyWord, 1, 0);
    assert IndexFrom("ke y", KeyWord, 2) == None;
    NoMatchAt("keey", KeyWord, 0, 2);
    NoMatchAt("keey", KeyWord, 1, 0);
    assert IndexFrom("keey", KeyWord, 2) == None;
  }

  /** The reversed word is not the key word. */
  lemma ReversedPatternRefused(t: Template)
    ensures SetKeyPattern(t, "%%@yek##!") == Failure(KeyPatternError("%%@yek##!"))
  {
    var reversed := "%%@yek##!";
    NoMatchAt(reversed, KeyWord, 0, 0);
    NoMatchAt(reversed, KeyWord, 1, 0);
    NoMatchAt(reversed, KeyWord, 2, 0);
    NoMatchAt(reversed, KeyWord, 3, 0);
    NoMatchAt(reversed, KeyWord, 4, 0);
    NoMatchAt(reversed, KeyWord, 5, 1);
    NoMatchAt(reversed, KeyWord, 6, 0);
    assert IndexFrom(reversed, KeyWord, 7) == None;
  }

  /** A mismatch at offset `c` means the search moves on from position `j`. */
  lemma NoMatchAt(s: string, sub: string, j: nat, c: nat)
    requires j + |sub| <= |s| && c < |sub| && s[j + c] != sub[c]
    ensures IndexFrom(s, sub, j) == IndexFrom(s, sub, j + 1)
  {
    assert s[j..j + |sub|][c] != sub[c];
  }

  // ---------------------------------------------------------------------------------
  // Sources

  /** `handleTemplateSource()` and `handleTemplateSource('/path/to/thing', 'templateString')` fail. */
  lemma SourceScenarios(load: Loader)
    ensures HandleTemplateSource(None, None, DefaultEncoding, load) == Failure(MissingSource)
    ensures HandleTemplateSource(Some("/path/to/thing"), Some("templateString"), DefaultEncoding, load) == Failure(MultipleSources)
  {
  }

  /** Constructing from a path reads the file; result and template are its text. */
  lemma ConstructFromFile(load: Loader)
    requires load("test.template.html", DefaultEncoding) == Success(Page)
    ensures Construct(Options(Some("test.template.html"), None, None, None), load) == Success(FreshPage)
  {
    assert OccursAt(DefaultKeyPattern, KeyWord, 1);
  }

  // ---------------------------------------------------------------------------------
  // Adding pairs

  /** The rejected and accepted forms of `addPair`. */
  lemma AddPairScenarios(t: Template)
    ensures AddPair(t, Scalar(Undefined), Undefined) == Failure(MissingKey)
    ensures AddPair(t, Scalar(Undefined), Str("value")) == Failure(MissingKey)
    ensures AddPair(t, Scalar(Null), Str("value")) == Failure(MissingKey)
    ensures AddPair(t, Scalar(Str("key")), Undefined) == Failure(MissingValue)
    ensures AddPair(t, Array([]), Undefined) == Failure(PairLength)
    ensures AddPair(t, Array([Str("key")]), Undefined) == Failure(PairLength)
    ensures AddPair(t, Array([Undefined, Str("value")]), Undefined) == Failure(IncompletePair)
    ensures AddPair(t, Array([Str("key"), Str("value")]), Undefined).Success?
    ensures AddPair(t, Scalar(Regex(0, "[Tt]est", "g")), Str("replaced")).Success?
  {
  }

  /** `addPairs` accepts only a `Map`. */
  lemma AddPairsScenarios(t: Template)
    ensures AddPairs(t, NotAMap) == Failure(PairsType)
    ensures AddPairs(t, MapOf([(Str("key"), Str("value")), (Str("key2"), Str("value2"))])).Success?
  {
  }

  // ---------------------------------------------------------------------------------
  // Filling

  const OneDiv := "<div>This is the one div</div>"
  const OtherDiv := "<div>This is the other div</div>"

  /** The replacement values used below hold neither '@' nor '$'. */
  lemma ValuesArePlain()
    ensures '@' !in OneDiv && '$' !in OneDiv && '@' !in OtherDiv && '$' !in OtherDiv
    ensures '$' !in OneDiv + AtAnother && '$' !in "replaced" && '$' !in "@thisisatest"
  {
    DivIsPlain(OneDiv);
    DivIsPlain(OtherDiv);
  }

  /** A value without '@' or '$' in it. */
  lemma DivIsPlain(d: string)
    requires d == OneDiv || d == OtherDiv
    ensures '@' !in d && '$' !in d
  {
    forall i | 0 <= i < |d|
      ensures d[i] != '@' && d[i] != '$'
    {
      assert d[i] in d;
    }
  }

  /** `fill()`, `fill(null)` and `fill(new Map())` on a fresh template give back the page. */
  lemma NoReplacements(e: Engine)
    ensures Fill(e, FreshPage, Falsy) == Success(FreshPage)
    ensures Fill(e, FreshPage, MapOf([])) == Success(FreshPage)
  {
    FillWithNothingPending(e, FreshPage, Falsy);
    FillWithNothingPending(e, FreshPage, MapOf([]));
  }

  /** What `fill` on the page gives when the staged pairs are `m`: the result of the passes,
      or the error of the refused key with the earlier passes' result and `m` left pending. */
  function PageFilled(m: Pairs, run: Result<string, Halt>): (r: Result<Template, Thrown>) {
    match run
    case Success(text) => Success(FreshPage.(result := text))
    case Failure(halt) => Failure(Thrown(RegexSyntax(halt.message), FreshPage.(result := halt.text, pairs := m)))
  }

  /** A fresh template given `m` in `fill(m)` applies exactly `m`'s pairs to the page. */
  lemma FillFresh(e: Engine, m: Pairs)
    ensures Fill(e, FreshPage, MapOf(m)) == PageFilled(m, ApplyAll(e, DefaultKeyPattern, m, Page))
  {
    MergeIntoEmpty(m);
  }

  /** `fill()` on a fresh template whose pending pairs are `m`. */
  lemma FillPending(e: Engine, m: Pairs)
    ensures Fill(e, FreshPage.(pairs := m), Falsy) == PageFilled(m, ApplyAll(e, DefaultKeyPattern, m, Page))
    ensures Fill(e, FreshPage.(pairs := m), MapOf([])) == PageFilled(m, ApplyAll(e, DefaultKeyPattern, m, Page))
  {
    assert Merge(m, []) == m;
  }

  /** Two passes, in order; the second runs only when the first did not throw. */
  lemma ApplyTwo(e: Engine, kp: string, p: (JsValue, JsValue), q: (JsValue, JsValue), text: string, once: string, twice: string)
    requires Step(e, kp, p, text) == Success(once) && Step(e, kp, q, once) == Success(twice)
    ensures ApplyAll(e, kp, [p, q], text) == Success(twice)
  {
    assert [p, q][0] == p && [p, q][1..] == [q];
    assert ApplyAll(e, kp, [p, q], text) == ApplyAll(e, kp, [q], once);
    assert [q][0] == q && [q][1..] == [];
    assert ApplyAll(e, kp, [q], once) == ApplyAll(e, kp, [], twice);
  }

  /** `fill(map)` on a fresh template, where the map was built by two `set` calls. */
  lemma FillFreshTwo(e: Engine, k1: JsValue, v1: JsValue, k2: JsValue, v2: JsValue, once: string, twice: string)
    requires k1 != k2
    requires Step(e, DefaultKeyPattern, (k1, v1), Page) == Success(once)
    requires Step(e, DefaultKeyPattern, (k2, v2), once) == Success(twice)
    ensures Fill(e, FreshPage, MapOf(Set(Set([], k1, v1), k2, v2))) == Success(FreshPage.(result := twice))
  {
    SetTwice(k1, v1, k2, v2);
    FillFresh(e, Set(Set([], k1, v1), k2, v2));
    ApplyTwo(e, DefaultKeyPattern, (k1, v1), (k2, v2), Page, once, twice);
  }

  /** `fill()` on a fresh template after two `addPair` calls. */
  lemma FillPendingTwo(e: Engine, k1: JsValue, v1: JsValue, k2: JsValue, v2: JsValue, once: string, twice: string)
    requires k1 != k2
    requires Step(e, DefaultKeyPattern, (k1, v1), Page) == Success(once)
    requires Step(e, DefaultKeyPattern, (k2, v2), once) == Success(twice)
    ensures Fill(e, FreshPage.(pairs := Set(Set([], k1, v1), k2, v2)), Falsy) == Success(FreshPage.(result := twice))
  {
    SetTwice(k1, v1, k2, v2);
    FillPending(e, Set(Set([], k1, v1), k2, v2));
    ApplyTwo(e, DefaultKeyPattern, (k1, v1), (k2, v2), Page, once, twice);
  }

  /** A `Map` built by two `set` calls with different keys holds both entries in order. */
  lemma SetTwice(k1: JsValue, v1: JsValue, k2: JsValue, v2: JsValue)
    requires k1 != k2
    ensures Set(Set([], k1, v1), k2, v2) == [(k1, v1), (k2, v2)]
  {
    assert Keys([(k1, v1)]) == [k1];
  }

  /** "test" and "anotherTest" contain no special character. */
  lemma PlainTest()
    ensures Plain("test") && Plain("anotherTest")
  {
    forall i | 0 <= i < |"test"|
      ensures "test"[i] !in Special
    {
      assert "test"[i] in "test";
    }
    forall i | 0 <= i < |"anotherTest"|
      ensures "anotherTest"[i] !in Special
    {
      assert "anotherTest"[i] in "anotherTest";
    }
  }

  /** The pair for key "test" replaces "@test" literally. */
  lemma TestStep(e: Engine, v: string, text: string)
    requires '$' !in v
    ensures Step(e, DefaultKeyPattern, (Str("test"), Str(v)), text) == Success(ReplaceAll(text, AtTest, v))
  {
    PlainTest();
    DefaultPatternReplacesAtKey(e, Str("test"), Str(v), text);
    assert "@" + "test" == AtTest;
  }

  /** The pair for key "anotherTest" replaces "@anotherTest" literally. */
  lemma AnotherStep(e: Engine, v: string, text: string)
    requires '$' !in v
    ensures Step(e, DefaultKeyPattern, (Str("anotherTest"), Str(v)), text) == Success(ReplaceAll(text, AtAnother, v))
  {
    PlainTest();
    DefaultPatternReplacesAtKey(e, Str("anotherTest"), Str(v), text);
    assert "@" + "anotherTest" == AtAnother;
  }

  /** The text after "@test" holds no other "@test". */
  lemma TailHasNoTest(v: string)
    ensures ReplaceAll(AtAnother + Close, AtTest, v) == AtAnother + Close
  {
    var rest := AtAnother + Close;
    assert rest[0..5][1] != AtTest[1];
    assert '@' !in rest[1..];
    hide ReplaceAll;
    FrontCopied(rest, AtTest, v);
    ReplaceAllWithoutLead(rest[1..], AtTest, v);
    assert [rest[0]] + rest[1..] == rest;
  }

  /** Replacing "@test" in the page touches only its one occurrence. */
  lemma ReplaceTestInPage(v: string)
    ensures ReplaceAll(Page, AtTest, v) == Open + (v + (AtAnother + Close))
  {
    assert '@' !in Open;
    TailHasNoTest(v);
    hide ReplaceAll;
    ReplaceAllSkipsPlainPrefix(Open, AtTest + (AtAnother + Close), AtTest, v);
    ReplaceAllAtMatch(AtAnother + Close, AtTest, v);
  }

  /** The single pass for key "test" over the page. */
  lemma OneTestPass(e: Engine, v: string)
    requires '$' !in v
    ensures ApplyAll(e, DefaultKeyPattern, [(Str("test"), Str(v))], Page) == Success(Open + (v + (AtAnother + Close)))
  {
    TestStep(e, v, Page);
    ReplaceTestInPage(v);
    assert [(Str("test"), Str(v))][1..] == [];
  }

  /** `fill(new Map([['test', 'replaced']]))` on the page. */
  lemma SingleReplacement(e: Engine)
    ensures Fill(e, FreshPage, MapOf([(Str("test"), Str("replaced"))])) ==
      Success(FreshPage.(result := Open + ("replaced" + (AtAnother + Close))))
  {
    var m: Pairs := [(Str("test"), Str("replaced"))];
    assert '$' !in "replaced";
    hide Fill, ApplyAll, ReplaceAll, Step;
    FillFresh(e, m);
    OneTestPass(e, "replaced");
  }

  /** `addPair('test', 'replaced')` then `fill()`, or `fill(new Map())`, on the page. */
  lemma PairThenFill(e: Engine)
    ensures AddPair(FreshPage, Scalar(Str("test")), Str("replaced")) == Success(FreshPage.(pairs := [(Str("test"), Str("replaced"))]))
    ensures Fill(e, FreshPage.(pairs := [(Str("test"), Str("replaced"))]), Falsy) ==
      Success(FreshPage.(result := Open + ("replaced" + (AtAnother + Close))))
    ensures Fill(e, FreshPage.(pairs := [(Str("test"), Str("replaced"))]), MapOf([])) ==
      Success(FreshPage.(result := Open + ("replaced" + (AtAnother + Close))))
  {
    PairAdded();
    var m: Pairs := [(Str("test"), Str("replaced"))];
    assert '$' !in "replaced";
    hide Fill, ApplyAll, ReplaceAll, Step, AddPair;
    FillPending(e, m);
    OneTestPass(e, "replaced");
  }

  /** `addPair('test', 'replaced')` on the page. */
  lemma PairAdded()
    ensures AddPair(FreshPage, Scalar(Str("test")), Str("replaced")) == Success(FreshPage.(pairs := [(Str("test"), Str("replaced"))]))
  {
  }

  /** A regular-expression key is applied by the engine to the text the earlier string key
      produced; the key pattern plays no part in it. */
  lemma RegexAfterString(e: Engine, id: nat)
    ensures var pending := Set(Set([], Str("test"), Str("@thisisatest")), Regex(id, "test", "gi"), Str("replacedwithregex"));
      Fill(e, FreshPage.(pairs := pending), Falsy) ==
      Success(FreshPage.(result := e.replace(UserRegex(id, "test", "gi"), Open + ("@thisisatest" + (AtAnother + Close)), "replacedwithregex")))
  {
    var once := Open + ("@thisisatest" + (AtAnother + Close));
    hide Step, ApplyAll, ReplaceAll, Fill, Set;
    TestStep(e, "@thisisatest", Page);
    ReplaceTestInPage("@thisisatest");
    RegexKeyUsedVerbatim(e, DefaultKeyPattern, Regex(id, "test", "gi"), Str("replacedwithregex"), once);
    FillPendingTwo(e, Str("test"), Str("@thisisatest"), Regex(id, "test", "gi"), Str("replacedwithregex"),
      once, e.replace(UserRegex(id, "test", "gi"), once, "replacedwithregex"));
  }

  /** Two string keys then a regular-expression key, all in one `fill(map)`: the strings
      are replaced first, in order, and the engine sees their output. */
  lemma MultiReplacement(e: Engine, id: nat)
    ensures var m := Set(Set(Set([], Str("test"), Str(OneDiv)), Str("anotherTest"), Str(OtherDiv)), Regex(id, "This", ""), Str("Replaced"));
      Fill(e, FreshPage, MapOf(m)) ==
      Success(FreshPage.(result := e.replace(UserRegex(id, "This", ""), Open + (OneDiv + (OtherDiv + Close)), "Replaced")))
  {
    var k1, k2, k3 := Str("test"), Str("anotherTest"), Regex(id, "This", "");
    var p3: (JsValue, JsValue) := (k3, Str("Replaced"));
    SetTwice(k1, Str(OneDiv), k2, Str(OtherDiv));
    var m2 := Set(Set([], k1, Str(OneDiv)), k2, Str(OtherDiv));
    var m := Set(m2, k3, Str("Replaced"));
    assert Keys(m2) == [k1, k2];
    assert m == m2 + [p3];
    var both := Open + (OneDiv + (OtherDiv + Close));
    TwoStringPasses(e);
    FillFresh(e, m);
    ApplyAllConcat(e, DefaultKeyPattern, m2, [p3], Page);
    RegexKeyUsedVerbatim(e, DefaultKeyPattern, k3, Str("Replaced"), both);
    assert [p3][1..] == [];
    assert ApplyAll(e, DefaultKeyPattern, [p3], both) == ApplyAll(e, DefaultKeyPattern, [], e.replace(UserRegex(id, "This", ""), both, "Replaced"));
  }

  /** The two string passes of `MultiReplacement`. */
  lemma TwoStringPasses(e: Engine)
    ensures ApplyAll(e, DefaultKeyPattern, [(Str("test"), Str(OneDiv)), (Str("anotherTest"), Str(OtherDiv))], Page) ==
      Success(Open + (OneDiv + (OtherDiv + Close)))
  {
    ValuesArePlain();
    hide *;
    TestStep(e, OneDiv, Page);
    ReplaceTestInPage(OneDiv);
    AnotherStep(e, OtherDiv, Open + (OneDiv + (AtAnother + Close)));
    OtherReplacedOnce(OneDiv, OtherDiv);
    ApplyTwo(e, DefaultKeyPattern, (Str("test"), Str(OneDiv)), (Str("anotherTest"), Str(OtherDiv)), Page,
      Open + (OneDiv + (AtAnother + Close)), Open + (OneDiv + (OtherDiv + Close)));
  }

  /** Replacing "@anotherTest" after the first pass, when the first value has no '@'. */
  lemma OtherReplacedOnce(w: string, v: string)
    requires '@' !in w
    ensures ReplaceAll(Open + (w + (AtAnother + Close)), AtAnother, v) == Open + (w + (v + Close))
  {
    assert '@' !in Open && '@' !in Close;
    hide *;
    ReplaceAllSkipsPlainPrefix(Open, w + (AtAnother + Close), AtAnother, v);
    ReplaceAllSkipsPlainPrefix(w, AtAnother + Close, AtAnother, v);
    ReplaceAllAtMatch(Close, AtAnother, v);
    ReplaceAllWithoutLead(Close, AtAnother, v);
  }

  /** A value put in by the first pair is matched by the second pair in the same `fill`. */
  lemma ChainedReplacement(e: Engine)
    ensures var m := Set(Set([], Str("test"), Str(OneDiv + AtAnother)), Str("anotherTest"), Str(OtherDiv));
      Fill(e, FreshPage, MapOf(m)) == Success(FreshPage.(result := Open + (OneDiv + (OtherDiv + (OtherDiv + Close)))))
  {
    ValuesArePlain();
    hide *;
    TestStep(e, OneDiv + AtAnother, Page);
    ReplaceTestInPage(OneDiv + AtAnother);
    AnotherStep(e, OtherDiv, Open + ((OneDiv + AtAnother) + (AtAnother + Close)));
    BothAnotherReplaced(OtherDiv);
    FillFreshTwo(e, Str("test"), Str(OneDiv + AtAnother), Str("anotherTest"), Str(OtherDiv),
      Open + ((OneDiv + AtAnother) + (AtAnother + Close)), Open + (OneDiv + (OtherDiv + (OtherDiv + Close))));
  }

  /** Both copies of "@anotherTest" are replaced. */
  lemma BothAnotherReplaced(v: string)
    ensures ReplaceAll(Open + ((OneDiv + AtAnother) + (AtAnother + Close)), AtAnother, v) ==
      Open + (OneDiv + (v + (v + Close)))
  {
    DivIsPlain(OneDiv);
    assert '@' !in Open && '@' !in Close;
    Regroup(OneDiv, AtAnother, AtAnother + Close);
    hide *;
    ReplaceAllSkipsPlainPrefix(Open, OneDiv + (AtAnother + (AtAnother + Close)), AtAnother, v);
    ReplaceAllSkipsPlainPrefix(OneDiv, AtAnother + (AtAnother + Close), AtAnother, v);
    ReplaceAllAtMatch(AtAnother + Close, AtAnother, v);
    ReplaceAllAtMatch(Close, AtAnother, v);
    ReplaceAllWithoutLead(Close, AtAnother, v);
  }

  /** Concatenation is associative. */
  lemma Regroup(a: string, b: string, c: string)
    ensures (a + b) + c == a + (b + c)
  {
  }

  const Custom := "%%@key##!"
  const Spliced := "%%@" + "thisismykey" + "##!"

  /** The text of `test2.template.html`, as its test implies. */
  const Page2 := Open + (Spliced + Close)

  /** The custom pattern's "key" sits at position 3. */
  lemma CustomExpand()
    ensures Expand(Custom, "thisismykey") == Spliced
  {
    NoMatchAt(Custom, KeyWord, 0, 0);
    NoMatchAt(Custom, KeyWord, 1, 0);
    NoMatchAt(Custom, KeyWord, 2, 0);
    assert OccursAt(Custom, KeyWord, 3);
    assert IndexOf(Custom, KeyWord) == Some(3);
    assert Custom[..3] == "%%@" && Custom[6..] == "##!";
  }

  /** The custom pattern and the key name contain no special character. */
  lemma CustomIsPlain()
    ensures Plain(Custom) && Plain("thisismykey")
  {
    forall i | 0 <= i < |Custom|
      ensures Custom[i] !in Special
    {
      assert Custom[i] in Custom;
    }
    forall i | 0 <= i < |"thisismykey"|
      ensures "thisismykey"[i] !in Special
    {
      assert "thisismykey"[i] in "thisismykey";
    }
  }

  /** Under the custom pattern, key "thisismykey" replaces the spliced text literally. */
  lemma CustomStep(e: Engine, text: string)
    ensures Step(e, Custom, (Str("thisismykey"), Str("replaced")), text) == Success(ReplaceAll(text, Spliced, "replaced"))
  {
    CustomExpand();
    CustomIsPlain();
    assert '$' !in "replaced";
  }

  /** The spliced text occurs once in the second page. */
  lemma SplicedInPage2()
    ensures ReplaceAll(Page2, Spliced, "replaced") == Open + ("replaced" + Close)
  {
    assert Spliced[0] == '%';
    assert '%' !in Open && '%' !in Close;
    hide ReplaceAll;
    ReplaceAllSkipsPlainPrefix(Open, Spliced + Close, Spliced, "replaced");
    ReplaceAllAtMatch(Close, Spliced, "replaced");
    ReplaceAllWithoutLead(Close, Spliced, "replaced");
  }

  /** `setKeyPattern('%%@key##!')`, `addPair('thisismykey', 'replaced')`, then
      `fill(new Map())` on the second page. */
  lemma CustomPatternReplacement(e: Engine)
    ensures var t0 := Template(Page2, Page2, [], DefaultKeyPattern);
      && var t1 := SetKeyPattern(t0, Custom);
      && t1 == Success(t0.(keyPattern := Custom))
      && var t2 := AddPair(t1.value, Scalar(Str("thisismykey")), Str("replaced"));
      && t2 == Success(t1.value.(pairs := [(Str("thisismykey"), Str("replaced"))]))
      && Fill(e, t2.value, MapOf([])) == Success(t1.value.(result := Open + ("replaced" + Close)))
  {
    var t0 := Template(Page2, Page2, [], DefaultKeyPattern);
    CustomPatternAccepted(t0);
    CustomPairAdded();
    CustomFill(e);
  }

  /** `addPair('thisismykey', 'replaced')` under the custom pattern. */
  lemma CustomPairAdded()
    ensures AddPair(Template(Page2, Page2, [], Custom), Scalar(Str("thisismykey")), Str("replaced")) ==
      Success(Template(Page2, Page2, [(Str("thisismykey"), Str("replaced"))], Custom))
  {
  }

  /** `fill(new Map())` with the one pending pair under the custom pattern. */
  lemma CustomFill(e: Engine)
    ensures Fill(e, Template(Page2, Page2, [(Str("thisismykey"), Str("replaced"))], Custom), MapOf([])) ==
      Success(Template(Page2, Open + ("replaced" + Close), [], Custom))
  {
    var pairs: Pairs := [(Str("thisismykey"), Str("replaced"))];
    assert Merge(pairs, []) == pairs;
    assert pairs[1..] == [];
    CustomStep(e, Page2);
    SplicedInPage2();
    assert ApplyAll(e, Custom, pairs, Page2) == ApplyAll(e, Custom, [], Open + ("replaced" + Close));
  }

  /** `fill()` clears the pending pairs and `reset()` brings back the page. */
  lemma CleanupScenario(e: Engine)
    ensures var t1 := AddPair(FreshPage, Scalar(Str("test")), Str(OneDiv));
      && t1.Success?
      && var t2 := AddPair(t1.value, Scalar(Str("anotherTest")), Str(OtherDiv));
      && t2.Success? && |t2.value.pairs| == 2
      && var t3 := Fill(e, t2.value, Falsy);
      && t3.Success? && |t3.value.pairs| == 0
      && Reset(t3.value).result == Page
  {
    var t1 := AddPair(FreshPage, Scalar(Str("test")), Str(OneDiv));
    assert |Keys(t1.value.pairs)| == 1;
    var t2 := AddPair(t1.value, Scalar(Str("anotherTest")), Str(OtherDiv));
    PlainTest();
    DefaultIsPlain();
    assert SafeKey(DefaultKeyPattern, t2.value.pairs[0].0) && SafeKey(DefaultKeyPattern, t2.value.pairs[1].0);
  }

  /** Not one of the unit tests: a key that is not a valid regular expression once spliced,
      such as "(" under `@key`, makes `fill` throw a `SyntaxError`. The passes before it have
      already been stored in the result, and every staged pair is still pending. */
  lemma RefusedKeyStopsFill(e: Engine, message: string)
    requires e.syntaxError(DefaultKeyPattern, "(") == Some(message)
    ensures var pending: Pairs := [(Str("test"), Str("replaced"))];
      var refused: Pairs := [(Str("("), Str("x"))];
      Fill(e, FreshPage.(pairs := pending), MapOf(refused)) ==
      Failure(Thrown(RegexSyntax(message), FreshPage.(result := Open + ("replaced" + (AtAnother + Close)), pairs := pending + refused)))
  {
    var pending: Pairs := [(Str("test"), Str("replaced"))];
    var refused: Pairs := [(Str("("), Str("x"))];
    var once := Open + ("replaced" + (AtAnother + Close));
    assert Keys(refused) == [Str("(")] && Keys(pending) == [Str("test")];
    MergeDisjoint(pending, refused);
    assert Staged(pending, MapOf(refused)) == pending + refused;
    assert '$' !in "replaced";
    hide *;
    OneTestPass(e, "replaced");
    RefusedRun(e, message, once);
    ApplyAllConcat(e, DefaultKeyPattern, pending, refused, Page);
  }

  /** The pass for key "(" throws the engine's message, whatever the text. */
  lemma RefusedRun(e: Engine, message: string, text: string)
    requires e.syntaxError(DefaultKeyPattern, "(") == Some(message)
    ensures ApplyAll(e, DefaultKeyPattern, [(Str("("), Str("x"))], text) == Failure(Halt(message, text))
  {
    assert !Plain("(") by {
      assert "("[0] == Special[8];
    }
    assert Step(e, DefaultKeyPattern, (Str("("), Str("x")), text) == Failure(message);
  }
}
