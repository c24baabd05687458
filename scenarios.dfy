/** The scenarios of the router's test suite, stated against the model. */
module Scenarios {
  import opened Wrappers
  import opened Glob
  import opened Registry
  import opened Routing
  import opened Templates

  const ExampleBuilder := Builder("example_template_builder", 0)
  const OtherProcessor := Builder("other_processor", 1)

  const ExampleSpec := Spec("r?g", "sig*", "*", "Up", "example_template_builder", ExampleBuilder)
  const OtherSpec := Spec("abc", "*", "*", "*", "other_processor", OtherProcessor)

  /** `r?g` matches `reg`. */
  lemma QuestionCase()
    ensures Matches("r?g", "reg")
  {
    assert "r?g"[1..] == "?g" && "?g"[1..] == "g" && "g"[1..] == [];
    assert Compile("r?g") == [Lit('r'), AnyOne, Lit('g')];
    assert "reg"[1..] == "eg" && "eg"[1..] == "g";
  }

  /** `sig*` matches `signal` and not `background`. */
  lemma PrefixCases()
    ensures Matches("sig*", "signal") && !Matches("sig*", "background")
  {
    assert Plain("sig");
    assert "sig" + "*" == "sig*";
    PlainStarMatchesPrefix("sig", "signal");
    PlainStarMatchesPrefix("sig", "background");
    assert "signal"[..3] == "sig";
    assert "background"[0] != "sig"[0];
  }

  /** Literal patterns: `Up` matches `Up`, `abc` does not match `reg`. */
  lemma LiteralCases()
    ensures Matches("Up", "Up") && !Matches("abc", "reg")
  {
    assert Plain("Up") && Plain("abc");
    PlainMatchesOnlyItself("Up", "Up");
    PlainMatchesOnlyItself("abc", "reg");
  }

  /** The example record matches the looked-up combination; the other record does not. */
  lemma SpecCases()
    ensures SpecMatches(ExampleSpec, "reg", "signal", "sys", "Up")
    ensures !SpecMatches(OtherSpec, "reg", "signal", "sys", "Up")
    ensures !SpecMatches(ExampleSpec, "reg", "background", "sys", "Up")
    ensures !SpecMatches(OtherSpec, "reg", "background", "sys", "Up")
  {
    QuestionCase();
    PrefixCases();
    LiteralCases();
    StarMatchesAll("sys");
  }

  /** One matching record among two: its builder is returned, with no warning. */
  lemma FindMatchSingle()
    ensures var r := FindMatch([OtherSpec, ExampleSpec], "reg", "signal", "sys", "Up");
            r.func == Some(ExampleBuilder) && r.log == []
  {
    var registry := [OtherSpec, ExampleSpec];
    SpecCases();
    FindMatchFirst(registry, 1, "reg", "signal", "sys", "Up");
    FindMatchWarning(registry, 1, "reg", "signal", "sys", "Up");
  }

  /** No record matches sample `background`: the lookup returns `None`. */
  lemma FindMatchNoneCase()
    ensures FindMatch([OtherSpec, ExampleSpec], "reg", "background", "sys", "Up").func == None
  {
    SpecCases();
    FindMatchNone([OtherSpec, ExampleSpec], "reg", "background", "sys", "Up");
  }

  /** Two matching records: the first one's builder, and the warning naming the count and it. */
  lemma FindMatchAmbiguous()
    ensures var r := FindMatch([ExampleSpec, ExampleSpec], "reg", "signal", "sys", "Up");
            r.func == Some(ExampleBuilder) && r.log == [AmbiguityWarning(2, "example_template_builder")]
  {
    var registry := [ExampleSpec, ExampleSpec];
    SpecCases();
    MatchingAll(registry, "reg", "signal", "sys", "Up");
  }

  /** The count in that warning is written in decimal. */
  lemma CountTwo()
    ensures NatToString(2) == "2"
  {
    assert NatToString(2) == [Digit(2)];
  }

  /** A fresh router is empty and has no wrapper. */
  method RouterScenario() returns (builders: seq<Spec>, wrapper: Option<Wrapper>)
    ensures builders == [] && wrapper == None
  {
    var router := new Router();
    builders, wrapper := router.templateBuilders, router.templateBuilderWrapper;
  }

  /** Registration with qualifiers, then without any. */
  method RegisterProcessorScenario() returns (first: seq<Spec>, second: seq<Spec>, f: Callback)
    ensures f == ExampleBuilder
    ensures first == [Spec("reg", "signal", "sys", "Up", "example_template_builder", ExampleBuilder)]
    ensures second == first + [Spec("*", "*", "*", "*", "example_template_builder", ExampleBuilder)]
  {
    var router := new Router();
    f := router.RegisterProcessor(Some("reg"), Some("signal"), Some("sys"), Some("Up"), ExampleBuilder);
    first := router.templateBuilders;
    f := router.RegisterProcessor(None, None, None, None, ExampleBuilder);
    second := router.templateBuilders;
  }

  /** `register_template_builder` stores the same record. */
  method RegisterTemplateBuilderScenario() returns (builders: seq<Spec>)
    ensures builders == [Spec("reg", "signal", "sys", "Up", "example_template_builder", ExampleBuilder)]
  {
    var router := new Router();
    var f := router.RegisterTemplateBuilder(Some("reg"), Some("signal"), Some("sys"), Some("Up"), ExampleBuilder);
    builders := router.templateBuilders;
  }

  /** The wrapped lookup: an error without wrapper, `None` without a match,
      and the wrapped builder, under the builder's name, with a match. */
  method FindTemplateBuilderMatchScenario() returns (noWrapper: Result<Option<Callback>>,
                                                     noMatch: Result<Option<Callback>>,
                                                     found: Result<Option<Callback>>)
    ensures noWrapper == Err(NoWrapperMessage)
    ensures noMatch == Ok(None)
    ensures found == Ok(Some(Wrap(Wrapper(7), ExampleBuilder)))
    ensures Name(found.value.value) == "example_template_builder"
  {
    var router := new Router();
    var log;
    noWrapper, log := router.FindTemplateBuilderMatch("", "", "", "");
    var wrapper := Wrapper(7);
    router.templateBuilderWrapper := Some(wrapper);
    noMatch, log := router.FindTemplateBuilderMatch("", "", "", "");
    assert FindMatch([], "", "", "", "") == Lookup(None, []);
    router.templateBuilders := [Spec("reg", "*", "*", "*", "example_template_builder", ExampleBuilder)];
    PlainMatchesOnlyItself("reg", "reg");
    StarMatchesAll("");
    FindMatchFirst(router.templateBuilders, 0, "reg", "", "", "");
    found, log := router.FindTemplateBuilderMatch("reg", "", "", "");
  }

  const TestRegion := Region("test_region")
  const TestSample := Sample("sample")
  const Norm := Systematic("norm", Some(Normalization), None)
  const Var := Systematic("var", Some(NormPlusShape), Some(OneSample("sample")))
  const ExampleConfig := Config([TestRegion], [TestSample], [Norm, Var])
  const DefaultFunc := Builder("default_func", 2)
  const Override := Builder("f", 3)

  /** The test configuration yields three templates: nominal, then `var` Up
      and Down; the Normalization systematic `norm` yields none. */
  lemma ExampleTemplates()
    ensures AllTemplates(ExampleConfig.regions, ExampleConfig.samples, ExampleConfig.systematics) ==
            [Template(TestRegion, TestSample, Nominal, "Nominal"),
             Template(TestRegion, TestSample, Var, "Up"),
             Template(TestRegion, TestSample, Var, "Down")]
  {
    var ys := [Norm, Var];
    assert ys[..1] == [Norm] && [Norm][..0] == [];
    assert ShapeTemplates(TestRegion, TestSample, [Norm]) == [];
    assert ShapeTemplates(TestRegion, TestSample, ys) ==
           [Template(TestRegion, TestSample, Var, "Up"), Template(TestRegion, TestSample, Var, "Down")];
    assert SampleTemplates(TestRegion, TestSample, ys) ==
           [Template(TestRegion, TestSample, Nominal, "Nominal"),
            Template(TestRegion, TestSample, Var, "Up"),
            Template(TestRegion, TestSample, Var, "Down")];
    var samples := SampleBlocks(TestRegion, [TestSample], ys);
    assert samples == [SampleTemplates(TestRegion, TestSample, ys)];
    SingleBlock(samples);
    var regions := RegionBlocks([TestRegion], [TestSample], ys);
    assert regions == [RegionTemplates(TestRegion, [TestSample], ys)];
    SingleBlock(regions);
  }

  lemma SingleBlock<T>(xs: seq<seq<T>>)
    requires |xs| == 1
    ensures Concat(xs) == xs[0]
  {
    assert xs[..0] == [];
  }

  /** The enumeration test: the default receives the three templates in
      order; an override that always answers receives them instead. */
  method ApplyToAllTemplatesScenario() returns (defaultCalls: seq<Call>, overrideCalls: seq<Call>)
    ensures defaultCalls == [Call(DefaultFunc, Template(TestRegion, TestSample, Nominal, "Nominal")),
                             Call(DefaultFunc, Template(TestRegion, TestSample, Var, "Up")),
                             Call(DefaultFunc, Template(TestRegion, TestSample, Var, "Down"))]
    ensures overrideCalls == [Call(Override, Template(TestRegion, TestSample, Nominal, "Nominal")),
                              Call(Override, Template(TestRegion, TestSample, Var, "Up")),
                              Call(Override, Template(TestRegion, TestSample, Var, "Down"))]
  {
    assert Covered(ExampleConfig);
    ExampleTemplates();
    defaultCalls := ApplyToAllTemplates(ExampleConfig, DefaultFunc, None);
    assert |defaultCalls| == 3;
    var matchFunc: MatchFunc := (reg, sam, sys, tem) => Some(Override);
    overrideCalls := ApplyToAllTemplates(ExampleConfig, DefaultFunc, Some(matchFunc));
    assert |overrideCalls| == 3;
  }
}
