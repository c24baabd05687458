/** `apply_to_all_templates`: walks Regions, then Samples, and for each pair
    emits the nominal template followed by the Up and Down templates of every
    shape systematic, calling an override callback when `match_func` returns
    one and the default callback otherwise. Calls are recorded as a trace. */
module Templates {
  import opened Wrappers
  import opened Registry

  datatype Region = Region(name: string)
  datatype Sample = Sample(name: string)

  /** The systematic `Type` values of the configuration. */
  datatype Modifier = Normalization | NormPlusShape

  /** A systematic's `Samples` entry: one sample name or a list of them. */
  datatype SampleRestriction = OneSample(name: string) | SampleList(names: seq<string>)

  /** A systematic mapping: `Name`, optional `Type`, optional `Samples`. */
  datatype Systematic = Systematic(name: string, modifier: Option<Modifier>, samples: Option<SampleRestriction>)

  /** The mapping `{"Name": "Nominal"}` handed to callbacks for the nominal template. */
  const Nominal := Systematic("Nominal", None, None)

  datatype Config = Config(regions: seq<Region>, samples: seq<Sample>, systematics: seq<Systematic>)

  /** The four arguments a template callback receives. */
  datatype Template = Template(region: Region, sample: Sample, systematic: Systematic, direction: string)

  /** One callback invocation: which callback, with which arguments. */
  datatype Call = Call(callee: Callback, args: Template)

  /** `match_func(region_name, sample_name, systematic_name, template)`. */
  type MatchFunc = (string, string, string, string) -> Option<Callback>

  predicate Names(r: SampleRestriction, name: string) {
    match r
    case OneSample(n) => n == name
    case SampleList(ns) => name in ns
  }

  /** A systematic whose variations need their own templates. */
  predicate IsShape(y: Systematic) {
    y.modifier == Some(NormPlusShape)
  }

  /** The configurations this model describes: every systematic has a `Type`,
      and a shape systematic's `Samples` entry, if present, names every sample. */
  predicate Covered(c: Config) {
    forall k :: 0 <= k < |c.systematics| ==>
      c.systematics[k].modifier.Some? &&
      (IsShape(c.systematics[k]) && c.systematics[k].samples.Some? ==>
         forall j :: 0 <= j < |c.samples| ==> Names(c.systematics[k].samples.value, c.samples[j].name))
  }

  /** Number of shape systematics. */
  function ShapeCount(ys: seq<Systematic>): nat {
    if ys == [] then 0 else ShapeCount(ys[..|ys| - 1]) + (if IsShape(ys[|ys| - 1]) then 1 else 0)
  }

  /** Templates per (region, sample) pair. */
  function BlockSize(ys: seq<Systematic>): nat {
    1 + 2 * ShapeCount(ys)
  }

  // ---------------------------------------------------------------------------
  // Blocks of templates laid end to end

  function Concat<T>(xs: seq<seq<T>>): seq<T> {
    if xs == [] then [] else Concat(xs[..|xs| - 1]) + xs[|xs| - 1]
  }

  lemma {:induction false} ConcatAppend<T>(a: seq<seq<T>>, b: seq<seq<T>>)
    ensures Concat(a + b) == Concat(a) + Concat(b)
  {
    if b == [] {
      assert a + b == a;
    } else {
      var c, init, last := a + b, b[..|b| - 1], b[|b| - 1];
      assert c[..|c| - 1] == a + init && c[|c| - 1] == last;
      assert Concat(c) == Concat(a + init) + last;
      ConcatAppend(a, init);
      assert Concat(b) == Concat(init) + last;
    }
  }

  /** Block `i` sits between the blocks before it and the blocks after it. */
  lemma ConcatSplit<T>(xs: seq<seq<T>>, i: nat)
    requires i < |xs|
    ensures Concat(xs) == Concat(xs[..i]) + xs[i] + Concat(xs[i + 1..])
  {
    var pre := xs[..i + 1];
    assert xs == pre + xs[i + 1..];
    ConcatAppend(pre, xs[i + 1..]);
    assert pre[..|pre| - 1] == xs[..i];
    assert pre[|pre| - 1] == xs[i];
  }

  lemma {:induction false} ConcatUniform<T>(xs: seq<seq<T>>, n: nat)
    requires forall k :: 0 <= k < |xs| ==> |xs[k]| == n
    ensures |Concat(xs)| == |xs| * n
  {
    if xs != [] {
      ConcatUniform(xs[..|xs| - 1], n);
      assert |xs| * n == (|xs| - 1) * n + n;
    }
  }

  lemma {:induction false} ConcatMembers<T>(xs: seq<seq<T>>, t: T)
    ensures t in Concat(xs) <==> exists k :: 0 <= k < |xs| && t in xs[k]
  {
    if xs != [] {
      var init := xs[..|xs| - 1];
      ConcatMembers(init, t);
      if t in Concat(init) {
        var k :| 0 <= k < |init| && t in init[k];
        assert xs[k] == init[k];
      }
      forall k | 0 <= k < |init| && t in xs[k] ensures t in Concat(init) {
        assert init[k] == xs[k];
      }
    }
  }

  // ---------------------------------------------------------------------------
  // The enumeration

  function NominalTemplate(r: Region, s: Sample): Template {
    Template(r, s, Nominal, "Nominal")
  }

  function Variations(r: Region, s: Sample, y: Systematic): seq<Template> {
    if IsShape(y) then [Template(r, s, y, "Up"), Template(r, s, y, "Down")] else []
  }

  function ShapeTemplates(r: Region, s: Sample, ys: seq<Systematic>): (ts: seq<Template>)
    ensures |ts| == 2 * ShapeCount(ys)
  {
    if ys == [] then [] else ShapeTemplates(r, s, ys[..|ys| - 1]) + Variations(r, s, ys[|ys| - 1])
  }

  /** The templates of one (region, sample) pair: nominal first, then the variations. */
  function SampleTemplates(r: Region, s: Sample, ys: seq<Systematic>): (ts: seq<Template>)
    ensures |ts| == BlockSize(ys)
  {
    [NominalTemplate(r, s)] + ShapeTemplates(r, s, ys)
  }

  function SampleBlocks(r: Region, ss: seq<Sample>, ys: seq<Systematic>): (bs: seq<seq<Template>>)
    ensures |bs| == |ss|
  {
    seq(|ss|, j requires 0 <= j < |ss| => SampleTemplates(r, ss[j], ys))
  }

  /** The templates of one region: those of each sample in turn. */
  function RegionTemplates(r: Region, ss: seq<Sample>, ys: seq<Systematic>): seq<Template> {
    Concat(SampleBlocks(r, ss, ys))
  }

  function RegionBlocks(rs: seq<Region>, ss: seq<Sample>, ys: seq<Systematic>): (bs: seq<seq<Template>>)
    ensures |bs| == |rs|
  {
    seq(|rs|, i requires 0 <= i < |rs| => RegionTemplates(rs[i], ss, ys))
  }

  /** Every template of the configuration, in enumeration order. */
  function AllTemplates(rs: seq<Region>, ss: seq<Sample>, ys: seq<Systematic>): seq<Template> {
    Concat(RegionBlocks(rs, ss, ys))
  }

  /** Which templates the enumeration must produce, order aside: for every
      configured region and sample, the nominal template, and Up and Down for
      each shape systematic. */
  predicate Expected(t: Template, rs: seq<Region>, ss: seq<Sample>, ys: seq<Systematic>) {
    t.region in rs && t.sample in ss &&
    ((t.systematic == Nominal && t.direction == "Nominal") ||
     (t.systematic in ys && IsShape(t.systematic) && (t.direction == "Up" || t.direction == "Down")))
  }

  // ---------------------------------------------------------------------------
  // Properties of the enumeration

  lemma RegionTemplatesCount(r: Region, ss: seq<Sample>, ys: seq<Systematic>)
    ensures |RegionTemplates(r, ss, ys)| == |ss| * BlockSize(ys)
  {
    ConcatUniform(SampleBlocks(r, ss, ys), BlockSize(ys));
  }

  /** The enumeration has one block per (region, sample) pair: a nominal
      template and two templates per shape systematic. */
  lemma TemplatesCount(rs: seq<Region>, ss: seq<Sample>, ys: seq<Systematic>)
    ensures |AllTemplates(rs, ss, ys)| == |rs| * (|ss| * BlockSize(ys))
  {
    forall i | 0 <= i < |rs| ensures |RegionBlocks(rs, ss, ys)[i]| == |ss| * BlockSize(ys) {
      RegionTemplatesCount(rs[i], ss, ys);
    }
    ConcatUniform(RegionBlocks(rs, ss, ys), |ss| * BlockSize(ys));
  }

  lemma {:induction false} ShapeTemplatesMembers(r: Region, s: Sample, ys: seq<Systematic>, t: Template)
    ensures t in ShapeTemplates(r, s, ys) <==>
            t.region == r && t.sample == s && t.systematic in ys && IsShape(t.systematic) &&
            (t.direction == "Up" || t.direction == "Down")
  {
    if ys != [] {
      var init, y := ys[..|ys| - 1], ys[|ys| - 1];
      ShapeTemplatesMembers(r, s, init, t);
      assert ys == init + [y];
      assert t.systematic in ys <==> t.systematic in init || t.systematic == y;
    }
  }

  /** The enumeration produces exactly the expected templates. */
  lemma TemplatesMembers(rs: seq<Region>, ss: seq<Sample>, ys: seq<Systematic>, t: Template)
    ensures t in AllTemplates(rs, ss, ys) <==> Expected(t, rs, ss, ys)
  {
    if t in AllTemplates(rs, ss, ys) {
      TemplatesSound(rs, ss, ys, t);
    }
    if Expected(t, rs, ss, ys) {
      TemplatesComplete(rs, ss, ys, t);
    }
  }

  lemma TemplatesSound(rs: seq<Region>, ss: seq<Sample>, ys: seq<Systematic>, t: Template)
    requires t in AllTemplates(rs, ss, ys)
    ensures Expected(t, rs, ss, ys)
  {
    var regions := RegionBlocks(rs, ss, ys);
    ConcatMembers(regions, t);
    var i :| 0 <= i < |rs| && t in regions[i];
    var samples := SampleBlocks(rs[i], ss, ys);
    ConcatMembers(samples, t);
    var j :| 0 <= j < |ss| && t in samples[j];
    assert t in [NominalTemplate(rs[i], ss[j])] + ShapeTemplates(rs[i], ss[j], ys);
    ShapeTemplatesMembers(rs[i], ss[j], ys, t);
  }

  lemma TemplatesComplete(rs: seq<Region>, ss: seq<Sample>, ys: seq<Systematic>, t: Template)
    requires Expected(t, rs, ss, ys)
    ensures t in AllTemplates(rs, ss, ys)
  {
    var i :| 0 <= i < |rs| && rs[i] == t.region;
    var j :| 0 <= j < |ss| && ss[j] == t.sample;
    ShapeTemplatesMembers(t.region, t.sample, ys, t);
    assert t in SampleTemplates(rs[i], ss[j], ys);
    var samples := SampleBlocks(rs[i], ss, ys);
    ConcatMembers(samples, t);
    assert t in samples[j];
    var regions := RegionBlocks(rs, ss, ys);
    ConcatMembers(regions, t);
    assert t in regions[i];
  }

  /** A Normalization systematic never yields a template of its own. */
  lemma NormalizationSkipped(rs: seq<Region>, ss: seq<Sample>, ys: seq<Systematic>, t: Template)
    requires t in AllTemplates(rs, ss, ys)
    ensures t.systematic.modifier != Some(Normalization)
  {
    TemplatesMembers(rs, ss, ys, t);
  }

  /** Within one (region, sample) pair, the Up and Down templates of the k-th
      systematic follow those of the shape systematics before it. */
  lemma {:induction false} ShapeTemplatesOrder(r: Region, s: Sample, ys: seq<Systematic>, k: nat)
    requires k < |ys| && IsShape(ys[k])
    ensures var ts, p := ShapeTemplates(r, s, ys), 2 * ShapeCount(ys[..k]);
            p + 1 < |ts| && ts[p] == Template(r, s, ys[k], "Up") && ts[p + 1] == Template(r, s, ys[k], "Down")
  {
    var init := ys[..|ys| - 1];
    if k < |ys| - 1 {
      assert init[..k] == ys[..k] && init[k] == ys[k];
      ShapeTemplatesOrder(r, s, init, k);
    } else {
      assert ys[..k] == init;
    }
  }

  lemma Distribute(i: nat, n: nat, j: nat, k: nat)
    ensures (i * n + j) * k == i * (n * k) + j * k
  {
  }

  /** The block of one (region, sample) pair: the nominal template first,
      then Up and Down for every shape systematic, in configuration order. */
  lemma SampleTemplatesOrder(r: Region, s: Sample, ys: seq<Systematic>, k: nat)
    requires k < |ys| && IsShape(ys[k])
    ensures var ts, p := SampleTemplates(r, s, ys), 1 + 2 * ShapeCount(ys[..k]);
            ts[0] == NominalTemplate(r, s) &&
            p + 1 < |ts| && ts[p] == Template(r, s, ys[k], "Up") && ts[p + 1] == Template(r, s, ys[k], "Down")
  {
    ShapeTemplatesOrder(r, s, ys, k);
  }

  /** The templates of the i-th region follow those of the regions before it. */
  lemma RegionSplit(rs: seq<Region>, ss: seq<Sample>, ys: seq<Systematic>, i: nat)
    requires i < |rs|
    ensures AllTemplates(rs, ss, ys) ==
            AllTemplates(rs[..i], ss, ys) + RegionTemplates(rs[i], ss, ys) + AllTemplates(rs[i + 1..], ss, ys)
  {
    ConcatSplit(RegionBlocks(rs, ss, ys), i);
    RegionBlocksSlices(rs, ss, ys, i);
  }

  lemma RegionBlocksSlices(rs: seq<Region>, ss: seq<Sample>, ys: seq<Systematic>, i: nat)
    requires i < |rs|
    ensures var regions := RegionBlocks(rs, ss, ys);
            regions[..i] == RegionBlocks(rs[..i], ss, ys) &&
            regions[i] == RegionTemplates(rs[i], ss, ys) &&
            regions[i + 1..] == RegionBlocks(rs[i + 1..], ss, ys)
  {
    var regions := RegionBlocks(rs, ss, ys);
    forall k | 0 <= k < i ensures regions[..i][k] == RegionBlocks(rs[..i], ss, ys)[k] {
      assert rs[..i][k] == rs[k];
    }
    var tail, later := regions[i + 1..], RegionBlocks(rs[i + 1..], ss, ys);
    forall k | 0 <= k < |tail| ensures tail[k] == later[k] {
      assert rs[i + 1..][k] == rs[i + 1 + k];
    }
  }

  lemma SampleBlocksSlices(r: Region, ss: seq<Sample>, ys: seq<Systematic>, j: nat)
    requires j < |ss|
    ensures var samples := SampleBlocks(r, ss, ys);
            samples[..j] == SampleBlocks(r, ss[..j], ys) &&
            samples[j] == SampleTemplates(r, ss[j], ys) &&
            samples[j + 1..] == SampleBlocks(r, ss[j + 1..], ys)
  {
    var samples := SampleBlocks(r, ss, ys);
    forall k | 0 <= k < j ensures samples[..j][k] == SampleBlocks(r, ss[..j], ys)[k] {
      assert ss[..j][k] == ss[k];
    }
    var tail, later := samples[j + 1..], SampleBlocks(r, ss[j + 1..], ys);
    forall k | 0 <= k < |tail| ensures tail[k] == later[k] {
      assert ss[j + 1..][k] == ss[j + 1 + k];
    }
  }

  /** Within a region, the templates of the j-th sample follow those of the samples before it. */
  lemma SampleSplit(r: Region, ss: seq<Sample>, ys: seq<Systematic>, j: nat)
    requires j < |ss|
    ensures RegionTemplates(r, ss, ys) ==
            RegionTemplates(r, ss[..j], ys) + SampleTemplates(r, ss[j], ys) + RegionTemplates(r, ss[j + 1..], ys)
  {
    ConcatSplit(SampleBlocks(r, ss, ys), j);
    SampleBlocksSlices(r, ss, ys, j);
  }

  /** The block of the j-th sample of the i-th region follows the templates
      of every earlier region and every earlier sample of that region. */
  lemma BlockAt(rs: seq<Region>, ss: seq<Sample>, ys: seq<Systematic>, i: nat, j: nat)
    requires i < |rs| && j < |ss|
    ensures var ts, size := AllTemplates(rs, ss, ys), BlockSize(ys);
            var b := |AllTemplates(rs[..i], ss, ys)| + |RegionTemplates(rs[i], ss[..j], ys)|;
            b + size <= |ts| && ts[b..b + size] == SampleTemplates(rs[i], ss[j], ys)
  {
    RegionSplit(rs, ss, ys, i);
    SampleSplit(rs[i], ss, ys, j);
    NestedSlice(AllTemplates(rs, ss, ys), AllTemplates(rs[..i], ss, ys), RegionTemplates(rs[i], ss, ys),
                AllTemplates(rs[i + 1..], ss, ys), RegionTemplates(rs[i], ss[..j], ys),
                SampleTemplates(rs[i], ss[j], ys), RegionTemplates(rs[i], ss[j + 1..], ys));
  }

  /** A piece of a piece of `ts` is a slice of `ts`. */
  lemma NestedSlice<T>(ts: seq<T>, before: seq<T>, mid: seq<T>, after: seq<T>,
                       left: seq<T>, piece: seq<T>, right: seq<T>)
    requires ts == before + mid + after && mid == left + piece + right
    ensures var b := |before| + |left|;
            b + |piece| <= |ts| && ts[b..b + |piece|] == piece
  {
    var b := |before| + |left|;
    forall k | 0 <= k < |piece| ensures ts[b..b + |piece|][k] == piece[k] {
      assert ts[b + k] == mid[|left| + k];
    }
  }

  /** Where that block starts: i whole regions and j blocks before it. */
  lemma BlockStart(rs: seq<Region>, ss: seq<Sample>, ys: seq<Systematic>, i: nat, j: nat)
    requires i < |rs| && j < |ss|
    ensures |AllTemplates(rs[..i], ss, ys)| + |RegionTemplates(rs[i], ss[..j], ys)| == (i * |ss| + j) * BlockSize(ys)
  {
    TemplatesCount(rs[..i], ss, ys);
    RegionTemplatesCount(rs[i], ss[..j], ys);
    Distribute(i, |ss|, j, BlockSize(ys));
  }

  /** Enumeration order: the templates of the j-th sample of the i-th region
      form one contiguous block starting at (i * |samples| + j) * block size. */
  lemma EnumerationOrder(rs: seq<Region>, ss: seq<Sample>, ys: seq<Systematic>, i: nat, j: nat)
    requires i < |rs| && j < |ss|
    ensures var ts, size := AllTemplates(rs, ss, ys), BlockSize(ys);
            var b := |AllTemplates(rs[..i], ss, ys)| + |RegionTemplates(rs[i], ss[..j], ys)|;
            b == (i * |ss| + j) * size &&
            b + size <= |ts| && ts[b..b + size] == SampleTemplates(rs[i], ss[j], ys)
  {
    BlockAt(rs, ss, ys, i, j);
    BlockStart(rs, ss, ys, i, j);
  }

  // ---------------------------------------------------------------------------
  // Dispatch

  /** The callback used for template `t`: the override `match_func` returns, or the default. */
  function Choose(t: Template, defaultFunc: Callback, matchFunc: Option<MatchFunc>): Callback {
    if matchFunc.None? then defaultFunc
    else
      match matchFunc.value(t.region.name, t.sample.name, t.systematic.name, t.direction)
      case Some(f) => f
      case None => defaultFunc
  }

  function Invoke(t: Template, defaultFunc: Callback, matchFunc: Option<MatchFunc>): Call {
    Call(Choose(t, defaultFunc, matchFunc), t)
  }

  /** The calls made for templates `ts`, one per template, in order. */
  function Trace(ts: seq<Template>, defaultFunc: Callback, matchFunc: Option<MatchFunc>): (calls: seq<Call>)
    ensures |calls| == |ts|
  {
    seq(|ts|, k requires 0 <= k < |ts| => Invoke(ts[k], defaultFunc, matchFunc))
  }

  lemma TraceAppend(ts: seq<Template>, more: seq<Template>, defaultFunc: Callback, matchFunc: Option<MatchFunc>)
    ensures Trace(ts + more, defaultFunc, matchFunc) == Trace(ts, defaultFunc, matchFunc) + Trace(more, defaultFunc, matchFunc)
  {
  }

  /** Each traced call carries its template, and goes to the override when
      `match_func` returns one for the template and to the default otherwise. */
  lemma TraceDispatch(ts: seq<Template>, defaultFunc: Callback, matchFunc: Option<MatchFunc>)
    ensures var calls := Trace(ts, defaultFunc, matchFunc);
            |calls| == |ts| &&
            forall k :: 0 <= k < |calls| ==>
              var t := calls[k].args;
              t == ts[k] &&
              if matchFunc.Some? && matchFunc.value(t.region.name, t.sample.name, t.systematic.name, t.direction).Some?
              then calls[k].callee == matchFunc.value(t.region.name, t.sample.name, t.systematic.name, t.direction).value
              else calls[k].callee == defaultFunc
  {
  }

  // ---------------------------------------------------------------------------
  // The enumerator

  /** The calls for one (region, sample) pair: the nominal template, then
      Up and Down for every shape systematic, in configuration order. */
  method ApplyToSample(region: Region, sample: Sample, ys: seq<Systematic>, defaultFunc: Callback,
                       matchFunc: Option<MatchFunc>) returns (calls: seq<Call>)
    ensures calls == Trace(SampleTemplates(region, sample, ys), defaultFunc, matchFunc)
  {
    var nominal := NominalTemplate(region, sample);
    calls := [Invoke(nominal, defaultFunc, matchFunc)];
    var n := 0;
    while n < |ys|
      invariant 0 <= n <= |ys|
      invariant calls == Trace([nominal] + ShapeTemplates(region, sample, ys[..n]), defaultFunc, matchFunc)
    {
      var y := ys[n];
      ShapeStep(region, sample, ys, n, defaultFunc, matchFunc);
      if IsShape(y) {
        var up, down := Template(region, sample, y, "Up"), Template(region, sample, y, "Down");
        calls := calls + [Invoke(up, defaultFunc, matchFunc), Invoke(down, defaultFunc, matchFunc)];
      }
      n := n + 1;
    }
    assert ys[..n] == ys;
  }

  /** One more systematic adds the calls for its variations. */
  lemma ShapeStep(region: Region, sample: Sample, ys: seq<Systematic>, n: nat, defaultFunc: Callback,
                  matchFunc: Option<MatchFunc>)
    requires n < |ys|
    ensures var nominal, y := NominalTemplate(region, sample), ys[n];
            Trace([nominal] + ShapeTemplates(region, sample, ys[..n + 1]), defaultFunc, matchFunc) ==
            Trace([nominal] + ShapeTemplates(region, sample, ys[..n]), defaultFunc, matchFunc) +
            (if IsShape(y)
             then [Invoke(Template(region, sample, y, "Up"), defaultFunc, matchFunc),
                   Invoke(Template(region, sample, y, "Down"), defaultFunc, matchFunc)]
             else [])
  {
    var done, y := [NominalTemplate(region, sample)] + ShapeTemplates(region, sample, ys[..n]), ys[n];
    assert ys[..n + 1][..n] == ys[..n] && ys[..n + 1][n] == y;
    assert [NominalTemplate(region, sample)] + ShapeTemplates(region, sample, ys[..n + 1]) ==
           done + Variations(region, sample, y);
    TraceAppend(done, Variations(region, sample, y), defaultFunc, matchFunc);
  }

  /** The calls for one region: those of each sample in turn. */
  method ApplyToRegion(region: Region, ss: seq<Sample>, ys: seq<Systematic>, defaultFunc: Callback,
                       matchFunc: Option<MatchFunc>) returns (calls: seq<Call>)
    ensures calls == Trace(RegionTemplates(region, ss, ys), defaultFunc, matchFunc)
  {
    ghost var samples := SampleBlocks(region, ss, ys);
    calls := [];
    var j := 0;
    while j < |ss|
      invariant 0 <= j <= |ss|
      invariant calls == Trace(Concat(samples[..j]), defaultFunc, matchFunc)
    {
      var sampleCalls := ApplyToSample(region, ss[j], ys, defaultFunc, matchFunc);
      assert samples[..j + 1][..j] == samples[..j];
      TraceAppend(Concat(samples[..j]), samples[j], defaultFunc, matchFunc);
      calls := calls + sampleCalls;
      j := j + 1;
    }
    assert samples[..j] == samples;
  }

  /** `apply_to_all_templates(config, default_func, match_func)`: every
      template of the configuration in Region, Sample, systematic order, each
      handed to the override `match_func` returns for it, or else to the default. */
  method ApplyToAllTemplates(config: Config, defaultFunc: Callback, matchFunc: Option<MatchFunc>)
    returns (calls: seq<Call>)
    requires Covered(config)
    ensures var ts := AllTemplates(config.regions, config.samples, config.systematics);
            |calls| == |ts| &&
            forall k :: 0 <= k < |calls| ==> calls[k].args == ts[k]
    ensures |calls| == |config.regions| * (|config.samples| * BlockSize(config.systematics))
    ensures forall k :: 0 <= k < |calls| ==>
              var t := calls[k].args;
              if matchFunc.Some? && matchFunc.value(t.region.name, t.sample.name, t.systematic.name, t.direction).Some?
              then calls[k].callee == matchFunc.value(t.region.name, t.sample.name, t.systematic.name, t.direction).value
              else calls[k].callee == defaultFunc
  {
    var rs, ss, ys := config.regions, config.samples, config.systematics;
    ghost var regions := RegionBlocks(rs, ss, ys);
    calls := [];
    var i := 0;
    while i < |rs|
      invariant 0 <= i <= |rs|
      invariant calls == Trace(Concat(regions[..i]), defaultFunc, matchFunc)
    {
      var regionCalls := ApplyToRegion(rs[i], ss, ys, defaultFunc, matchFunc);
      assert regions[..i + 1][..i] == regions[..i];
      TraceAppend(Concat(regions[..i]), regions[i], defaultFunc, matchFunc);
      calls := calls + regionCalls;
      i := i + 1;
    }
    assert regions[..i] == regions;
    TemplatesCount(rs, ss, ys);
    TraceDispatch(AllTemplates(rs, ss, ys), defaultFunc, matchFunc);
  }
}
