# cabinetry template-builder router, modelled in Dafny

cabinetry builds the histograms for a binned statistical fit through user-supplied
*template builders*. The `Router` of `cabinetry.route` is how those builders are found:

- The router keeps an ordered list of processor specifications, `template_builders`.
  Each specification holds region, sample, systematic and template patterns, a name
  and a callback.
- It also keeps an optional `template_builder_wrapper`.
- Registration appends one specification per call. A qualifier left out (`None`)
  becomes the wildcard `"*"`.
- A lookup (`_find_match`) returns the callback of the first specification whose four
  shell-style patterns each match the whole of the requested names.
  - It returns `None` when no specification matches.
  - When several match, it logs how many matched and which one it chose.
- The wrapped lookup (`_find_template_builder_match`) requires a wrapper to be set and
  applies it to the builder found.
- `apply_to_all_templates` walks regions, then samples, then systematics. For each
  (region, sample) pair it invokes a callback on the nominal template, then on the `Up`
  and `Down` templates of every shape systematic. Each call goes to the override that
  `match_func` returns, when there is one, and otherwise to the default function.

`cabinetry/route.py` is not part of this model. The behaviour modelled here is the one
that `tests/test_route.py` asserts about it, and every citation below points into that
file.

The project has six modules:

- `Wrappers` (wrappers.dfy): `Option` and `Result`.
- `Glob` (glob.dfy): shell wildcard matching as in section 2.13 of the POSIX Shell
  Command Language. It supports `*`, `?`, bracket expressions with `!` negation and
  ranges, and whole-string matching. It states the matching laws the lookup relies on.
- `Registry` (registry.dfy): callbacks, specification records and the first-match
  lookup `FindMatch`, with its diagnostic.
- `Routing` (router.dfy): the `Router` class. Its fields are `templateBuilders` and
  `templateBuilderWrapper`, and it has the registration and wrapped-lookup methods.
- `Templates` (templates.dfy): the enumeration. Specification functions give the
  template order (`AllTemplates`) and the call trace (`Trace`). Loop methods
  (`ApplyToSample`, `ApplyToRegion`, `ApplyToAllTemplates`) are proved to produce
  exactly that trace.
- `Scenarios` (scenarios.dfy): each scenario of the test file, stated as a lemma or as
  a method contract over the model.

## Model

| member | source | states |
|---|---|---|
| Routing.Router.constructor | tests/test_route.py:32-35 | a new router has an empty `templateBuilders` list and no wrapper |
| Routing.Router.RegisterProcessor | tests/test_route.py:38-77 | the list becomes the old list plus exactly one record built by `NewSpec`; earlier records are unchanged; the callback is handed back unchanged |
| Routing.Router.RegisterTemplateBuilder | tests/test_route.py:80-97 | same effect as `RegisterProcessor`: one record appended to `templateBuilders` |
| Registry.NewSpec | tests/test_route.py:50-59 | each given qualifier is stored as given, and each qualifier given as `None` is stored as `"*"`; the record's name is the callback's name and its callback is the callback itself |
| Registry.UnqualifiedMatchesAll | tests/test_route.py:61-77 | a record registered with every qualifier `None` matches every region, sample, systematic and template |
| Registry.Matching | tests/test_route.py:124-135 | the records kept by the lookup come from the registry, and each of them matches on all four patterns |
| Registry.MatchingEmpty | tests/test_route.py:137-143 | no record is kept exactly when no record matches on all four patterns |
| Registry.MatchingFirst | tests/test_route.py:129-135 | when record `i` is the first matching record, it is the first record kept |
| Registry.MatchingAll | tests/test_route.py:145-150 | when every record matches, every record is kept, in order |
| Registry.MatchingAppend | tests/test_route.py:124-127 | the records kept from `a + b` are those kept from `a` followed by those kept from `b` |
| Registry.MatchingTwo | tests/test_route.py:145-161 | at least two records are kept exactly when two distinct positions both match |
| Registry.FirstMatch | tests/test_route.py:129-135 | when some record matches, there is a first matching position |
| Registry.FindMatch | tests/test_route.py:151-161 | the lookup emits at most one log line, and none when nothing is found |
| Registry.FindMatchNone | tests/test_route.py:137-143 | the lookup returns `None` exactly when no record matches on all four patterns |
| Registry.FindMatchFirst | tests/test_route.py:129-135 | the lookup returns the callback of the first matching record in registry order |
| Registry.MatchingCount | tests/test_route.py:145-161 | the lookup keeps exactly as many records as there are matching positions in the registry |
| Registry.FindMatchWarning | tests/test_route.py:145-161 | a log line is emitted exactly when two distinct records match; the line is then the warning naming the number of matching positions and the name of the first matching record |
| Registry.FindMatchAppend | tests/test_route.py:124-135 | registering more records never changes a lookup that already found a callback, so the first registered record wins |
| Registry.NatToString | tests/test_route.py:158-161 | the count in the warning is a nonempty string of decimal digits with no leading zero: it starts with `0` only for the count 0 |
| Registry.NatToStringRoundTrip | tests/test_route.py:158-161 | reading those digits back as a decimal number gives the count |
| Glob.CloseIndex | tests/test_route.py:108-123 | finds the first `]` at or after a position, and reports that there is none when there is none |
| Glob.Items | tests/test_route.py:108-123 | a nonempty bracket body yields at least one member and never more members than characters; the members themselves are stated by `ItemsWithoutDash` and `RangeItem` |
| Glob.InItems | tests/test_route.py:108-123 | a character is in a bracket expression exactly when one of its members accepts the character |
| Glob.Lits | tests/test_route.py:116-123 | a plain string compiles to one literal token per character |
| Glob.CompilePlain | tests/test_route.py:116-123 | a pattern with no wildcard characters compiles to its literal tokens |
| Glob.CompilePlainStar | tests/test_route.py:108-111 | a plain prefix followed by `*` compiles to its literals and then one `*` token |
| Glob.AnyRunMatchesAll | tests/test_route.py:111 | the `*` token by itself matches every string |
| Glob.LitsMatchExactly | tests/test_route.py:116-123 | literal tokens match exactly the string they spell |
| Glob.MatchConcatIntro | tests/test_route.py:108-111 | tokens `a + b` match a string that splits into a part matching `a` followed by a part matching `b` |
| Glob.MatchConcatElim | tests/test_route.py:108-111 | conversely, a match of `a + b` yields such a split point |
| Glob.MatchConcat | tests/test_route.py:108-111 | tokens `a + b` match a string exactly when the string splits into an `a` match followed by a `b` match |
| Glob.FixedLength | tests/test_route.py:109 | a pattern without `*` matches only strings whose length is its number of tokens |
| Glob.StarMatchesAll | tests/test_route.py:111-120 | the pattern `*` matches every string |
| Glob.PlainMatchesOnlyItself | tests/test_route.py:112-117 | a pattern without wildcards matches exactly one string, itself, because matching covers the whole string |
| Glob.PlainStarMatchesPrefix | tests/test_route.py:110 | `p*` with a plain prefix `p` matches exactly the strings that start with `p` |
| Glob.QuestionMatchesOneChar | tests/test_route.py:109 | `?` matches exactly the strings of length one |
| Glob.ItemsWithoutDash | tests/test_route.py:108-123 | a bracket body without `-` has exactly its own characters as members |
| Glob.RangeItem | tests/test_route.py:108-123 | the body `lo-hi` accepts exactly the characters from `lo` to `hi` |
| Glob.CompileClosed | tests/test_route.py:108-123 | a pattern `[...]` that closes at its last character, with no earlier `]`, compiles to one class token, negated exactly when the body starts with `!` |
| Glob.BracketToken | tests/test_route.py:108-123 | a class token matches exactly the one-character strings whose character is a member, or is not one when the class is negated |
| Glob.BracketMatches | tests/test_route.py:108-123 | `[b]`, for a body with no `]` that does not start with `!`, matches exactly the one-character strings whose character is a member of `b` |
| Glob.NegatedBracketMatches | tests/test_route.py:108-123 | `[!b]`, for a body with no `]`, matches exactly the one-character strings whose character is not a member of `b` |
| Glob.RangeBracketMatches | tests/test_route.py:108-123 | `[lo-hi]` matches exactly the one-character strings from `lo` to `hi` |
| Routing.Router.FindTemplateBuilderMatch | tests/test_route.py:165-200 | with no wrapper set: an error with message "no template builder wrapper defined", nothing logged; with a wrapper set, one lookup over `templateBuilders` with the four names; `None`, unwrapped, when that lookup finds nothing; otherwise the wrapper applied to the first matching record's callback, under that callback's name |
| Templates.ShapeTemplates | tests/test_route.py:218-221 | a systematic list yields two templates per shape systematic |
| Templates.SampleTemplates | tests/test_route.py:225-250 | one (region, sample) pair yields one block of `1 + 2 * (number of shape systematics)` templates |
| Templates.SampleBlocks | tests/test_route.py:216-217 | one block per sample |
| Templates.RegionBlocks | tests/test_route.py:216-217 | one region block per region |
| Templates.ConcatAppend | tests/test_route.py:225-250 | laying out `a + b` block by block is laying out `a`, then `b` |
| Templates.ConcatSplit | tests/test_route.py:225-250 | block `i` sits between the blocks before it and the blocks after it |
| Templates.ConcatUniform | tests/test_route.py:228 | blocks of equal size `n` lay out to `n` times their number |
| Templates.ConcatMembers | tests/test_route.py:225-250 | an element is in the layout exactly when some block holds it |
| Templates.RegionTemplatesCount | tests/test_route.py:228 | a region yields block size times number of samples templates |
| Templates.TemplatesCount | tests/test_route.py:228-254 | the enumeration yields regions × samples × (1 + 2 × shape systematics) templates |
| Templates.ShapeTemplatesMembers | tests/test_route.py:233-250 | a variation template belongs to a pair exactly when it names that pair, a listed shape systematic, and `Up` or `Down` |
| Templates.TemplatesMembers | tests/test_route.py:225-250 | a template is enumerated exactly when it is expected: nominal for each configured pair, or `Up`/`Down` of a listed shape systematic |
| Templates.TemplatesSound | tests/test_route.py:225-250 | every enumerated template is expected |
| Templates.TemplatesComplete | tests/test_route.py:225-250 | every expected template is enumerated |
| Templates.NormalizationSkipped | tests/test_route.py:219-250 | no enumerated template belongs to a Normalization systematic |
| Templates.ShapeTemplatesOrder | tests/test_route.py:233-250 | the `k`-th systematic, when it is a shape systematic, has its `Up` then `Down` right after the variations of the systematics before it |
| Templates.SampleTemplatesOrder | tests/test_route.py:229-250 | a pair's block starts with its nominal template, followed by `Up` and `Down` for each shape systematic in configuration order |
| Templates.RegionSplit | tests/test_route.py:225-250 | the templates of region `i` follow those of every earlier region |
| Templates.RegionBlocksSlices | tests/test_route.py:216 | slicing the region blocks is taking the blocks of the sliced region list |
| Templates.SampleBlocksSlices | tests/test_route.py:217 | slicing the sample blocks is taking the blocks of the sliced sample list |
| Templates.SampleSplit | tests/test_route.py:225-250 | within a region, the templates of sample `j` follow those of every earlier sample |
| Templates.BlockAt | tests/test_route.py:225-250 | the block of pair `(i, j)` is a contiguous slice of the enumeration |
| Templates.BlockStart | tests/test_route.py:228-250 | that block starts at `(i * samples + j) * block size` |
| Templates.EnumerationOrder | tests/test_route.py:225-272 | regions are outermost and samples inside them: the block of pair `(i, j)` is exactly the slice starting at `(i * samples + j) * block size` |
| Templates.Trace | tests/test_route.py:225-272 | the call trace has one call per template |
| Templates.TraceAppend | tests/test_route.py:225-272 | the trace of `ts + more` is the trace of `ts` followed by the trace of `more` |
| Templates.TraceDispatch | tests/test_route.py:225-272 | call `k` receives template `k`, and goes to the override when `match_func` exists and returns one, else to the default |
| Templates.ShapeStep | tests/test_route.py:233-250 | one more systematic adds its two calls when it is a shape systematic, and none otherwise |
| Templates.ApplyToSample | tests/test_route.py:229-250 | the calls for one pair are exactly the trace of that pair's block: nominal first, then the variations |
| Templates.ApplyToRegion | tests/test_route.py:225-250 | the calls for one region are exactly the trace of that region's templates |
| Templates.ApplyToAllTemplates | tests/test_route.py:203-272 | one call per enumerated template, in enumeration order, with that template as arguments; regions × samples × block size calls; each call goes to the override when `match_func` is given and returns a callback, else to the default |
| Scenarios.QuestionCase | tests/test_route.py:109-132 | `r?g` matches `reg` |
| Scenarios.PrefixCases | tests/test_route.py:110-140 | `sig*` matches `signal` and does not match `background` |
| Scenarios.LiteralCases | tests/test_route.py:112-132 | `Up` matches `Up`, and `abc` does not match `reg` |
| Scenarios.SpecCases | tests/test_route.py:108-143 | the example record matches (`reg`, `signal`, `sys`, `Up`), the other record does not, and neither matches sample `background` |
| Scenarios.FindMatchSingle | tests/test_route.py:124-135 | with exactly one matching record, the lookup returns the example builder and logs nothing |
| Scenarios.FindMatchNoneCase | tests/test_route.py:137-143 | for sample `background` the lookup returns `None` |
| Scenarios.FindMatchAmbiguous | tests/test_route.py:145-161 | with the example record registered twice, the lookup returns the example builder and logs the warning for 2 matches naming `example_template_builder` |
| Scenarios.CountTwo | tests/test_route.py:159 | the count 2 is written `2` |
| Scenarios.RouterScenario | tests/test_route.py:32-35 | a new router's list is empty and its wrapper is unset |
| Scenarios.RegisterProcessorScenario | tests/test_route.py:38-77 | the first registration stores the given record; the second, with every qualifier `None`, appends the record of four `"*"` patterns |
| Scenarios.RegisterTemplateBuilderScenario | tests/test_route.py:80-97 | `register_template_builder` stores the given record |
| Scenarios.FindTemplateBuilderMatchScenario | tests/test_route.py:165-200 | the wrapped lookup returns the error with no wrapper, `None` with a wrapper and no match, and otherwise the wrapped example builder under its own name |
| Scenarios.ExampleTemplates | tests/test_route.py:215-250 | the test configuration yields exactly nominal, then `var` Up, then `var` Down |
| Scenarios.SingleBlock | tests/test_route.py:216-217 | a single block lays out to itself |
| Scenarios.ApplyToAllTemplatesScenario | tests/test_route.py:203-272 | without `match_func`, the default receives those three templates in that order; with a `match_func` that always answers, the override receives them instead |

## Left out

- `cabinetry/route.py` is not part of this model. The router's behaviour is taken from
  the assertions of `tests/test_route.py`, which is the file cited throughout.
- Plotting (`visualize/plot_model.py`, `contrib/matplotlib_visualize.py`) is not
  modelled. It is figure drawing over floating-point arrays plus file output.
- Callbacks and the wrapper are opaque values.
  - A builder is a name plus an identity, and a wrapped callback records its wrapper
    and inner callback.
  - Histogram filling and the wrapper's `.view().value` are not modelled.
  - `functools.wraps` is modelled only as the wrapped callback keeping the inner
    callback's name.
- `mock.patch` is not modelled. `FindTemplateBuilderMatch` calls the lookup directly.
  Its contract says the lookup runs over `templateBuilders` with the four names given,
  which is what the mock checks in the test.
- Logging is not modelled as output. The ambiguity diagnostic is returned as log lines.
  `AmbiguityWarning` gives the message text, with the count written by `NatToString`.
- `ValueError` is modelled as the `Err` result carrying its message. Nothing is raised.
- Routing.Router.RegisterProcessor: `_register_processor` takes the list to append to as
  an argument. The model always appends to the router's own `templateBuilders`, which is
  the only list the tests pass.
- Registration returns the callback unchanged. The decorator form
  `register(...)(func)` is modelled as a single method call.
- Templates.ApplyToAllTemplates: requires `Covered(config)`. That means:
  - every systematic is of type Normalization or NormPlusShape;
  - every shape systematic's `Samples` restriction, if present, names every configured
    sample.

  The tests pin neither what happens to a sample that a restriction excludes nor other
  systematic types, so the model does not guess at them.
- A systematic without a `Type` is represented (its `modifier` is `None`, as for the
  nominal systematic), but `Covered` excludes it from `ApplyToAllTemplates`. Types other
  than Normalization and NormPlusShape are not representable.
- Glob.Items: what a bracket body's members are is proved for bodies without `-`
  (`ItemsWithoutDash`) and for a single range (`RangeItem`). Bodies that mix ranges with
  other members, and a `-` at the start or end of a body, rest on the definition alone.
- Data samples and any other per-sample or per-region filtering are not modelled.
  `tests/test_route.py` does not exercise them.
- Malformed bracket patterns are not pinned by the tests. An unclosed `[` matches itself
  (section 2.13.1 of the POSIX Shell Command Language). Named classes such as
  `[:alpha:]`, collating symbols and backslash quoting are not modelled.
- Matching is case-sensitive, and the pattern and the name are compared character by
  character. The platform-dependent case folding of `fnmatch` is not modelled.
- The enumeration is written as three methods: per sample, per region, and over all
  regions. Each is one level of the Regions → Samples → Systematics walk.
- Call order comes from the pure `Trace` function. The callbacks' side effects, such as
  the override appending to a list, are represented only by that ordered trace.
- A Normalization systematic yields no templates, and a NormPlusShape systematic whose
  `Samples` names the present sample yields `Up` and `Down` (tests/test_route.py:219-250).
