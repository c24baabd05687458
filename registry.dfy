/** Processor specifications and the first-match lookup over an ordered list of
    them (`Router._register_processor`'s record and `Router._find_match`). */
module Registry {
  import opened Wrappers
  import opened Glob

  /** A wrapper function, kept opaque: only its identity matters. */
  datatype Wrapper = Wrapper(code: nat)

  /** A callback, kept opaque. `Builder` is a function defined by the user,
      with its `__name__` and an identity; `Wrapped` is what a wrapper returns
      for an inner callback. */
  datatype Callback = Builder(name: string, code: nat) | Wrapped(wrapper: Wrapper, inner: Callback)

  /** A callback's `__name__`. A wrapper built with `functools.wraps` copies the
      name of the callback it wraps. */
  function Name(f: Callback): string {
    match f
    case Builder(name, _) => name
    case Wrapped(_, inner) => Name(inner)
  }

  /** Applying a wrapper to a callback. */
  function Wrap(w: Wrapper, f: Callback): (g: Callback)
    ensures Name(g) == Name(f)
    ensures g.Wrapped? && g.wrapper == w && g.inner == f
  {
    Wrapped(w, f)
  }

  /** One registry record: four patterns, a name for diagnostics, the callback. */
  datatype Spec = Spec(region: string, sample: string, systematic: string, template: string,
                       name: string, func: Callback)

  /** A qualifier given as `None` becomes the wildcard `"*"`. */
  function Qualifier(q: Option<string>): string {
    if q.None? then "*" else q.value
  }

  /** The record that registering `func` with the given qualifiers appends. */
  function NewSpec(region: Option<string>, sample: Option<string>, systematic: Option<string>,
                   template: Option<string>, func: Callback): (s: Spec)
    ensures region.Some? ==> s.region == region.value
    ensures sample.Some? ==> s.sample == sample.value
    ensures systematic.Some? ==> s.systematic == systematic.value
    ensures template.Some? ==> s.template == template.value
    ensures region.None? ==> s.region == "*"
    ensures sample.None? ==> s.sample == "*"
    ensures systematic.None? ==> s.systematic == "*"
    ensures template.None? ==> s.template == "*"
    ensures s.name == Name(func) && s.func == func
  {
    Spec(Qualifier(region), Qualifier(sample), Qualifier(systematic), Qualifier(template), Name(func), func)
  }

  /** All four patterns of `s` match the whole of the corresponding name. */
  predicate SpecMatches(s: Spec, region: string, sample: string, systematic: string, template: string) {
    Matches(s.region, region) && Matches(s.sample, sample) &&
    Matches(s.systematic, systematic) && Matches(s.template, template)
  }

  /** The records that match, in registry order. */
  function Matching(registry: seq<Spec>, region: string, sample: string, systematic: string,
                    template: string): (m: seq<Spec>)
    ensures |m| <= |registry|
    ensures forall x :: x in m ==> x in registry && SpecMatches(x, region, sample, systematic, template)
  {
    if registry == [] then []
    else
      (if SpecMatches(registry[0], region, sample, systematic, template) then [registry[0]] else []) +
      Matching(registry[1..], region, sample, systematic, template)
  }

  /** The positions of the records that match. */
  function MatchPositions(registry: seq<Spec>, region: string, sample: string, systematic: string,
                          template: string): set<int>
  {
    set i | 0 <= i < |registry| && SpecMatches(registry[i], region, sample, systematic, template)
  }

  /** Index `i` holds the first matching record. */
  predicate FirstMatchAt(registry: seq<Spec>, i: int, region: string, sample: string,
                         systematic: string, template: string) {
    0 <= i < |registry| && SpecMatches(registry[i], region, sample, systematic, template) &&
    forall j :: 0 <= j < i ==> !SpecMatches(registry[j], region, sample, systematic, template)
  }

  /** The result of a lookup: the callback found, if any, and the log lines emitted. */
  datatype Lookup = Lookup(func: Option<Callback>, log: seq<string>)

  /** Decimal rendering of a natural number. */
  function NatToString(n: nat): (s: string)
    ensures s != []
    ensures forall i :: 0 <= i < |s| ==> '0' <= s[i] <= '9'
    ensures s[0] == '0' <==> n == 0
  {
    if n < 10 then [Digit(n)] else NatToString(n / 10) + [Digit(n % 10)]
  }

  function Digit(d: nat): (c: char)
    requires d < 10
    ensures '0' <= c <= '9'
    ensures c as int - '0' as int == d
  {
    ('0' as int + d) as char
  }

  /** The value of a string of decimal digits. */
  function DecimalValue(s: string): nat
    requires forall i :: 0 <= i < |s| ==> '0' <= s[i] <= '9'
  {
    if s == [] then 0 else DecimalValue(s[..|s| - 1]) * 10 + ((s[|s| - 1] as int) - ('0' as int))
  }

  /** The rendered count reads back as the count. */
  lemma {:induction false} NatToStringRoundTrip(n: nat)
    ensures DecimalValue(NatToString(n)) == n
  {
    var s := NatToString(n);
    if n >= 10 {
      NatToStringRoundTrip(n / 10);
      assert s[..|s| - 1] == NatToString(n / 10);
    }
  }

  /** The diagnostic for an ambiguous lookup. */
  function AmbiguityWarning(count: nat, chosen: string): string {
    "found " + NatToString(count) + " matches, continuing with the first one (" + chosen + ")"
  }

  /** `Router._find_match`: the callback of the first matching record, or `None`;
      when several records match, one warning naming their number and the
      chosen record. */
  function FindMatch(registry: seq<Spec>, region: string, sample: string, systematic: string,
                     template: string): (r: Lookup)
    ensures |r.log| <= 1
    ensures r.func.None? ==> r.log == []
  {
    var m := Matching(registry, region, sample, systematic, template);
    if |m| == 0 then Lookup(None, [])
    else Lookup(Some(m[0].func), if |m| > 1 then [AmbiguityWarning(|m|, m[0].name)] else [])
  }

  // ---------------------------------------------------------------------------
  // Lemmas about the lookup

  /** No record is found exactly when no record matches. */
  lemma {:induction false} MatchingEmpty(registry: seq<Spec>, region: string, sample: string,
                                         systematic: string, template: string)
    ensures Matching(registry, region, sample, systematic, template) == [] <==>
            forall i :: 0 <= i < |registry| ==> !SpecMatches(registry[i], region, sample, systematic, template)
  {
    if registry != [] {
      MatchingEmpty(registry[1..], region, sample, systematic, template);
      forall i | 0 < i < |registry| ensures registry[1..][i - 1] == registry[i] { }
    }
  }

  /** The first matching record heads the list of matches. */
  lemma {:induction false} MatchingFirst(registry: seq<Spec>, i: int, region: string, sample: string,
                                         systematic: string, template: string)
    requires FirstMatchAt(registry, i, region, sample, systematic, template)
    ensures var m := Matching(registry, region, sample, systematic, template);
            |m| >= 1 && m[0] == registry[i]
    decreases i
  {
    if i > 0 {
      assert !SpecMatches(registry[0], region, sample, systematic, template);
      forall j | 0 <= j < i - 1 ensures !SpecMatches(registry[1..][j], region, sample, systematic, template) {
        assert registry[1..][j] == registry[j + 1];
      }
      MatchingFirst(registry[1..], i - 1, region, sample, systematic, template);
    }
  }

  /** When every record matches, all of them are matches. */
  lemma {:induction false} MatchingAll(registry: seq<Spec>, region: string, sample: string,
                                       systematic: string, template: string)
    requires forall i :: 0 <= i < |registry| ==> SpecMatches(registry[i], region, sample, systematic, template)
    ensures Matching(registry, region, sample, systematic, template) == registry
  {
    if registry != [] {
      assert SpecMatches(registry[0], region, sample, systematic, template);
      forall i | 0 <= i < |registry[1..]| ensures SpecMatches(registry[1..][i], region, sample, systematic, template) {
        assert registry[1..][i] == registry[i + 1];
      }
      MatchingAll(registry[1..], region, sample, systematic, template);
    }
  }

  /** Matches over a concatenated registry are the matches of each part, in order. */
  lemma {:induction false} MatchingAppend(a: seq<Spec>, b: seq<Spec>, region: string, sample: string,
                                          systematic: string, template: string)
    ensures Matching(a + b, region, sample, systematic, template) ==
            Matching(a, region, sample, systematic, template) + Matching(b, region, sample, systematic, template)
  {
    if a == [] {
      assert a + b == b;
    } else {
      assert (a + b)[0] == a[0] && (a + b)[1..] == a[1..] + b;
      MatchingAppend(a[1..], b, region, sample, systematic, template);
    }
  }

  /** At least two records match exactly when two distinct positions match. */
  lemma {:induction false} MatchingTwo(registry: seq<Spec>, region: string, sample: string,
                                       systematic: string, template: string)
    ensures |Matching(registry, region, sample, systematic, template)| >= 2 <==>
            exists i, j :: 0 <= i < j < |registry| &&
              SpecMatches(registry[i], region, sample, systematic, template) &&
              SpecMatches(registry[j], region, sample, systematic, template)
  {
    if registry != [] {
      var rest := registry[1..];
      MatchingTwo(rest, region, sample, systematic, template);
      MatchingEmpty(rest, region, sample, systematic, template);
      var m := Matching(registry, region, sample, systematic, template);
      if |m| >= 2 {
        if SpecMatches(registry[0], region, sample, systematic, template) {
          var j :| 0 <= j < |rest| && SpecMatches(rest[j], region, sample, systematic, template);
          assert rest[j] == registry[j + 1];
        } else {
          var i, j :| 0 <= i < j < |rest| && SpecMatches(rest[i], region, sample, systematic, template) &&
                      SpecMatches(rest[j], region, sample, systematic, template);
          assert rest[i] == registry[i + 1] && rest[j] == registry[j + 1];
        }
      }
      if exists i, j :: 0 <= i < j < |registry| &&
           SpecMatches(registry[i], region, sample, systematic, template) &&
           SpecMatches(registry[j], region, sample, systematic, template) {
        var i, j :| 0 <= i < j < |registry| &&
          SpecMatches(registry[i], region, sample, systematic, template) &&
          SpecMatches(registry[j], region, sample, systematic, template);
        assert rest[j - 1] == registry[j];
        if i > 0 {
          assert rest[i - 1] == registry[i];
        }
      }
    }
  }

  /** The lookup keeps one record per matching position. */
  lemma {:induction false} MatchingCount(registry: seq<Spec>, region: string, sample: string,
                                         systematic: string, template: string)
    ensures |Matching(registry, region, sample, systematic, template)| ==
            |MatchPositions(registry, region, sample, systematic, template)|
  {
    if registry != [] {
      var init := registry[..|registry| - 1];
      MatchingCount(init, region, sample, systematic, template);
      MatchingSnoc(registry, region, sample, systematic, template);
      PositionsSnoc(registry, region, sample, systematic, template);
      assert |init| !in MatchPositions(init, region, sample, systematic, template);
    }
  }

  /** One more record adds one kept record when it matches, none otherwise. */
  lemma MatchingSnoc(registry: seq<Spec>, region: string, sample: string, systematic: string, template: string)
    requires registry != []
    ensures var init, last := registry[..|registry| - 1], registry[|registry| - 1];
            |Matching(registry, region, sample, systematic, template)| ==
            |Matching(init, region, sample, systematic, template)| +
            (if SpecMatches(last, region, sample, systematic, template) then 1 else 0)
  {
    var init, last := registry[..|registry| - 1], registry[|registry| - 1];
    assert registry == init + [last];
    MatchingAppend(init, [last], region, sample, systematic, template);
    assert [last][1..] == [];
  }

  /** One more record adds its position when it matches. */
  lemma PositionsSnoc(registry: seq<Spec>, region: string, sample: string, systematic: string, template: string)
    requires registry != []
    ensures var init, last := registry[..|registry| - 1], registry[|registry| - 1];
            MatchPositions(registry, region, sample, systematic, template) ==
            MatchPositions(init, region, sample, systematic, template) +
            (if SpecMatches(last, region, sample, systematic, template) then {|init|} else {})
  {
    var init, last := registry[..|registry| - 1], registry[|registry| - 1];
    var all, before := MatchPositions(registry, region, sample, systematic, template),
                       MatchPositions(init, region, sample, systematic, template);
    var extra: set<int> := if SpecMatches(last, region, sample, systematic, template) then {|init|} else {};
    forall x | x in all ensures x in before + extra {
      if x < |init| {
        assert init[x] == registry[x];
      }
    }
    forall x | x in before + extra ensures x in all {
      if x < |init| {
        assert init[x] == registry[x];
      }
    }
  }

  /** When some record matches, a first matching record exists. */
  lemma {:induction false} FirstMatch(registry: seq<Spec>, region: string, sample: string,
                                      systematic: string, template: string) returns (i: nat)
    requires exists k :: 0 <= k < |registry| && SpecMatches(registry[k], region, sample, systematic, template)
    ensures FirstMatchAt(registry, i, region, sample, systematic, template)
  {
    if SpecMatches(registry[0], region, sample, systematic, template) {
      i := 0;
    } else {
      var rest := registry[1..];
      var k :| 0 <= k < |registry| && SpecMatches(registry[k], region, sample, systematic, template);
      assert k > 0 && rest[k - 1] == registry[k];
      var i' := FirstMatch(rest, region, sample, systematic, template);
      i := i' + 1;
      assert registry[i] == rest[i'];
      forall j | 0 <= j < i ensures !SpecMatches(registry[j], region, sample, systematic, template) {
        if j > 0 {
          assert registry[j] == rest[j - 1];
        }
      }
    }
  }

  /** `_find_match` returns `None` exactly when no record's four patterns all match. */
  lemma FindMatchNone(registry: seq<Spec>, region: string, sample: string, systematic: string, template: string)
    ensures FindMatch(registry, region, sample, systematic, template).func.None? <==>
            forall i :: 0 <= i < |registry| ==> !SpecMatches(registry[i], region, sample, systematic, template)
  {
    MatchingEmpty(registry, region, sample, systematic, template);
  }

  /** First registered wins: the lookup returns the callback of the first
      matching record, whatever records follow it. */
  lemma FindMatchFirst(registry: seq<Spec>, i: int, region: string, sample: string, systematic: string,
                       template: string)
    requires FirstMatchAt(registry, i, region, sample, systematic, template)
    ensures FindMatch(registry, region, sample, systematic, template).func == Some(registry[i].func)
  {
    MatchingFirst(registry, i, region, sample, systematic, template);
  }

  /** The warning is emitted exactly when two records match, and it names the
      number of matching records and the first of them. */
  lemma FindMatchWarning(registry: seq<Spec>, i: int, region: string, sample: string, systematic: string,
                         template: string)
    requires FirstMatchAt(registry, i, region, sample, systematic, template)
    ensures var r := FindMatch(registry, region, sample, systematic, template);
            var n := |MatchPositions(registry, region, sample, systematic, template)|;
            (r.log != [] <==> (exists j, k :: 0 <= j < k < |registry| &&
                                 SpecMatches(registry[j], region, sample, systematic, template) &&
                                 SpecMatches(registry[k], region, sample, systematic, template))) &&
            (r.log != [] ==> r.log == [AmbiguityWarning(n, registry[i].name)])
  {
    MatchingFirst(registry, i, region, sample, systematic, template);
    MatchingTwo(registry, region, sample, systematic, template);
    MatchingCount(registry, region, sample, systematic, template);
  }

  /** Appending records never changes a lookup that already found a callback. */
  lemma FindMatchAppend(registry: seq<Spec>, more: seq<Spec>, region: string, sample: string,
                        systematic: string, template: string)
    requires FindMatch(registry, region, sample, systematic, template).func.Some?
    ensures FindMatch(registry + more, region, sample, systematic, template).func ==
            FindMatch(registry, region, sample, systematic, template).func
  {
    MatchingAppend(registry, more, region, sample, systematic, template);
  }

  /** A record registered without qualifiers matches every combination. */
  lemma UnqualifiedMatchesAll(func: Callback, region: string, sample: string, systematic: string,
                              template: string)
    ensures SpecMatches(NewSpec(None, None, None, None, func), region, sample, systematic, template)
  {
    StarMatchesAll(region);
    StarMatchesAll(sample);
    StarMatchesAll(systematic);
    StarMatchesAll(template);
  }
}
