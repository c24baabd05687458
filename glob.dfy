/** Shell-style wildcard matching (section 2.13 of the POSIX Shell Command
    Language, as implemented by Python's `fnmatch`): a pattern is compiled into
    tokens, and the tokens must match the WHOLE candidate string. Matching is
    case-sensitive and a backslash has no special meaning. */
module Glob {
  import opened Wrappers

  /** One member of a bracket expression: a single character or a range `lo-hi`. */
  datatype Item = Single(c: char) | Range(lo: char, hi: char)

  /** A compiled pattern element. `AnyRun` is `*`, `AnyOne` is `?`,
      `Class` is `[...]` (negated when it starts with `!`). */
  datatype Token = Lit(c: char) | AnyOne | AnyRun | Class(negated: bool, items: seq<Item>)

  /** The characters that have a meaning of their own in a pattern. */
  predicate Special(c: char) {
    c == '*' || c == '?' || c == '['
  }

  /** A pattern made of ordinary characters only. */
  predicate Plain(p: string) {
    forall i :: 0 <= i < |p| ==> !Special(p[i])
  }

  /** The position of the first `]` at or after `from`, if any. */
  function CloseIndex(p: string, from: nat): (r: Option<nat>)
    decreases |p| - from
    ensures r.Some? ==> from <= r.value < |p| && p[r.value] == ']'
    ensures r.Some? ==> forall i :: from <= i < r.value ==> p[i] != ']'
    ensures r.None? ==> forall i :: from <= i < |p| ==> p[i] != ']'
  {
    if from >= |p| then None
    else if p[from] == ']' then Some(from)
    else CloseIndex(p, from + 1)
  }

  /** The members of a bracket expression: `a-b` is a range, a `-` that
      cannot form a range (first or last) stands for itself. */
  function Items(s: string): (r: seq<Item>)
    ensures |r| <= |s|
    ensures s != [] ==> r != []
  {
    if s == [] then []
    else if |s| >= 3 && s[1] == '-' then [Range(s[0], s[2])] + Items(s[3..])
    else [Single(s[0])] + Items(s[1..])
  }

  /** Compiles a pattern. After `[` an optional `!` negates, and a `]` right
      after `[` or `[!` is a member; a `[` whose expression is never closed
      stands for itself. */
  function Compile(p: string): seq<Token>
    decreases |p|
  {
    if p == [] then []
    else if p[0] == '*' then [AnyRun] + Compile(p[1..])
    else if p[0] == '?' then [AnyOne] + Compile(p[1..])
    else if p[0] == '[' then
      var start := if |p| > 1 && p[1] == '!' then 2 else 1;
      var from := if start < |p| && p[start] == ']' then start + 1 else start;
      match CloseIndex(p, from)
      case None => [Lit('[')] + Compile(p[1..])
      case Some(k) => [Class(start == 2, Items(p[start..k]))] + Compile(p[k + 1..])
    else [Lit(p[0])] + Compile(p[1..])
  }

  predicate ItemHas(item: Item, c: char) {
    match item
    case Single(d) => c == d
    case Range(lo, hi) => lo <= c <= hi
  }

  function InItems(items: seq<Item>, c: char): (b: bool)
    ensures b <==> exists i :: 0 <= i < |items| && ItemHas(items[i], c)
  {
    if items == [] then false
    else ItemHas(items[0], c) || InItems(items[1..], c)
  }

  /** Whether a token other than `AnyRun` accepts the single character `c`. */
  predicate CharMatches(t: Token, c: char) {
    match t
    case Lit(d) => c == d
    case AnyOne => true
    case AnyRun => false
    case Class(negated, items) => InItems(items, c) != negated
  }

  /** Whether the tokens match the whole of `s`. */
  predicate MatchTokens(ts: seq<Token>, s: string)
    decreases |s|, |ts|
  {
    if ts == [] then s == []
    else if ts[0] == AnyRun then MatchTokens(ts[1..], s) || (s != [] && MatchTokens(ts, s[1..]))
    else s != [] && CharMatches(ts[0], s[0]) && MatchTokens(ts[1..], s[1..])
  }

  /** `fnmatch(candidate, pattern)`. */
  predicate Matches(pattern: string, candidate: string) {
    MatchTokens(Compile(pattern), candidate)
  }

  /** One literal token per character. */
  function Lits(p: string): (ts: seq<Token>)
    ensures |ts| == |p|
    ensures forall i :: 0 <= i < |p| ==> ts[i] == Lit(p[i])
  {
    if p == [] then [] else [Lit(p[0])] + Lits(p[1..])
  }

  // ---------------------------------------------------------------------------
  // Compilation

  /** A plain pattern compiles to literals. */
  lemma {:induction false} CompilePlain(p: string)
    requires Plain(p)
    ensures Compile(p) == Lits(p)
  {
    if p != [] {
      assert !Special(p[0]);
      assert Plain(p[1..]) by {
        forall i | 0 <= i < |p[1..]| ensures !Special(p[1..][i]) {
          assert p[1..][i] == p[i + 1];
        }
      }
      CompilePlain(p[1..]);
    }
  }

  /** A plain prefix followed by `*` compiles to literals and one `AnyRun`. */
  lemma {:induction false} CompilePlainStar(p: string)
    requires Plain(p)
    ensures Compile(p + "*") == Lits(p) + [AnyRun]
  {
    if p == [] {
      assert p + "*" == "*";
    } else {
      assert !Special(p[0]);
      assert (p + "*")[0] == p[0];
      assert (p + "*")[1..] == p[1..] + "*";
      assert Plain(p[1..]) by {
        forall i | 0 <= i < |p[1..]| ensures !Special(p[1..][i]) {
          assert p[1..][i] == p[i + 1];
        }
      }
      CompilePlainStar(p[1..]);
    }
  }

  // ---------------------------------------------------------------------------
  // Matching

  /** `AnyRun` alone matches every string. */
  lemma {:induction false} AnyRunMatchesAll(s: string)
    ensures MatchTokens([AnyRun], s)
  {
    if s == [] {
      assert [AnyRun][1..] == [];
    } else {
      AnyRunMatchesAll(s[1..]);
    }
  }

  /** Literal tokens match exactly the string they spell. */
  lemma {:induction false} LitsMatchExactly(p: string, s: string)
    ensures MatchTokens(Lits(p), s) <==> s == p
  {
    if p != [] {
      assert Lits(p)[0] == Lit(p[0]) && Lits(p)[1..] == Lits(p[1..]);
      if s != [] {
        LitsMatchExactly(p[1..], s[1..]);
        assert s == p <==> s[0] == p[0] && s[1..] == p[1..];
      }
    }
  }

  /** Concatenated tokens match a string exactly when the string splits into a
      part matched by the first tokens and a part matched by the rest
      (direction from the split to the match). */
  lemma {:induction false} MatchConcatIntro(a: seq<Token>, b: seq<Token>, s: string, k: nat)
    requires k <= |s| && MatchTokens(a, s[..k]) && MatchTokens(b, s[k..])
    ensures MatchTokens(a + b, s)
    decreases |s|, |a|
  {
    if a == [] {
      assert a + b == b && s[..k] == [] && k == 0 && s[k..] == s;
    } else if a[0] == AnyRun {
      assert (a + b)[0] == AnyRun && (a + b)[1..] == a[1..] + b;
      if MatchTokens(a[1..], s[..k]) {
        MatchConcatIntro(a[1..], b, s, k);
      } else {
        assert s[..k] != [] && MatchTokens(a, s[..k][1..]);
        assert s[..k][1..] == s[1..][..k - 1] && s[k..] == s[1..][k - 1..];
        MatchConcatIntro(a, b, s[1..], k - 1);
      }
    } else {
      assert s[..k] != [] && CharMatches(a[0], s[..k][0]) && MatchTokens(a[1..], s[..k][1..]);
      assert (a + b)[0] == a[0] && (a + b)[1..] == a[1..] + b;
      assert s[..k][1..] == s[1..][..k - 1] && s[k..] == s[1..][k - 1..];
      MatchConcatIntro(a[1..], b, s[1..], k - 1);
    }
  }

  /** The other direction: a match of concatenated tokens yields the split point. */
  lemma {:induction false} MatchConcatElim(a: seq<Token>, b: seq<Token>, s: string) returns (k: nat)
    requires MatchTokens(a + b, s)
    ensures k <= |s| && MatchTokens(a, s[..k]) && MatchTokens(b, s[k..])
    decreases |s|, |a|
  {
    if a == [] {
      assert a + b == b;
      k := 0;
      assert s[..0] == [] && s[0..] == s;
    } else if a[0] == AnyRun {
      assert (a + b)[0] == AnyRun && (a + b)[1..] == a[1..] + b;
      if MatchTokens(a[1..] + b, s) {
        k := MatchConcatElim(a[1..], b, s);
      } else {
        assert s != [] && MatchTokens(a + b, s[1..]);
        var k' := MatchConcatElim(a, b, s[1..]);
        k := k' + 1;
        assert s[..k][1..] == s[1..][..k'] && s[k..] == s[1..][k'..];
      }
    } else {
      assert (a + b)[0] == a[0] && (a + b)[1..] == a[1..] + b;
      assert s != [] && CharMatches(a[0], s[0]) && MatchTokens(a[1..] + b, s[1..]);
      var k' := MatchConcatElim(a[1..], b, s[1..]);
      k := k' + 1;
      assert s[..k][0] == s[0] && s[..k][1..] == s[1..][..k'] && s[k..] == s[1..][k'..];
    }
  }

  /** Matching is compositional: tokens `a + b` match `s` exactly when `s`
      splits into a part that `a` matches followed by a part that `b` matches. */
  lemma MatchConcat(a: seq<Token>, b: seq<Token>, s: string)
    ensures MatchTokens(a + b, s) <==>
            exists k :: 0 <= k <= |s| && MatchTokens(a, s[..k]) && MatchTokens(b, s[k..])
  {
    if MatchTokens(a + b, s) {
      var k := MatchConcatElim(a, b, s);
    }
    forall k | 0 <= k <= |s| && MatchTokens(a, s[..k]) && MatchTokens(b, s[k..])
      ensures MatchTokens(a + b, s)
    {
      MatchConcatIntro(a, b, s, k);
    }
  }

  /** Without `*`, every token consumes exactly one character. */
  lemma {:induction false} FixedLength(ts: seq<Token>, s: string)
    requires forall i :: 0 <= i < |ts| ==> ts[i] != AnyRun
    requires MatchTokens(ts, s)
    ensures |s| == |ts|
  {
    if ts != [] {
      assert ts[0] != AnyRun;
      FixedLength(ts[1..], s[1..]);
    }
  }

  // ---------------------------------------------------------------------------
  // Properties of patterns

  /** The pattern `*` matches anything. */
  lemma StarMatchesAll(s: string)
    ensures Matches("*", s)
  {
    assert "*"[1..] == [];
    assert Compile("*") == [AnyRun];
    AnyRunMatchesAll(s);
  }

  /** A pattern without wildcards matches only itself, and it does match itself. */
  lemma PlainMatchesOnlyItself(p: string, s: string)
    requires Plain(p)
    ensures Matches(p, s) <==> s == p
  {
    CompilePlain(p);
    LitsMatchExactly(p, s);
  }

  /** A plain prefix followed by `*` matches exactly the strings that start with the prefix. */
  lemma PlainStarMatchesPrefix(p: string, s: string)
    requires Plain(p)
    ensures Matches(p + "*", s) <==> p <= s
  {
    CompilePlainStar(p);
    MatchConcat(Lits(p), [AnyRun], s);
    if p <= s {
      LitsMatchExactly(p, s[..|p|]);
      AnyRunMatchesAll(s[|p|..]);
    }
    forall k | 0 <= k <= |s| && MatchTokens(Lits(p), s[..k]) ensures p <= s {
      LitsMatchExactly(p, s[..k]);
    }
  }

  /** `?` matches exactly the one-character strings. */
  lemma QuestionMatchesOneChar(s: string)
    ensures Matches("?", s) <==> |s| == 1
  {
    assert "?"[1..] == [];
    assert Compile("?") == [AnyOne];
    if Matches("?", s) {
      FixedLength([AnyOne], s);
    }
    if |s| == 1 {
      assert [AnyOne][1..] == [] && s[1..] == [];
      assert MatchTokens([AnyOne], s);
    }
  }
  // ---------------------------------------------------------------------------
  // Bracket expressions

  /** A bracket body without `-` lists its members one by one. */
  lemma {:induction false} ItemsWithoutDash(b: string, c: char)
    requires forall i :: 0 <= i < |b| ==> b[i] != '-'
    ensures InItems(Items(b), c) <==> c in b
  {
    if b != [] {
      ItemsWithoutDash(b[1..], c);
      assert b == [b[0]] + b[1..];
    }
  }

  /** `lo-hi` is the range from `lo` to `hi`, both included. */
  lemma RangeItem(lo: char, hi: char, c: char)
    ensures InItems(Items([lo, '-', hi]), c) <==> lo <= c <= hi
  {
    assert [lo, '-', hi][3..] == [];
  }

  /** The first `]` at or after `from` in a pattern ending in its only `]`. */
  lemma CloseAtEnd(p: string, from: nat)
    requires 1 <= from < |p| && p[|p| - 1] == ']'
    requires forall i :: from <= i < |p| - 1 ==> p[i] != ']'
    ensures CloseIndex(p, from) == Some(|p| - 1)
  {
  }

  /** A bracket expression that closes at the end of the pattern compiles to
      one class token; it is negated when it starts with `!`. */
  lemma CompileClosed(p: string)
    requires |p| >= 3 && p[0] == '[' && p[|p| - 1] == ']'
    requires forall i :: 1 <= i < |p| - 1 ==> p[i] != ']'
    requires p[1] == '!' ==> |p| >= 4
    ensures var start := if p[1] == '!' then 2 else 1;
            Compile(p) == [Class(p[1] == '!', Items(p[start..|p| - 1]))]
  {
    var start := if p[1] == '!' then 2 else 1;
    CloseAtEnd(p, start);
    assert p[|p|..] == [];
  }

  /** `[b]`, with a body that holds no `]` and does not start with `!`, matches
      exactly the one-character strings whose character is one of its members. */
  lemma BracketMatches(b: string, s: string)
    requires b != [] && b[0] != '!' && forall i :: 0 <= i < |b| ==> b[i] != ']'
    ensures Matches("[" + b + "]", s) <==> |s| == 1 && InItems(Items(b), s[0])
  {
    var p := "[" + b + "]";
    Bracketed(p, 1, b);
    CompileClosed(p);
    assert Compile(p) == [Class(false, Items(b))];
    BracketToken(false, Items(b), s);
  }

  /** `[!b]`, with a body that holds no `]`, matches exactly the one-character
      strings whose character is none of its members. */
  lemma NegatedBracketMatches(b: string, s: string)
    requires b != [] && forall i :: 0 <= i < |b| ==> b[i] != ']'
    ensures Matches("[!" + b + "]", s) <==> |s| == 1 && !InItems(Items(b), s[0])
  {
    var p := "[!" + b + "]";
    Bracketed(p, 2, b);
    CompileClosed(p);
    assert Compile(p) == [Class(true, Items(b))];
    BracketToken(true, Items(b), s);
  }

  /** The shape of `[` + opening + body + `]` when the body holds no `]`. */
  lemma Bracketed(p: string, start: nat, b: string)
    requires start == 1 || start == 2
    requires p == (if start == 2 then "[!" else "[") + b + "]"
    requires b != [] && (start == 1 ==> b[0] != '!') && forall i :: 0 <= i < |b| ==> b[i] != ']'
    ensures |p| == |b| + start + 1 && p[0] == '[' && p[|p| - 1] == ']'
    ensures (p[1] == '!') == (start == 2) && p[start..|p| - 1] == b
    ensures forall i :: 1 <= i < |p| - 1 ==> p[i] != ']'
  {
    assert p[start] == b[0];
    forall i | 1 <= i < |p| - 1 ensures p[i] != ']' {
      if i >= start {
        assert p[i] == b[i - start];
      }
    }
  }

  /** `[lo-hi]` matches exactly the one-character strings from `lo` to `hi`. */
  lemma RangeBracketMatches(lo: char, hi: char, s: string)
    requires lo != '!' && lo != ']' && hi != ']'
    ensures Matches("[" + [lo, '-', hi] + "]", s) <==> |s| == 1 && lo <= s[0] <= hi
  {
    BracketMatches([lo, '-', hi], s);
    if |s| == 1 {
      RangeItem(lo, hi, s[0]);
    }
  }

  /** A single class token matches one character, according to its members. */
  lemma BracketToken(negated: bool, items: seq<Item>, s: string)
    ensures MatchTokens([Class(negated, items)], s) <==> |s| == 1 && InItems(items, s[0]) != negated
  {
    assert [Class(negated, items)][1..] == [];
    if MatchTokens([Class(negated, items)], s) {
      FixedLength([Class(negated, items)], s);
    }
  }
}
