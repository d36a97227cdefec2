/** Regular expressions as the program uses them: anchors, character classes, concatenation,
    repetition, and one capture group. `Denotes` says what an expression matches; `Search` is a
    backtracking matcher that lists matches in order of preference; the two are proved to agree. */
module Regex {
  import opened Wrappers
  import opened Text

  datatype Re =
    | Empty
    | Begin
    | End
    | Class(chars: set<char>)
    | Cat(left: Re, right: Re)
    | Star(body: Re)
    | Group(inner: Re)

  datatype Span = Span(from: nat, to: nat)

  /** Where a match ends and what the group has captured by then. */
  datatype Match = Match(end: nat, group: Option<Span>)

  function Literal(w: string): Re {
    if w == [] then Empty else Cat(Class({w[0]}), Literal(w[1..]))
  }

  /** The counted repetition r{n}. */
  function Times(r: Re, n: nat): Re {
    if n == 0 then Empty else Cat(r, Times(r, n - 1))
  }

  // ---------------------------------------------------------------- what an expression means

  /** `r` matches `t` from `i` up to `m.end`, turning the capture `c` into `m.group`. An iteration
      of a star has to consume something. */
  ghost predicate Denotes(r: Re, t: string, i: nat, c: Option<Span>, m: Match)
    requires i <= |t|
    decreases r, |t| - i
  {
    match r
    case Empty => m == Match(i, c)
    case Begin => i == 0 && m == Match(i, c)
    case End => i == |t| && m == Match(i, c)
    case Class(chars) => i < |t| && t[i] in chars && m == Match(i + 1, c)
    case Cat(a, b) => exists k: Match :: k.end <= |t| && Denotes(a, t, i, c, k) && Denotes(b, t, k.end, k.group, m)
    case Star(a) =>
      || m == Match(i, c)
      || exists k: Match :: i < k.end <= |t| && Denotes(a, t, i, c, k) && Denotes(r, t, k.end, k.group, m)
    case Group(a) => exists k: Match :: Denotes(a, t, i, c, k) && m == Match(k.end, Some(Span(i, k.end)))
  }

  // ---------------------------------------------------------------- the matcher

  ghost predicate Within(ms: seq<Match>, lo: nat, t: string) {
    forall m | m in ms :: lo <= m.end <= |t|
  }

  function Captured(ms: seq<Match>, i: nat): (r: seq<Match>)
    ensures |r| == |ms|
    ensures forall x | 0 <= x < |ms| :: r[x] == Match(ms[x].end, Some(Span(i, ms[x].end)))
  {
    seq(|ms|, x requires 0 <= x < |ms| => Match(ms[x].end, Some(Span(i, ms[x].end))))
  }

  /** The matches that consumed something. */
  function Advanced(ms: seq<Match>, i: nat): (r: seq<Match>)
    ensures forall m :: m in r <==> m in ms && i < m.end
  {
    if ms == [] then [] else (if i < ms[0].end then [ms[0]] else []) + Advanced(ms[1..], i)
  }

  /** All matches of `r` at `i`, most preferred first; a star prefers more iterations. */
  function Search(r: Re, t: string, i: nat, c: Option<Span>): (ms: seq<Match>)
    requires i <= |t|
    ensures Within(ms, i, t)
    decreases r, |t| - i, 0, 0
  {
    match r
    case Empty => [Match(i, c)]
    case Begin => if i == 0 then [Match(i, c)] else []
    case End => if i == |t| then [Match(i, c)] else []
    case Class(chars) => if i < |t| && t[i] in chars then [Match(i + 1, c)] else []
    case Cat(a, b) => SearchEach(b, t, i, Search(a, t, i, c))
    case Star(a) =>
      (if i < |t| then SearchEach(r, t, i + 1, Advanced(Search(a, t, i, c), i)) else []) + [Match(i, c)]
    case Group(a) => Captured(Search(a, t, i, c), i)
  }

  function SearchEach(r: Re, t: string, lo: nat, from: seq<Match>): (ms: seq<Match>)
    requires lo <= |t| && Within(from, lo, t)
    ensures Within(ms, lo, t)
    decreases r, |t| - lo, 1, |from|
  {
    if from == [] then []
    else
      assert from[0] in from;
      assert Within(from[1..], lo, t);
      Search(r, t, from[0].end, from[0].group) + SearchEach(r, t, lo, from[1..])
  }

  lemma {:induction false} SearchEachIsUnion(r: Re, t: string, lo: nat, from: seq<Match>, m: Match)
    requires lo <= |t| && Within(from, lo, t)
    ensures m in SearchEach(r, t, lo, from)
       <==> exists k | k in from :: m in Search(r, t, k.end, k.group)
    decreases |from|
  {
    if from != [] {
      assert from[0] in from;
      assert Within(from[1..], lo, t);
      SearchEachIsUnion(r, t, lo, from[1..], m);
      assert forall k :: k in from <==> k == from[0] || k in from[1..];
    }
  }

  /** The matcher finds exactly what the expression means. */
  lemma {:induction false} SearchIsDenotation(r: Re, t: string, i: nat, c: Option<Span>, m: Match)
    requires i <= |t|
    ensures m in Search(r, t, i, c) <==> Denotes(r, t, i, c, m)
    decreases r, |t| - i, 1
  {
    match r
    case Cat(a, b) => SearchCat(a, b, t, i, c, m);
    case Star(a) => SearchStar(a, t, i, c, m);
    case Group(a) => SearchGroup(a, t, i, c, m);
    case _ =>
  }

  lemma {:induction false} SearchCat(a: Re, b: Re, t: string, i: nat, c: Option<Span>, m: Match)
    requires i <= |t|
    ensures m in Search(Cat(a, b), t, i, c) <==> Denotes(Cat(a, b), t, i, c, m)
    decreases Cat(a, b), |t| - i, 0
  {
    var first := Search(a, t, i, c);
    SearchEachIsUnion(b, t, i, first, m);
    forall k: Match | k.end <= |t|
      ensures k in first && m in Search(b, t, k.end, k.group)
         <==> Denotes(a, t, i, c, k) && Denotes(b, t, k.end, k.group, m)
    {
      SearchIsDenotation(a, t, i, c, k);
      SearchIsDenotation(b, t, k.end, k.group, m);
    }
  }

  lemma {:induction false} SearchStar(a: Re, t: string, i: nat, c: Option<Span>, m: Match)
    requires i <= |t|
    ensures m in Search(Star(a), t, i, c) <==> Denotes(Star(a), t, i, c, m)
    decreases Star(a), |t| - i, 0
  {
    var r := Star(a);
    StarUnfolds(a, t, i, c, m);
    forall k: Match | i < k.end <= |t|
      ensures k in Search(a, t, i, c) && m in Search(r, t, k.end, k.group)
         <==> Denotes(a, t, i, c, k) && Denotes(r, t, k.end, k.group, m)
    {
      SearchIsDenotation(a, t, i, c, k);
      SearchIsDenotation(r, t, k.end, k.group, m);
    }
  }

  lemma StarUnfolds(a: Re, t: string, i: nat, c: Option<Span>, m: Match)
    requires i <= |t|
    ensures m in Search(Star(a), t, i, c)
       <==> m == Match(i, c) || Continues(Star(a), t, i, Search(a, t, i, c), m)
  {
    if i < |t| {
      FurtherIterations(Star(a), t, i, Search(a, t, i, c), m);
    }
  }

  /** Some match in `first` consumed something and `r` goes on from its end to `m`. */
  ghost predicate Continues(r: Re, t: string, i: nat, first: seq<Match>, m: Match) {
    exists k: Match :: i < k.end <= |t| && k in first && m in Search(r, t, k.end, k.group)
  }

  lemma FurtherIterations(r: Re, t: string, i: nat, first: seq<Match>, m: Match)
    requires i < |t| && Within(first, i, t)
    ensures m in SearchEach(r, t, i + 1, Advanced(first, i)) <==> Continues(r, t, i, first, m)
  {
    var again := Advanced(first, i);
    SearchEachIsUnion(r, t, i + 1, again, m);
  }

  lemma {:induction false} SearchGroup(a: Re, t: string, i: nat, c: Option<Span>, m: Match)
    requires i <= |t|
    ensures m in Search(Group(a), t, i, c) <==> Denotes(Group(a), t, i, c, m)
    decreases Group(a), |t| - i, 0
  {
    var first := Search(a, t, i, c);
    var found := Captured(first, i);
    if k: Match :| Denotes(a, t, i, c, k) && m == Match(k.end, Some(Span(i, k.end))) {
      SearchIsDenotation(a, t, i, c, k);
      var x :| 0 <= x < |first| && first[x] == k;
      assert found[x] == m;
    }
    if m in found {
      var x :| 0 <= x < |found| && found[x] == m;
      assert first[x] in first;
      SearchIsDenotation(a, t, i, c, first[x]);
    }
  }

  /** The leftmost match, and among those the most preferred one: where it starts and what it is. */
  function Find(r: Re, t: string, from: nat := 0): Option<(nat, Match)>
    requires from <= |t|
    decreases |t| - from
  {
    var ms := Search(r, t, from, None);
    if ms != [] then Some((from, ms[0]))
    else if from < |t| then Find(r, t, from + 1)
    else None
  }

  // ---------------------------------------------------------------- the languages of the building blocks

  /** A class in front consumes one character of it. */
  lemma ClassFirst(chars: set<char>, rest: Re, t: string, i: nat, c: Option<Span>, m: Match)
    requires i <= |t|
    ensures Denotes(Cat(Class(chars), rest), t, i, c, m)
       <==> i < |t| && t[i] in chars && Denotes(rest, t, i + 1, c, m)
  {
  }

  ghost predicate AllIn(s: string, chars: set<char>) {
    forall i | 0 <= i < |s| :: s[i] in chars
  }

  lemma AllInSplit(chars: set<char>, t: string, i: nat, j: nat)
    requires i < j <= |t|
    ensures AllIn(t[i..j], chars) <==> t[i] in chars && AllIn(t[i + 1..j], chars)
  {
  }

  lemma {:induction false} LiteralDenotes(w: string, t: string, i: nat, c: Option<Span>, m: Match)
    requires i <= |t|
    ensures Denotes(Literal(w), t, i, c, m) <==> m == Match(i + |w|, c) && i + |w| <= |t| && t[i..i + |w|] == w
    decreases |w|
  {
    if w != [] {
      ClassFirst({w[0]}, Literal(w[1..]), t, i, c, m);
      if i < |t| {
        LiteralDenotes(w[1..], t, i + 1, c, m);
        assert i + |w| <= |t| ==> t[i..i + |w|] == [t[i]] + t[i + 1..i + |w|];
        assert w == [w[0]] + w[1..];
      }
    }
  }

  lemma {:induction false} TimesDenotes(chars: set<char>, n: nat, t: string, i: nat, c: Option<Span>, m: Match)
    requires i <= |t|
    ensures Denotes(Times(Class(chars), n), t, i, c, m)
       <==> m == Match(i + n, c) && i + n <= |t| && AllIn(t[i..i + n], chars)
    decreases n
  {
    if n > 0 {
      ClassFirst(chars, Times(Class(chars), n - 1), t, i, c, m);
      if i < |t| {
        TimesDenotes(chars, n - 1, t, i + 1, c, m);
        if i + n <= |t| {
          AllInSplit(chars, t, i, i + n);
        }
      }
    }
  }

  lemma {:induction false} StarDenotes(chars: set<char>, t: string, i: nat, c: Option<Span>, m: Match)
    requires i <= |t|
    ensures Denotes(Star(Class(chars)), t, i, c, m)
       <==> m.group == c && i <= m.end <= |t| && AllIn(t[i..m.end], chars)
    decreases |t| - i
  {
    if i < |t| {
      StarDenotes(chars, t, i + 1, c, m);
      if i < m.end <= |t| {
        AllInSplit(chars, t, i, m.end);
      }
      if t[i] in chars {
        assert Denotes(Class(chars), t, i, c, Match(i + 1, c));
      }
    }
  }

  /** A starred class in front consumes some stretch of it. */
  lemma StarFirst(chars: set<char>, rest: Re, t: string, i: nat, c: Option<Span>, m: Match)
    requires i <= |t|
    ensures Denotes(Cat(Star(Class(chars)), rest), t, i, c, m) <==>
            exists k: nat :: StarUpTo(chars, rest, t, i, c, m, k)
  {
    var star := Star(Class(chars));
    if k: Match :| k.end <= |t| && Denotes(star, t, i, c, k) && Denotes(rest, t, k.end, k.group, m) {
      StarDenotes(chars, t, i, c, k);
      assert StarUpTo(chars, rest, t, i, c, m, k.end);
    }
    if k: nat :| StarUpTo(chars, rest, t, i, c, m, k) {
      StarDenotes(chars, t, i, c, Match(k, c));
    }
  }

  ghost predicate StarUpTo(chars: set<char>, rest: Re, t: string, i: nat, c: Option<Span>, m: Match, k: nat) {
    i <= k <= |t| && AllIn(t[i..k], chars) && Denotes(rest, t, k, c, m)
  }

  /** An anchored expression only ever matches at the start, so finding is searching at zero. */
  lemma {:induction false} AnchoredFind(r: Re, t: string, from: nat)
    requires from <= |t|
    ensures var whole := Find(Cat(Begin, r), t, from);
            && (whole.Some? ==> from == 0 && whole.value.0 == 0 && Denotes(r, t, 0, None, whole.value.1))
            && (whole.None? && from == 0 ==> forall m :: !Denotes(r, t, 0, None, m))
    decreases |t| - from
  {
    var re := Cat(Begin, r);
    var ms := Search(re, t, from, None);
    forall m
      ensures m in ms <==> from == 0 && Denotes(r, t, 0, None, m)
    {
      SearchIsDenotation(re, t, from, None, m);
      if from == 0 {
        assert Denotes(Begin, t, 0, None, Match(0, None));
      }
    }
    if ms != [] {
      assert ms[0] in ms;
    } else if from < |t| {
      AnchoredFind(r, t, from + 1);
    }
  }
}
