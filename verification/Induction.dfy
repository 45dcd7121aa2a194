/**
  Grammar induction.  A template either explains a line or not; a profile is tried first match
  wins.  The inducer keeps, from round to round, the training lines nothing kept explains.
*/
module Induction {
  import opened Common

  type Line = string

  datatype Template = Template(pattern: string)

  /** Which template explains which line, and which lines are refused a grammar outright. */
  datatype World = World(explains: (Template, Line) -> bool, refused: Line -> bool)

  type Counts = map<Line, int>

  // ---------------------------------------------------------------- first match wins

  /** The position of the first template explaining the line; none for a refused line. */
  function Apply(w: World, templates: seq<Template>, d: Line): (r: Option<nat>)
    ensures r.Some? ==> r.value < |templates| && w.explains(templates[r.value], d) && !w.refused(d)
    ensures r.Some? ==> forall i :: 0 <= i < r.value ==> !w.explains(templates[i], d)
    ensures r.None? ==> w.refused(d) || forall i :: 0 <= i < |templates| ==> !w.explains(templates[i], d)
  {
    if w.refused(d) then None else FirstFrom(w, templates, d, 0)
  }

  function FirstFrom(w: World, templates: seq<Template>, d: Line, n: nat): (r: Option<nat>)
    requires n <= |templates|
    ensures r.Some? ==> n <= r.value < |templates| && w.explains(templates[r.value], d)
    ensures r.Some? ==> forall i :: n <= i < r.value ==> !w.explains(templates[i], d)
    ensures r.None? ==> forall i :: n <= i < |templates| ==> !w.explains(templates[i], d)
    decreases |templates| - n
  {
    if n == |templates| then None
    else if w.explains(templates[n], d) then Some(n)
    else FirstFrom(w, templates, d, n + 1)
  }

  /** A later template never changes how an explained line is matched. */
  lemma AppendingKeepsMatches(w: World, a: seq<Template>, b: seq<Template>, d: Line)
    requires Apply(w, a, d).Some?
    ensures Apply(w, a + b, d) == Apply(w, a, d)
  {
    var i := Apply(w, a, d).value;
    assert w.explains((a + b)[i], d);
    assert forall k :: 0 <= k < i ==> (a + b)[k] == a[k] && !w.explains(a[k], d);
  }

  // ---------------------------------------------------------------- counts

  /** The total of a map's counts, whatever order they are added in. */
  ghost function Sum(c: Counts): int {
    if c == map[] then 0 else var d :| d in c; c[d] + Sum(c - {d})
  }

  lemma {:induction false} SumRemove(c: Counts, d: Line)
    requires d in c
    ensures Sum(c) == c[d] + Sum(c - {d})
    decreases |c|
  {
    var e :| e in c && Sum(c) == c[e] + Sum(c - {e});
    if e != d {
      SumRemove(c - {e}, d);
      assert c - {e} - {d} == c - {d} - {e};
      SumRemove(c - {d}, e);
    }
  }

  /** A map's total splits along any set of keys. */
  lemma {:induction false} SumSplits(c: Counts, keep: set<Line>)
    ensures Sum(c) == Sum(map d | d in c && d in keep :: c[d]) + Sum(map d | d in c && d !in keep :: c[d])
    decreases |c|
  {
    var a := map d | d in c && d in keep :: c[d];
    var b := map d | d in c && d !in keep :: c[d];
    if c == map[] {
      assert a == map[] && b == map[];
    } else {
      var d :| d in c;
      SumRemove(c, d);
      SumSplits(c - {d}, keep);
      if d in keep {
        SumRemove(a, d);
        assert (map e | e in c - {d} && e in keep :: (c - {d})[e]) == a - {d};
        assert (map e | e in c - {d} && e !in keep :: (c - {d})[e]) == b;
      } else {
        SumRemove(b, d);
        assert (map e | e in c - {d} && e in keep :: (c - {d})[e]) == a;
        assert (map e | e in c - {d} && e !in keep :: (c - {d})[e]) == b - {d};
      }
    }
  }

  method Total(c: Counts) returns (total: int)
    ensures total == Sum(c)
  {
    total := 0;
    var rest := c;
    while rest != map[]
      invariant total + Sum(rest) == Sum(c)
      decreases |rest|
    {
      var d :| d in rest;
      SumRemove(rest, d);
      total := total + rest[d];
      rest := rest - {d};
    }
  }

  /** The lines some template explains. */
  function Explained(w: World, templates: seq<Template>, c: Counts): Counts {
    map d | d in c && Apply(w, templates, d).Some? :: c[d]
  }

  /** A share of movements: what is explained over the total, an empty total counting as one. */
  ghost function Weighted(w: World, templates: seq<Template>, c: Counts): real {
    Sum(Explained(w, templates, c)) as real / Divisor(c) as real
  }

  ghost function Divisor(c: Counts): (d: int)
    ensures d != 0
  {
    if Sum(c) == 0 then 1 else Sum(c)
  }

  // ---------------------------------------------------------------- the holdout

  /** Each line falls on one side by its own hash; unless both sides are inhabited there is no holdout. */
  function Split(c: Counts, held: Line -> bool): (r: (Counts, Counts))
    ensures r.0.Keys !! r.1.Keys && r.0 + r.1 == c
    ensures forall d :: d in r.1 <==> d in c && held(d) && exists e :: e in c && !held(e)
  {
    var train := map d | d in c && !held(d) :: c[d];
    var test := map d | d in c && held(d) :: c[d];
    if train == map[] || test == map[] then (c, map[]) else (train, test)
  }

  // ---------------------------------------------------------------- induction

  /** The training lines no template explains. */
  ghost function Unexplained(w: World, templates: seq<Template>, c: Counts): Counts {
    map d | d in c && Apply(w, templates, d).None? :: c[d]
  }

  /** Every template is the first match of some line. */
  ghost predicate AllEarnTheirPlace(w: World, templates: seq<Template>, c: Counts) {
    forall i :: 0 <= i < |templates| ==> Earns(w, templates, i, c)
  }

  ghost predicate Earns(w: World, templates: seq<Template>, i: nat, c: Counts) {
    exists d :: d in c && Apply(w, templates, d) == Some(i)
  }

  predicate Mentions(templates: seq<Template>, pattern: string) {
    exists i :: 0 <= i < |templates| && templates[i].pattern == pattern
  }

  function Fresh(got: seq<Template>, templates: seq<Template>): seq<Template> {
    if got == [] then [] else
      var t := got[|got| - 1];
      Fresh(got[..|got| - 1], templates) + if Mentions(templates, t.pattern) then [] else [t]
  }

  /** `holdout` is the share of the withheld lines explained, when any were withheld. */
  datatype Induced = Induced(templates: seq<Template>, coverage: real, unmatched: Counts, heldUnmatched: Counts,
                             heldOut: Counts, holdout: Option<real>, rounds: nat)

  /** A kept template explains some line nothing before it explained, so it is that line's first match. */
  lemma KeptEarnsItsPlace(w: World, templates: seq<Template>, t: Template, c: Counts, d: Line)
    requires AllEarnTheirPlace(w, templates, c)
    requires d in c && Apply(w, templates, d).None? && Apply(w, templates + [t], d).Some?
    ensures AllEarnTheirPlace(w, templates + [t], c)
  {
    var more := templates + [t];
    forall i | 0 <= i < |more| ensures Earns(w, more, i, c) {
      if i < |templates| {
        assert Earns(w, templates, i, c);
        var x :| x in c && Apply(w, templates, x) == Some(i);
        AppendingKeepsMatches(w, templates, [t], x);
      } else {
        var m := Apply(w, more, d).value;
        assert w.explains(more[m], d);
        assert m == |templates|;
      }
    }
  }

  /** Filtering the remaining lines by the longer profile is filtering all lines by it. */
  lemma RemainingIsRecomputable(w: World, templates: seq<Template>, more: seq<Template>, c: Counts, remaining: Counts)
    requires remaining == Unexplained(w, templates, c)
    ensures (map d | d in remaining && Apply(w, templates + more, d).None? :: remaining[d])
            == Unexplained(w, templates + more, c)
  {
    forall d | d in c && Apply(w, templates + more, d).None? ensures Apply(w, templates, d).None? {
      if Apply(w, templates, d).Some? {
        AppendingKeepsMatches(w, templates, more, d);
      }
    }
  }

  // ---------------------------------------------------------------- one round

  /** The profile so far and the lines it leaves. */
  datatype Kept = Kept(templates: seq<Template>, remaining: Counts)

  /** A template is kept only if it explains a remaining line. */
  function Consider(w: World, k: Kept, t: Template): Kept {
    var left := map d | d in k.remaining && Apply(w, k.templates + [t], d).None? :: k.remaining[d];
    if |left| < |k.remaining| then Kept(k.templates + [t], left) else k
  }

  function ConsiderAll(w: World, k: Kept, candidates: seq<Template>): Kept {
    if candidates == [] then k else
      Consider(w, ConsiderAll(w, k, candidates[..|candidates| - 1]), candidates[|candidates| - 1])
  }

  /** What remains is what a recomputation would leave, and every template is some line's first match. */
  ghost predicate Sound(w: World, k: Kept, c: Counts) {
    k.remaining == Unexplained(w, k.templates, c) && AllEarnTheirPlace(w, k.templates, c)
  }

  /** A template that explains none of the lines. */
  ghost predicate Useless(w: World, t: Template, lines: Counts) { forall d :: d in lines ==> Apply(w, [t], d).None? }

  lemma Fewer(a: set<Line>, b: set<Line>)
    requires a <= b
    ensures |a| <= |b| && (|a| == |b| ==> a == b)
  {
    assert b == a + (b - a);
  }

  /** Extending a profile by one template leaves a line unexplained when both do. */
  lemma ApplyOneMore(w: World, templates: seq<Template>, t: Template, d: Line)
    ensures Apply(w, templates + [t], d).None? <==> Apply(w, templates, d).None? && Apply(w, [t], d).None?
  {
    var more := templates + [t];
    assert more[|templates|] == t && [t][0] == t;
    if Apply(w, templates, d).Some? {
      AppendingKeepsMatches(w, templates, [t], d);
    }
  }

  /** One candidate considered: dropped exactly if it explains nothing left, and otherwise kept. */
  lemma ConsiderKeeps(w: World, k: Kept, t: Template, c: Counts)
    requires Sound(w, k, c)
    ensures var next := Consider(w, k, t);
            && Sound(w, next, c) && Useless(w, t, next.remaining) && next.remaining.Keys <= k.remaining.Keys
            && next == (if Useless(w, t, k.remaining) then k else Kept(k.templates + [t], next.remaining))
            && (next.remaining.Keys == k.remaining.Keys ==> next == k)
  {
    var left := map d | d in k.remaining && Apply(w, k.templates + [t], d).None? :: k.remaining[d];
    RemainingIsRecomputable(w, k.templates, [t], c, k.remaining);
    Fewer(left.Keys, k.remaining.Keys);
    forall d | d in k.remaining ensures d in left <==> Apply(w, [t], d).None? {
      ApplyOneMore(w, k.templates, t, d);
    }
    if |left| < |k.remaining| {
      assert left.Keys != k.remaining.Keys;
      var d :| d in k.remaining && d !in left;
      KeptEarnsItsPlace(w, k.templates, t, c, d);
    } else {
      assert left.Keys == k.remaining.Keys;
    }
  }

  /** After a whole round the profile is sound again, and has grown if any line was explained. */
  lemma {:induction false} RoundKeeps(w: World, k: Kept, candidates: seq<Template>, c: Counts)
    requires Sound(w, k, c)
    ensures var next := ConsiderAll(w, k, candidates);
            && Sound(w, next, c) && next.remaining.Keys <= k.remaining.Keys
            && (next.remaining.Keys == k.remaining.Keys ==> next == k)
  {
    if candidates != [] {
      var before := ConsiderAll(w, k, candidates[..|candidates| - 1]);
      RoundKeeps(w, k, candidates[..|candidates| - 1], c);
      ConsiderKeeps(w, before, candidates[|candidates| - 1], c);
    }
  }

  /** It adds only candidates, after what was there. */
  lemma {:induction false} RoundAdds(w: World, k: Kept, candidates: seq<Template>, t: Template)
    ensures k.templates <= ConsiderAll(w, k, candidates).templates
    ensures t in ConsiderAll(w, k, candidates).templates ==> t in k.templates || t in candidates
  {
    if candidates != [] {
      var front, last := candidates[..|candidates| - 1], candidates[|candidates| - 1];
      RoundAdds(w, k, front, t);
      assert candidates == front + [last];
    }
  }

  /** And no candidate explains a line still remaining. */
  lemma {:induction false} RoundUses(w: World, k: Kept, candidates: seq<Template>, c: Counts, t: Template)
    requires Sound(w, k, c) && t in candidates
    ensures Useless(w, t, ConsiderAll(w, k, candidates).remaining)
  {
    var front, last := candidates[..|candidates| - 1], candidates[|candidates| - 1];
    var before := ConsiderAll(w, k, front);
    assert candidates == front + [last];
    RoundKeeps(w, k, front, c);
    ConsiderKeeps(w, before, last, c);
    if t != last {
      RoundUses(w, k, front, c, t);
    }
  }

  /** One round's fresh templates, each kept only if it explains a remaining line. */
  method Keep(w: World, before: seq<Template>, candidates: seq<Template>, ghost c: Counts, start: Counts)
    returns (templates: seq<Template>, remaining: Counts)
    requires Sound(w, Kept(before, start), c)
    ensures Kept(templates, remaining) == ConsiderAll(w, Kept(before, start), candidates)
    ensures Sound(w, Kept(templates, remaining), c) && before <= templates
    ensures forall t :: t in templates ==> t in before || t in candidates
    ensures forall t :: t in candidates ==> Useless(w, t, remaining)
    ensures |remaining| <= |start| && (|remaining| == |start| ==> templates == before && remaining == start)
  {
    templates, remaining := before, start;
    for i := 0 to |candidates|
      invariant Kept(templates, remaining) == ConsiderAll(w, Kept(before, start), candidates[..i])
    {
      assert candidates[..i + 1][..i] == candidates[..i];
      var t := candidates[i];
      var left := map d | d in remaining && Apply(w, templates + [t], d).None? :: remaining[d];
      if |left| < |remaining| {
        templates, remaining := templates + [t], left;
      }
    }
    assert candidates[..|candidates|] == candidates;
    RoundKeeps(w, Kept(before, start), candidates, c);
    RoundAdds(w, Kept(before, start), candidates, Template(""));
    forall t | t in templates ensures t in before || t in candidates {
      RoundAdds(w, Kept(before, start), candidates, t);
    }
    forall t | t in candidates ensures Useless(w, t, remaining) {
      RoundUses(w, Kept(before, start), candidates, c, t);
    }
    Fewer(remaining.Keys, start.Keys);
  }

  // ---------------------------------------------------------------- all rounds

  type Replies = (nat, seq<Line>) -> Option<seq<Template>>

  /** Some reply given in the first `n` rounds offered `t`. */
  ghost predicate Offered(replies: Replies, n: nat, t: Template) {
    exists i, shown :: 1 <= i <= n && replies(i, shown).Some? && t in replies(i, shown).value
  }

  /**
    Nothing is left to do, or to do it with: every line is explained, the rounds are used up, each
    having kept a template, or the last reply, to a sample of the very lines that remain, offered
    nothing that explains one.
  */
  ghost predicate Exhausted(w: World, k: Kept, used: nat, rounds: nat, sample: Counts -> seq<Line>, replies: Replies) {
    || k.remaining == map[]
    || (used == rounds && |k.templates| >= used)
    || (used > 0 && var got := replies(used, sample(k.remaining));
        got.None? || forall t :: t in got.value ==> Useless(w, t, k.remaining))
  }

  /** A template already in the profile explains nothing that remains, and neither does one like it. */
  lemma StaleIsUseless(w: World, k: Kept, got: seq<Template>, c: Counts, t: Template)
    requires Sound(w, k, c) && t in got && t !in Fresh(got, k.templates)
    ensures Useless(w, t, k.remaining)
  {
    FreshMembers(got, k.templates, t);
    var i :| 0 <= i < |k.templates| && k.templates[i].pattern == t.pattern;
    forall d | d in k.remaining ensures Apply(w, [t], d).None? {
      assert k.templates[i] == t && [t][0] == t;
    }
  }

  lemma {:induction false} FreshMembers(got: seq<Template>, templates: seq<Template>, t: Template)
    ensures t in Fresh(got, templates) <==> t in got && !Mentions(templates, t.pattern)
  {
    if got != [] {
      FreshMembers(got[..|got| - 1], templates, t);
      assert got == got[..|got| - 1] + [got[|got| - 1]];
    }
  }

  /** A round whose fresh templates explained nothing offered nothing that does. */
  lemma IdleRound(w: World, k: Kept, got: seq<Template>, c: Counts)
    requires Sound(w, k, c) && forall t :: t in Fresh(got, k.templates) ==> Useless(w, t, k.remaining)
    ensures forall t :: t in got ==> Useless(w, t, k.remaining)
  {
    forall t | t in got ensures Useless(w, t, k.remaining) {
      if t !in Fresh(got, k.templates) {
        StaleIsUseless(w, k, got, c, t);
      }
    }
  }

  lemma OfferedOnce(replies: Replies, n: nat, shown: seq<Line>, got: seq<Template>, before: seq<Template>,
                    after: seq<Template>)
    requires n >= 1 && replies(n, shown) == Some(got)
    requires forall t :: t in before ==> Offered(replies, n - 1, t)
    requires forall t :: t in after ==> t in before || t in Fresh(got, before)
    ensures forall t :: t in after ==> Offered(replies, n, t)
  {
    forall t | t in after ensures Offered(replies, n, t) {
      FreshMembers(got, before, t);
      if t in before {
        var i, x :| 1 <= i <= n - 1 && replies(i, x).Some? && t in replies(i, x).value;
      }
    }
  }

  /** Up to `rounds` passes over the lines still unexplained; a pass that explains nothing new is the last. */
  method Rounds(w: World, lines: Counts, rounds: nat, sample: Counts -> seq<Line>, replies: Replies)
    returns (templates: seq<Template>, remaining: Counts, used: nat)
    ensures Sound(w, Kept(templates, remaining), lines)
    ensures forall t :: t in templates ==> Offered(replies, used, t)
    ensures Exhausted(w, Kept(templates, remaining), used, rounds, sample, replies)
    ensures used <= rounds && (templates != [] ==> used >= 1)
  {
    templates, remaining, used := [], lines, 0;
    NothingExplained(w, lines);
    while used < rounds && remaining != map[]
      invariant Sound(w, Kept(templates, remaining), lines)
      invariant forall t :: t in templates ==> Offered(replies, used, t)
      invariant used <= rounds && |templates| >= used && (templates != [] ==> used >= 1)
    {
      used := used + 1;
      ghost var before := Kept(templates, remaining);
      var got := replies(used, sample(remaining));
      if got.None? {
        StillOffered(replies, used, templates);
        return;
      }
      var candidates := Fresh(got.value, templates);
      if candidates == [] {
        IdleRound(w, before, got.value, lines);
        StillOffered(replies, used, templates);
        return;
      }
      var count := |remaining|;
      templates, remaining := Keep(w, templates, candidates, lines, remaining);
      OfferedOnce(replies, used, sample(before.remaining), got.value, before.templates, templates);
      if count == |remaining| {
        IdleRound(w, before, got.value, lines);
        return;
      }
      SomethingKept(w, before, Kept(templates, remaining), lines);
    }
  }

  lemma SomethingKept(w: World, before: Kept, after: Kept, c: Counts)
    requires Sound(w, before, c) && Sound(w, after, c) && before.templates <= after.templates
    requires |before.remaining| != |after.remaining|
    ensures |before.templates| < |after.templates|
  {
    assert |before.templates| == |after.templates| ==> before.templates == after.templates;
  }

  lemma StillOffered(replies: Replies, n: nat, templates: seq<Template>)
    requires n >= 1 && forall t :: t in templates ==> Offered(replies, n - 1, t)
    ensures forall t :: t in templates ==> Offered(replies, n, t)
  {
    forall t | t in templates ensures Offered(replies, n, t) {
      var i, x :| 1 <= i <= n - 1 && replies(i, x).Some? && t in replies(i, x).value;
    }
  }

  lemma NothingExplained(w: World, c: Counts)
    ensures Unexplained(w, [], c) == c
  {
  }

  function Eligible(w: World, counts: Counts): Counts { map d | d in counts && !w.refused(d) :: counts[d] }

  /** The share of movements a profile explains. */
  method WeightedCoverage(w: World, templates: seq<Template>, c: Counts) returns (share: real)
    ensures share == Weighted(w, templates, c)
  {
    var total := Total(c);
    var matched := Total(Explained(w, templates, c));
    share := matched as real / (if total == 0 then 1 else total) as real;
  }

  /** What is reported of a profile: its coverage, what it leaves, and its share of the withheld lines. */
  ghost predicate Reports(w: World, r: Induced, train: Counts, test: Counts) {
    && r.heldOut == test && Sound(w, Kept(r.templates, r.unmatched), train)
    && r.coverage == (if r.templates == [] then 0.0
                      else (Divisor(train) - Sum(r.unmatched)) as real / Divisor(train) as real)
    && r.holdout == (if test == map[] then None else Some(Weighted(w, r.templates, test)))
    && r.heldUnmatched == (if r.templates == [] then map[] else Unexplained(w, r.templates, test))
  }

  method Report(w: World, templates: seq<Template>, remaining: Counts, total: int, ghost train: Counts, test: Counts,
                used: nat)
    returns (r: Induced)
    requires Sound(w, Kept(templates, remaining), train) && total == Divisor(train)
    ensures Reports(w, r, train, test) && r.templates == templates && r.unmatched == remaining
    ensures r.rounds == if templates == [] && used == 0 then 1 else used
  {
    var none: Option<real> := None;
    if templates == [] {
      NothingWeighs(w, test);
      return Induced([], 0.0, remaining, map[], test, if test == map[] then none else Some(0.0),
                     if used == 0 then 1 else used);
    }
    var left := Total(remaining);
    var share := WeightedCoverage(w, templates, test);
    r := Induced(templates, (total - left) as real / total as real, remaining,
                 map d | d in test && Apply(w, templates, d).None? :: test[d], test,
                 if test == map[] then none else Some(share), used);
  }

  /**
    Induce on the lines not withheld.  `replies(n, sample)` is the parsed answer of round `n`, if
    it had one, and `sample` chooses what a round is shown.
  */
  method Induce(w: World, counts: Counts, held: Line -> bool, rounds: nat, sample: Counts -> seq<Line>,
                replies: Replies)
    returns (r: Induced)
    requires rounds >= 1
    ensures var (train, test) := Split(Eligible(w, counts), held);
            && Reports(w, r, train, test)
            && ((forall d :: d in counts ==> counts[d] > 0) ==> r.coverage == Weighted(w, r.templates, train))
    ensures Exhausted(w, Kept(r.templates, r.unmatched), r.rounds, rounds, sample, replies)
    ensures forall t :: t in r.templates ==> Offered(replies, r.rounds, t)
    ensures 1 <= r.rounds <= rounds
    ensures forall d :: d in r.heldOut <==>
              d in counts && !w.refused(d) && held(d) && exists e :: e in counts && !w.refused(e) && !held(e)
    ensures forall d :: d in r.unmatched <==>
              && d in counts && !w.refused(d) && d !in r.heldOut
              && forall t :: t in r.templates ==> !w.explains(t, d)
    ensures forall d :: d in counts ==> (d in r.heldOut ==> r.heldOut[d] == counts[d])
                                        && (d in r.unmatched ==> r.unmatched[d] == counts[d])
  {
    var (train, test) := Split(Eligible(w, counts), held);
    var total := Total(train);
    if total == 0 {
      total := 1;
    }
    var templates, remaining, used := Rounds(w, train, rounds, sample, replies);
    r := Report(w, templates, remaining, total, train, test, used);
    if forall d :: d in counts ==> counts[d] > 0 {
      assert forall d :: d in train ==> train[d] == Eligible(w, counts)[d] == counts[d];
      CoverageIsWeighted(w, r, train, test);
    }
    SidesOfInduction(w, counts, held, train, test);
    LeftoversAre(w, r.templates, train);
  }

  /** Refused lines are on neither side. */
  lemma SidesOfInduction(w: World, counts: Counts, held: Line -> bool, train: Counts, test: Counts)
    requires (train, test) == Split(Eligible(w, counts), held)
    ensures forall d :: d in test <==>
              d in counts && !w.refused(d) && held(d) && exists e :: e in counts && !w.refused(e) && !held(e)
    ensures forall d :: d in train <==> d in counts && !w.refused(d) && d !in test
    ensures forall d :: d in counts ==> (d in test ==> test[d] == counts[d]) && (d in train ==> train[d] == counts[d])
  {
    var eligible := Eligible(w, counts);
    assert forall d :: d in eligible <==> d in counts && !w.refused(d);
    assert forall d :: d in train + test <==> d in eligible;
    forall d | d in eligible ensures (train + test)[d] == counts[d] {
    }
  }

  lemma LeftoversAre(w: World, templates: seq<Template>, c: Counts)
    requires forall d :: d in c ==> !w.refused(d)
    ensures forall d :: d in Unexplained(w, templates, c) <==>
              d in c && forall t :: t in templates ==> !w.explains(t, d)
  {
    forall d | d in c
      ensures Apply(w, templates, d).None? <==> forall t :: t in templates ==> !w.explains(t, d) {
      if Apply(w, templates, d).Some? {
        assert templates[Apply(w, templates, d).value] in templates;
      }
    }
  }

  /** An empty profile explains no share of anything. */
  lemma NothingWeighs(w: World, c: Counts)
    ensures Weighted(w, [], c) == 0.0
  {
    assert Explained(w, [], c) == map[];
    assert Sum(map[]) == 0;
  }

  lemma SomeLineEarned(w: World, templates: seq<Template>, c: Counts)
    requires templates != [] && AllEarnTheirPlace(w, templates, c)
    ensures c != map[]
  {
    assert Earns(w, templates, 0, c);
  }

  /** With positive counts the share reported is the share recomputed on the final profile. */
  lemma CoverageIsWeighted(w: World, r: Induced, train: Counts, test: Counts)
    requires Reports(w, r, train, test) && forall d :: d in train ==> train[d] > 0
    ensures r.coverage == Weighted(w, r.templates, train)
  {
    if r.templates != [] {
      SomeLineEarned(w, r.templates, train);
      PositiveCountsAddUp(train);
    }
    ReportedCoverageIsRecomputedIff(w, r, train, test);
  }

  // ---------------------------------------------------------------- reported and recomputed coverage

  /**
    The reported share is the share recomputed on the final profile exactly when the profile is
    empty or the training counts do not add up to zero; otherwise it is one too high.
  */
  lemma ReportedCoverageIsRecomputedIff(w: World, r: Induced, train: Counts, test: Counts)
    requires Reports(w, r, train, test)
    ensures r.coverage == Weighted(w, r.templates, train) <==> r.templates == [] || Sum(train) != 0
    ensures r.templates != [] && Sum(train) == 0 ==> r.coverage == Weighted(w, r.templates, train) + 1.0
  {
    if r.templates == [] {
      NothingWeighs(w, train);
    } else {
      assert r.coverage == Share(w, r.templates, train);
      if Sum(train) == 0 {
        ShareIsOneMore(w, r.templates, train);
      } else {
        ShareIsRecomputed(w, r.templates, train);
      }
    }
  }

  /** What is not left over, as a share of the training counts. */
  ghost function Share(w: World, templates: seq<Template>, train: Counts): real {
    (Divisor(train) - Sum(Unexplained(w, templates, train))) as real / Divisor(train) as real
  }

  lemma TotalsAgree(w: World, templates: seq<Template>, train: Counts)
    ensures Sum(train) != 0 ==>
            Divisor(train) - Sum(Unexplained(w, templates, train)) == Sum(Explained(w, templates, train))
    ensures Sum(train) == 0 ==>
            Divisor(train) == 1 && Sum(Unexplained(w, templates, train)) == -Sum(Explained(w, templates, train))
  {
    ExplainedPlusUnexplained(w, templates, train);
  }

  lemma ShareIsRecomputed(w: World, templates: seq<Template>, train: Counts)
    requires Sum(train) != 0
    ensures Share(w, templates, train) == Weighted(w, templates, train)
  {
    TotalsAgree(w, templates, train);
  }

  lemma ShareIsOneMore(w: World, templates: seq<Template>, train: Counts)
    requires Sum(train) == 0
    ensures Share(w, templates, train) == Weighted(w, templates, train) + 1.0
  {
    TotalsAgree(w, templates, train);
    OneTooHigh(Sum(Unexplained(w, templates, train)), Sum(Explained(w, templates, train)));
  }

  /**
    An induction over one line that no movement carries, whose template every reply offers, reports
    a share of one too many.
  */
  method ZeroCountsOverstate(w: World, t: Template, d: Line, rounds: nat,
                             sample: Counts -> seq<Line>)
    returns (r: Induced)
    requires rounds >= 1 && w.explains(t, d) && !w.refused(d)
    ensures r.templates != [] && r.coverage == Weighted(w, r.templates, map[d := 0]) + 1.0
  {
    var counts: Counts := map[d := 0];
    var replies: Replies := (n, shown) => Some([t]);
    r := Induce(w, counts, x => false, rounds, sample, replies);
    assert Split(Eligible(w, counts), x => false) == (counts, map[]) by {
      assert Eligible(w, counts) == counts;
    }
    ghost var k := Kept(r.templates, r.unmatched);
    assert replies(r.rounds, sample(k.remaining)) == Some([t]);
    KeptBecauseOffered(w, k, counts, t, d);
    SumRemove(counts, d);
    assert counts - {d} == map[];
    ReportedCoverageIsRecomputedIff(w, r, counts, map[]);
  }

  lemma KeptBecauseOffered(w: World, k: Kept, c: Counts, t: Template, d: Line)
    requires Sound(w, k, c) && d in c && w.explains(t, d) && !w.refused(d)
    ensures Useless(w, t, k.remaining) || k.remaining == map[] ==> k.templates != []
  {
    assert [t][0] == t;
    assert Apply(w, [t], d).Some?;
    if k.templates == [] {
      assert Apply(w, k.templates, d).None? && d in k.remaining;
    }
  }

  lemma OneTooHigh(left: int, matched: int)
    requires left + matched == 0
    ensures (1 - left) as real / 1 as real == matched as real / 1 as real + 1.0
  {
  }

  lemma ExplainedPlusUnexplained(w: World, templates: seq<Template>, train: Counts)
    ensures Sum(train) == Sum(Explained(w, templates, train)) + Sum(Unexplained(w, templates, train))
  {
    var matched := set d | d in train && Apply(w, templates, d).Some?;
    SumSplits(train, matched);
    assert (map d | d in train && d in matched :: train[d]) == Explained(w, templates, train);
    assert (map d | d in train && d !in matched :: train[d]) == Unexplained(w, templates, train);
  }

  lemma {:induction false} PositiveCountsAddUp(c: Counts)
    requires c != map[] && forall d :: d in c ==> c[d] > 0
    ensures Sum(c) > 0
    decreases |c|
  {
    var d :| d in c;
    SumRemove(c, d);
    if c - {d} != map[] {
      PositiveCountsAddUp(c - {d});
    }
  }
}
