/**
  What a round of induction is shown: lines grouped by their literal spine, a few unlike
  examples of each group, taken round-robin across the groups.
*/
module Sampler {
  import opened Common
  import opened TextOrder

  type Line = string
  type Token = string

  /** How a line falls into lower-cased tokens, and which tokens carry a digit. */
  datatype Reading = Reading(tokens: Line -> seq<Token>, digity: Token -> bool)

  /** What a filler is masked by. */
  const DIGITS: Token := "#"
  const ONCE: Token := "*"

  // ---------------------------------------------------------------- skeletons

  predicate Carries(r: Reading, d: Line, t: Token) { t in r.tokens(d) && !r.digity(t) }

  /** The number of lines carrying a word. */
  function Seen(r: Reading, lines: seq<Line>, t: Token): nat {
    if lines == [] then 0 else
      Seen(r, lines[..|lines| - 1], t) + if Carries(r, lines[|lines| - 1], t) then 1 else 0
  }

  function MaskOf(r: Reading, lines: seq<Line>, t: Token): Token {
    if r.digity(t) then DIGITS else if Seen(r, lines, t) > 1 then t else ONCE
  }

  /** Tokens with single blanks in between. */
  function Joined(tokens: seq<Token>): string {
    if tokens == [] then ""
    else if |tokens| == 1 then tokens[0]
    else Joined(tokens[..|tokens| - 1]) + " " + tokens[|tokens| - 1]
  }

  /** The line with its fillers masked: what it shares with the lines one template produced. */
  function Spine(r: Reading, lines: seq<Line>, d: Line): string {
    Joined(seq(|r.tokens(d)|, i requires 0 <= i < |r.tokens(d)| => MaskOf(r, lines, r.tokens(d)[i])))
  }

  /** The lines of one spine, in order. */
  function Having(r: Reading, all: seq<Line>, lines: seq<Line>, s: string): seq<Line> {
    if lines == [] then [] else
      var d := lines[|lines| - 1];
      Having(r, all, lines[..|lines| - 1], s) + if Spine(r, all, d) == s then [d] else []
  }

  type Groups = map<string, seq<Line>>

  function Of(groups: Groups, s: string): seq<Line> { if s in groups then groups[s] else [] }

  function File(groups: Groups, s: string, d: Line): (r: Groups)
    ensures forall x :: Of(r, x) == Of(groups, x) + if x == s then [d] else []
    ensures (forall x :: x in groups ==> groups[x] != []) ==> forall x :: x in r ==> r[x] != []
  {
    groups[s := Of(groups, s) + [d]]
  }

  /** The lines of a sample: those of the descriptors that are not blank, once each, in order of text. */
  ghost predicate Listed(r: Reading, descriptors: set<Line>, lines: seq<Line>) {
    Ascending(Less, lines) && forall d :: d in lines <==> d in descriptors && r.tokens(d) != []
  }

  /** Every line that is not blank lands in the group of its spine and in no other. */
  method Skeletons(r: Reading, descriptors: set<Line>) returns (groups: Groups, ghost lines: seq<Line>)
    ensures Listed(r, descriptors, lines)
    ensures forall s :: Of(groups, s) == Having(r, lines, lines, s)
    ensures forall s :: s in groups ==> groups[s] != []
  {
    LessIsStrictOrder();
    var listed := SortedSet((set d | d in descriptors && r.tokens(d) != []), Less);
    groups := map[];
    for i := 0 to |listed|
      invariant forall s :: Of(groups, s) == Having(r, listed, listed[..i], s)
      invariant forall s :: s in groups ==> groups[s] != []
    {
      assert listed[..i + 1][..i] == listed[..i];
      groups := File(groups, Spine(r, listed, listed[i]), listed[i]);
    }
    assert listed[..|listed|] == listed;
    lines := listed;
  }

  lemma {:induction false} HavingMembers(r: Reading, all: seq<Line>, lines: seq<Line>, s: string)
    requires Distinct(lines)
    ensures Distinct(Having(r, all, lines, s))
    ensures forall d :: d in Having(r, all, lines, s) <==> d in lines && Spine(r, all, d) == s
  {
    if lines != [] {
      HavingMembers(r, all, lines[..|lines| - 1], s);
      assert lines == lines[..|lines| - 1] + [lines[|lines| - 1]];
    }
  }

  lemma {:induction false} HavingInOrder(r: Reading, all: seq<Line>, lines: seq<Line>, s: string)
    requires Ascending(Less, lines)
    ensures Ascending(Less, Having(r, all, lines, s)) && forall d :: d in Having(r, all, lines, s) ==> d in lines
  {
    if lines != [] {
      var n := |lines| - 1;
      HavingInOrder(r, all, lines[..n], s);
      var front := Having(r, all, lines[..n], s);
      forall i | 0 <= i < |front| ensures Less(front[i], lines[n]) {
        assert front[i] in lines[..n];
      }
    }
  }

  /** Two lines carry the word. */
  ghost predicate Repeated(r: Reading, lines: seq<Line>, t: Token) {
    exists i, j :: 0 <= i < j < |lines| && t in r.tokens(lines[i]) && t in r.tokens(lines[j])
  }

  lemma {:induction false} SeenIff(r: Reading, lines: seq<Line>, t: Token)
    requires !r.digity(t)
    ensures Seen(r, lines, t) > 1 <==> Repeated(r, lines, t)
    ensures Seen(r, lines, t) > 0 <==> exists i :: 0 <= i < |lines| && t in r.tokens(lines[i])
  {
    if lines != [] {
      var n := |lines| - 1;
      SeenIff(r, lines[..n], t);
      assert forall i :: 0 <= i < n ==> lines[..n][i] == lines[i];
      if Repeated(r, lines[..n], t) {
        var i, j :| 0 <= i < j < n && t in r.tokens(lines[..n][i]) && t in r.tokens(lines[..n][j]);
        assert t in r.tokens(lines[i]) && t in r.tokens(lines[j]);
      }
      if t in r.tokens(lines[n]) {
        if i :| 0 <= i < n && t in r.tokens(lines[..n][i]) {
          assert t in r.tokens(lines[i]);
        }
      }
    }
  }

  /**
    What a spine is: the tokens of the line with single blanks in between, a token with a digit
    replaced by a number sign, and a word no second line carries by an asterisk.
  */
  lemma SpineMeans(r: Reading, lines: seq<Line>, d: Line) returns (masks: seq<Token>)
    ensures Spine(r, lines, d) == Joined(masks) && |masks| == |r.tokens(d)|
    ensures forall i :: 0 <= i < |masks| ==> var t := r.tokens(d)[i];
              masks[i] == if r.digity(t) then "#" else if Repeated(r, lines, t) then t else "*"
  {
    masks := seq(|r.tokens(d)|, i requires 0 <= i < |r.tokens(d)| => MaskOf(r, lines, r.tokens(d)[i]));
    forall i | 0 <= i < |masks|
      ensures var t := r.tokens(d)[i];
              masks[i] == if r.digity(t) then "#" else if Repeated(r, lines, t) then t else "*" {
      if !r.digity(r.tokens(d)[i]) {
        SeenIff(r, lines, r.tokens(d)[i]);
      }
    }
  }

  lemma {:induction false} JoinedConcat(a: seq<Token>, b: seq<Token>)
    requires a != [] && b != []
    ensures Joined(a + b) == Joined(a) + " " + Joined(b)
    ensures Joined([]) == "" && forall t :: Joined([t]) == t
  {
    var n := |b| - 1;
    assert (a + b)[..|a + b| - 1] == a + b[..n];
    if n == 0 {
      assert a + b[..0] == a;
    } else {
      JoinedConcat(a, b[..n]);
    }
  }

  // ---------------------------------------------------------------- unlike examples

  lemma DropOne(s: seq<Line>, i: nat)
    requires i < |s| && Distinct(s)
    ensures var rest := s[..i] + s[i + 1..];
            Distinct(rest) && |rest| == |s| - 1 && s[i] !in rest && forall d :: d in rest ==> d in s
  {
  }

  function TokenSet(r: Reading, d: Line): set<Token> { set t | t in r.tokens(d) }

  /** The share of the tokens of two lines that both carry. */
  function Similarity(a: set<Token>, b: set<Token>): real {
    |a * b| as real / (if |a + b| == 0 then 1.0 else |a + b| as real)
  }

  /** The similarity to the chosen line it resembles least. */
  function LeastSimilarity(r: Reading, chosen: seq<Line>, d: Line): real
    requires chosen != []
  {
    var last := Similarity(TokenSet(r, d), TokenSet(r, chosen[|chosen| - 1]));
    if |chosen| == 1 then last else
      var rest := LeastSimilarity(r, chosen[..|chosen| - 1], d);
      if last < rest then last else rest
  }

  /**
    Whether `a` is picked before `b`: first the line of most distinct tokens, then most characters,
    then least text; after that the line of lowest least similarity, then greatest text.
  */
  predicate Better(r: Reading, chosen: seq<Line>, a: Line, b: Line) {
    if chosen == [] then
      var (m, n) := (|TokenSet(r, a)|, |TokenSet(r, b)|);
      m > n || (m == n && (|a| > |b| || (|a| == |b| && Less(a, b))))
    else
      var (x, y) := (LeastSimilarity(r, chosen, a), LeastSimilarity(r, chosen, b));
      x < y || (x == y && Less(b, a))
  }

  lemma BetterTransitive(r: Reading, chosen: seq<Line>, a: Line, b: Line, c: Line)
    requires Better(r, chosen, a, b) && Better(r, chosen, b, c)
    ensures Better(r, chosen, a, c)
  {
    if Less(a, b) && Less(b, c) {
      LessTransitive(a, b, c);
    }
    if Less(c, b) && Less(b, a) {
      LessTransitive(c, b, a);
    }
  }

  lemma BetterIrreflexive(r: Reading, chosen: seq<Line>, a: Line)
    ensures !Better(r, chosen, a, a)
  {
    LessIrreflexive(a);
  }

  /** Nothing still available was a better pick at `n`. */
  ghost predicate BestAt(r: Reading, lines: seq<Line>, chosen: seq<Line>, n: nat)
    requires n < |chosen|
  {
    forall d :: d in lines && d !in chosen[..n] ==> !Better(r, chosen[..n], d, chosen[n])
  }

  /** The best pick among the lines left. */
  function Best(r: Reading, chosen: seq<Line>, rest: seq<Line>): (best: nat)
    requires rest != []
    ensures best < |rest| && forall d :: d in rest ==> !Better(r, chosen, d, rest[best])
  {
    var n := |rest| - 1;
    BetterIrreflexive(r, chosen, rest[n]);
    if n == 0 then 0 else
      var before := Best(r, chosen, rest[..n]);
      if Better(r, chosen, rest[n], rest[before]) then BetterThanAll(r, chosen, rest[..n], before, rest[n]); n
          else before
  }

  lemma BetterThanAll(r: Reading, chosen: seq<Line>, rest: seq<Line>, best: nat, d: Line)
    requires best < |rest| && (forall x :: x in rest ==> !Better(r, chosen, x, rest[best])) &&
             Better(r, chosen, d, rest[best])
    ensures forall x :: x in rest ==> !Better(r, chosen, x, d)
  {
    forall x | x in rest ensures !Better(r, chosen, x, d) {
      if Better(r, chosen, x, d) {
        BetterTransitive(r, chosen, x, d, rest[best]);
      }
    }
  }

  /** Some greedy picks of a group, each the best when it was made, and what they leave. */
  ghost predicate Picking(r: Reading, lines: seq<Line>, chosen: seq<Line>, rest: seq<Line>) {
    && Distinct(chosen) && Distinct(rest) && |chosen| + |rest| == |lines|
    && (forall d :: d in lines <==> d in chosen || d in rest)
    && (forall d :: d in chosen ==> d !in rest)
    && (forall n :: 0 <= n < |chosen| ==> BestAt(r, lines, chosen, n))
  }

  lemma PickOne(r: Reading, lines: seq<Line>, chosen: seq<Line>, rest: seq<Line>)
    requires Picking(r, lines, chosen, rest) && rest != []
    ensures var best := Best(r, chosen, rest);
            Picking(r, lines, chosen + [rest[best]], rest[..best] + rest[best + 1..])
  {
    var best := Best(r, chosen, rest);
    assert rest[best] in rest;
    DropOne(rest, best);
    PickKeepsBest(r, lines, chosen, rest, rest[best]);
    Moved(lines, chosen, rest, best);
  }

  lemma Moved(lines: seq<Line>, chosen: seq<Line>, rest: seq<Line>, best: nat)
    requires best < |rest| && Distinct(rest)
    requires forall d :: d in lines <==> d in chosen || d in rest
    ensures var left := rest[..best] + rest[best + 1..];
            forall d :: d in lines <==> d in chosen + [rest[best]] || d in left
  {
    assert rest == rest[..best] + [rest[best]] + rest[best + 1..];
  }

  lemma PickKeepsBest(r: Reading, lines: seq<Line>, chosen: seq<Line>, rest: seq<Line>, far: Line)
    requires forall d :: d in lines <==> d in chosen || d in rest
    requires forall n :: 0 <= n < |chosen| ==> BestAt(r, lines, chosen, n)
    requires forall d :: d in rest ==> !Better(r, chosen, d, far)
    ensures forall n :: 0 <= n < |chosen| + 1 ==> BestAt(r, lines, chosen + [far], n)
  {
    var more := chosen + [far];
    forall n | 0 <= n < |more| ensures BestAt(r, lines, more, n) {
      if n < |chosen| {
        assert BestAt(r, lines, chosen, n) && more[..n] == chosen[..n];
      } else {
        assert more[..n] == chosen;
      }
    }
  }

  /** `x` is the share of common tokens with the one of `chosen` that `d` has least in common with. */
  ghost predicate IsLeastShare(r: Reading, chosen: seq<Line>, d: Line, x: real) {
    && (exists c :: c in chosen && SharesTokens(r, d, c, x))
    && forall c, y :: c in chosen && SharesTokens(r, d, c, y) ==> x <= y
  }

  /** The tokens both lines carry, as a share of those either carries; nothing when neither carries any. */
  ghost predicate SharesTokens(r: Reading, a: Line, b: Line, x: real) {
    var both := set t | t in r.tokens(a) && t in r.tokens(b);
    var either := (set t | t in r.tokens(a)) + set t | t in r.tokens(b);
    if either == {} then x == 0.0 else x * |either| as real == |both| as real
  }

  lemma Quotient(a: nat, b: nat, x: real)
    requires b > 0
    ensures x * b as real == a as real <==> x == a as real / b as real
  {
    var q := a as real / b as real;
    assert q * b as real == a as real;
    if x * b as real == q * b as real {
      Cancelled(x, q, b as real);
    }
  }

  lemma Cancelled(x: real, y: real, b: real)
    requires b > 0.0 && x * b == y * b
    ensures x == y
  {
    assert (x - y) * b == x * b - y * b && (y - x) * b == y * b - x * b;
    if x > y {
      Product(x - y, b);
    } else if y > x {
      Product(y - x, b);
    }
  }

  lemma Product(d: real, b: real)
    requires d > 0.0 && b > 0.0
    ensures d * b > 0.0
  {
  }

  lemma SimilarityIs(r: Reading, a: Line, b: Line, x: real)
    ensures SharesTokens(r, a, b, x) <==> x == Similarity(TokenSet(r, a), TokenSet(r, b))
  {
    var both := set t | t in r.tokens(a) && t in r.tokens(b);
    var either := (set t | t in r.tokens(a)) + set t | t in r.tokens(b);
    var (m, n) := (TokenSet(r, a), TokenSet(r, b));
    assert both == m * n && either == m + n;
    if m + n == {} {
      assert m * n == {};
      assert Similarity(m, n) == 0.0;
    } else {
      Quotient(|m * n|, |m + n|, x);
      assert Similarity(m, n) == |m * n| as real / |m + n| as real;
    }
  }

  lemma {:induction false} LeastSimilarityIsLeast(r: Reading, chosen: seq<Line>, d: Line)
    requires chosen != []
    ensures var least := LeastSimilarity(r, chosen, d);
            && (exists i :: 0 <= i < |chosen| && Similarity(TokenSet(r, d), TokenSet(r, chosen[i])) == least)
            && forall i :: 0 <= i < |chosen| ==> least <= Similarity(TokenSet(r, d), TokenSet(r, chosen[i]))
  {
    var n := |chosen| - 1;
    if n > 0 {
      LeastSimilarityIsLeast(r, chosen[..n], d);
      var rest := LeastSimilarity(r, chosen[..n], d);
      var i :| 0 <= i < |chosen[..n]| && Similarity(TokenSet(r, d), TokenSet(r, chosen[..n][i])) == rest;
      assert Similarity(TokenSet(r, d), TokenSet(r, chosen[i])) == rest;
      forall j | 0 <= j < n ensures rest <= Similarity(TokenSet(r, d), TokenSet(r, chosen[j])) {
        assert chosen[j] == chosen[..n][j];
      }
    }
    assert Similarity(TokenSet(r, d), TokenSet(r, chosen[n]))
           == Similarity(TokenSet(r, d), TokenSet(r, chosen[|chosen| - 1]));
  }

  lemma LeastSimilarityIs(r: Reading, chosen: seq<Line>, d: Line)
    requires chosen != []
    ensures IsLeastShare(r, chosen, d, LeastSimilarity(r, chosen, d))
  {
    var least := LeastSimilarity(r, chosen, d);
    LeastSimilarityIsLeast(r, chosen, d);
    var i :| 0 <= i < |chosen| && Similarity(TokenSet(r, d), TokenSet(r, chosen[i])) == least;
    SimilarityIs(r, d, chosen[i], least);
    forall c, y | c in chosen && SharesTokens(r, d, c, y) ensures least <= y {
      SimilarityIs(r, d, c, y);
    }
  }

  /**
    What a greedy pick is.  The first is the line of most different tokens, among those of most
    characters, among those the first in order of text.  Each later one has least in common with
    what was chosen, and is the last in order of text among those.
  */
  lemma PickMeans(r: Reading, lines: seq<Line>, chosen: seq<Line>, n: nat, d: Line)
    requires n < |chosen| && BestAt(r, lines, chosen, n) && d in lines && d !in chosen[..n]
    ensures n == 0 ==>
              var (a, b) := (|set t | t in r.tokens(chosen[0])|, |set t | t in r.tokens(d)|);
              a > b || (a == b && (|chosen[0]| > |d| || (|chosen[0]| == |d| && !Less(d, chosen[0]))))
    ensures n > 0 ==> exists x, y ::
              && IsLeastShare(r, chosen[..n], chosen[n], x) && IsLeastShare(r, chosen[..n], d, y)
              && (x < y || (x == y && !Less(chosen[n], d)))
  {
    assert !Better(r, chosen[..n], d, chosen[n]);
    if n > 0 {
      LeastSimilarityIs(r, chosen[..n], chosen[n]);
      LeastSimilarityIs(r, chosen[..n], d);
    }
  }

  /** What `Diverse` returns: the whole group in order of text, or its greedy picks. */
  ghost predicate Diversified(r: Reading, lines: seq<Line>, want: nat, chosen: seq<Line>) {
    && Distinct(chosen) && |chosen| == Min(want, |lines|) && (forall d :: d in chosen ==> d in lines)
    && (want >= |lines| ==> Ascending(Less, chosen))
    && (want < |lines| ==> forall n :: 0 <= n < |chosen| ==> BestAt(r, lines, chosen, n))
  }

  /** Up to `want` of a group's lines, greedily. */
  method Diverse(r: Reading, lines: seq<Line>, want: nat) returns (chosen: seq<Line>)
    requires Distinct(lines)
    ensures Diversified(r, lines, want, chosen)
  {
    if want >= |lines| {
      LessIsStrictOrder();
      SortedAscends(Less, lines);
      AscendingDistinct(Less, Sorted(Less, lines));
      return Sorted(Less, lines);
    }
    chosen := [];
    var rest := lines;
    while |chosen| < want
      invariant |chosen| <= want && Picking(r, lines, chosen, rest)
    {
      PickOne(r, lines, chosen, rest);
      var best := Best(r, chosen, rest);
      chosen, rest := chosen + [rest[best]], rest[..best] + rest[best + 1..];
    }
  }

  // ---------------------------------------------------------------- farthest first

  /** The similarity to the chosen line it resembles most. */
  function GreatestSimilarity(r: Reading, chosen: seq<Line>, d: Line): real
    requires chosen != []
  {
    var last := Similarity(TokenSet(r, d), TokenSet(r, chosen[|chosen| - 1]));
    if |chosen| == 1 then last else
      var rest := GreatestSimilarity(r, chosen[..|chosen| - 1], d);
      if last > rest then last else rest
  }

  /** Nothing still available at `n` was farther from the lines already chosen. */
  ghost predicate FarthestAt(r: Reading, lines: seq<Line>, chosen: seq<Line>, n: nat)
    requires 0 < n < |chosen|
  {
    forall d :: d in lines && d !in chosen[..n] ==>
      GreatestSimilarity(r, chosen[..n], chosen[n]) <= GreatestSimilarity(r, chosen[..n], d)
  }

  /** Every pick after the first is a farthest one. */
  ghost predicate FarthestFirst(r: Reading, lines: seq<Line>, chosen: seq<Line>) {
    forall n :: 0 < n < |chosen| ==> FarthestAt(r, lines, chosen, n)
  }

  /** Greedy picks of a group of more than `want` lines. */
  ghost predicate PickedIn(r: Reading, all: seq<Line>, s: string, want: nat, chosen: seq<Line>) {
    var lines := Having(r, all, all, s);
    Distinct(all) && want < |lines| && Diversified(r, lines, want, chosen)
  }

  /** In every group of more than `want` lines the picks are farthest first. */
  ghost predicate AlwaysFarthestFirst(want: nat) {
    forall r, all, s, chosen :: PickedIn(r, all, s, want, chosen) ==> FarthestFirst(r, Having(r, all, all, s), chosen)
  }

  /** With one line chosen, the line resembled least is the line resembled most. */
  lemma SecondIsFarthest(r: Reading, lines: seq<Line>, chosen: seq<Line>)
    requires |chosen| == 2 && BestAt(r, lines, chosen, 1)
    ensures FarthestFirst(r, lines, chosen)
  {
    forall d | d in lines && d !in chosen[..1]
      ensures GreatestSimilarity(r, chosen[..1], chosen[1]) <= GreatestSimilarity(r, chosen[..1], d) {
      assert !Better(r, chosen[..1], d, chosen[1]);
    }
  }

  lemma NothingShared(a: set<Token>, b: set<Token>)
    requires a !! b
    ensures Similarity(a, b) == 0.0
  {
    assert a * b == {};
  }

  lemma AllShared(a: set<Token>)
    requires a != {}
    ensures Similarity(a, a) == 1.0
  {
    assert a * a == a && a + a == a;
    var n := |a| as real;
    assert n > 0.0;
    assert Similarity(a, a) == n / n;
    assert n / n == 1.0;
  }

  const FIRST: Line := "1 2 3"
  const SECOND: Line := "9 8 8"
  const TWIN: Line := "8 9 9"

  /** Three lines of three numbers each, the second and third with the same numbers, and any line of fives. */
  const READING := Reading(
    (d: Line) => if d == FIRST then ["1", "2", "3"] else if d == SECOND then ["9", "8", "8"]
                 else if d == TWIN then ["8", "9", "9"] else ["5", "5", if |d| > 4 then d[4..] else []],
    (t: Token) => true)

  function Fours(n: nat): Token { if n == 0 then "4" else "4" + Fours(n - 1) }

  function Fillers(n: nat): seq<Line> { seq(n, i requires 0 <= i < n => "5 5 " + Fours(i)) }

  function Twins(n: nat): seq<Line> { [FIRST, SECOND, TWIN] + Fillers(n) }

  lemma {:induction false} FoursAre(n: nat)
    ensures |Fours(n)| == n + 1 && Fours(n)[0] == '4'
  {
    if n > 0 {
      FoursAre(n - 1);
    }
  }

  lemma FillerReads(i: nat)
    ensures var d := "5 5 " + Fours(i);
            d[0] == '5' && |d| == i + 5 && d != FIRST && d != SECOND && d != TWIN &&
                READING.tokens(d) == ["5", "5", Fours(i)]
  {
    FoursAre(i);
    var d := "5 5 " + Fours(i);
    assert d[0] == '5' && FIRST[0] == '1' && SECOND[0] == '9' && TWIN[0] == '8';
    assert d[4..] == Fours(i);
  }

  lemma TwinsDistinct(n: nat)
    ensures Distinct(Twins(n)) && |Twins(n)| == n + 3
    ensures forall d :: d in Twins(n) <==> d in [FIRST, SECOND, TWIN] || d in Fillers(n)
  {
    var all := Twins(n);
    assert FIRST[0] != SECOND[0] && FIRST[0] != TWIN[0] && SECOND[0] != TWIN[0];
    forall i, j | 0 <= i < j < |all| ensures all[i] != all[j] {
      if j >= 3 {
        FillerReads(j - 3);
        if i >= 3 {
          FillerReads(i - 3);
        }
      }
    }
  }

  /** All of them mask to the same spine, so they are one group. */
  lemma TwinsShareASpine(n: nat)
    ensures Having(READING, Twins(n), Twins(n), "# # #") == Twins(n)
  {
    forall d | d in Twins(n) ensures Spine(READING, Twins(n), d) == "# # #" {
      TwinsDistinct(n);
      ThreeMasked(Twins(n), d);
    }
    HavingAll(READING, Twins(n), Twins(n), "# # #");
  }

  lemma ThreeMasked(lines: seq<Line>, d: Line)
    ensures Spine(READING, lines, d) == "# # #"
  {
    var masks := seq(|READING.tokens(d)|,
                     i requires 0 <= i < |READING.tokens(d)| => MaskOf(READING, lines, READING.tokens(d)[i]));
    assert |READING.tokens(d)| == 3;
    assert masks == [DIGITS, DIGITS, DIGITS];
    assert masks[..2] == [DIGITS, DIGITS] && masks[..2][..1] == [DIGITS];
    assert Joined(masks[..2]) == "# #";
  }

  lemma {:induction false} HavingAll(r: Reading, all: seq<Line>, lines: seq<Line>, s: string)
    requires forall d :: d in lines ==> Spine(r, all, d) == s
    ensures Having(r, all, lines, s) == lines
  {
    if lines != [] {
      var front, last := lines[..|lines| - 1], lines[|lines| - 1];
      assert lines == front + [last];
      HavingAll(r, all, front, s);
      assert Spine(r, all, last) == s && Having(r, all, lines, s) == Having(r, all, front, s) + [last];
    }
  }

  lemma TwinTokens()
    ensures TokenSet(READING, FIRST) == {"1", "2", "3"} && |TokenSet(READING, FIRST)| == 3
    ensures TokenSet(READING, SECOND) == {"8", "9"} == TokenSet(READING, TWIN) && |{"8", "9"}| == 2
    ensures {"1", "2", "3"} !! {"8", "9"}
  {
    assert FIRST[0] != SECOND[0] && FIRST[0] != TWIN[0] && SECOND[0] != TWIN[0];
    assert READING.tokens(FIRST) == ["1", "2", "3"];
    assert READING.tokens(SECOND) == ["9", "8", "8"];
    assert READING.tokens(TWIN) == ["8", "9", "9"];
    NumbersDiffer();
  }

  lemma NumbersDiffer()
    ensures |{"1", "2", "3"}| == 3 && |{"8", "9"}| == 2 && {"1", "2", "3"} !! {"8", "9"}
  {
    assert "1"[0] != "2"[0] && "2"[0] != "3"[0] && "1"[0] != "3"[0] && "8"[0] != "9"[0];
    assert forall t :: t in {"1", "2", "3"} ==> t[0] != '8' && t[0] != '9';
  }

  lemma FillerTokens(i: nat)
    ensures var d := "5 5 " + Fours(i);
            TokenSet(READING, d) == {"5", Fours(i)} && |TokenSet(READING, d)| <= 2
            && TokenSet(READING, d) !! {"1", "2", "3"} && TokenSet(READING, d) !! {"8", "9"}
  {
    FillerReads(i);
    FoursAre(i);
    var d := "5 5 " + Fours(i);
    assert READING.tokens(d)[2] == Fours(i);
    assert forall t :: t in {"5", Fours(i)} ==> t[0] == '5' || t[0] == '4';
    assert forall t :: t in {"1", "2", "3", "8", "9"} ==> t[0] != '5' && t[0] != '4';
    assert |{"5", Fours(i)}| == 2 by {
      assert "5"[0] != Fours(i)[0];
    }
  }

  lemma FillersFollow(n: nat, d: Line)
    requires d in Fillers(n)
    ensures |TokenSet(READING, d)| < 3 && Less(d, SECOND) && Less(d, TWIN)
    ensures TokenSet(READING, d) !! {"1", "2", "3"} && TokenSet(READING, d) !! {"8", "9"}
  {
    var i :| 0 <= i < n && d == "5 5 " + Fours(i);
    FillerTokens(i);
    assert d[0] == '5' && SECOND[0] == '9' && TWIN[0] == '8';
  }

  /** What there is to know about every line of the group but the first. */
  lemma Others(n: nat, d: Line)
    requires d in Twins(n) && d != FIRST
    ensures |TokenSet(READING, d)| < 3 && Similarity(TokenSet(READING, d), TokenSet(READING, FIRST)) == 0.0
  {
    TwinTokens();
    TwinsDistinct(n);
    if d in Fillers(n) {
      FillersFollow(n, d);
    }
    NothingShared(TokenSet(READING, d), {"1", "2", "3"});
  }

  lemma Strangers(n: nat, d: Line)
    requires d in Fillers(n)
    ensures Similarity(TokenSet(READING, d), TokenSet(READING, SECOND)) == 0.0
  {
    TwinTokens();
    FillersFollow(n, d);
    NothingShared(TokenSet(READING, d), {"8", "9"});
  }

  lemma OfTwo(r: Reading, a: Line, b: Line, d: Line)
    ensures var (x, y) := (Similarity(TokenSet(r, d), TokenSet(r, a)), Similarity(TokenSet(r, d), TokenSet(r, b)));
            LeastSimilarity(r, [a, b], d) == (if y < x then y else x)
            && GreatestSimilarity(r, [a, b], d) == if y > x then y else x
  {
    assert [a, b][..1] == [a];
  }

  lemma FirstIsBest(n: nat, d: Line)
    requires d in Twins(n) && d != FIRST
    ensures Better(READING, [], FIRST, d)
  {
    TwinTokens();
    Others(n, d);
  }

  lemma SecondIsBest(n: nat, d: Line)
    requires d in Twins(n) && d != FIRST && d != SECOND
    ensures Better(READING, [FIRST], SECOND, d)
  {
    TwinsDistinct(n);
    assert Twins(n)[1] == SECOND && FIRST[0] != SECOND[0];
    Others(n, d);
    Others(n, SECOND);
    if d in Fillers(n) {
      FillersFollow(n, d);
    } else {
      assert TWIN[0] == '8' && SECOND[0] == '9';
    }
  }

  lemma TwinIsBest(n: nat, d: Line)
    requires d in Fillers(n)
    ensures Better(READING, [FIRST, SECOND], TWIN, d)
  {
    TwinsDistinct(n);
    assert Twins(n)[2] == TWIN && FIRST[0] != TWIN[0];
    StrangerIsFar(n, d);
    TwinIsNear(n);
    FillersFollow(n, d);
  }

  lemma StrangerIsFar(n: nat, d: Line)
    requires d in Fillers(n)
    ensures LeastSimilarity(READING, [FIRST, SECOND], d) == 0.0 == GreatestSimilarity(READING, [FIRST, SECOND], d)
  {
    TwinsDistinct(n);
    var i :| 0 <= i < n && d == "5 5 " + Fours(i);
    FillerReads(i);
    Others(n, d);
    Strangers(n, d);
    OfTwo(READING, FIRST, SECOND, d);
  }

  lemma TwinIsNear(n: nat)
    ensures LeastSimilarity(READING, [FIRST, SECOND], TWIN) == 0.0
    ensures GreatestSimilarity(READING, [FIRST, SECOND], TWIN) == 1.0
  {
    TwinTokens();
    assert Twins(n)[2] == TWIN && FIRST[0] != TWIN[0];
    Others(n, TWIN);
    AllShared({"8", "9"});
    OfTwo(READING, FIRST, SECOND, TWIN);
  }

  /** A line of the group that is not worse than any other it could have been. */
  ghost predicate BestOf(chosen: seq<Line>, d: Line, n: nat) {
    d in Twins(n) && d !in chosen && forall x :: x in Twins(n) && x !in chosen ==> !Better(READING, chosen, x, d)
  }

  lemma ThreeDiffer(n: nat)
    ensures FIRST in Twins(n) && SECOND in Twins(n) && TWIN in Twins(n)
    ensures FIRST != SECOND && FIRST != TWIN && SECOND != TWIN
  {
    assert Twins(n)[0] == FIRST && Twins(n)[1] == SECOND && Twins(n)[2] == TWIN;
    assert FIRST[0] != SECOND[0] && FIRST[0] != TWIN[0] && SECOND[0] != TWIN[0];
  }

  lemma FirstPick(n: nat, d: Line)
    requires BestOf([], d, n)
    ensures d == FIRST
  {
    ThreeDiffer(n);
    if d != FIRST {
      FirstIsBest(n, d);
    }
  }

  lemma SecondPick(n: nat, d: Line)
    requires BestOf([FIRST], d, n)
    ensures d == SECOND
  {
    ThreeDiffer(n);
    if d != SECOND {
      SecondIsBest(n, d);
    }
  }

  lemma ThirdPick(n: nat, d: Line)
    requires BestOf([FIRST, SECOND], d, n)
    ensures d == TWIN
  {
    ThreeDiffer(n);
    TwinsDistinct(n);
    if d != TWIN {
      TwinIsBest(n, d);
    }
  }

  lemma PickIsBest(n: nat, chosen: seq<Line>, k: nat)
    requires k < |chosen| && Distinct(chosen) && (forall d :: d in chosen ==> d in Twins(n))
    requires BestAt(READING, Twins(n), chosen, k)
    ensures BestOf(chosen[..k], chosen[k], n)
  {
  }

  lemma Fronts(chosen: seq<Line>)
    requires |chosen| >= 2
    ensures chosen[..1] == [chosen[0]] && chosen[..2] == [chosen[0], chosen[1]]
  {
  }

  lemma AfterOne(n: nat, chosen: seq<Line>)
    requires |chosen| >= 2 && BestOf(chosen[..1], chosen[1], n) && chosen[0] == FIRST
    ensures chosen[1] == SECOND
  {
    Fronts(chosen);
    SecondPick(n, chosen[1]);
  }

  lemma AfterTwo(n: nat, chosen: seq<Line>)
    requires |chosen| >= 3 && BestOf(chosen[..2], chosen[2], n) && chosen[0] == FIRST && chosen[1] == SECOND
    ensures chosen[2] == TWIN
  {
    Fronts(chosen);
    ThirdPick(n, chosen[2]);
  }

  /** The greedy picks of the group begin with these three. */
  lemma FirstPicks(n: nat, chosen: seq<Line>)
    requires |chosen| >= 3 && Distinct(chosen) && (forall d :: d in chosen ==> d in Twins(n))
    requires BestAt(READING, Twins(n), chosen, 0) && BestAt(READING, Twins(n), chosen, 1) &&
             BestAt(READING, Twins(n), chosen, 2)
    ensures chosen[0] == FIRST && chosen[1] == SECOND && chosen[2] == TWIN
  {
    PickIsBest(n, chosen, 0);
    PickIsBest(n, chosen, 1);
    PickIsBest(n, chosen, 2);
    assert chosen[..0] == [];
    FirstPick(n, chosen[0]);
    AfterOne(n, chosen);
    AfterTwo(n, chosen);
  }

  /**
    What is picked third was not farthest: the twin of the second pick, before a line that shares
    nothing with either.
  */
  lemma TwinBeatsStranger(n: nat, want: nat, chosen: seq<Line>)
    requires n > 0 && 3 <= want < n + 3 && Diversified(READING, Twins(n), want, chosen)
    ensures chosen[0] == FIRST && chosen[1] == SECOND && chosen[2] == TWIN && !FarthestAt(READING, Twins(n), chosen, 2)
  {
    TwinsDistinct(n);
    assert BestAt(READING, Twins(n), chosen, 0) && BestAt(READING, Twins(n), chosen, 1) &&
           BestAt(READING, Twins(n), chosen, 2);
    FirstPicks(n, chosen);
    Fronts(chosen);
    TwinIsNear(n);
    StrangerIsThere(n);
    StrangerIsFar(n, Fillers(n)[0]);
  }

  lemma StrangerIsThere(n: nat)
    requires n > 0
    ensures Fillers(n)[0] in Fillers(n) && Fillers(n)[0] in Twins(n) && Fillers(n)[0] != FIRST &&
            Fillers(n)[0] != SECOND
  {
    FillerReads(0);
    TwinsDistinct(n);
  }

  /** There are greedy picks of every number. */
  lemma {:induction false} GreedyPicks(r: Reading, lines: seq<Line>, want: nat)
    returns (chosen: seq<Line>, rest: seq<Line>)
    requires Distinct(lines) && want <= |lines|
    ensures Picking(r, lines, chosen, rest) && |chosen| == want
  {
    if want == 0 {
      chosen, rest := [], lines;
    } else {
      chosen, rest := GreedyPicks(r, lines, want - 1);
      PickOne(r, lines, chosen, rest);
      var best := Best(r, chosen, rest);
      chosen, rest := chosen + [rest[best]], rest[..best] + rest[best + 1..];
    }
  }

  lemma TwoPicksAreFarthest(r: Reading, all: seq<Line>, s: string, want: nat, chosen: seq<Line>)
    requires want <= 2 && PickedIn(r, all, s, want, chosen)
    ensures FarthestFirst(r, Having(r, all, all, s), chosen)
  {
    if want == 2 {
      assert BestAt(r, Having(r, all, all, s), chosen, 1);
      SecondIsFarthest(r, Having(r, all, all, s), chosen);
    }
  }

  lemma ThreePicksNeedNotBe(want: nat) returns (all: seq<Line>, s: string, chosen: seq<Line>)
    requires want >= 3
    ensures PickedIn(READING, all, s, want, chosen) && !FarthestFirst(READING, Having(READING, all, all, s), chosen)
  {
    var n := want - 2;
    all, s := Twins(n), "# # #";
    TwinsDistinct(n);
    TwinsShareASpine(n);
    var rest;
    chosen, rest := GreedyPicks(READING, all, want);
    PickingIsDiversified(READING, all, want, chosen, rest);
    TwinBeatsStranger(n, want, chosen);
  }

  lemma PickingIsDiversified(r: Reading, lines: seq<Line>, want: nat, chosen: seq<Line>, rest: seq<Line>)
    requires Picking(r, lines, chosen, rest) && |chosen| == want < |lines|
    ensures Diversified(r, lines, want, chosen)
  {
  }

  /** The picks of every group are farthest first exactly when at most two are wanted. */
  lemma FarthestFirstIff(want: nat)
    ensures AlwaysFarthestFirst(want) <==> want <= 2
  {
    if want <= 2 {
      forall r, all, s, chosen | PickedIn(r, all, s, want, chosen)
        ensures FarthestFirst(r, Having(r, all, all, s), chosen) {
        TwoPicksAreFarthest(r, all, s, want, chosen);
      }
    } else {
      var all, s, chosen := ThreePicksNeedNotBe(want);
    }
  }

  /** The quota is the whole share of the limit that falls to a group, but at least two and at most five. */
  lemma QuotaIs(limit: nat, groups: nat)
    requires groups > 0
    ensures var q := PerGroup(limit, groups);
            && 2 <= q <= 5 && (q > 2 ==> q * groups <= limit) && (q < 5 ==> limit < (q + 1) * groups)
  {
    var each, q := limit / groups, PerGroup(limit, groups);
    Quotients(limit, groups);
    if q > 2 {
      Scaled(q, each, groups);
    }
    if q < 5 {
      Scaled(each + 1, q + 1, groups);
    }
  }

  lemma Quotients(a: nat, b: nat)
    requires b > 0
    ensures a / b * b <= a < (a / b + 1) * b
  {
    var q := a / b;
    assert (q + 1) * b == q * b + b;
  }

  lemma {:induction false} Scaled(a: nat, b: nat, m: nat)
    requires a <= b
    ensures a * m <= b * m
  {
    if a < b {
      Scaled(a, b - 1, m);
      assert b * m == (b - 1) * m + m;
    }
  }

  /** The quota is that low exactly when there are more than a third as many groups as lines to show. */
  lemma QuotaIsTwoIff(limit: nat, groups: nat)
    ensures PerGroup(limit, groups) <= 2 <==> limit < 3 * if groups == 0 then 1 else groups
  {
  }

  // ---------------------------------------------------------------- round-robin

  /** How many of shape `k` have been taken when `shapes` shapes have had their turn at `depth`. */
  function TakenAt(picks: seq<seq<Line>>, depth: nat, shapes: nat, k: nat): nat
    requires k < |picks|
  {
    Min(|picks[k]|, if k < shapes then depth + 1 else depth)
  }

  function Taken(picks: seq<seq<Line>>, depth: nat, shapes: nat): seq<nat> {
    seq(|picks|, k requires 0 <= k < |picks| => TakenAt(picks, depth, shapes, k))
  }

  function Sum(ns: seq<nat>): nat { if ns == [] then 0 else Sum(ns[..|ns| - 1]) + ns[|ns| - 1] }

  function Sizes(picks: seq<seq<Line>>): seq<nat> { seq(|picks|, k requires 0 <= k < |picks| => |picks[k]|) }

  /** Counts of any two shapes differ by at most one unless the smaller shape has run out. */
  predicate Fair(picks: seq<seq<Line>>, taken: seq<nat>) {
    |taken| == |picks| &&
    forall i, j :: 0 <= i < |picks| && 0 <= j < |picks| && taken[i] + 1 < taken[j] ==> taken[i] == |picks[i]|
  }

  /** `out` is the first `taken[k]` picks of every shape `k`, each once, turn by turn; `from` says which. */
  ghost predicate Draws(picks: seq<seq<Line>>, taken: seq<nat>, out: seq<Line>, from: seq<(nat, nat)>) {
    && |taken| == |picks| && |from| == |out| && |out| == Sum(taken)
    && (forall k :: 0 <= k < |picks| ==> taken[k] <= |picks[k]|)
    && (forall n :: 0 <= n < |from| ==>
          from[n].0 < |picks| && from[n].1 < taken[from[n].0] && out[n] == picks[from[n].0][from[n].1])
    && InTurn(from)
  }

  /** Picks come out by depth, and within one depth in the order of the shapes. */
  ghost predicate InTurn(from: seq<(nat, nat)>) {
    forall m, n :: 0 <= m < n < |from| ==> from[m].1 < from[n].1 || (from[m].1 == from[n].1 && from[m].0 < from[n].0)
  }

  lemma {:induction false} SumUpdate(ns: seq<nat>, k: nat)
    requires k < |ns|
    ensures Sum(ns[k := ns[k] + 1]) == Sum(ns) + 1
  {
    var n := |ns| - 1;
    var up := ns[k := ns[k] + 1];
    if k == n {
      assert up[..n] == ns[..n];
    } else {
      SumUpdate(ns[..n], k);
      assert up[..n] == ns[..n][k := ns[k] + 1];
    }
  }

  /** A shape's turn: one more of it if it has one left. */
  lemma NextTurn(picks: seq<seq<Line>>, depth: nat, k: nat)
    requires k < |picks|
    ensures var now := Taken(picks, depth, k);
            Taken(picks, depth, k + 1) == if |picks[k]| > depth then now[k := now[k] + 1] else now
    ensures |picks[k]| > depth ==> Sum(Taken(picks, depth, k + 1)) == Sum(Taken(picks, depth, k)) + 1
  {
    if |picks[k]| > depth {
      SumUpdate(Taken(picks, depth, k), k);
    }
  }

  lemma DrawOne(picks: seq<seq<Line>>, taken: seq<nat>, out: seq<Line>, from: seq<(nat, nat)>, k: nat)
    requires Draws(picks, taken, out, from) && k < |picks| && taken[k] < |picks[k]|
    requires forall j :: 0 <= j < |picks| ==> taken[j] <= if j < k then taken[k] + 1 else taken[k]
    ensures Draws(picks, taken[k := taken[k] + 1], out + [picks[k][taken[k]]], from + [(k, taken[k])])
  {
    SumUpdate(taken, k);
  }

  /** A shape's turn, for the sample drawn so far. */
  lemma Turn(picks: seq<seq<Line>>, depth: nat, k: nat, out: seq<Line>, from: seq<(nat, nat)>)
    requires k < |picks| && Draws(picks, Taken(picks, depth, k), out, from)
    ensures if |picks[k]| > depth
            then Draws(picks, Taken(picks, depth, k + 1), out + [picks[k][depth]], from + [(k, depth)])
            else Draws(picks, Taken(picks, depth, k + 1), out, from)
  {
    NextTurn(picks, depth, k);
    if |picks[k]| > depth {
      DrawOne(picks, Taken(picks, depth, k), out, from, k);
    }
  }

  lemma TakenIsFair(picks: seq<seq<Line>>, depth: nat, shapes: nat)
    ensures Fair(picks, Taken(picks, depth, shapes))
  {
  }

  lemma {:induction false} SumZero(ns: seq<nat>)
    requires forall i :: 0 <= i < |ns| ==> ns[i] == 0
    ensures Sum(ns) == 0
  {
    if ns != [] {
      SumZero(ns[..|ns| - 1]);
    }
  }

  lemma {:induction false} SumMonotone(a: seq<nat>, b: seq<nat>)
    requires |a| == |b| && forall i :: 0 <= i < |a| ==> a[i] <= b[i]
    ensures Sum(a) <= Sum(b)
  {
    if a != [] {
      SumMonotone(a[..|a| - 1], b[..|b| - 1]);
    }
  }

  /** One turn of every shape at `depth`, stopping as soon as the limit is reached. */
  method TakeTurn(picks: seq<seq<Line>>, limit: nat, depth: nat, start: seq<Line>, ghost startFrom: seq<(nat, nat)>)
    returns (out: seq<Line>, ghost from: seq<(nat, nat)>, ghost shapes: nat)
    requires |start| < limit && Draws(picks, Taken(picks, depth, 0), start, startFrom)
    ensures Draws(picks, Taken(picks, depth, shapes), out, from) && |out| <= limit
    ensures |out| < limit ==> shapes == |picks|
  {
    out, from := start, startFrom;
    var i := 0;
    while i < |picks|
      invariant 0 <= i <= |picks| && |out| < limit
      invariant Draws(picks, Taken(picks, depth, i), out, from)
    {
      Turn(picks, depth, i, out, from);
      if |picks[i]| > depth {
        from := from + [(i, depth)];
        out := out + [picks[i][depth]];
        if |out| >= limit {
          shapes := i + 1;
          return;
        }
      }
      i := i + 1;
    }
    shapes := i;
  }

  /** Round-robin over the shapes' picks up to `limit` lines. */
  method RoundRobin(picks: seq<seq<Line>>, limit: nat)
    returns (out: seq<Line>, ghost taken: seq<nat>, ghost from: seq<(nat, nat)>)
    ensures Draws(picks, taken, out, from) && Fair(picks, taken)
    ensures |out| == Min(limit, Sum(Sizes(picks)))
  {
    out, from := [], [];
    var depth := 0;
    SumZero(Taken(picks, 0, 0));
    while |out| < limit && exists k :: 0 <= k < |picks| && |picks[k]| > depth
      invariant |out| < limit || |out| == limit == 0
      invariant Draws(picks, Taken(picks, depth, 0), out, from)
      decreases limit - |out|
    {
      ghost var k :| 0 <= k < |picks| && |picks[k]| > depth;
      TurnProgresses(picks, depth, k);
      ghost var shapes;
      out, from, shapes := TakeTurn(picks, limit, depth, out, from);
      if |out| >= limit {
        taken := Taken(picks, depth, shapes);
        TakenIsFair(picks, depth, shapes);
        TakenBounded(picks, depth, shapes);
        return;
      }
      FullTurn(picks, depth);
      depth := depth + 1;
    }
    taken := Taken(picks, depth, 0);
    TakenIsFair(picks, depth, 0);
    TakenBounded(picks, depth, 0);
  }

  /** A full turn at one depth is no turn yet at the next. */
  lemma FullTurn(picks: seq<seq<Line>>, depth: nat)
    ensures Taken(picks, depth, |picks|) == Taken(picks, depth + 1, 0)
  {
  }

  lemma TakenBounded(picks: seq<seq<Line>>, depth: nat, shapes: nat)
    ensures Sum(Taken(picks, depth, shapes)) <= Sum(Sizes(picks))
    ensures (forall k :: 0 <= k < |picks| ==> |picks[k]| <= depth) ==> Taken(picks, depth, shapes) == Sizes(picks)
  {
    SumMonotone(Taken(picks, depth, shapes), Sizes(picks));
  }

  lemma TurnProgresses(picks: seq<seq<Line>>, depth: nat, k: nat)
    requires k < |picks| && |picks[k]| > depth
    ensures Sum(Taken(picks, depth, |picks|)) > Sum(Taken(picks, depth, 0))
  {
    var a, b := Taken(picks, depth, 0), Taken(picks, depth, |picks|);
    SumUpdate(a, k);
    SumMonotone(a[k := a[k] + 1], b);
  }

  // ---------------------------------------------------------------- the whole sample

  function PerGroup(limit: nat, groups: nat): nat {
    var each := limit / (if groups == 0 then 1 else groups);
    if Min(5, each) < 2 then 2 else Min(5, each)
  }

  ghost predicate Disjoint(picks: seq<seq<Line>>) {
    forall i, j :: 0 <= i < j < |picks| ==> forall d :: d in picks[i] ==> d !in picks[j]
  }

  /** Distinct picks give a sample without repeats. */
  lemma DrawsDistinct(picks: seq<seq<Line>>, taken: seq<nat>, out: seq<Line>, from: seq<(nat, nat)>)
    requires Draws(picks, taken, out, from) && Disjoint(picks) && forall k :: 0 <= k < |picks| ==> Distinct(picks[k])
    ensures Distinct(out)
  {
    forall m, n | 0 <= m < n < |out| ensures out[m] != out[n] {
      assert from[m] != from[n];
      assert out[m] in picks[from[m].0] && out[n] in picks[from[n].0];
    }
  }

  /** Greater weight first, then by text. */
  function Heavier(weight: string -> int): Before {
    (a: string, b: string) => weight(a) > weight(b) || (weight(a) == weight(b) && Less(a, b))
  }

  lemma HeavierIsStrictOrder(weight: string -> int)
    ensures StrictOrder(Heavier(weight))
  {
    var lt := Heavier(weight);
    forall a ensures !lt(a, a) {
      LessIrreflexive(a);
    }
    forall a, b, c | lt(a, b) && lt(b, c) ensures lt(a, c) {
      if Less(a, b) && Less(b, c) {
        LessTransitive(a, b, c);
      }
    }
    forall a, b ensures a == b || lt(a, b) || lt(b, a) {
      LessTotal(a, b);
    }
  }

  /** How many movements carry the lines. */
  function Weight(counts: map<Line, int>, lines: seq<Line>): int {
    if lines == [] then 0 else
      var d := lines[|lines| - 1];
      Weight(counts, lines[..|lines| - 1]) + if d in counts then counts[d] else 0
  }

  /** Movements add up line by line; a line without a count carries none. */
  lemma {:induction false} WeightAddsUp(counts: map<Line, int>, a: seq<Line>, b: seq<Line>)
    ensures Weight(counts, a + b) == Weight(counts, a) + Weight(counts, b)
    ensures forall d :: Weight(counts, [d]) == if d in counts then counts[d] else 0
  {
    forall d ensures Weight(counts, [d]) == if d in counts then counts[d] else 0 {
      assert [d][..0] == [];
    }
    if b == [] {
      assert a + b == a;
    } else {
      WeightAddsUp(counts, a, b[..|b| - 1]);
      assert (a + b)[..|a + b| - 1] == a + b[..|b| - 1];
    }
  }

  /** More movements carry the lines of spine `s` than those of `t`, or as many and `s` is less text. */
  ghost predicate ComesFirst(r: Reading, counts: map<Line, int>, lines: seq<Line>, s: string, t: string) {
    var (a, b) := (Weight(counts, Having(r, lines, lines, s)), Weight(counts, Having(r, lines, lines, t)));
    a > b || (a == b && Less(s, t))
  }

  /** The spines of the lines, those carried by most movements first, then by text. */
  ghost predicate Ordered(r: Reading, counts: map<Line, int>, lines: seq<Line>, order: seq<string>) {
    && (forall i, j :: 0 <= i < j < |order| ==> ComesFirst(r, counts, lines, order[i], order[j]))
    && forall s :: s in order <==> Having(r, lines, lines, s) != []
  }

  method Order(r: Reading, counts: map<Line, int>, groups: Groups, ghost lines: seq<Line>) returns (order: seq<string>)
    requires forall s :: Of(groups, s) == Having(r, lines, lines, s)
    requires forall s :: s in groups ==> groups[s] != []
    ensures Ordered(r, counts, lines, order) && Distinct(order)
  {
    var weight := s => Weight(counts, Of(groups, s));
    HeavierIsStrictOrder(weight);
    order := SortedSet(groups.Keys, Heavier(weight));
    AscendingDistinct(Heavier(weight), order);
    forall i, j | 0 <= i < j < |order| ensures ComesFirst(r, counts, lines, order[i], order[j]) {
      assert Heavier(weight)(order[i], order[j]);
      assert weight(order[i]) == Weight(counts, Having(r, lines, lines, order[i]));
      assert weight(order[j]) == Weight(counts, Having(r, lines, lines, order[j]));
    }
    assert forall s :: s in order <==> Of(groups, s) != [];
  }

  /** A few diverse lines of each group. */
  method PickAll(r: Reading, groups: Groups, ghost lines: seq<Line>, limit: nat, order: seq<string>)
    returns (picks: seq<seq<Line>>)
    requires Distinct(lines) && forall s :: Of(groups, s) == Having(r, lines, lines, s)
    ensures AllPicked(r, lines, limit, order, picks)
  {
    picks := [];
    for i := 0 to |order|
      invariant |picks| == i && forall k :: 0 <= k < i ==> PickedFrom(r, lines, limit, order, k, picks[k])
    {
      HavingMembers(r, lines, lines, order[i]);
      var some := Diverse(r, Of(groups, order[i]), PerGroup(limit, |order|));
      picks := picks + [some];
    }
  }

  /**
    Sample distinct lines: the groups carried by most movements first, a few diverse lines of each,
    turn by turn.  The sample repeats no line, is as long as the limit and the picks allow, and is
    fair across the groups.
  */
  method SampleDescriptors(r: Reading, counts: map<Line, int>, limit: nat)
    returns (out: seq<Line>, ghost lines: seq<Line>, ghost order: seq<string>, ghost picks: seq<seq<Line>>,
             ghost taken: seq<nat>, ghost from: seq<(nat, nat)>)
    ensures Listed(r, counts.Keys, lines) && Ordered(r, counts, lines, order)
    ensures Distinct(out) && forall d :: d in out ==> d in lines
    ensures AllPicked(r, lines, limit, order, picks)
    ensures Draws(picks, taken, out, from) && Fair(picks, taken) && |out| == Min(limit, Sum(Sizes(picks)))
  {
    var groups;
    groups, lines := Skeletons(r, counts.Keys);
    ListedDistinct(r, counts.Keys, lines);
    var shapes := Order(r, counts, groups, lines);
    var chosen := PickAll(r, groups, lines, limit, shapes);
    order, picks := shapes, chosen;
    out, taken, from := RoundRobin(chosen, limit);
    SampleOfLines(r, lines, limit, order, picks, taken, out, from);
  }

  lemma ListedDistinct(r: Reading, descriptors: set<Line>, lines: seq<Line>)
    requires Listed(r, descriptors, lines)
    ensures Distinct(lines)
  {
    LessIsStrictOrder();
    AscendingDistinct(Less, lines);
  }

  ghost predicate AllPicked(r: Reading, lines: seq<Line>, limit: nat, order: seq<string>, picks: seq<seq<Line>>) {
    |picks| == |order| && forall k :: 0 <= k < |order| ==> PickedFrom(r, lines, limit, order, k, picks[k])
  }

  lemma SampleOfLines(r: Reading, lines: seq<Line>, limit: nat, order: seq<string>, picks: seq<seq<Line>>,
                      taken: seq<nat>, out: seq<Line>, from: seq<(nat, nat)>)
    requires Distinct(order) && AllPicked(r, lines, limit, order, picks) && Draws(picks, taken, out, from)
    ensures Distinct(out) && forall d :: d in out ==> d in lines
  {
    PicksAreDisjoint(r, lines, limit, order, picks);
    DrawsDistinct(picks, taken, out, from);
    forall n | 0 <= n < |out| ensures out[n] in lines {
      assert out[n] in picks[from[n].0];
      assert PickedFrom(r, lines, limit, order, from[n].0, picks[from[n].0]);
    }
  }

  /** The picks of one group: diverse lines of its spine, as many as the quota and the group allow. */
  ghost predicate PickedFrom(r: Reading, lines: seq<Line>, limit: nat, order: seq<string>, k: nat, picked: seq<Line>)
    requires k < |order|
  {
    && Diversified(r, Having(r, lines, lines, order[k]), PerGroup(limit, |order|), picked)
    && forall d :: d in picked ==> d in lines && Spine(r, lines, d) == order[k]
  }

  lemma PicksAreDisjoint(r: Reading, lines: seq<Line>, limit: nat, order: seq<string>, picks: seq<seq<Line>>)
    requires Distinct(order) && AllPicked(r, lines, limit, order, picks)
    ensures Disjoint(picks) && forall k :: 0 <= k < |picks| ==> Distinct(picks[k])
  {
    forall i, j | 0 <= i < j < |picks| ensures forall d :: d in picks[i] ==> d !in picks[j] {
      assert PickedFrom(r, lines, limit, order, i, picks[i]) && PickedFrom(r, lines, limit, order, j, picks[j]);
    }
    forall k | 0 <= k < |picks| ensures Distinct(picks[k]) {
      assert PickedFrom(r, lines, limit, order, k, picks[k]);
    }
  }
}
