/**
  Splitting ACH heads with the statement as a whole: the longest trailing phrase of up to four
  words that another originator also prints is the entry description, the rest is the name.
*/
module AchHeads {
  import opened Common

  type Line = string
  type Word = string
  type Words = seq<Word>
  type Heads = map<Line, Words>

  /** The last `i` words. */
  function Tail(words: Words, i: nat): Words
    requires i <= |words|
  {
    words[|words| - i..]
  }

  function Front(words: Words, i: nat): Words
    requires i <= |words|
  {
    words[..|words| - i]
  }

  function Lowered(words: Words, lower: Word -> Word): Words {
    seq(|words|, i requires 0 <= i < |words| => lower(words[i]))
  }

  /** The last `i` words, lowered, are `phrase` and the words before them `owner`. */
  predicate Ends(words: Words, lower: Word -> Word, i: nat, phrase: Words, owner: Words)
    requires i <= |words|
  {
    && |phrase| == i && |owner| == |words| - i
    && (forall k :: 0 <= k < |owner| ==> owner[k] == lower(words[k]))
    && forall k :: 0 <= k < i ==> phrase[k] == lower(words[|words| - i + k])
  }

  lemma EndsIs(words: Words, lower: Word -> Word, i: nat, phrase: Words, owner: Words)
    requires i <= |words|
    ensures Ends(words, lower, i, phrase, owner) <==>
            phrase == Lowered(Tail(words, i), lower) && owner == Lowered(Front(words, i), lower)
  {
  }

  /** Some ending of fewer than `n` words is `phrase` after `owner`. */
  ghost predicate EndsWithin(words: Words, lower: Word -> Word, n: nat, phrase: Words, owner: Words)
    requires n <= |words| + 1
  {
    exists i :: 1 <= i < n && Ends(words, lower, i, phrase, owner)
  }

  /** Line `d` prints `phrase`, of at most four words, after the originator `owner`. */
  ghost predicate Prints(heads: Heads, lower: Word -> Word, d: Line, phrase: Words, owner: Words) {
    d in heads && EndsWithin(heads[d], lower, Min(|heads[d]|, 4) + 1, phrase, owner)
  }

  type Owners = map<Words, set<Words>>

  function Of(owners: Owners, phrase: Words): set<Words> { if phrase in owners then owners[phrase] else {} }

  /** The owners of each trailing phrase are exactly the originators that print it. */
  ghost predicate OwnersOf(owners: Owners, heads: Heads, done: set<Line>, lower: Word -> Word) {
    forall phrase, o :: o in Of(owners, phrase) <==> exists d :: d in done && Prints(heads, lower, d, phrase, o)
  }

  method Collect(heads: Heads, lower: Word -> Word) returns (owners: Owners)
    ensures OwnersOf(owners, heads, heads.Keys, lower)
  {
    owners := map[];
    var rest := heads.Keys;
    while rest != {}
      invariant rest <= heads.Keys
      invariant OwnersOf(owners, heads, heads.Keys - rest, lower)
      decreases rest
    {
      var d :| d in rest;
      ghost var before := owners;
      owners := CollectLine(owners, heads, d, lower);
      forall phrase, o
        ensures o in Of(owners, phrase) <==>
                exists x :: x in heads.Keys - (rest - {d}) && Prints(heads, lower, x, phrase, o) {
        if Prints(heads, lower, d, phrase, o) {
          assert d in heads.Keys - (rest - {d});
        }
      }
      rest := rest - {d};
    }
    assert heads.Keys - {} == heads.Keys;
  }

  method CollectLine(start: Owners, heads: Heads, d: Line, lower: Word -> Word) returns (owners: Owners)
    requires d in heads
    ensures forall phrase, o ::
              o in Of(owners, phrase) <==> o in Of(start, phrase) || Prints(heads, lower, d, phrase, o)
  {
    owners := start;
    var words := heads[d];
    for i := 1 to Min(|words|, 4) + 1
      invariant forall phrase, o :: o in Of(owners, phrase) <==>
                (o in Of(start, phrase) || EndsWithin(words, lower, i, phrase, o))
    {
      ghost var before := owners;
      var mine := Lowered(Tail(words, i), lower);
      var owner := Lowered(Front(words, i), lower);
      owners := owners[mine := Of(owners, mine) + {owner}];
      forall phrase, o
        ensures o in Of(owners, phrase) <==> (o in Of(start, phrase) || EndsWithin(words, lower, i + 1, phrase, o)) {
        OneMoreWord(words, lower, i, phrase, o);
        EndsIs(words, lower, i, phrase, o);
      }
    }
  }

  lemma OneMoreWord(words: Words, lower: Word -> Word, i: nat, phrase: Words, o: Words)
    requires 1 <= i <= |words|
    ensures EndsWithin(words, lower, i + 1, phrase, o) <==>
            (EndsWithin(words, lower, i, phrase, o) || Ends(words, lower, i, phrase, o))
  {
    if EndsWithin(words, lower, i, phrase, o) {
      var j :| 1 <= j < i && Ends(words, lower, j, phrase, o);
    }
  }

  /** The number of trailing words taken as the description; 0 when nothing is shared. */
  function Shared(owners: Owners, words: Words, lower: Word -> Word, i: nat): (n: nat)
    requires i <= Min(|words|, 4)
    ensures n <= i && (n > 0 ==> n < |words| && |Of(owners, Lowered(Tail(words, n), lower))| > 1)
    ensures forall j :: n < j <= i && j < |words| ==> |Of(owners, Lowered(Tail(words, j), lower))| <= 1
  {
    if i == 0 then 0
    else if i != |words| && |Of(owners, Lowered(Tail(words, i), lower))| > 1 then i
    else Shared(owners, words, lower, i - 1)
  }

  datatype Split = Split(name: Words, description: Words)

  /** Split each head into company name and entry description. */
  method SplitHeads(heads: Heads, lower: Word -> Word) returns (splits: map<Line, Split>)
    ensures splits.Keys == heads.Keys && forall d :: d in heads ==> IsSplit(heads, lower, heads[d], splits[d])
  {
    var tails := Collect(heads, lower);
    splits := map d | d in heads :: SplitOf(tails, heads[d], lower);
    forall d | d in heads ensures IsSplit(heads, lower, heads[d], splits[d]) {
      SplitIsLongest(heads, lower, tails, heads[d]);
    }
  }

  /** Cut before the first trailing phrase, from four words down to one, that has more than one owner. */
  function SplitOf(owners: Owners, words: Words, lower: Word -> Word): Split {
    var n := Shared(owners, words, lower, Min(|words|, 4));
    Split(Front(words, n), Tail(words, n))
  }

  // ---------------------------------------------------------------- what a split says

  /** Line `x` ends, letter case aside, in the last `i` of these words, and prints them after `owner`. */
  predicate PrintsLast(heads: Heads, lower: Word -> Word, x: Line, words: Words, i: nat, owner: Words) {
    && x in heads && 1 <= i <= 4 && i <= |words| && i <= |heads[x]| && |owner| == |heads[x]| - i
    && (forall k :: 0 <= k < |owner| ==> owner[k] == lower(heads[x][k]))
    && forall k :: |words| - i <= k < |words| ==> lower(words[k]) == lower(heads[x][k + |heads[x]| - |words|])
  }

  /** Two different originators print the last `i` words. */
  ghost predicate Contested(heads: Heads, lower: Word -> Word, words: Words, i: nat) {
    exists x, y, a, b :: Rivals(heads, lower, words, i, x, y, a, b)
  }

  predicate Rivals(heads: Heads, lower: Word -> Word, words: Words, i: nat, x: Line, y: Line, a: Words, b: Words) {
    a != b && PrintsLast(heads, lower, x, words, i, a) && PrintsLast(heads, lower, y, words, i, b)
  }

  /**
    The name and the description are the words in order; the description is the longest phrase of up
    to four words that leaves a name and that two originators print, and empty when there is none.
  */
  ghost predicate IsSplit(heads: Heads, lower: Word -> Word, words: Words, split: Split) {
    && split.name + split.description == words
    && |split.description| <= 4
    && (split.description != [] ==> split.name != [] && Contested(heads, lower, words, |split.description|))
    && forall j: nat :: |split.description| < j <= 4 && j < |words| ==> !Contested(heads, lower, words, j)
  }

  /** There is one such split. */
  lemma SplitIsDetermined(heads: Heads, lower: Word -> Word, words: Words, a: Split, b: Split)
    requires IsSplit(heads, lower, words, a) && IsSplit(heads, lower, words, b)
    ensures a == b
  {
    assert |a.name| == |words| - |a.description| && |b.name| == |words| - |b.description|;
    assert |a.description| == |b.description|;
    assert a.name == words[..|a.name|] && a.description == words[|a.name|..];
    assert b.name == words[..|a.name|] && b.description == words[|a.name|..];
  }

  lemma PrintsLastIs(heads: Heads, lower: Word -> Word, x: Line, words: Words, i: nat, owner: Words)
    requires 1 <= i <= 4 && i <= |words|
    ensures PrintsLast(heads, lower, x, words, i, owner)
            <==> Prints(heads, lower, x, Lowered(Tail(words, i), lower), owner)
  {
    var phrase := Lowered(Tail(words, i), lower);
    assert forall k :: |words| - i <= k < |words| ==> words[k] == Tail(words, i)[k + i - |words|];
    if PrintsLast(heads, lower, x, words, i, owner) {
      forall k | 0 <= k < i ensures phrase[k] == lower(heads[x][|heads[x]| - i + k]) {
        assert words[|words| - i + k] == Tail(words, i)[k];
      }
      assert Ends(heads[x], lower, i, phrase, owner);
      assert EndsWithin(heads[x], lower, Min(|heads[x]|, 4) + 1, phrase, owner);
    }
    if Prints(heads, lower, x, phrase, owner) {
      var j :| 1 <= j < Min(|heads[x]|, 4) + 1 && Ends(heads[x], lower, j, phrase, owner);
      forall k | |words| - i <= k < |words| ensures lower(words[k]) == lower(heads[x][k + |heads[x]| - |words|]) {
        assert phrase[k + i - |words|] == lower(heads[x][|heads[x]| - j + (k + i - |words|)]);
      }
    }
  }

  lemma ContestedIff(heads: Heads, lower: Word -> Word, owners: Owners, words: Words, i: nat)
    requires OwnersOf(owners, heads, heads.Keys, lower) && 1 <= i <= 4 && i <= |words|
    ensures |Of(owners, Lowered(Tail(words, i), lower))| > 1 <==> Contested(heads, lower, words, i)
  {
    var phrase := Lowered(Tail(words, i), lower);
    var s := Of(owners, phrase);
    SeveralIff(s);
    forall o, x ensures PrintsLast(heads, lower, x, words, i, o) <==> Prints(heads, lower, x, phrase, o) {
      PrintsLastIs(heads, lower, x, words, i, o);
    }
    if |s| > 1 {
      var a, b :| a in s && b in s && a != b;
      var x :| x in heads.Keys && Prints(heads, lower, x, phrase, a);
      var y :| y in heads.Keys && Prints(heads, lower, y, phrase, b);
      assert Rivals(heads, lower, words, i, x, y, a, b);
    }
    if x, y, a, b :| Rivals(heads, lower, words, i, x, y, a, b) {
      assert a in s && b in s;
    }
  }

  lemma TwoMembers<T>(s: set<T>, x: T) returns (y: T)
    requires |s| > 1 && x in s
    ensures y in s && y != x
  {
    var rest := s - {x};
    assert s == rest + {x};
    y :| y in rest;
  }

  /**
    The split loses no word; a described head keeps a name, and some other line prints the same
    description for a different originator.
  */
  lemma SplitIsShared(heads: Heads, lower: Word -> Word, owners: Owners, d: Line)
    requires OwnersOf(owners, heads, heads.Keys, lower) && d in heads
    ensures var Split(name, description) := SplitOf(owners, heads[d], lower);
            && name + description == heads[d]
            && |description| <= 4
            && (description != [] ==> name != [] && exists e, other ::
                  e != d && Prints(heads, lower, e, Lowered(description, lower), other) &&
                      other != Lowered(name, lower))
  {
    var n := Shared(owners, heads[d], lower, Min(|heads[d]|, 4));
    if n > 0 {
      var e, other := AnotherOriginator(heads, lower, owners, d, n);
    }
  }

  lemma AnotherOriginator(heads: Heads, lower: Word -> Word, owners: Owners, d: Line, n: nat)
    returns (e: Line, other: Words)
    requires OwnersOf(owners, heads, heads.Keys, lower) && d in heads && 1 <= n <= Min(|heads[d]|, 4)
    requires |Of(owners, Lowered(Tail(heads[d], n), lower))| > 1
    ensures e != d && Prints(heads, lower, e, Lowered(Tail(heads[d], n), lower), other)
    ensures other != Lowered(Front(heads[d], n), lower)
  {
    var phrase := Lowered(Tail(heads[d], n), lower);
    var mine := Lowered(Front(heads[d], n), lower);
    assert Ends(heads[d], lower, n, phrase, mine);
    assert Prints(heads, lower, d, phrase, mine);
    other := TwoMembers(Of(owners, phrase), mine);
    e :| e in heads.Keys && Prints(heads, lower, e, phrase, other);
    PrintsOnce(heads, lower, d, phrase, mine, other);
  }

  /** One line prints one owner for a phrase: the phrase's length fixes where it starts. */
  lemma PrintsOnce(heads: Heads, lower: Word -> Word, d: Line, phrase: Words, a: Words, b: Words)
    requires Prints(heads, lower, d, phrase, a)
    ensures Prints(heads, lower, d, phrase, b) ==> a == b
  {
  }

  /** Every head is split before the longest contested phrase that leaves a name. */
  lemma SplitIsLongest(heads: Heads, lower: Word -> Word, owners: Owners, words: Words)
    requires OwnersOf(owners, heads, heads.Keys, lower)
    ensures IsSplit(heads, lower, words, SplitOf(owners, words, lower))
  {
    var n := Shared(owners, words, lower, Min(|words|, 4));
    assert Front(words, n) + Tail(words, n) == words && |Tail(words, n)| == n && |Front(words, n)| == |words| - n;
    if n > 0 {
      ContestedIff(heads, lower, owners, words, n);
    }
    NothingLonger(heads, lower, owners, words);
  }

  lemma NothingLonger(heads: Heads, lower: Word -> Word, owners: Owners, words: Words)
    requires OwnersOf(owners, heads, heads.Keys, lower)
    ensures forall j: nat :: Shared(owners, words, lower, Min(|words|, 4)) < j <= 4 && j < |words| ==>
              !Contested(heads, lower, words, j)
  {
    forall j: nat | Shared(owners, words, lower, Min(|words|, 4)) < j <= 4 && j < |words|
      ensures !Contested(heads, lower, words, j) {
      assert |Of(owners, Lowered(Tail(words, j), lower))| <= 1;
      ContestedIff(heads, lower, owners, words, j);
    }
  }
}
