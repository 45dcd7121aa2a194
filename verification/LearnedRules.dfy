/**
  What recording a correction and applying learned rules come to, said in terms of the log
  alone: which rules stand, which of them match, and which treatment is in force.
*/
module LearnedRules {
  import opened Common
  import opened AccountingLog
  import opened AccountingIntelligence
  import opened Decisions
  import opened DecisionRuns
  import opened DecisionTheorems
  import opened DecisionOrder

  // ---------------------------------------------------------------- what two rules mean

  /** How many components name the major and the account, whatever their share. */
  function Times(legs: seq<Leg>, major: string, account: string): nat {
    if legs == [] then 0 else
      var last := legs[|legs| - 1];
      Times(legs[..|legs| - 1], major, account) + if last.major == major && last.account == account then 1 else 0
  }

  /** The same category and the same components, order and shares aside. */
  ghost predicate SameMeaning(a: Rule, b: Rule) {
    a.category == b.category && forall major, account :: Times(a.legs, major, account) == Times(b.legs, major, account)
  }

  lemma {:induction false} SemanticTimes(legs: seq<Leg>, major: string, account: string)
    ensures multiset(Semantic(legs))[Leg(major, account, "")] == Times(legs, major, account)
    ensures forall share :: share != "" ==> Leg(major, account, share) !in multiset(Semantic(legs))
  {
    if legs != [] {
      var n := |legs| - 1;
      SemanticTimes(legs[..n], major, account);
      assert Semantic(legs) == Semantic(legs[..n]) + [legs[n].(share := "")];
    }
  }

  lemma OutputIff(a: Rule, b: Rule)
    ensures Output(a) == Output(b) <==> SameMeaning(a, b)
  {
    forall l: Leg
      ensures multiset(Semantic(a.legs))[l] == if l.share == "" then Times(a.legs, l.major, l.account) else 0
      ensures multiset(Semantic(b.legs))[l] == if l.share == "" then Times(b.legs, l.major, l.account) else 0 {
      SemanticTimes(a.legs, l.major, l.account);
      SemanticTimes(b.legs, l.major, l.account);
      assert l == Leg(l.major, l.account, l.share);
    }
    if Output(a) == Output(b) {
      forall major, account ensures Times(a.legs, major, account) == Times(b.legs, major, account) {
        var l := Leg(major, account, "");
        assert multiset(Semantic(a.legs))[l] == multiset(Semantic(b.legs))[l];
      }
    }
    if SameMeaning(a, b) {
      assert multiset(Semantic(a.legs)) == multiset(Semantic(b.legs));
    }
  }

  // ---------------------------------------------------------------- which rule is applied

  /** The rule recorded `j`-th stands and matches the movement in the category it is in. */
  predicate Speaking(log: Log, m: Key, env: Matching, j: nat) {
    && j < |Rules(log)| && Rules(log)[j].id !in Undone(log)
    && env.matches(m, InForce(log, m).category, Rules(log)[j])
  }

  /** Two standing rules that match mean different things. */
  ghost predicate Disagree(log: Log, m: Key, env: Matching) {
    exists i: nat, j: nat :: DisagreeAt(log, m, env, i, j)
  }

  ghost predicate DisagreeAt(log: Log, m: Key, env: Matching, i: nat, j: nat) {
    Speaking(log, m, env, i) && Speaking(log, m, env, j) && !SameMeaning(Rules(log)[i], Rules(log)[j])
  }

  /** A person's ruling is in force on the movement. */
  predicate RuledByPerson(t: Treatment) { t.ruling.Some? && t.ruling.value.author == Human }

  predicate AlreadyRuled(t: Treatment, r: Rule) {
    t.ruling.Some? && t.ruling.value.said == r.said && t.ruling.value.legs == r.legs
  }

  /**
    The rule to apply to a movement: the last one recorded that stands and matches, when no person
    has ruled, it is not in force already, and the purpose is not one that is merely defaulted
    while standing rules that match disagree.
  */
  ghost predicate Due(log: Log, m: Key, env: Matching, r: Rule) {
    var t := InForce(log, m);
    && !RuledByPerson(t) && !AlreadyRuled(t, r)
    && (env.unknown(m, t.category) ==> !Disagree(log, m, env))
    && exists j: nat :: LastMatching(log, m, env, j) && Rules(log)[j] == r
  }

  /** Some rule is due on the movement. */
  ghost predicate DueAny(log: Log, m: Key, env: Matching) { exists r: Rule :: Due(log, m, env, r) }

  predicate LastMatching(log: Log, m: Key, env: Matching, j: nat) {
    Speaking(log, m, env, j) && forall i: nat :: j < i < |Rules(log)| ==> !Speaking(log, m, env, i)
  }

  lemma {:induction false} EligibleIff(rules: seq<Rule>, m: Key, category: Option<string>, env: Matching, r: Rule)
    ensures r in Eligible(rules, m, category, env) <==> r in rules && env.matches(m, category, r)
  {
    if rules != [] {
      EligibleIff(rules[..|rules| - 1], m, category, env, r);
      assert r in rules <==> r in rules[..|rules| - 1] || r == rules[|rules| - 1];
    }
  }

  lemma EligibleIsMatching(log: Log, m: Key, env: Matching, r: Rule)
    requires LogOk(log)
    ensures r in Eligible(ActiveRules(log), m, InForce(log, m).category, env)
            <==> exists j: nat :: Speaking(log, m, env, j) && Rules(log)[j] == r
  {
    EligibleIff(ActiveRules(log), m, InForce(log, m).category, env, r);
    WithoutMembers(Rules(log), Undone(log), r);
    if r in Rules(log) && r.id !in Undone(log) && env.matches(m, InForce(log, m).category, r) {
      var j: nat :| j < |Rules(log)| && Rules(log)[j] == r;
      assert Speaking(log, m, env, j);
    }
  }

  function Standing(log: Log, m: Key, env: Matching): seq<Rule> {
    Eligible(ActiveRules(log), m, InForce(log, m).category, env)
  }

  lemma OutputsDisagree(log: Log, m: Key, env: Matching, a: Rule, b: Rule)
    requires LogOk(log) && a in Standing(log, m, env) && b in Standing(log, m, env) && Output(a) != Output(b)
    ensures Disagree(log, m, env)
  {
    EligibleIsMatching(log, m, env, a);
    EligibleIsMatching(log, m, env, b);
    OutputIff(a, b);
    var i: nat :| Speaking(log, m, env, i) && Rules(log)[i] == a;
    var j: nat :| Speaking(log, m, env, j) && Rules(log)[j] == b;
    assert DisagreeAt(log, m, env, i, j);
  }

  lemma DisagreementShows(log: Log, m: Key, env: Matching) returns (a: Rule, b: Rule)
    requires LogOk(log) && Disagree(log, m, env)
    ensures a in Standing(log, m, env) && b in Standing(log, m, env) && Output(a) != Output(b)
  {
    var i: nat, j: nat :| DisagreeAt(log, m, env, i, j);
    a, b := Rules(log)[i], Rules(log)[j];
    EligibleIsMatching(log, m, env, a);
    EligibleIsMatching(log, m, env, b);
    OutputIff(a, b);
  }

  lemma DisagreeIff(log: Log, m: Key, env: Matching)
    requires LogOk(log)
    ensures |set r | r in Standing(log, m, env) :: Output(r)| > 1 <==> Disagree(log, m, env)
  {
    var outputs := set r | r in Standing(log, m, env) :: Output(r);
    SeveralIff(outputs);
    if |outputs| > 1 {
      var x, y :| x in outputs && y in outputs && x != y;
      var a :| a in Standing(log, m, env) && Output(a) == x;
      var b :| b in Standing(log, m, env) && Output(b) == y;
      OutputsDisagree(log, m, env, a, b);
    }
    if Disagree(log, m, env) {
      var a, b := DisagreementShows(log, m, env);
      assert Output(a) in outputs && Output(b) in outputs;
    }
  }

  lemma LastMatchingIs(log: Log, m: Key, env: Matching)
    requires LogOk(log)
    ensures var e := Standing(log, m, env);
            && (e != [] ==> exists j: nat :: LastMatching(log, m, env, j) && Rules(log)[j] == e[|e| - 1])
            && forall j: nat :: LastMatching(log, m, env, j) ==> e != [] && Rules(log)[j] == e[|e| - 1]
  {
    var category := InForce(log, m).category;
    var best := BestRank(Rules(log), Undone(log), m, category, env);
    LastEligible(Rules(log), Undone(log), m, category, env);
    assert best >= 0 ==> Speaking(log, m, env, best) && LastMatching(log, m, env, best);
    forall j: nat | LastMatching(log, m, env, j) ensures j == best {
      assert Speaking(log, m, env, j);
    }
  }

  /** A pass applies a rule to a movement exactly when it is due, and at most one is. */
  lemma PickIsDue(log: Log, m: Key, env: Matching, r: Rule)
    requires LogOk(log)
    ensures Pick(log, m, env) == Some(r) <==> Due(log, m, env, r)
  {
    LastMatchingIs(log, m, env);
    DisagreeIff(log, m, env);
  }

  // ---------------------------------------------------------------- what a pass comes to

  /** The ruling an applied rule leaves: its words and legs, verified, in the name of its author's rule. */
  function RuledBy(t: Treatment, r: Rule): Treatment {
    Treatment(Some(Ruling(r.said, r.legs, HumanRule, true, r.note)),
              if r.category.Some? then r.category else t.category)
  }

  lemma ApplicationMeans(log: Log, t: Treatment, m: Key, r: Rule, k: Key, env: Matching)
    ensures Replay(t, ApplyEvents(InForce(log, m), m, r), k) == if k == m then RuledBy(t, r) else t
    ensures forall id, x, p :: RuleApplied(id, x, p) in ApplyEvents(InForce(log, m), m, r)
                           <==> id == r.id && x == m && p == InForce(log, m)
  {
    var e := RuleApplied(r.id, m, InForce(log, m));
    var tail := [RulingRecorded(m, RuleRuling(r))] + CategoryEvents(m, r.category);
    assert [e][..0] == [];
    ReplayConcat(t, [e], tail, k);
    TailProjects(t, m, RuleRuling(r), r.category, k);
  }

  /** The applications a pass records on a movement: that of the rule due there, with what preceded it. */
  ghost predicate RecordsDue(log: Log, es: Log, m: Key, env: Matching) {
    forall id, p :: RuleApplied(id, m, p) in es <==>
      p == InForce(log, m) && exists r: Rule :: r.id == id && Due(log, m, env, r)
  }

  ghost predicate TreatsAsDue(log: Log, after: Treatment, m: Key, env: Matching) {
    && (forall r :: Due(log, m, env, r) ==> after == RuledBy(InForce(log, m), r))
    && ((forall r :: !Due(log, m, env, r)) ==> after == InForce(log, m))
  }

  lemma PickEventsMean(log: Log, m: Key, env: Matching, k: Key)
    requires LogOk(log)
    ensures k == m ==> TreatsAsDue(log, Replay(InForce(log, m), PickEvents(log, m, env), m), m, env)
    ensures k != m ==> forall t :: Replay(t, PickEvents(log, m, env), k) == t
    ensures k == m ==> RecordsDue(log, PickEvents(log, m, env), m, env)
    ensures k != m ==> forall id, p :: RuleApplied(id, k, p) !in PickEvents(log, m, env)
  {
    forall r ensures Pick(log, m, env) == Some(r) <==> Due(log, m, env, r) {
      PickIsDue(log, m, env, r);
    }
    match Pick(log, m, env)
    case None =>
    case Some(r) =>
      forall t, x ensures Replay(t, PickEvents(log, m, env), x) == if x == m then RuledBy(t, r) else t {
        ApplicationMeans(log, t, m, r, x, env);
      }
      ApplicationMeans(log, InForce(log, m), m, r, m, env);
  }

  /**
    A pass over movements listed once: each is ruled by the rule due there, judged on the log the
    pass started from, with its application recorded; where none is due nothing changes; and the
    number reported is that of the movements ruled.
  */
  lemma {:induction false} PassMeans(log: Log, movements: seq<Key>, env: Matching, m: Key)
    requires LogOk(log) && Distinct(movements)
    ensures var es := LearnedEvents(log, movements, env);
            && (m in movements ==> TreatsAsDue(log, InForce(log + es, m), m, env) && RecordsDue(log, es, m, env))
            && (m !in movements ==> InForce(log + es, m) == InForce(log, m)
                                    && forall id, p :: RuleApplied(id, m, p) !in es)
    ensures PickCount(log, movements, env) == |set k | k in movements && DueAny(log, k, env)|
  {
    if movements == [] {
      assert log + [] == log;
    } else {
      var n := |movements| - 1;
      PassMeans(log, movements[..n], env, m);
      PassStep(log, movements, env, m);
      DueCount(log, movements, env);
      PickIsDueSome(log, movements[n], env);
      assert m in movements <==> m in movements[..n] || m == movements[n];
    }
  }

  /** The last movement of a pass: what it adds concerns that movement alone. */
  lemma PassStep(log: Log, movements: seq<Key>, env: Matching, m: Key)
    requires LogOk(log) && movements != []
    ensures var n := |movements| - 1;
            var before, after := LearnedEvents(log, movements[..n], env), LearnedEvents(log, movements, env);
            && (m != movements[n] ==>
                  && InForce(log + after, m) == InForce(log + before, m)
                  && forall id, p :: RuleApplied(id, m, p) in after <==> RuleApplied(id, m, p) in before)
            && (m == movements[n] && InForce(log + before, m) == InForce(log, m)
                && (forall id, p :: RuleApplied(id, m, p) !in before) ==>
                  TreatsAsDue(log, InForce(log + after, m), m, env) && RecordsDue(log, after, m, env))
  {
    var n := |movements| - 1;
    var before, es := LearnedEvents(log, movements[..n], env), PickEvents(log, movements[n], env);
    PickEventsMean(log, movements[n], env, m);
    Associate(log, before, es);
    ReplayConcat(BLANK, log + before, es, m);
  }

  lemma PickIsDueSome(log: Log, m: Key, env: Matching)
    requires LogOk(log)
    ensures Pick(log, m, env).Some? <==> DueAny(log, m, env)
  {
    forall r ensures Pick(log, m, env) == Some(r) <==> Due(log, m, env, r) {
      PickIsDue(log, m, env, r);
    }
    if Pick(log, m, env).Some? {
      assert Due(log, m, env, Pick(log, m, env).value);
    }
  }

  lemma DueCount(log: Log, movements: seq<Key>, env: Matching)
    requires movements != [] && Distinct(movements)
    ensures var n := |movements| - 1;
            |set k | k in movements && DueAny(log, k, env)|
            == |set k | k in movements[..n] && DueAny(log, k, env)|
               + if DueAny(log, movements[n], env) then 1 else 0
  {
    var n := |movements| - 1;
    var front := set k | k in movements[..n] && DueAny(log, k, env);
    var all := set k | k in movements && DueAny(log, k, env);
    assert forall k :: k in movements <==> k in movements[..n] || k == movements[n];
    if DueAny(log, movements[n], env) {
      assert all == front + {movements[n]} && movements[n] !in front;
    } else {
      assert all == front;
    }
  }

  // ---------------------------------------------------------------- what a correction comes to

  /** The lesson kept with a correction: the components without their shares, and everything else as said. */
  ghost predicate LessonOf(r: Rule, c: Correction, p: Proposal) {
    && p.lesson == Some(r.scope) && r.id == c.id && r.said == p.said && r.category == p.category && r.note == p.note
    && SharesDropped(r.legs, c.legs)
  }

  /** What is saved with a correction: the treatments before it, and the legs of the movement resolved last. */
  ghost predicate SavedFor(c: Correction, log: Log, movements: seq<Key>, p: Proposal) {
    && c.movements == movements && c.said == p.said
    && c.legs == (if movements == [] then [] else p.legs(movements[|movements| - 1]))
    && c.ruleId == (if p.lesson.Some? then Some(c.id) else None)
    && (forall m :: m in c.previous <==> m in movements)
    && forall m :: m in movements ==> c.previous[m] == InForce(log, m)
  }

  /**
    Recording an explanation: each selected movement is ruled as the person said, verified, with its
    own legs; nothing else is touched; the correction is saved with the treatments it replaced; and
    a lesson is kept exactly when one was asked for.
  */
  lemma CorrectionMeans(log: Log, id: Id, movements: seq<Key>, p: Proposal)
    requires Distinct(movements)
    ensures var after := log + CorrectEvents(log, id, movements, p);
            && (forall m :: InForce(after, m) ==
                  if m in movements
                  then Treatment(Some(Ruling(p.said, p.legs(m), Human, true, p.note)),
                                 if p.category.Some? then p.category else InForce(log, m).category)
                  else InForce(log, m))
            && id in Corrections(after) && Corrections(after)[id].id == id
            && SavedFor(Corrections(after)[id], log, movements, p)
            && (forall x :: x != id ==> (x in Corrections(after) <==> x in Corrections(log)))
            && (forall x :: x != id && x in Corrections(log) ==> Corrections(after)[x] == Corrections(log)[x])
            && (p.lesson.None? ==> Rules(after) == Rules(log))
            && (p.lesson.Some? ==> Rules(after) != [] && Rules(after)[..|Rules(after)| - 1] == Rules(log)
                                   && LessonOf(Rules(after)[|Rules(after)| - 1], Corrections(after)[id], p))
  {
    CorrectReplays(log, id, movements, p);
    forall m ensures InForce(log + CorrectEvents(log, id, movements, p), m) ==
                     if m in movements
                     then Treatment(Some(Ruling(p.said, p.legs(m), Human, true, p.note)),
                                    if p.category.Some? then p.category else InForce(log, m).category)
                     else InForce(log, m) {
      CorrectInForce(log, id, movements, p, m);
    }
    SemanticDropsShares(Semantic(SavedLegs(movements, p)), SavedLegs(movements, p));
  }

  // ---------------------------------------------------------------- what the replays of a log are

  /** What was undone, recorded and learned is exactly what the log says. */
  lemma {:induction false} ReplaysMean(log: Log)
    ensures forall id :: id in Undone(log) <==> exists gone :: CorrectionUndone(id, gone) in log
    ensures forall r :: r in Rules(log) <==> RuleRecorded(r) in log
    ensures forall id :: id in Corrections(log) ==> CorrectionRecorded(Corrections(log)[id]) in log
    ensures forall c :: CorrectionRecorded(c) in log ==> c.id in Corrections(log)
  {
    if log != [] {
      var n := |log| - 1;
      ReplaysMean(log[..n]);
      assert log == log[..n] + [log[n]];
      forall id, gone ensures CorrectionUndone(id, gone) in log
                              <==> CorrectionUndone(id, gone) in log[..n] || CorrectionUndone(id, gone) == log[n] {
      }
      if log[n].CorrectionUndone? {
        assert CorrectionUndone(log[n].correctionId, log[n].retracted) in log;
      }
    }
  }

  /** A movement's history holds exactly the corrections that name it and the applications of known rules to it. */
  lemma {:induction false} HistoryMembers(log: Log, m: Key, known: set<Id>, e: Entry)
    ensures e in History(log, m, known) <==>
            || (e.id in known && RuleApplied(e.id, m, e.previous) in log)
            || exists c :: CorrectionRecorded(c) in log && m in c.movements && c.id == e.id
                           && e.previous == if m in c.previous then c.previous[m] else Treatment(None, None)
  {
    if log != [] {
      var n := |log| - 1;
      HistoryMembers(log[..n], m, known, e);
      assert log == log[..n] + [log[n]];
    }
  }

  /** Events that neither rule verifiably on the movement nor restore it. */
  predicate LeavesVerified(log: Log, m: Key) {
    forall i :: 0 <= i < |log| ==>
      && (log[i].RulingRecorded? && log[i].movement == m ==> !log[i].ruling.verified)
      && (log[i].TreatmentRestored? ==> log[i].movement != m)
  }

  /** A verified ruling stands until another verified one or a restoration. */
  lemma {:induction false} VerifiedStands(t: Treatment, log: Log, m: Key)
    requires t.ruling.Some? && t.ruling.value.verified && LeavesVerified(log, m)
    ensures Replay(t, log, m).ruling == t.ruling
  {
    if log != [] {
      VerifiedStands(t, log[..|log| - 1], m);
    }
  }

  /** Otherwise the latest ruling is in force. */
  lemma LatestRulingStands(t: Treatment, log: Log, m: Key, r: Ruling)
    requires r.verified || Replay(t, log, m).ruling.None? || !Replay(t, log, m).ruling.value.verified
    ensures Replay(t, log + [RulingRecorded(m, r)], m) == Replay(t, log, m).(ruling := Some(r))
    ensures forall k :: k != m ==> Replay(t, log + [RulingRecorded(m, r)], k) == Replay(t, log, k)
  {
    Unfold(log, RulingRecorded(m, r));
  }

  /** Recording a rule under an identity already there replaces it in place. */
  lemma {:induction false} PutReplaces(rules: seq<Rule>, r: Rule, i: nat)
    requires i < |rules| && rules[i].id == r.id && forall j :: 0 <= j < i ==> rules[j].id != r.id
    ensures Put(rules, r) == rules[i := r]
  {
    if i > 0 {
      assert rules == [rules[0]] + rules[1..];
      PutReplaces(rules[1..], r, i - 1);
    }
  }
}
