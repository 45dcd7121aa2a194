/**
  Which spans are tried on a descriptor line, in which order, and the slot each one fills, rule by
  rule.
*/
module DescriptorRules {
  import opened Common
  import opened Descriptor

  /** The turn of an attempt: its rule, and its position among the matches of that rule. */
  datatype Turn = Turn(rule: nat, position: nat)

  predicate Precedes(a: Turn, b: Turn) { a.rule < b.rule || (a.rule == b.rule && a.position < b.position) }

  /** The match at a position fills the slot of that name. */
  predicate Fills(a: Attempt, spans: seq<Span>, position: nat, slot: string) {
    position < |spans| && a == Attempt(spans[position], Some(slot))
  }

  /** An asterisk at `i`, and none at an earlier one of the four positions that count. */
  predicate FirstAsterisk(text: string, i: nat) {
    && (i == 2 || i == 3 || i == 7 || i == 12) && i < |text| && text[i] == '*'
    && (i > 2 ==> text[2] != '*') && (i > 3 ==> text[3] != '*') && (i > 7 ==> text[7] != '*')
  }

  /**
    The rules by rank: the aggregator before an asterisk; the ACH code, the company, the literal
    between them; contacts; dates; stores; the region; the city, once the region is granted;
    references; long numbers.
  */
  predicate TriedAt(text: string, h: Hits, a: Attempt, p: Turn) {
    match p.rule
    case 0 => p.position == 0 && a.span.start == 0 && a.slot == Some("aggregator") && a.span.end > 0
              && FirstAsterisk(text, a.span.end - 1)
    case 1 => p.position == 0 && h.ach.Some? && a == Attempt(h.ach.value.0, Some("sec_code"))
    case 2 => p.position == 0 && h.ach.Some? && a == Attempt(h.ach.value.1, Some("company_id"))
    case 3 => p.position == 0 && h.ach.Some? && a == Attempt(Span(h.ach.value.0.end, h.ach.value.1.start), None)
    case 4 => Fills(a, h.contacts, p.position, "contact")
    case 5 => Fills(a, h.dates, p.position, "posting_date")
    case 6 => Fills(a, h.stores, p.position, "store_number")
    case 7 => p.position == 0 && h.region.Some? && a == Attempt(h.region.value, Some("region"))
    case 8 => p.position == 0 && h.region.Some? && h.city.Some? && a == Attempt(h.city.value, Some("city"))
              && Attempt(h.region.value, Some("region")) in Granted(Attempts(text, h))
    case 9 => Fills(a, h.references, p.position, "reference")
    case 10 => Fills(a, h.numbers, p.position, "reference")
    case _ => false
  }

  /** The attempts are exactly those of the rules `low` to `high` - 1, each in its turn. */
  ghost predicate Covers(text: string, h: Hits, attempts: seq<Attempt>, turns: seq<Turn>, low: nat, high: nat) {
    && |turns| == |attempts|
    && (forall i :: 0 <= i < |attempts| ==>
          low <= turns[i].rule < high && TriedAt(text, h, attempts[i], turns[i]))
    && (forall i, j :: 0 <= i < j < |turns| ==> Precedes(turns[i], turns[j]))
    && forall a: Attempt, p: Turn :: low <= p.rule < high && TriedAt(text, h, a, p) ==> p in turns
  }

  lemma CoversConcat(text: string, h: Hits, a: seq<Attempt>, ps: seq<Turn>, b: seq<Attempt>, qs: seq<Turn>,
                     low: nat, middle: nat, high: nat)
    requires low <= middle <= high
    requires Covers(text, h, a, ps, low, middle) && Covers(text, h, b, qs, middle, high)
    ensures Covers(text, h, a + b, ps + qs, low, high)
  {
    var (all, turns) := (a + b, ps + qs);
    forall i | 0 <= i < |all| ensures low <= turns[i].rule < high && TriedAt(text, h, all[i], turns[i]) {
      assert i < |a| || (all[i] == b[i - |a|] && turns[i] == qs[i - |a|]);
    }
    forall i, j | 0 <= i < j < |turns| ensures Precedes(turns[i], turns[j]) {
      assert i < |a| <= j ==> turns[i].rule < middle <= turns[j].rule;
    }
    forall x: Attempt, p: Turn | low <= p.rule < high && TriedAt(text, h, x, p) ensures p in ps + qs {
      assert p in ps || p in qs;
    }
  }

  function Numbered(rule: nat, n: nat): seq<Turn> { seq(n, i requires 0 <= i < n => Turn(rule, i)) }

  lemma NamedCovers(text: string, h: Hits, spans: seq<Span>, slot: string, rule: nat)
    requires forall a: Attempt, p: Turn :: p.rule == rule ==>
             (TriedAt(text, h, a, p) <==> Fills(a, spans, p.position, slot))
    ensures Covers(text, h, Named(spans, slot), Numbered(rule, |spans|), rule, rule + 1)
  {
    var attempts, turns := Named(spans, slot), Numbered(rule, |spans|);
    forall a: Attempt, p: Turn | p.rule == rule && TriedAt(text, h, a, p) ensures p in turns {
      assert turns[p.position] == p;
    }
  }

  lemma AsteriskCovers(text: string, h: Hits)
    ensures Covers(text, h, Asterisk(text), Numbered(0, |Asterisk(text)|), 0, 1)
  {
    var turns := Numbered(0, |Asterisk(text)|);
    forall a: Attempt, p: Turn | p.rule == 0 && TriedAt(text, h, a, p) ensures p in turns {
      assert turns[0] == p;
    }
  }

  lemma AchCovers(text: string, h: Hits) returns (turns: seq<Turn>)
    ensures Covers(text, h, AchTail(h), turns, 1, 4)
  {
    turns := if h.ach.Some? then [Turn(1, 0), Turn(2, 0), Turn(3, 0)] else [];
    forall a: Attempt, p: Turn | 1 <= p.rule < 4 && TriedAt(text, h, a, p) ensures p in turns {
      assert turns[p.rule - 1] == p;
    }
  }

  lemma OpeningCovers(text: string, h: Hits) returns (turns: seq<Turn>)
    ensures Covers(text, h, Opening(text, h), turns, 0, 7)
  {
    AsteriskCovers(text, h);
    var ach := AchCovers(text, h);
    NamedCovers(text, h, h.contacts, "contact", 4);
    NamedCovers(text, h, h.dates, "posting_date", 5);
    NamedCovers(text, h, h.stores, "store_number", 6);
    var a, ps := Asterisk(text), Numbered(0, |Asterisk(text)|);
    CoversConcat(text, h, a, ps, AchTail(h), ach, 0, 1, 4);
    a, ps := a + AchTail(h), ps + ach;
    CoversConcat(text, h, a, ps, Named(h.contacts, "contact"), Numbered(4, |h.contacts|), 0, 4, 5);
    a, ps := a + Named(h.contacts, "contact"), ps + Numbered(4, |h.contacts|);
    CoversConcat(text, h, a, ps, Named(h.dates, "posting_date"), Numbered(5, |h.dates|), 0, 5, 6);
    a, ps := a + Named(h.dates, "posting_date"), ps + Numbered(5, |h.dates|);
    CoversConcat(text, h, a, ps, Named(h.stores, "store_number"), Numbered(6, |h.stores|), 0, 6, 7);
    turns := ps + Numbered(6, |h.stores|);
  }

  lemma {:induction false} GrantedConcat(a: seq<Attempt>, b: seq<Attempt>)
    ensures Granted(a) <= Granted(a + b)
    ensures forall x :: x in Granted(a + b) ==> x in Granted(a) || x in b
  {
    if b == [] {
      assert a + b == a;
    } else {
      var n := |b| - 1;
      GrantedConcat(a, b[..n]);
      assert (a + b)[..|a + b| - 1] == a + b[..n];
      assert b == b[..n] + [b[n]];
    }
  }

  lemma {:induction false} GrantedAreTried(attempts: seq<Attempt>, x: Attempt)
    ensures x in Granted(attempts) ==> x in attempts
  {
    if attempts != [] {
      GrantedAreTried(attempts[..|attempts| - 1], x);
      assert attempts == attempts[..|attempts| - 1] + [attempts[|attempts| - 1]];
    }
  }

  /** No rule but one names a region. */
  lemma OtherName(text: string, h: Hits, a: Attempt, p: Turn)
    requires TriedAt(text, h, a, p) && p.rule != 7
    ensures a.slot != Some("region")
  {
    assert "region"[0] == 'r' && "region"[2] == 'g' && "reference"[2] == 'f';
    assert "aggregator"[0] == 'a' && "sec_code"[0] == 's' && "company_id"[0] == 'c' && "contact"[0] == 'c';
    assert "posting_date"[0] == 'p' && "store_number"[0] == 's' && "city"[0] == 'c';
  }

  lemma OnlyOneRegion(text: string, h: Hits, s: Span)
    ensures Attempt(s, Some("region")) !in Opening(text, h) && Attempt(s, Some("region")) !in References(h)
  {
    var turns := OpeningCovers(text, h);
    forall i | 0 <= i < |Opening(text, h)| ensures Opening(text, h)[i].slot != Some("region") {
      OtherName(text, h, Opening(text, h)[i], turns[i]);
    }
    assert "region"[2] == 'g' && "reference"[2] == 'f';
    assert forall i :: 0 <= i < |References(h)| ==> References(h)[i].slot == Some("reference");
  }

  function Following(text: string, h: Hits): seq<Attempt> {
    (if |Place(text, h)| > 1 then Place(text, h)[1..] else []) + References(h)
  }

  lemma NoSecondRegion(text: string, h: Hits, s: Span)
    ensures Attempt(s, Some("region")) !in Following(text, h)
  {
    OnlyOneRegion(text, h, s);
    assert "city"[0] == 'c' && "region"[0] == 'r';
    assert |Place(text, h)| > 1 ==> Place(text, h)[1..] == [CityAt(h.city.value)];
  }

  /** The region is granted exactly when nothing granted before it overlaps it. */
  lemma RegionGranted(text: string, h: Hits)
    requires h.region.Some?
    ensures Attempt(h.region.value, Some("region")) in Granted(Attempts(text, h))
            <==> Free(Granted(Opening(text, h)), h.region.value)
  {
    var region, opening := RegionAt(h.region.value), Opening(text, h);
    assert Attempts(text, h) == opening + [region] + Following(text, h);
    OnlyOneRegion(text, h, h.region.value);
    NoSecondRegion(text, h, h.region.value);
    GrantedAlone(opening, region, Following(text, h));
  }

  /** An attempt made once is granted exactly when it is free in its turn. */
  lemma GrantedAlone(before: seq<Attempt>, a: Attempt, after: seq<Attempt>)
    requires a !in before && a !in after
    ensures a in Granted(before + [a] + after) <==> Free(Granted(before), a.span)
  {
    GrantOne(before, a);
    GrantedConcat(before + [a], after);
    GrantedAreTried(before, a);
    if Free(Granted(before), a.span) {
      assert Granted(before + [a])[|Granted(before)|] == a;
    } else {
      assert Granted(before + [a]) == Granted(before);
    }
  }

  lemma RegionCovers(text: string, h: Hits)
    ensures var attempts := if h.region.Some? then [RegionAt(h.region.value)] else [];
            Covers(text, h, attempts, Numbered(7, |attempts|), 7, 8)
  {
    assert h.region.Some? ==> Numbered(7, 1)[0] == Turn(7, 0);
  }

  lemma CityCovers(text: string, h: Hits)
    ensures var attempts := if |Place(text, h)| > 1 then [CityAt(h.city.value)] else [];
            Covers(text, h, attempts, Numbered(8, |attempts|), 8, 9)
  {
    var attempts := if |Place(text, h)| > 1 then [CityAt(h.city.value)] else [];
    forall a: Attempt, p: Turn | p.rule == 8
      ensures TriedAt(text, h, a, p) <==> p in Numbered(8, |attempts|) && a == attempts[0] {
      CityTurn(text, h, a, p);
      assert |attempts| > 0 ==> Numbered(8, 1) == [Turn(8, 0)];
    }
  }

  lemma CityTurn(text: string, h: Hits, a: Attempt, p: Turn)
    requires p.rule == 8
    ensures TriedAt(text, h, a, p) <==> p == Turn(8, 0) && |Place(text, h)| > 1 && a == CityAt(h.city.value)
  {
    if h.region.Some? {
      RegionGranted(text, h);
    }
  }

  lemma PlaceCovers(text: string, h: Hits) returns (turns: seq<Turn>)
    ensures Covers(text, h, Place(text, h), turns, 7, 9)
  {
    var region := if h.region.Some? then [RegionAt(h.region.value)] else [];
    var city := if |Place(text, h)| > 1 then [CityAt(h.city.value)] else [];
    RegionCovers(text, h);
    CityCovers(text, h);
    CoversConcat(text, h, region, Numbered(7, |region|), city, Numbered(8, |city|), 7, 8, 9);
    assert Place(text, h) == region + city;
    turns := Numbered(7, |region|) + Numbered(8, |city|);
  }

  /** Every rule is tried in this order, with all its matches, and nothing else is. */
  lemma AttemptsCoverTheRules(text: string, h: Hits) returns (turns: seq<Turn>)
    ensures Covers(text, h, Attempts(text, h), turns, 0, 11)
  {
    var opening := OpeningCovers(text, h);
    var place := PlaceCovers(text, h);
    NamedCovers(text, h, h.references, "reference", 9);
    NamedCovers(text, h, h.numbers, "reference", 10);
    CoversConcat(text, h, Opening(text, h), opening, Place(text, h), place, 0, 7, 9);
    CoversConcat(text, h, Named(h.references, "reference"), Numbered(9, |h.references|),
                 Named(h.numbers, "reference"), Numbered(10, |h.numbers|), 9, 10, 11);
    CoversConcat(text, h, Opening(text, h) + Place(text, h), opening + place, References(h),
                 Numbered(9, |h.references|) + Numbered(10, |h.numbers|), 0, 9, 11);
    turns := opening + place + (Numbered(9, |h.references|) + Numbered(10, |h.numbers|));
  }
}
