/**
  Span claiming on a descriptor line.  Rules are tried in a fixed order; a matched span is
  claimed unless it overlaps one claimed before.  What each pattern matches is given.
*/
module Descriptor {
  import opened Common

  datatype Span = Span(start: nat, end: nat)

  /** A span a rule matched, and the slot it fills; the literal between two ACH fields fills none. */
  datatype Attempt = Attempt(span: Span, slot: Option<string>)

  datatype Hits = Hits(ach: Option<(Span, Span)>, contacts: seq<Span>, dates: seq<Span>, stores: seq<Span>,
                       region: Option<Span>, city: Option<Span>, references: seq<Span>, numbers: seq<Span>)

  predicate Fits(s: Span, n: nat) { s.start < s.end <= n }

  predicate AllFit(spans: seq<Span>, n: nat) { forall i :: 0 <= i < |spans| ==> Fits(spans[i], n) }

  predicate WellFormed(h: Hits, n: nat) {
    && (h.ach.Some? ==> Fits(h.ach.value.0, n) && Fits(h.ach.value.1, n) && h.ach.value.0.end < h.ach.value.1.start)
    && AllFit(h.contacts, n) && AllFit(h.dates, n) && AllFit(h.stores, n) && AllFit(h.references, n) &&
        AllFit(h.numbers, n)
    && (h.region.Some? ==> Fits(h.region.value, n)) && (h.city.Some? ==> Fits(h.city.value, n))
  }

  predicate Apart(a: Span, b: Span) { a.end <= b.start || b.end <= a.start }

  predicate Free(claimed: seq<Attempt>, s: Span) {
    forall i :: 0 <= i < |claimed| ==> Apart(claimed[i].span, s)
  }

  /** The attempts that are granted, in order. */
  function Granted(attempts: seq<Attempt>): seq<Attempt> {
    if attempts == [] then [] else
      var a := attempts[|attempts| - 1];
      var before := Granted(attempts[..|attempts| - 1]);
      before + if Free(before, a.span) then [a] else []
  }

  function Named(spans: seq<Span>, slot: string): seq<Attempt> {
    seq(|spans|, i requires 0 <= i < |spans| => Attempt(spans[i], Some(slot)))
  }

  /** The asterisk convention: the first of the four positions that holds one claims the text up to it. */
  function AsteriskAt(text: string, i: nat): seq<Attempt> {
    if i < |text| && text[i] == '*' then [Attempt(Span(0, i + 1), Some("aggregator"))] else []
  }

  function Asterisk(text: string): seq<Attempt> {
    if AsteriskAt(text, 2) != [] then AsteriskAt(text, 2)
    else if AsteriskAt(text, 3) != [] then AsteriskAt(text, 3)
    else if AsteriskAt(text, 7) != [] then AsteriskAt(text, 7)
    else AsteriskAt(text, 12)
  }

  function AchTail(h: Hits): seq<Attempt> {
    match h.ach
    case None => []
    case Some((sec, company)) =>
      [Attempt(sec, Some("sec_code")), Attempt(company, Some("company_id")),
       Attempt(Span(sec.end, company.start), None)]
  }

  /** The attempts before the region. */
  function Opening(text: string, h: Hits): seq<Attempt> {
    Asterisk(text) + AchTail(h) + Named(h.contacts, "contact") + Named(h.dates, "posting_date")
        + Named(h.stores, "store_number")
  }

  /** The region, and the city only when the region next to it is granted. */
  function Place(text: string, h: Hits): seq<Attempt> {
    match h.region
    case None => []
    case Some(region) =>
      if h.city.Some? && Free(Granted(Opening(text, h)), region) then [RegionAt(region), CityAt(h.city.value)]
      else [RegionAt(region)]
  }

  function RegionAt(s: Span): Attempt { Attempt(s, Some("region")) }

  function CityAt(s: Span): Attempt { Attempt(s, Some("city")) }

  function References(h: Hits): seq<Attempt> { Named(h.references, "reference") + Named(h.numbers, "reference") }

  function Attempts(text: string, h: Hits): seq<Attempt> { Opening(text, h) + Place(text, h) + References(h) }

  // ---------------------------------------------------------------- what greedy claiming gives

  ghost predicate InBounds(attempts: seq<Attempt>, n: nat) {
    forall i :: 0 <= i < |attempts| ==> Fits(attempts[i].span, n)
  }

  ghost predicate Disjoint(claimed: seq<Attempt>) {
    forall i, j :: 0 <= i < j < |claimed| ==> Apart(claimed[i].span, claimed[j].span)
  }

  predicate Contains(s: Span, i: nat) { s.start <= i < s.end }

  /** Granted spans are in bounds and pairwise disjoint. */
  lemma {:induction false} GrantedDisjoint(attempts: seq<Attempt>, n: nat)
    requires InBounds(attempts, n)
    ensures InBounds(Granted(attempts), n) && Disjoint(Granted(attempts))
  {
    if attempts != [] {
      GrantedDisjoint(attempts[..|attempts| - 1], n);
    }
  }

  /** An attempt is granted unless it overlaps something granted before it: nothing is refused needlessly. */
  lemma {:induction false} RefusedOnlyByOverlap(attempts: seq<Attempt>, i: nat)
    requires i < |attempts|
    ensures attempts[i] in Granted(attempts) || !Free(Granted(attempts[..i]), attempts[i].span)
  {
    if i == |attempts| - 1 {
    } else {
      var front := attempts[..|attempts| - 1];
      RefusedOnlyByOverlap(front, i);
      assert front[..i] == attempts[..i];
    }
  }

  lemma AttemptsInBounds(text: string, h: Hits)
    requires WellFormed(h, |text|)
    ensures InBounds(Attempts(text, h), |text|)
  {
    NamedFit(h.contacts, "contact", |text|);
    NamedFit(h.dates, "posting_date", |text|);
    NamedFit(h.stores, "store_number", |text|);
    NamedFit(h.references, "reference", |text|);
    NamedFit(h.numbers, "reference", |text|);
    assert InBounds(Asterisk(text), |text|) && InBounds(AchTail(h), |text|) && InBounds(Place(text, h), |text|);
  }

  lemma NamedFit(spans: seq<Span>, slot: string, n: nat)
    requires AllFit(spans, n)
    ensures InBounds(Named(spans, slot), n)
  {
  }

  // ---------------------------------------------------------------- the parser

  datatype Slot = Slot(name: string, span: Span)

  function SlotsOf(claimed: seq<Attempt>): seq<Slot> {
    if claimed == [] then [] else
      var a := claimed[|claimed| - 1];
      SlotsOf(claimed[..|claimed| - 1]) + if a.slot.Some? then [Slot(a.slot.value, a.span)] else []
  }

  /** Some claimed span holds character `i`. */
  predicate Held(claimed: seq<Attempt>, i: nat) { exists k :: 0 <= k < |claimed| && Contains(claimed[k].span, i) }

  /** The flags say exactly which characters lie in a claimed span. */
  ghost predicate Marks(flags: seq<bool>, claimed: seq<Attempt>) {
    forall i :: 0 <= i < |flags| ==> flags[i] == Held(claimed, i)
  }

  lemma FreeMeansUnmarked(flags: seq<bool>, claimed: seq<Attempt>, s: Span)
    requires Marks(flags, claimed) && Fits(s, |flags|) && InBounds(claimed, |flags|)
    ensures Free(claimed, s) <==> forall i :: s.start <= i < s.end ==> !flags[i]
  {
    if Free(claimed, s) {
      forall i | s.start <= i < s.end ensures !flags[i] {
        forall k | 0 <= k < |claimed| ensures !Contains(claimed[k].span, i) {
          assert Apart(claimed[k].span, s);
        }
        assert !Held(claimed, i);
      }
    } else {
      var k :| 0 <= k < |claimed| && !Apart(claimed[k].span, s);
      assert Fits(claimed[k].span, |flags|);
      var i := if claimed[k].span.start <= s.start then s.start else claimed[k].span.start;
      assert Contains(claimed[k].span, i) && Contains(s, i);
      assert Held(claimed, i) && flags[i];
    }
  }

  /** Mark a span as claimed, returning whether it was. */
  method Claim(taken: array<bool>, s: Span) returns (ok: bool)
    requires Fits(s, taken.Length)
    modifies taken
    ensures ok <==> forall i :: s.start <= i < s.end ==> !old(taken[i])
    ensures forall i :: 0 <= i < taken.Length ==> taken[i] == (old(taken[i]) || (ok && Contains(s, i)))
  {
    for i := s.start to s.end
      invariant forall j :: s.start <= j < i ==> !taken[j]
      invariant forall j :: 0 <= j < taken.Length ==> taken[j] == old(taken[j])
    {
      if taken[i] {
        return false;
      }
    }
    for i := s.start to s.end
      invariant forall j :: 0 <= j < taken.Length ==> taken[j] == (old(taken[j]) || s.start <= j < i)
    {
      taken[i] := true;
    }
    ok := true;
  }

  lemma MarksGrow(before: seq<bool>, after: seq<bool>, claimed: seq<Attempt>, a: Attempt)
    requires Marks(before, claimed) && |after| == |before|
    requires forall i :: 0 <= i < |after| ==> after[i] == (before[i] || Contains(a.span, i))
    ensures Marks(after, claimed + [a])
  {
    forall i | 0 <= i < |after| ensures after[i] == Held(claimed + [a], i) {
      HeldGrows(claimed, a, i);
    }
  }

  lemma HeldGrows(claimed: seq<Attempt>, a: Attempt, i: nat)
    ensures Held(claimed + [a], i) <==> Held(claimed, i) || Contains(a.span, i)
  {
    var more := claimed + [a];
    assert more[|claimed|] == a;
    if Held(claimed, i) {
      var k :| 0 <= k < |claimed| && Contains(claimed[k].span, i);
      assert more[k] == claimed[k];
    }
  }

  /** The array and the slots after the granted ones among `tried`. */
  ghost predicate After(flags: seq<bool>, slots: seq<Slot>, tried: seq<Attempt>) {
    InBounds(tried, |flags|) && Marks(flags, Granted(tried)) && slots == SlotsOf(Granted(tried))
  }

  lemma GrantOne(tried: seq<Attempt>, a: Attempt)
    ensures Granted(tried + [a]) == Granted(tried) + if Free(Granted(tried), a.span) then [a] else []
    ensures SlotsOf(Granted(tried) + [a]) == SlotsOf(Granted(tried))
              + if a.slot.Some? then [Slot(a.slot.value, a.span)] else []
  {
    assert (tried + [a])[..|tried|] == tried;
    assert (Granted(tried) + [a])[..|Granted(tried)|] == Granted(tried);
  }

  /** Claim one matched span if it is free, and append its slot. */
  method TryOne(taken: array<bool>, a: Attempt, start: seq<Slot>, ghost tried: seq<Attempt>)
    returns (ok: bool, slots: seq<Slot>)
    requires Fits(a.span, taken.Length) && After(taken[..], start, tried)
    modifies taken
    ensures After(taken[..], slots, tried + [a]) && (ok <==> Free(Granted(tried), a.span))
  {
    slots := start;
    ghost var flags := taken[..];
    FreeAfter(flags, start, tried, a.span);
    ok := Claim(taken, a.span);
    assert forall i :: 0 <= i < taken.Length ==> flags[i] == old(taken[i]);
    if ok && a.slot.Some? {
      slots := slots + [Slot(a.slot.value, a.span)];
    }
    AfterOne(flags, taken[..], start, tried, a, ok);
  }

  lemma FreeAfter(flags: seq<bool>, slots: seq<Slot>, tried: seq<Attempt>, s: Span)
    requires After(flags, slots, tried) && Fits(s, |flags|)
    ensures Free(Granted(tried), s) <==> forall i :: s.start <= i < s.end ==> !flags[i]
  {
    GrantedDisjoint(tried, |flags|);
    FreeMeansUnmarked(flags, Granted(tried), s);
  }

  /** One attempt later: marked and listed if it was free, unchanged otherwise. */
  lemma AfterOne(before: seq<bool>, after: seq<bool>, slots: seq<Slot>, tried: seq<Attempt>, a: Attempt, ok: bool)
    requires After(before, slots, tried) && Fits(a.span, |before|) && |after| == |before|
    requires ok == Free(Granted(tried), a.span)
    requires forall i :: 0 <= i < |after| ==> after[i] == (before[i] || (ok && Contains(a.span, i)))
    ensures After(after, if ok && a.slot.Some? then slots + [Slot(a.slot.value, a.span)] else slots, tried + [a])
  {
    GrantOne(tried, a);
    InBoundsOne(tried, a, |before|);
    if ok {
      MarksGrow(before, after, Granted(tried), a);
    } else {
      UnchangedFlags(before, after);
      assert Granted(tried) + [] == Granted(tried);
    }
  }

  lemma InBoundsOne(tried: seq<Attempt>, a: Attempt, n: nat)
    requires InBounds(tried, n) && Fits(a.span, n)
    ensures InBounds(tried + [a], n)
  {
  }

  lemma UnchangedFlags(a: seq<bool>, b: seq<bool>)
    requires |a| == |b| && forall i :: 0 <= i < |a| ==> b[i] == a[i]
    ensures a == b
  {
  }

  method TryAll(taken: array<bool>, attempts: seq<Attempt>, start: seq<Slot>,
                ghost tried: seq<Attempt>)
    returns (slots: seq<Slot>)
    requires InBounds(attempts, taken.Length) && After(taken[..], start, tried)
    modifies taken
    ensures After(taken[..], slots, tried + attempts)
  {
    slots := start;
    assert tried + attempts[..0] == tried;
    for n := 0 to |attempts|
      invariant After(taken[..], slots, tried + attempts[..n])
    {
      var ok;
      ok, slots := TryOne(taken, attempts[n], slots, tried + attempts[..n]);
      assert tried + attempts[..n] + [attempts[n]] == tried + attempts[..n + 1];
    }
    assert attempts[..|attempts|] == attempts;
  }

  function Insert(s: Slot, slots: seq<Slot>): seq<Slot> {
    if slots == [] then [s]
    else if slots[|slots| - 1].span.start <= s.span.start then slots + [s]
    else Insert(s, slots[..|slots| - 1]) + [slots[|slots| - 1]]
  }

  /** Slots by position. */
  function Sorted(slots: seq<Slot>): seq<Slot> {
    if slots == [] then [] else Insert(slots[|slots| - 1], Sorted(slots[..|slots| - 1]))
  }

  predicate Ordered(slots: seq<Slot>) {
    forall i, j :: 0 <= i < j < |slots| ==> slots[i].span.end <= slots[j].span.start
  }

  /** An unclaimed stretch of the first `n` characters that cannot be extended. */
  ghost predicate IsRun(flags: seq<bool>, r: Span, n: nat)
    requires n <= |flags|
  {
    && Fits(r, n) && (forall i :: r.start <= i < r.end ==> !flags[i])
    && (r.start == 0 || flags[r.start - 1]) && (r.end == n || flags[r.end])
  }

  /** The maximal unclaimed runs, left to right. */
  ghost predicate AreRuns(flags: seq<bool>, runs: seq<Span>, n: nat)
    requires n <= |flags|
  {
    && (forall k :: 0 <= k < |runs| ==> IsRun(flags, runs[k], n))
    && (forall j, k :: 0 <= j < k < |runs| ==> runs[j].end < runs[k].start)
    && (forall i :: 0 <= i < n && !flags[i] ==> InRun(runs, i))
  }

  predicate InRun(runs: seq<Span>, i: nat) { exists k :: 0 <= k < |runs| && Contains(runs[k], i) }

  /** The next claimed character, or the end. */
  function NextTaken(flags: seq<bool>, i: nat): (n: nat)
    requires i <= |flags|
    ensures i <= n <= |flags| && (forall j :: i <= j < n ==> !flags[j]) && (n < |flags| ==> flags[n])
    decreases |flags| - i
  {
    if i == |flags| || flags[i] then i else NextTaken(flags, i + 1)
  }

  function Stretch(i: nat, n: nat): seq<Span> { if i < n then [Span(i, n)] else [] }

  /** The runs from `i` on, when `i` begins a run or follows a claimed character. */
  function RunsFrom(flags: seq<bool>, i: nat): seq<Span>
    requires i <= |flags|
    decreases |flags| - i
  {
    var n := NextTaken(flags, i);
    if n == |flags| then Stretch(i, n)
    else Stretch(i, n) + RunsFrom(flags, n + 1)
  }

  method Runs(taken: array<bool>) returns (runs: seq<Span>)
    ensures runs == RunsFrom(taken[..], 0)
  {
    runs := [];
    var start := 0;
    ghost var flags := taken[..];
    for n := 0 to taken.Length
      invariant start <= n && (forall j :: start <= j < n ==> !flags[j])
      invariant runs + RunsFrom(flags, start) == RunsFrom(flags, 0)
    {
      if taken[n] {
        RunsFromAt(flags, start, n, runs);
        if start < n {
          runs := runs + [Span(start, n)];
        }
        start := n + 1;
      }
    }
    NextTakenIs(flags, start, taken.Length);
    runs := runs + Stretch(start, taken.Length);
  }

  lemma RunsFromAt(flags: seq<bool>, i: nat, n: nat, before: seq<Span>)
    requires i <= n < |flags| && (forall j :: i <= j < n ==> !flags[j]) && flags[n]
    ensures before + RunsFrom(flags, i) == (if i < n then before + [Span(i, n)] else before) + RunsFrom(flags, n + 1)
  {
    NextTakenIs(flags, i, n);
    assert before + (Stretch(i, n) + RunsFrom(flags, n + 1)) == before + Stretch(i, n) + RunsFrom(flags, n + 1);
  }

  lemma {:induction false} NextTakenIs(flags: seq<bool>, i: nat, n: nat)
    requires i <= n <= |flags| && (forall j :: i <= j < n ==> !flags[j]) && (n < |flags| ==> flags[n])
    ensures NextTaken(flags, i) == n
    decreases n - i
  {
    if i < n {
      NextTakenIs(flags, i + 1, n);
    }
  }

  /** Maximal runs at or after `i`, left to right. */
  ghost predicate RunsAfter(flags: seq<bool>, runs: seq<Span>, i: nat) {
    && (forall k :: 0 <= k < |runs| ==> IsRun(flags, runs[k], |flags|) && i <= runs[k].start)
    && (forall j, k :: 0 <= j < k < |runs| ==> runs[j].end < runs[k].start)
  }

  lemma RunsPrepend(flags: seq<bool>, i: nat, n: nat, later: seq<Span>)
    requires i <= n < |flags| && (i == 0 || flags[i - 1]) && (forall j :: i <= j < n ==> !flags[j]) && flags[n]
    requires RunsAfter(flags, later, n + 1)
    ensures RunsAfter(flags, Stretch(i, n) + later, i)
  {
    var runs := Stretch(i, n) + later;
    var shift := |Stretch(i, n)|;
    assert i < n ==> IsRun(flags, Span(i, n), |flags|);
    forall k | 0 <= k < |runs| ensures IsRun(flags, runs[k], |flags|) && i <= runs[k].start {
      if k >= shift {
        assert runs[k] == later[k - shift];
      }
    }
  }

  lemma {:induction false} RunsAreMaximal(flags: seq<bool>, i: nat)
    requires i <= |flags| && (i == 0 || flags[i - 1])
    ensures RunsAfter(flags, RunsFrom(flags, i), i)
    decreases |flags| - i
  {
    var n := NextTaken(flags, i);
    if n < |flags| {
      RunsAreMaximal(flags, n + 1);
      RunsPrepend(flags, i, n, RunsFrom(flags, n + 1));
    }
  }

  lemma InRunConcat(a: seq<Span>, b: seq<Span>, x: nat)
    ensures InRun(a + b, x) <==> InRun(a, x) || InRun(b, x)
  {
    if k :| 0 <= k < |a| && Contains(a[k], x) {
      assert (a + b)[k] == a[k];
    }
    if k :| 0 <= k < |b| && Contains(b[k], x) {
      assert (a + b)[|a| + k] == b[k];
    }
  }

  lemma {:induction false} RunsCover(flags: seq<bool>, i: nat, x: nat)
    requires i <= x < |flags| && !flags[x]
    ensures InRun(RunsFrom(flags, i), x)
    decreases |flags| - i
  {
    var n := NextTaken(flags, i);
    if x < n {
      assert Contains(Stretch(i, n)[0], x);
    } else {
      RunsCover(flags, n + 1, x);
    }
    if n < |flags| {
      InRunConcat(Stretch(i, n), RunsFrom(flags, n + 1), x);
    }
  }

  /** The runs cover every unclaimed character once, and none can be extended. */
  lemma RunsFromAreRuns(flags: seq<bool>)
    ensures AreRuns(flags, RunsFrom(flags, 0), |flags|)
  {
    RunsAreMaximal(flags, 0);
    forall x | 0 <= x < |flags| && !flags[x] ensures InRun(RunsFrom(flags, 0), x) {
      RunsCover(flags, 0, x);
    }
  }

  datatype Parse = Parse(slots: seq<Slot>, runs: seq<Span>, coverage: real, ach: bool, cardNotPresent: bool)

  /** The region, then the city if the region was granted. */
  method ClaimPlace(taken: array<bool>, text: string, h: Hits, start: seq<Slot>) returns (slots: seq<Slot>)
    requires WellFormed(h, taken.Length) && After(taken[..], start, Opening(text, h))
    modifies taken
    ensures After(taken[..], slots, Opening(text, h) + Place(text, h))
  {
    ghost var tried := Opening(text, h);
    PlaceIs(tried, text, h);
    slots := start;
    if h.region.None? {
      return;
    }
    var ok;
    ok, slots := TryOne(taken, RegionAt(h.region.value), slots, tried);
    if ok && h.city.Some? {
      ok, slots := TryOne(taken, CityAt(h.city.value), slots, tried + [RegionAt(h.region.value)]);
    }
  }

  lemma PlaceIs(tried: seq<Attempt>, text: string, h: Hits)
    requires tried == Opening(text, h)
    ensures h.region.None? ==> tried + Place(text, h) == tried
    ensures h.region.Some? ==>
              tried + Place(text, h) ==
              if h.city.Some? && Free(Granted(tried), h.region.value)
              then tried + [RegionAt(h.region.value)] + [CityAt(h.city.value)] else tried + [RegionAt(h.region.value)]
  {
  }

  /** Every rule in its fixed order. */
  method ClaimAll(taken: array<bool>, text: string, h: Hits) returns (slots: seq<Slot>)
    requires WellFormed(h, |text|) && taken.Length == |text| && forall i :: 0 <= i < taken.Length ==> !taken[i]
    modifies taken
    ensures After(taken[..], slots, Attempts(text, h))
  {
    AttemptsInBounds(text, h);
    ghost var tried := Opening(text, h);
    InBoundsParts(tried, Place(text, h), References(h), |text|);
    slots := TryAll(taken, Opening(text, h), [], []);
    assert [] + tried == tried;
    slots := ClaimPlace(taken, text, h, slots);
    slots := TryAll(taken, References(h), slots, tried + Place(text, h));
  }

  lemma InBoundsParts(a: seq<Attempt>, b: seq<Attempt>, c: seq<Attempt>, n: nat)
    requires InBounds(a + b + c, n)
    ensures InBounds(a, n) && InBounds(c, n)
  {
    var all := a + b + c;
    forall i | 0 <= i < |a| ensures Fits(a[i].span, n) {
      assert all[i] == a[i];
    }
    forall i | 0 <= i < |c| ensures Fits(c[i].span, n) {
      assert all[|a + b| + i] == c[i];
    }
  }

  /** The characters among the first `n` that are not white space. */
  function Solid(text: string, space: char -> bool, n: nat): set<nat>
    requires n <= |text|
  {
    set i: nat | i < n && !space(text[i])
  }

  /** Those of them in a claimed span. */
  function HeldSolid(text: string, claimed: seq<Attempt>, space: char -> bool, n: nat): set<nat>
    requires n <= |text|
  {
    set i: nat | i < n && !space(text[i]) && Held(claimed, i)
  }

  lemma OneMoreSolid(text: string, space: char -> bool, i: nat)
    requires i < |text|
    ensures |Solid(text, space, i + 1)| == |Solid(text, space, i)| + if space(text[i]) then 0 else 1
  {
    if space(text[i]) {
      assert Solid(text, space, i + 1) == Solid(text, space, i);
    } else {
      assert Solid(text, space, i + 1) == Solid(text, space, i) + {i};
    }
  }

  lemma OneMoreHeld(text: string, claimed: seq<Attempt>, space: char -> bool, i: nat)
    requires i < |text|
    ensures |HeldSolid(text, claimed, space, i + 1)|
            == |HeldSolid(text, claimed, space, i)| + if space(text[i]) || !Held(claimed, i) then 0 else 1
  {
    if space(text[i]) || !Held(claimed, i) {
      assert HeldSolid(text, claimed, space, i + 1) == HeldSolid(text, claimed, space, i);
    } else {
      assert HeldSolid(text, claimed, space, i + 1) == HeldSolid(text, claimed, space, i) + {i};
    }
  }

  lemma HeldIsPart(text: string, claimed: seq<Attempt>, space: char -> bool)
    ensures |HeldSolid(text, claimed, space, |text|)| <= |Solid(text, space, |text|)|
  {
    var (a, b) := (HeldSolid(text, claimed, space, |text|), Solid(text, space, |text|));
    assert b == a + (b - a);
  }

  lemma SolidIs(text: string, claimed: seq<Attempt>, space: char -> bool, flags: seq<bool>)
    requires |flags| == |text| && Marks(flags, claimed)
    ensures Solid(text, space, |text|) == set i: nat | i < |text| && !space(text[i])
    ensures HeldSolid(text, claimed, space, |text|) == set i: nat | i < |text| && !space(text[i]) && flags[i]
  {
  }

  lemma Shares(a: nat, b: nat)
    ensures b > 0 ==> a as real / b as real * b as real == a as real
  {
  }

  lemma ShareOfWhole(a: nat, b: nat)
    requires a <= b
    ensures b > 0 ==> 0.0 <= a as real / b as real <= 1.0
  {
    if b > 0 {
      assert a as real / b as real <= b as real / b as real;
    }
  }

  /** The flagged characters as a share of those that are not white space. */
  ghost predicate ShareOf(coverage: real, text: string, flags: seq<bool>, space: char -> bool)
    requires |flags| == |text|
  {
    var solid := set i: nat | i < |text| && !space(text[i]);
    if solid == {} then coverage == 0.0
    else coverage * |solid| as real == |set i: nat | i < |text| && !space(text[i]) && flags[i]| as real
  }

  /** Count the characters that are not white space, and those of them that are claimed. */
  method Measure(taken: array<bool>, text: string, space: char -> bool, ghost granted: seq<Attempt>)
    returns (coverage: real)
    requires taken.Length == |text| && Marks(taken[..], granted)
    ensures ShareOf(coverage, text, taken[..], space) && 0.0 <= coverage <= 1.0
  {
    var body, claimed := 0, 0;
    ghost var flags := taken[..];
    for i := 0 to |text|
      invariant body == |Solid(text, space, i)| && claimed == |HeldSolid(text, granted, space, i)|
    {
      OneMoreSolid(text, space, i);
      OneMoreHeld(text, granted, space, i);
      assert taken[i] == flags[i] == Held(granted, i);
      if !space(text[i]) {
        body := body + 1;
        if taken[i] {
          claimed := claimed + 1;
        }
      }
    }
    coverage := if body == 0 then 0.0 else claimed as real / body as real;
    HeldIsPart(text, granted, space);
    ShareOfWhole(claimed, body);
    SolidIs(text, granted, space, flags);
    Shares(claimed, body);
  }

  /** Claim every span a rule can prove, and report the rest. */
  method ParseDescriptor(text: string, h: Hits, space: char -> bool) returns (p: Parse, ghost flags: seq<bool>)
    requires WellFormed(h, |text|)
    ensures |flags| == |text| && Marks(flags, Granted(Attempts(text, h)))
    ensures p.slots == Sorted(SlotsOf(Granted(Attempts(text, h))))
    ensures AreRuns(flags, p.runs, |text|)
    ensures ShareOf(p.coverage, text, flags, space) && 0.0 <= p.coverage <= 1.0
    ensures p.ach <==> h.ach.Some? && Slot("sec_code", h.ach.value.0) in p.slots
    ensures p.cardNotPresent <==> exists k :: 0 <= k < |p.slots| && p.slots[k].name == "contact"
  {
    var taken := new bool[|text|](_ => false);
    var slots := ClaimAll(taken, text, h);
    flags := taken[..];
    var runs := Runs(taken);
    RunsFromAreRuns(flags);
    var coverage := Measure(taken, text, space, Granted(Attempts(text, h)));
    var sorted := Sorted(slots);
    p := Parse(sorted, runs, coverage, h.ach.Some? && Slot("sec_code", h.ach.value.0) in sorted,
               exists k :: 0 <= k < |sorted| && sorted[k].name == "contact");
  }

  // ---------------------------------------------------------------- slots in order

  ghost predicate Separate(slots: seq<Slot>) {
    forall i, j :: 0 <= i < j < |slots| ==> Apart(slots[i].span, slots[j].span)
  }

  predicate NonEmpty(slots: seq<Slot>) { forall i :: 0 <= i < |slots| ==> slots[i].span.start < slots[i].span.end }

  lemma {:induction false} InsertKeepsOrder(s: Slot, slots: seq<Slot>)
    requires Ordered(slots) && NonEmpty(slots) && s.span.start < s.span.end
    requires forall i :: 0 <= i < |slots| ==> Apart(slots[i].span, s.span)
    ensures Ordered(Insert(s, slots)) && NonEmpty(Insert(s, slots))
    ensures forall x :: x in Insert(s, slots) <==> x == s || x in slots
  {
    if slots != [] && slots[|slots| - 1].span.start > s.span.start {
      var front := slots[..|slots| - 1];
      InsertKeepsOrder(s, front);
      assert slots == front + [slots[|slots| - 1]];
      OrderedAppend(Insert(s, front), slots[|slots| - 1]);
    }
  }

  lemma OrderedAppend(r: seq<Slot>, last: Slot)
    requires Ordered(r) && NonEmpty(r) && last.span.start < last.span.end
    requires forall x :: x in r ==> x.span.end <= last.span.start
    ensures Ordered(r + [last]) && NonEmpty(r + [last])
  {
    forall i | 0 <= i < |r| ensures r[i].span.end <= last.span.start {
      assert r[i] in r;
    }
  }

  lemma {:induction false} SortedIsOrdered(slots: seq<Slot>)
    requires Separate(slots) && NonEmpty(slots)
    ensures Ordered(Sorted(slots)) && NonEmpty(Sorted(slots))
    ensures forall x :: x in Sorted(slots) <==> x in slots
  {
    if slots != [] {
      var n := |slots| - 1;
      SortedIsOrdered(slots[..n]);
      var front := Sorted(slots[..n]);
      forall i | 0 <= i < |front| ensures Apart(front[i].span, slots[n].span) {
        assert front[i] in slots[..n];
      }
      InsertKeepsOrder(slots[n], front);
      assert slots == slots[..n] + [slots[n]];
    }
  }

  lemma {:induction false} SlotsAreSeparate(claimed: seq<Attempt>, n: nat)
    requires Disjoint(claimed) && InBounds(claimed, n)
    ensures Separate(SlotsOf(claimed)) && NonEmpty(SlotsOf(claimed))
    ensures forall s :: s in SlotsOf(claimed) <==> Attempt(s.span, Some(s.name)) in claimed
  {
    if claimed != [] {
      var k := |claimed| - 1;
      SlotsAreSeparate(claimed[..k], n);
      var front := SlotsOf(claimed[..k]);
      assert claimed == claimed[..k] + [claimed[k]];
      forall i | 0 <= i < |front| ensures Apart(front[i].span, claimed[k].span) {
        assert front[i] in front;
        var j :| 0 <= j < k && claimed[j] == Attempt(front[i].span, Some(front[i].name));
      }
    }
  }

  /** Whatever the rules match, the slots come back in order of position, without overlap, each one granted. */
  lemma SlotsComeBackInOrder(text: string, h: Hits)
    requires WellFormed(h, |text|)
    ensures var slots := Sorted(SlotsOf(Granted(Attempts(text, h))));
            Ordered(slots) && forall s :: s in slots <==> Attempt(s.span, Some(s.name)) in Granted(Attempts(text, h))
  {
    AttemptsInBounds(text, h);
    GrantedDisjoint(Attempts(text, h), |text|);
    SlotsAreSeparate(Granted(Attempts(text, h)), |text|);
    SortedIsOrdered(SlotsOf(Granted(Attempts(text, h))));
  }

  /** Every character is in exactly one granted span, or in none and then in exactly one unclaimed run. */
  lemma EveryCharacterOnce(text: string, h: Hits, flags: seq<bool>, runs: seq<Span>, i: nat)
    requires WellFormed(h, |text|) && |flags| == |text| && i < |text|
    requires Marks(flags, Granted(Attempts(text, h))) && AreRuns(flags, runs, |text|)
    ensures var g := Granted(Attempts(text, h));
            && (Held(g, i) <==> !InRun(runs, i))
            && (forall j, k :: 0 <= j < k < |g| ==> !(Contains(g[j].span, i) && Contains(g[k].span, i)))
            && (forall j, k :: 0 <= j < k < |runs| ==> !(Contains(runs[j], i) && Contains(runs[k], i)))
  {
    AttemptsInBounds(text, h);
    GrantedDisjoint(Attempts(text, h), |text|);
    var g := Granted(Attempts(text, h));
    forall j, k | 0 <= j < k < |g| ensures !(Contains(g[j].span, i) && Contains(g[k].span, i)) {
      assert Apart(g[j].span, g[k].span);
    }
    forall k | 0 <= k < |runs| && Contains(runs[k], i) ensures !flags[i] {
      assert IsRun(flags, runs[k], |text|);
    }
    assert flags[i] == Held(g, i);
  }
}
